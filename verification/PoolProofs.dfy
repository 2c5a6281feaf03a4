/** Every interleaving of the registry's critical sections refines the reference model. */
module PoolProofs {
  import opened Common
  import opened PoolModel

  // ---------------------------------------------------------------- the refinement relation

  /** Each entry's pool sits on the resource that the entry remembers, down to the original one. */
  ghost predicate Chained<N>(list: seq<Entry<N>>, current: Resource, base: Resource) {
    if list == [] then current == base
    else
      var n := |list| - 1;
      current.Pool? && current.upstream == list[n].previous && Chained(list[..n], list[n].previous, base)
  }

  /** The active entries with their pools, oldest first. */
  ghost function Actives<N>(list: seq<Entry<N>>, current: Resource): seq<(N, Resource)> {
    if list == [] then []
    else
      var n := |list| - 1;
      Actives(list[..n], list[n].previous) + if list[n].active then [(list[n].node, current)] else []
  }

  ghost function Named<N, H>(log: seq<Live<N, H>>): seq<(N, Resource)> {
    if log == [] then []
    else
      var last := log[|log| - 1];
      Named(log[..|log| - 1]) + [(last.node, last.pool)]
  }

  ghost function DropNode<N>(ps: seq<(N, Resource)>, n: N): seq<(N, Resource)> {
    if ps == [] then []
    else
      var last := ps[|ps| - 1];
      DropNode(ps[..|ps| - 1], n) + if last.0 == n then [] else [last]
  }

  ghost predicate Distinct<N, H>(log: seq<Live<N, H>>) {
    log != [] ==>
      var last := log[|log| - 1];
      && Distinct(log[..|log| - 1])
      && forall x :: x in log[..|log| - 1] ==> x.h != last.h && x.node != last.node
  }

  ghost predicate DeviceOk<N, H>(s: State<N, H>, r: Ref<N, H>, d: int, base: map<int, Resource>)
    requires d in base && d in s.current
  {
    var list := ListOf(s, d);
    && base[d].Base?
    && Chained(list, s.current[d], base[d])
    && Actives(list, s.current[d]) == Named(OnDevice(r.log, d))
    && (d in s.lists ==> list != [] && list[|list| - 1].active)
  }

  ghost predicate Logged<N, H>(log: seq<Live<N, H>>, h: H) {
    exists x :: x in log && x.h == h
  }

  /** The handle that installed x still remembers x's device and list element. */
  ghost predicate Remembered<N, H>(s: State<N, H>, x: Live<N, H>) {
    x.h in s.handles && s.handles[x.h] == Holding(x.device, x.node) && x.device in s.current
  }

  ghost predicate LogOk<N, H>(s: State<N, H>, r: Ref<N, H>) {
    && Distinct(r.log)
    && (forall x :: x in r.log ==> Remembered(s, x))
    && (forall h :: h in s.handles && s.handles[h].Holding? ==> Logged(r.log, h))
  }

  ghost predicate NodesDistinct<N, H>(s: State<N, H>) {
    forall d, i, d', i' ::
      d in s.lists && 0 <= i < |s.lists[d]| && d' in s.lists && 0 <= i' < |s.lists[d']|
        && s.lists[d][i].node == s.lists[d'][i'].node
      ==> d == d' && i == i'
  }

  ghost predicate Below(ids: set<nat>, bound: nat) {
    forall k :: k in ids ==> k < bound
  }

  /** Every pool ever made is either destroyed or in the upstream chain of exactly one device. */
  ghost predicate PoolsOk<N, H>(s: State<N, H>) {
    && (forall d :: d in s.current ==> Ordered(s.current[d]))
    && (forall d :: d in s.current ==> ChainIds(s.current[d]) !! s.freed && Below(ChainIds(s.current[d]), s.nextPool))
    && (forall d, d' :: d in s.current && d' in s.current && d != d' ==>
          ChainIds(s.current[d]) !! ChainIds(s.current[d']))
    && Below(s.freed, s.nextPool)
    && (forall k: nat :: k < s.nextPool && k !in s.freed ==> exists d :: d in s.current && k in ChainIds(s.current[d]))
  }

  ghost predicate Refines<N, H>(s: State<N, H>, r: Ref<N, H>, base: map<int, Resource>) {
    && s.current.Keys == base.Keys
    && s.lists.Keys <= base.Keys
    && s.nextPool == r.next
    && (forall d :: d in base ==> DeviceOk(s, r, d, base))
    && LogOk(s, r)
    && NodesDistinct(s)
    && PoolsOk(s)
  }

  // ---------------------------------------------------------------- lists, logs and chains

  lemma {:induction false} DeactivateKeepsChain<N>(list: seq<Entry<N>>, n: N, current: Resource, base: Resource)
    ensures |Deactivate(list, n)| == |list|
    ensures forall i :: 0 <= i < |list| ==>
      Deactivate(list, n)[i] == if list[i].node == n then list[i].(active := false) else list[i]
    ensures Chained(Deactivate(list, n), current, base) == Chained(list, current, base)
    ensures Actives(Deactivate(list, n), current) == DropNode(Actives(list, current), n)
  {
    if list != [] {
      var k := |list| - 1;
      DeactivateKeepsChain(list[..k], n, list[k].previous, base);
      var t := Deactivate(list, n);
      assert t[..k] == Deactivate(list[..k], n);
      if list[k].active {
        var a := Actives(list, current);
        assert a[..|a| - 1] == Actives(list[..k], list[k].previous);
      } else {
        assert Actives(list, current) == Actives(list[..k], list[k].previous);
      }
    }
  }

  lemma {:induction false} UnwindCorrect<N>(slot: Slot<N>, base: Resource)
    requires Chained(slot.list, slot.current, base) && Ordered(slot.current) && base.Base?
    ensures var t := Unwind(slot);
      && t.list <= slot.list
      && Chained(t.list, t.current, base) && Ordered(t.current)
      && Actives(t.list, t.current) == Actives(slot.list, slot.current)
      && (t.list == [] || t.list[|t.list| - 1].active)
      && ChainIds(t.current) <= ChainIds(slot.current)
      && t.freed == slot.freed + (ChainIds(slot.current) - ChainIds(t.current))
    decreases |slot.list|
  {
    if slot.list != [] && !slot.list[|slot.list| - 1].active {
      var n := |slot.list| - 1;
      var below := Slot(slot.list[..n], slot.list[n].previous, slot.freed + Dropped(slot.current));
      UnwindCorrect(below, base);
      assert slot.current.id !in ChainIds(below.current);
    }
  }

  lemma {:induction false} OnDeviceIn<N, H>(log: seq<Live<N, H>>, d: int, x: Live<N, H>)
    ensures x in OnDevice(log, d) <==> x in log && x.device == d
  {
    if log != [] {
      OnDeviceIn(log[..|log| - 1], d, x);
      assert log == log[..|log| - 1] + [log[|log| - 1]];
    }
  }

  lemma {:induction false} NamedIn<N, H>(log: seq<Live<N, H>>, x: Live<N, H>)
    requires x in log
    ensures (x.node, x.pool) in Named(log)
  {
    if x != log[|log| - 1] {
      assert log == log[..|log| - 1] + [log[|log| - 1]];
      NamedIn(log[..|log| - 1], x);
    }
  }

  lemma {:induction false} ActivesIn<N>(list: seq<Entry<N>>, current: Resource, base: Resource, p: (N, Resource))
    requires Chained(list, current, base) && p in Actives(list, current)
    ensures exists i :: 0 <= i < |list| && list[i].node == p.0 && list[i].active
    ensures ChainIds(p.1) <= ChainIds(current)
  {
    var n := |list| - 1;
    if !(list[n].active && p == (list[n].node, current)) {
      ActivesIn(list[..n], list[n].previous, base, p);
      var i :| 0 <= i < n && list[..n][i].node == p.0 && list[..n][i].active;
      assert list[i].node == p.0;
    }
  }

  lemma {:induction false} DistinctUnique<N, H>(log: seq<Live<N, H>>, x: Live<N, H>, y: Live<N, H>)
    requires Distinct(log) && x in log && y in log && (x.h == y.h || x.node == y.node)
    ensures x == y
  {
    var k := |log| - 1;
    assert log == log[..k] + [log[k]];
    if x in log[..k] && y in log[..k] { DistinctUnique(log[..k], x, y); }
  }

  lemma Split<T>(ts: seq<T>)
    requires ts != []
    ensures ts == ts[..|ts| - 1] + [ts[|ts| - 1]]
  {}

  lemma WithoutSnoc<N, H>(log: seq<Live<N, H>>, x: Live<N, H>, h: H)
    ensures Without(log + [x], h) == if x.h == h then Without(log, h) else Without(log, h) + [x]
  {
    assert (log + [x])[..|log|] == log;
  }

  lemma OnDeviceSnoc<N, H>(log: seq<Live<N, H>>, x: Live<N, H>, d: int)
    ensures OnDevice(log + [x], d) == if x.device == d then OnDevice(log, d) + [x] else OnDevice(log, d)
  {
    assert (log + [x])[..|log|] == log;
  }

  lemma NamedSnoc<N, H>(log: seq<Live<N, H>>, x: Live<N, H>)
    ensures Named(log + [x]) == Named(log) + [(x.node, x.pool)]
  {
    assert (log + [x])[..|log|] == log;
  }

  lemma DropNodeSnoc<N>(ps: seq<(N, Resource)>, p: (N, Resource), n: N)
    ensures DropNode(ps + [p], n) == if p.0 == n then DropNode(ps, n) else DropNode(ps, n) + [p]
  {
    assert (ps + [p])[..|ps|] == ps;
  }

  lemma {:induction false} WithoutIn<N, H>(log: seq<Live<N, H>>, h: H, x: Live<N, H>)
    ensures x in Without(log, h) <==> x in log && x.h != h
  {
    if log != [] {
      var rest, last := log[..|log| - 1], log[|log| - 1];
      Split(log);
      WithoutIn(rest, h, x);
      WithoutSnoc(rest, last, h);
    }
  }

  lemma {:induction false} WithoutDistinct<N, H>(log: seq<Live<N, H>>, h: H)
    requires Distinct(log)
    ensures Distinct(Without(log, h))
  {
    if log != [] {
      var rest, last := log[..|log| - 1], log[|log| - 1];
      Split(log);
      WithoutDistinct(rest, h);
      WithoutSnoc(rest, last, h);
      var w := Without(rest, h);
      if last.h != h {
        assert (w + [last])[..|w|] == w;
        forall x | x in w ensures x.h != last.h && x.node != last.node { WithoutIn(rest, h, x); }
      }
    }
  }

  lemma {:induction false} WithoutAbsent<N, H>(log: seq<Live<N, H>>, h: H)
    requires forall x :: x in log ==> x.h != h
    ensures Without(log, h) == log
  {
    if log != [] {
      var rest, last := log[..|log| - 1], log[|log| - 1];
      Split(log);
      WithoutSnoc(rest, last, h);
      WithoutAbsent(rest, h);
    }
  }

  /** Forgetting a handle removes exactly its own pool from the device it was installed on. */
  lemma {:induction false} WithoutOnDevice<N, H>(log: seq<Live<N, H>>, h: H, d: int, n: N)
    requires forall x :: x in log && x.device == d ==> (x.h == h <==> x.node == n)
    ensures Named(OnDevice(Without(log, h), d)) == DropNode(Named(OnDevice(log, d)), n)
  {
    if log != [] {
      var rest, last := log[..|log| - 1], log[|log| - 1];
      Split(log);
      WithoutOnDevice(rest, h, d, n);
      WithoutSnoc(rest, last, h);
      OnDeviceSnoc(rest, last, d);
      OnDeviceSnoc(Without(rest, h), last, d);
      NamedSnoc(OnDevice(rest, d), last);
      NamedSnoc(OnDevice(Without(rest, h), d), last);
      DropNodeSnoc(Named(OnDevice(rest, d)), (last.node, last.pool), n);
    }
  }

  lemma {:induction false} WithoutElsewhere<N, H>(log: seq<Live<N, H>>, h: H, d: int)
    requires forall x :: x in log && x.device == d ==> x.h != h
    ensures OnDevice(Without(log, h), d) == OnDevice(log, d)
  {
    if log != [] {
      var rest, last := log[..|log| - 1], log[|log| - 1];
      Split(log);
      WithoutElsewhere(rest, h, d);
      WithoutSnoc(rest, last, h);
      OnDeviceSnoc(rest, last, d);
      OnDeviceSnoc(Without(rest, h), last, d);
    }
  }

  // ---------------------------------------------------------------- one step

  /** What releasing x's entry does to x's device. */
  ghost predicate SlotReleased<N, H>(s: State<N, H>, r: Ref<N, H>, x: Live<N, H>, base: map<int, Resource>,
          slot: Slot<N>)
    requires x.device in base && x.device in s.current
  {
    var d := x.device;
    && |slot.list| <= |ListOf(s, d)|
    && (forall i :: 0 <= i < |slot.list| ==> slot.list[i].node == ListOf(s, d)[i].node)
    && Chained(slot.list, slot.current, base[d]) && Ordered(slot.current)
    && Actives(slot.list, slot.current) == Named(OnDevice(Without(r.log, x.h), d))
    && (slot.list == [] || slot.list[|slot.list| - 1].active)
    && ChainIds(slot.current) <= ChainIds(s.current[d])
    && slot.freed == s.freed + (ChainIds(s.current[d]) - ChainIds(slot.current))
  }

  lemma ReleaseSlot<N, H>(s: State<N, H>, r: Ref<N, H>, base: map<int, Resource>, x: Live<N, H>)
    requires x in r.log && Distinct(r.log) && x.device in base && x.device in s.current
    requires DeviceOk(s, r, x.device, base) && Ordered(s.current[x.device])
    ensures x.device in s.lists
    ensures SlotReleased(s, r, x, base, ReleasedSlot(s, x.device, x.node))
  {
    hide Chained, Actives, Named, OnDevice, Without, DropNode, Distinct, Unwind, Deactivate, ChainIds, Ordered;
    var list := ListOf(s, x.device);
    OnDeviceIn(r.log, x.device, x);
    NamedIn(OnDevice(r.log, x.device), x);
    ActivesIn(list, s.current[x.device], base[x.device], (x.node, x.pool));
    DeactivateKeepsChain(list, x.node, s.current[x.device], base[x.device]);
    UnwindCorrect(Slot(Deactivate(list, x.node), s.current[x.device], s.freed), base[x.device]);
    forall y | y in r.log && y.device == x.device ensures y.h == x.h <==> y.node == x.node {
      if y.h == x.h || y.node == x.node { DistinctUnique(r.log, x, y); }
    }
    WithoutOnDevice(r.log, x.h, x.device, x.node);
  }

  lemma ReleaseKeepsLog<N, H>(s: State<N, H>, r: Ref<N, H>, h: H)
    requires LogOk(s, r) && Sensible(s) && h in s.handles
    ensures LogOk(ReleaseStep(s, h), r.(log := Without(r.log, h)))
  {
    var t, w := ReleaseStep(s, h), Without(r.log, h);
    WithoutDistinct(r.log, h);
    forall x | x in w ensures Remembered(t, x) {
      WithoutIn(r.log, h, x);
      assert Remembered(s, x);
    }
    forall h' | h' in t.handles && t.handles[h'].Holding? ensures Logged(w, h') {
      assert Logged(r.log, h');
      var x :| x in r.log && x.h == h';
      WithoutIn(r.log, h, x);
    }
  }

  lemma ReleaseKeepsPools<N, H>(s: State<N, H>, r: Ref<N, H>, base: map<int, Resource>, x: Live<N, H>)
    requires x.device in base && x.device in s.current && SlotReleased(s, r, x, base, ReleasedSlot(s, x.device, x.node))
    requires PoolsOk(s) && Sensible(s) && x.h in s.handles && s.handles[x.h] == Holding(x.device, x.node)
    ensures PoolsOk(ReleaseStep(s, x.h))
  {
    hide Chained, Actives, Named, OnDevice, Without, Unwind, Deactivate, ChainIds, Ordered;
    var t := ReleaseStep(s, x.h);
    forall k: nat | k < t.nextPool && k !in t.freed
      ensures exists d' :: d' in t.current && k in ChainIds(t.current[d'])
    {
      var d' :| d' in s.current && k in ChainIds(s.current[d']);
      assert d' in t.current && k in ChainIds(t.current[d']);
    }
  }

  lemma ReleaseKeepsNodes<N, H>(s: State<N, H>, r: Ref<N, H>, base: map<int, Resource>, x: Live<N, H>)
    requires x.device in base && x.device in s.lists && x.device in s.current
    requires SlotReleased(s, r, x, base, ReleasedSlot(s, x.device, x.node))
    requires NodesDistinct(s) && Sensible(s) && x.h in s.handles && s.handles[x.h] == Holding(x.device, x.node)
    ensures NodesDistinct(ReleaseStep(s, x.h))
  {
    var t := ReleaseStep(s, x.h);
    forall d, i | d in t.lists && 0 <= i < |t.lists[d]|
      ensures d in s.lists && i < |s.lists[d]| && t.lists[d][i].node == s.lists[d][i].node
    {}
  }

  lemma ReleaseKeepsDevice<N, H>(s: State<N, H>, r: Ref<N, H>, base: map<int, Resource>, x: Live<N, H>, d: int)
    requires x in r.log && Distinct(r.log) && x.device in base && x.device in s.current
    requires SlotReleased(s, r, x, base, ReleasedSlot(s, x.device, x.node))
    requires Sensible(s) && x.h in s.handles && s.handles[x.h] == Holding(x.device, x.node)
    requires d in base && d in s.current && DeviceOk(s, r, d, base)
    ensures DeviceOk(ReleaseStep(s, x.h), r.(log := Without(r.log, x.h)), d, base)
  {
    if d != x.device {
      forall y | y in r.log && y.device == d ensures y.h != x.h {
        if y.h == x.h { DistinctUnique(r.log, x, y); }
      }
      WithoutElsewhere(r.log, x.h, d);
    }
  }

  lemma ReleasePreserves<N, H>(s: State<N, H>, r: Ref<N, H>, base: map<int, Resource>, h: H)
    requires Refines(s, r, base) && h in s.handles
    ensures Refines(ReleaseStep(s, h), r.(log := Without(r.log, h)), base)
  {
    hide Chained, Actives, Named, OnDevice, Distinct, NodesDistinct, Without, DeviceOk;
    if s.handles[h].Holding? {
      assert Logged(r.log, h);
      var x :| x in r.log && x.h == h;
      assert Remembered(s, x) && DeviceOk(s, r, x.device, base);
      ReleaseSlot(s, r, base, x);
      forall d | d in base ensures DeviceOk(ReleaseStep(s, h), r.(log := Without(r.log, h)), d, base) {
        ReleaseKeepsDevice(s, r, base, x, d);
      }
      ReleaseKeepsNodes(s, r, base, x);
      ReleaseKeepsPools(s, r, base, x);
      ReleaseKeepsLog(s, r, h);
    } else {
      WithoutAbsent(r.log, h);
    }
  }

  /** The registry's answer to "which resource is current" is the reference model's. */
  lemma CurrentIsMostRecent<N, H>(s: State<N, H>, r: Ref<N, H>, base: map<int, Resource>, d: int)
    requires Refines(s, r, base) && d in base
    ensures s.current[d] == MostRecent(r, d, base)
  {
    assert DeviceOk(s, r, d, base);
    var own := OnDevice(r.log, d);
    if own != [] {
      var named := Named(own);
      assert named[|named| - 1] == (own[|own| - 1].node, own[|own| - 1].pool);
    }
  }

  lemma InstallPreserves<N, H>(s: State<N, H>, r: Ref<N, H>, base: map<int, Resource>, e: Event<N, H>)
    requires Refines(s, r, base) && e.Install? && Enabled(s, e) && e.outcome == Installed
    ensures Refines(InstallStep(s, e.h, e.device, e.node, e.outcome), RefStep(r, e, base), base)
  {
    hide Chained, Actives, Named, OnDevice, Distinct, DeviceOk, PoolsOk, ChainIds, Ordered, Remembered, Logged;
    var t, q := InstallStep(s, e.h, e.device, e.node, e.outcome), RefStep(r, e, base);
    CurrentIsMostRecent(s, r, base, e.device);
    forall d | d in base ensures DeviceOk(t, q, d, base) { InstallKeepsDevice(s, r, base, e, d); }
    InstallKeepsLog(s, r, base, e);
    InstallKeepsPools(s, e);
  }

  lemma ChainSnoc<N>(list: seq<Entry<N>>, e: Entry<N>, current: Resource, base: Resource)
    requires current.Pool? && current.upstream == e.previous && e.active
    ensures Chained(list + [e], current, base) == Chained(list, e.previous, base)
    ensures Actives(list + [e], current) == Actives(list, e.previous) + [(e.node, current)]
  {
    assert (list + [e])[..|list|] == list;
  }

  lemma InstallKeepsDevice<N, H>(s: State<N, H>, r: Ref<N, H>, base: map<int, Resource>, e: Event<N, H>, d: int)
    requires e.Install? && e.device in base && e.device in s.current && e.outcome == Installed
    requires s.current[e.device] == MostRecent(r, e.device, base) && s.nextPool == r.next
    requires d in base && d in s.current && DeviceOk(s, r, d, base)
    ensures DeviceOk(InstallStep(s, e.h, e.device, e.node, e.outcome), RefStep(r, e, base), d, base)
  {
    hide MostRecent, Chained, Actives, Named, OnDevice;
    var t := InstallStep(s, e.h, e.device, e.node, e.outcome);
    var x := Live(e.h, e.node, e.device, t.current[e.device]);
    OnDeviceSnoc(r.log, x, d);
    if d == e.device {
      NamedSnoc(OnDevice(r.log, d), x);
      ChainSnoc(ListOf(s, d), Entry(e.node, true, s.current[d]), t.current[d], base[d]);
    } else {
      assert ListOf(t, d) == ListOf(s, d) && t.current[d] == s.current[d];
    }
  }

  lemma InstallKeepsLog<N, H>(s: State<N, H>, r: Ref<N, H>, base: map<int, Resource>, e: Event<N, H>)
    requires Refines(s, r, base) && e.Install? && Enabled(s, e) && e.outcome == Installed
    ensures LogOk(InstallStep(s, e.h, e.device, e.node, e.outcome), RefStep(r, e, base))
  {
    hide Chained, Actives, Named, OnDevice, ChainIds, Ordered, MostRecent, PoolsOk, NodesDistinct;
    var t, q := InstallStep(s, e.h, e.device, e.node, e.outcome), RefStep(r, e, base);
    var x := q.log[|r.log|];
    assert q.log[..|q.log| - 1] == r.log;
    forall y | y in r.log ensures y.h != x.h && y.node != x.node {
      assert Remembered(s, y) && DeviceOk(s, r, y.device, base);
      OnDeviceIn(r.log, y.device, y);
      NamedIn(OnDevice(r.log, y.device), y);
      ActivesIn(ListOf(s, y.device), s.current[y.device], base[y.device], (y.node, y.pool));
    }
    forall y | y in q.log ensures Remembered(t, y) {
      if y != x { assert y in r.log && Remembered(s, y); }
    }
    forall h | h in t.handles && t.handles[h].Holding? ensures Logged(q.log, h) {
      if h == e.h {
        assert x in q.log && x.h == h;
      } else {
        assert Logged(r.log, h);
        var y :| y in r.log && y.h == h;
        assert y in q.log;
      }
    }
  }

  lemma InstallKeepsPools<N, H>(s: State<N, H>, e: Event<N, H>)
    requires e.Install? && e.outcome == Installed && e.device in s.current && PoolsOk(s)
    ensures PoolsOk(InstallStep(s, e.h, e.device, e.node, e.outcome))
  {
    var t := InstallStep(s, e.h, e.device, e.node, e.outcome);
    assert Below(ChainIds(s.current[e.device]), s.nextPool);
    assert Ordered(t.current[e.device]);
    forall k: nat | k < t.nextPool && k !in t.freed ensures exists d :: d in t.current && k in ChainIds(t.current[d]) {
      if k == s.nextPool {
        assert k in ChainIds(t.current[e.device]);
      } else {
        var d :| d in s.current && k in ChainIds(s.current[d]);
        assert k in ChainIds(t.current[d]);
      }
    }
  }

  /** A pool that was made but could not be installed is destroyed at once; nothing else changes. */
  lemma FailedInstallPreserves<N, H>(s: State<N, H>, r: Ref<N, H>, base: map<int, Resource>)
    requires Refines(s, r, base)
    ensures Refines(s.(nextPool := s.nextPool + 1, freed := s.freed + {s.nextPool}), r.(next := r.next + 1), base)
  {
    hide Chained, Actives, Named, OnDevice, Distinct, ChainIds, Ordered, Logged;
    var t, q := s.(nextPool := s.nextPool + 1, freed := s.freed + {s.nextPool}), r.(next := r.next + 1);
    forall d | d in base ensures DeviceOk(t, q, d, base) { assert DeviceOk(s, r, d, base); }
    forall x | x in q.log ensures Remembered(t, x) { assert Remembered(s, x); }
  }

  lemma HandleOnlyPreserves<N, H>(s: State<N, H>, r: Ref<N, H>, base: map<int, Resource>, t: State<N, H>)
    requires Refines(s, r, base) && t == s.(handles := t.handles)
    requires forall h :: h in s.handles && s.handles[h].Holding? ==> h in t.handles && t.handles[h] == s.handles[h]
    requires forall h :: h in t.handles && t.handles[h].Holding? ==> h in s.handles && t.handles[h] == s.handles[h]
    ensures Refines(t, r, base)
  {
    hide Chained, Actives, Named, OnDevice, Distinct, ChainIds, Ordered, Logged;
    forall d | d in base ensures DeviceOk(t, r, d, base) { assert DeviceOk(s, r, d, base); }
    forall x | x in r.log ensures Remembered(t, x) { assert Remembered(s, x); }
  }

  lemma RefinesSensible<N, H>(s: State<N, H>, r: Ref<N, H>, base: map<int, Resource>)
    requires Refines(s, r, base)
    ensures Sensible(s)
  {
    forall h | h in s.handles && s.handles[h].Holding? ensures s.handles[h].device in s.current {
      assert Logged(r.log, h);
      var x :| x in r.log && x.h == h;
      assert Remembered(s, x);
    }
  }

  /** Every critical section of every handle preserves the refinement. */
  lemma StepPreserves<N, H>(s: State<N, H>, r: Ref<N, H>, base: map<int, Resource>, e: Event<N, H>)
    requires Refines(s, r, base) && Enabled(s, e)
    ensures Sensible(s)
    ensures Refines(Step(s, e), RefStep(r, e, base), base)
  {
    hide Refines;
    RefinesSensible(s, r, base);
    match e
    case Create(h) => HandleOnlyPreserves(s, r, base, Step(s, e));
    case Release(h) => ReleasePreserves(s, r, base, h);
    case Install(h, d, n, outcome) =>
      if outcome == Installed { InstallPreserves(s, r, base, e); }
      if outcome == SetThrows { FailedInstallPreserves(s, r, base); }
    case Destroy(h) =>
      ReleasePreserves(s, r, base, h);
      HandleOnlyPreserves(ReleaseStep(s, h), RefStep(r, e, base), base, Step(s, e));
  }

  // ---------------------------------------------------------------- every run

  /** The main result: whatever the interleaving, the registry refines the reference model, and each
      device's current resource is the pool of the most recently installed handle that still holds
      one, or the original resource when there is none. */
  lemma {:induction false} EveryRunRefines<N, H>(base: map<int, Resource>, es: seq<Event<N, H>>)
    requires forall d :: d in base ==> base[d].Base?
    ensures var s := Run(base, es); s.Some? ==>
      && Refines(s.value, RefRun(base, es), base)
      && forall d :: d in base ==> s.value.current[d] == MostRecent(RefRun(base, es), d, base)
  {
    var s := Run(base, es);
    if s.Some? {
      if es != [] {
        var t := Run(base, es[..|es| - 1]);
        EveryRunRefines(base, es[..|es| - 1]);
        StepPreserves(t.value, RefRun(base, es[..|es| - 1]), base, es[|es| - 1]);
      }
      forall d | d in base ensures s.value.current[d] == MostRecent(RefRun(base, es), d, base) {
        CurrentIsMostRecent(s.value, RefRun(base, es), base, d);
      }
    }
  }

  /** The pool that an entry installed: the next entry remembers it, the last one's is current. */
  ghost function PoolAt<N, H>(s: State<N, H>, d: int, i: nat): Resource
    requires d in s.lists && d in s.current && i < |s.lists[d]|
  {
    if i + 1 < |s.lists[d]| then s.lists[d][i + 1].previous else s.current[d]
  }

  lemma {:induction false} ChainHolds<N>(list: seq<Entry<N>>, current: Resource, base: Resource, i: nat)
    requires Chained(list, current, base) && i < |list|
    ensures ChainIds(list[i].previous) <= ChainIds(current)
    ensures var pool := if i + 1 < |list| then list[i + 1].previous else current;
      pool.Pool? && pool.upstream == list[i].previous
  {
    var n := |list| - 1;
    if i < n { ChainHolds(list[..n], list[n].previous, base, i); }
  }

  /** In every reachable state no pool that is still in use has been destroyed: not the pool of a
      listed entry, and nothing in the upstream chain below it. Each entry's pool has as its
      upstream exactly the resource that the entry will put back. */
  lemma EveryRunKeepsUpstreamsAlive<N, H>(base: map<int, Resource>, es: seq<Event<N, H>>, d: int, i: nat)
    requires forall d' :: d' in base ==> base[d'].Base?
    requires Run(base, es).Some?
    requires var s := Run(base, es).value; d in s.lists && i < |s.lists[d]|
    ensures var s := Run(base, es).value;
      && d in s.current
      && var pool := PoolAt(s, d, i);
         && pool.Pool? && pool.upstream == s.lists[d][i].previous
         && ChainIds(pool) !! s.freed
  {
    EveryRunRefines(base, es);
    var s := Run(base, es).value;
    assert DeviceOk(s, RefRun(base, es), d, base);
    ChainHolds(s.lists[d], s.current[d], base[d], i);
    if i + 1 < |s.lists[d]| { ChainHolds(s.lists[d], s.current[d], base[d], i + 1); }
  }

  lemma ListsNonEmpty<N, H>(s: State<N, H>, r: Ref<N, H>, base: map<int, Resource>)
    requires Refines(s, r, base)
    ensures forall d :: d in s.lists ==> s.lists[d] != []
  {
    forall d | d in s.lists ensures s.lists[d] != [] { assert DeviceOk(s, r, d, base); }
  }

  /** A handle that holds a pool names an active entry on its device, and that entry is nowhere else. */
  lemma HoldingHasEntry<N, H>(s: State<N, H>, r: Ref<N, H>, base: map<int, Resource>, h: H)
    requires Refines(s, r, base) && h in s.handles && s.handles[h].Holding?
    ensures var d := s.handles[h].device;
      && d in s.lists && d in s.current
      && (exists i :: 0 <= i < |s.lists[d]| && s.lists[d][i].node == s.handles[h].node && s.lists[d][i].active)
      && forall d', i :: d' in s.lists && d' != d && 0 <= i < |s.lists[d']| ==> s.lists[d'][i].node != s.handles[h].node
  {
    assert Logged(r.log, h);
    var x :| x in r.log && x.h == h;
    assert Remembered(s, x) && DeviceOk(s, r, x.device, base);
    OnDeviceIn(r.log, x.device, x);
    NamedIn(OnDevice(r.log, x.device), x);
    ActivesIn(ListOf(s, x.device), s.current[x.device], base[x.device], (x.node, x.pool));
  }

  /** In every reachable state a handle that holds a pool names its own active entry, and no other
      handle names the same one. */
  lemma EveryRunKeepsOwnership<N, H>(base: map<int, Resource>, es: seq<Event<N, H>>, h: H)
    requires forall d :: d in base ==> base[d].Base?
    requires Run(base, es).Some?
    requires var s := Run(base, es).value; h in s.handles && s.handles[h].Holding?
    ensures var s := Run(base, es).value; var d := s.handles[h].device;
      && d in s.lists
      && (exists i :: 0 <= i < |s.lists[d]| && s.lists[d][i].node == s.handles[h].node && s.lists[d][i].active)
      && forall h' :: h' in s.handles && h' != h && s.handles[h'].Holding? ==> s.handles[h'].node != s.handles[h].node
  {
    EveryRunRefines(base, es);
    var s, r := Run(base, es).value, RefRun(base, es);
    HoldingHasEntry(s, r, base, h);
    assert Logged(r.log, h);
    var x :| x in r.log && x.h == h;
    forall h' | h' in s.handles && h' != h && s.handles[h'].Holding? ensures s.handles[h'].node != s.handles[h].node {
      assert Logged(r.log, h');
      var y :| y in r.log && y.h == h';
      assert Remembered(s, x) && Remembered(s, y);
      if y.node == x.node { DistinctUnique(r.log, x, y); }
    }
  }

  lemma LiveMeansHeld<N, H>(s: State<N, H>, r: Ref<N, H>)
    requires LogOk(s, r) && r.log != []
    ensures exists h :: h in s.handles && s.handles[h].Holding?
  {
    assert Remembered(s, r.log[0]);
  }

  /** In whatever order the handles let go, once none holds a pool every device has its original
      resource back, the registry is empty, and every pool ever made has been destroyed. */
  lemma QuietRunRestores<N, H>(base: map<int, Resource>, es: seq<Event<N, H>>)
    requires forall d :: d in base ==> base[d].Base?
    requires Run(base, es).Some?
    requires var s := Run(base, es).value; forall h :: h in s.handles ==> s.handles[h].Idle?
    ensures var s := Run(base, es).value;
      && s.lists == map[] && s.current == base
      && forall k: nat :: k in s.freed <==> k < s.nextPool
  {
    EveryRunRefines(base, es);
    var s, r := Run(base, es).value, RefRun(base, es);
    if r.log != [] { LiveMeansHeld(s, r); }
    forall d | d in base ensures d !in s.lists && s.current[d] == base[d] {
      assert DeviceOk(s, r, d, base);
    }
    forall d | d in base ensures ChainIds(s.current[d]) == {} {}
  }
}
