/** The registry explained by the history of events alone: which runs are possible, and which event made
    the resource that is current. */
module PoolHistory {
  import opened Common
  import opened PoolModel
  import opened PoolProofs

  // ---------------------------------------------------------------- installations that are still live

  /** Event i installed a pool on d, and its handle has neither released it nor been destroyed since. */
  ghost predicate LiveAt<N, H>(es: seq<Event<N, H>>, i: int, d: int) {
    && 0 <= i < |es| && es[i].Install? && es[i].device == d && es[i].outcome == Installed
    && forall j :: i < j < |es| ==> es[j] != Release(es[i].h) && es[j] != Destroy(es[i].h)
  }

  ghost function EntryOf<N, H>(base: map<int, Resource>, es: seq<Event<N, H>>, i: nat, d: int): Live<N, H>
    requires i < |es| && es[i].Install? && d in base
  {
    var r := RefRun(base, es[..i]);
    Live(es[i].h, es[i].node, d, Pool(r.next, MostRecent(r, d, base)))
  }

  ghost predicate EntryAt<N, H>(base: map<int, Resource>, es: seq<Event<N, H>>, i: int, d: int, x: Live<N, H>)
    requires d in base
  {
    LiveAt(es, i, d) && x == EntryOf(base, es, i, d)
  }

  /** The positions with their entries are those of the live installations on d, in their order. */
  ghost predicate Tells<N, H>(base: map<int, Resource>, es: seq<Event<N, H>>, d: int, ps: seq<(int, Live<N, H>)>)
    requires d in base
  {
    && Ascending(ps)
    && (forall p :: p in ps ==> EntryAt(base, es, p.0, d, p.1))
    && forall i :: 0 <= i < |es| ==> Found(base, es, i, d, ps)
  }

  ghost predicate Found<N, H>(base: map<int, Resource>, es: seq<Event<N, H>>, i: int, d: int,
                              ps: seq<(int, Live<N, H>)>)
    requires d in base
  {
    LiveAt(es, i, d) ==> (i, EntryOf(base, es, i, d)) in ps
  }

  ghost predicate Ascending<T>(ps: seq<(int, T)>) { forall k, l :: 0 <= k < l < |ps| ==> ps[k].0 < ps[l].0 }

  ghost function Entries<N, H>(ps: seq<(int, Live<N, H>)>): seq<Live<N, H>> {
    if ps == [] then [] else Entries(ps[..|ps| - 1]) + [ps[|ps| - 1].1]
  }

  ghost function OfOthers<N, H>(ps: seq<(int, Live<N, H>)>, h: H): seq<(int, Live<N, H>)> {
    if ps == [] then []
    else OfOthers(ps[..|ps| - 1], h) + if ps[|ps| - 1].1.h == h then [] else [ps[|ps| - 1]]
  }

  lemma {:induction false} WithoutOfDevice<N, H>(log: seq<Live<N, H>>, h: H, d: int)
    ensures OnDevice(Without(log, h), d) == Without(OnDevice(log, d), h)
  {
    if log != [] {
      var rest, last := log[..|log| - 1], log[|log| - 1];
      Split(log);
      WithoutOfDevice(rest, h, d);
      WithoutSnoc(rest, last, h);
      OnDeviceSnoc(rest, last, d);
      OnDeviceSnoc(Without(rest, h), last, d);
      WithoutSnoc(OnDevice(rest, d), last, h);
    }
  }

  lemma {:induction false} EntriesOfOthers<N, H>(ps: seq<(int, Live<N, H>)>, h: H)
    ensures Entries(OfOthers(ps, h)) == Without(Entries(ps), h)
  {
    if ps != [] {
      var rest, last := ps[..|ps| - 1], ps[|ps| - 1];
      EntriesOfOthers(rest, h);
      WithoutSnoc(Entries(rest), last.1, h);
      EntriesSnoc(OfOthers(rest, h), last);
      assert OfOthers(rest, h) + [] == OfOthers(rest, h);
    }
  }

  lemma EntriesSnoc<N, H>(ps: seq<(int, Live<N, H>)>, p: (int, Live<N, H>))
    ensures Entries(ps + [p]) == Entries(ps) + [p.1]
  {
    assert (ps + [p])[..|ps|] == ps;
  }

  lemma {:induction false} InOthers<N, H>(ps: seq<(int, Live<N, H>)>, h: H, p: (int, Live<N, H>))
    ensures p in OfOthers(ps, h) <==> p in ps && p.1.h != h
  {
    if ps != [] {
      InOthers(ps[..|ps| - 1], h, p);
      Split(ps);
    }
  }

  lemma {:induction false} OthersAscend<N, H>(ps: seq<(int, Live<N, H>)>, h: H)
    requires Ascending(ps)
    ensures Ascending(OfOthers(ps, h))
  {
    if ps != [] {
      var rest, last := ps[..|ps| - 1], ps[|ps| - 1];
      var others := OfOthers(rest, h);
      OthersAscend(rest, h);
      forall k | 0 <= k < |others| ensures others[k].0 < last.0 {
        InOthers(rest, h, others[k]);
        assert others[k] in rest;
      }
    }
  }

  lemma LiveBefore<N, H>(es: seq<Event<N, H>>, e: Event<N, H>, i: int, d: int)
    ensures i < |es| ==> (LiveAt(es + [e], i, d) <==>
      LiveAt(es, i, d) && e != Release(es[i].h) && e != Destroy(es[i].h))
    ensures i == |es| ==> (LiveAt(es + [e], i, d) <==> e.Install? && e.device == d && e.outcome == Installed)
  {
    var more := es + [e];
    if 0 <= i < |es| {
      assert more[i] == es[i] && more[|es|] == e;
      if LiveAt(es, i, d) && e != Release(es[i].h) && e != Destroy(es[i].h) {
        forall j | i < j < |more| ensures more[j] != Release(more[i].h) && more[j] != Destroy(more[i].h) {
          if j < |es| { assert more[j] == es[j]; }
        }
      }
      if LiveAt(more, i, d) {
        forall j | i < j < |es| ensures es[j] != Release(es[i].h) && es[j] != Destroy(es[i].h) {
          assert more[j] == es[j];
        }
      }
    }
  }

  lemma EntryBefore<N, H>(base: map<int, Resource>, es: seq<Event<N, H>>, e: Event<N, H>, i: int, d: int, x: Live<N, H>)
    requires d in base && i < |es|
    ensures EntryAt(base, es + [e], i, d, x) <==>
      EntryAt(base, es, i, d, x) && e != Release(x.h) && e != Destroy(x.h)
  {
    LiveBefore(es, e, i, d);
    if 0 <= i { assert (es + [e])[..i] == es[..i]; }
  }

  lemma SameEntry<N, H>(base: map<int, Resource>, es: seq<Event<N, H>>, e: Event<N, H>, i: nat, d: int)
    requires d in base && i < |es| && es[i].Install?
    ensures (es + [e])[i] == es[i] && EntryOf(base, es + [e], i, d) == EntryOf(base, es, i, d)
  {
    assert (es + [e])[..i] == es[..i];
  }

  /** An event that does not end or begin an installation on d. */
  lemma StillTells<N, H>(base: map<int, Resource>, es: seq<Event<N, H>>, e: Event<N, H>, d: int,
                         ps: seq<(int, Live<N, H>)>)
    requires d in base && Tells(base, es, d, ps)
    requires e.Create? || (e.Install? && !(e.device == d && e.outcome == Installed))
    ensures Tells(base, es + [e], d, ps)
  {
    hide LiveAt, EntryOf, Ascending;
    forall p | p in ps ensures EntryAt(base, es + [e], p.0, d, p.1) {
      InRange(base, es, d, ps, p);
      EntryBefore(base, es, e, p.0, d, p.1);
    }
    forall i | 0 <= i < |es + [e]| ensures Found(base, es + [e], i, d, ps) {
      LiveBefore(es, e, i, d);
      if LiveAt(es + [e], i, d) {
        assert Found(base, es, i, d, ps);
        LivePosition(es, i, d);
        SameEntry(base, es, e, i, d);
      }
    }
  }

  lemma InRange<N, H>(base: map<int, Resource>, es: seq<Event<N, H>>, d: int, ps: seq<(int, Live<N, H>)>,
                      p: (int, Live<N, H>))
    requires d in base && Tells(base, es, d, ps) && p in ps
    ensures 0 <= p.0 < |es| && es[p.0].Install? && p.1 == EntryOf(base, es, p.0, d) && p.1.h == es[p.0].h
  {}

  /** A release or a destruction forgets the handle. */
  lemma Forgets<N, H>(base: map<int, Resource>, es: seq<Event<N, H>>, e: Event<N, H>, h: H, d: int,
                      ps: seq<(int, Live<N, H>)>)
    requires d in base && Tells(base, es, d, ps) && e in {Release(h), Destroy(h)}
    ensures Tells(base, es + [e], d, OfOthers(ps, h))
  {
    hide LiveAt, EntryOf, Ascending;
    OthersAscend(ps, h);
    forall p | p in OfOthers(ps, h) ensures EntryAt(base, es + [e], p.0, d, p.1) {
      InOthers(ps, h, p);
      InRange(base, es, d, ps, p);
      EntryBefore(base, es, e, p.0, d, p.1);
    }
    forall i | 0 <= i < |es + [e]| ensures Found(base, es + [e], i, d, OfOthers(ps, h)) {
      LiveBefore(es, e, i, d);
      if LiveAt(es + [e], i, d) {
        assert Found(base, es, i, d, ps);
        LivePosition(es, i, d);
        SameEntry(base, es, e, i, d);
        var p := (i, EntryOf(base, es, i, d));
        InRange(base, es, d, ps, p);
        InOthers(ps, h, p);
      }
    }
  }

  /** An installation on d is the newest. */
  lemma Gains<N, H>(base: map<int, Resource>, es: seq<Event<N, H>>, e: Event<N, H>, d: int, ps: seq<(int, Live<N, H>)>)
    requires d in base && Tells(base, es, d, ps) && e.Install? && e.device == d && e.outcome == Installed
    ensures Tells(base, es + [e], d, ps + [(|es|, EntryOf(base, es + [e], |es|, d))])
  {
    hide LiveAt, EntryOf;
    var last := (|es|, EntryOf(base, es + [e], |es|, d));
    var more := ps + [last];
    forall p | p in ps ensures EntryAt(base, es + [e], p.0, d, p.1) {
      InRange(base, es, d, ps, p);
      EntryBefore(base, es, e, p.0, d, p.1);
    }
    LiveBefore(es, e, |es|, d);
    forall i | 0 <= i < |es + [e]| ensures Found(base, es + [e], i, d, more) {
      LiveBefore(es, e, i, d);
      if i < |es| {
        if LiveAt(es + [e], i, d) {
          assert Found(base, es, i, d, ps);
          LivePosition(es, i, d);
          SameEntry(base, es, e, i, d);
        }
      } else {
        assert more[|ps|] == last;
      }
    }
    forall k, l | 0 <= k < l < |more| ensures more[k].0 < more[l].0 {
      if l == |ps| { InRange(base, es, d, ps, ps[k]); }
    }
  }

  lemma {:induction false} History<N, H>(base: map<int, Resource>, es: seq<Event<N, H>>, d: int)
    returns (ps: seq<(int, Live<N, H>)>)
    requires d in base
    ensures Tells(base, es, d, ps) && OnDevice(RefRun(base, es).log, d) == Entries(ps)
  {
    hide LiveAt, EntryOf, EntryAt, Tells, OnDevice, Without, RefStep, Entries, OfOthers;
    if es == [] {
      ps := [];
      NothingYet(base, es, d);
    } else {
      var n := |es| - 1;
      Split(es);
      var before, e := es[..n], es[n];
      ps := History(base, before, d);
      LogStep(base, before, e, d);
      if e.Release? || e.Destroy? {
        Forgets(base, before, e, e.h, d, ps);
        EntriesOfOthers(ps, e.h);
        ps := OfOthers(ps, e.h);
      } else if e.Install? && e.device == d && e.outcome == Installed {
        Gains(base, before, e, d, ps);
        var p := (n, EntryOf(base, es, n, d));
        EntriesSnoc(ps, p);
        ps := ps + [p];
      } else {
        StillTells(base, before, e, d, ps);
      }
    }
  }

  lemma NothingYet<N, H>(base: map<int, Resource>, es: seq<Event<N, H>>, d: int)
    requires d in base && es == []
    ensures Tells(base, es, d, []) && OnDevice(RefRun(base, es).log, d) == [] && Entries<N, H>([]) == []
  {}

  lemma LogStep<N, H>(base: map<int, Resource>, es: seq<Event<N, H>>, e: Event<N, H>, d: int)
    requires d in base
    ensures var own, own' := OnDevice(RefRun(base, es).log, d), OnDevice(RefRun(base, es + [e]).log, d);
      own' ==
        if e.Release? || e.Destroy? then Without(own, e.h)
        else if e.Install? && e.device == d && e.outcome == Installed then own + [EntryOf(base, es + [e], |es|, d)]
        else own
  {
    var log := RefRun(base, es).log;
    assert (es + [e])[..|es|] == es;
    if e.Release? || e.Destroy? { WithoutOfDevice(log, e.h, d); }
    if e.Install? && e.outcome == Installed && e.device in base {
      OnDeviceSnoc(log, Live(e.h, e.node, e.device, Pool(RefRun(base, es).next,
        MostRecent(RefRun(base, es), e.device, base))), d);
    }
  }

  // ---------------------------------------------------------------- what is current

  lemma {:induction false} RunPrefix<N, H>(base: map<int, Resource>, es: seq<Event<N, H>>, i: nat)
    requires i <= |es| && Run(base, es).Some?
    ensures Run(base, es[..i]).Some?
    decreases |es|
  {
    if i < |es| {
      RunPrefix(base, es[..|es| - 1], i);
      assert es[..|es| - 1][..i] == es[..i];
    } else {
      assert es[..i] == es;
    }
  }

  /** After every run: the last installation on d whose handle has not let go since has made the current
      resource, a new pool on what was current just before it; without one it is the original resource. */
  lemma CurrentByHistory<N, H>(base: map<int, Resource>, es: seq<Event<N, H>>, d: int)
    requires (forall d :: d in base ==> base[d].Base?) && d in base && Run(base, es).Some?
    ensures d in Run(base, es).value.current
    ensures (forall i :: 0 <= i < |es| ==> !LiveAt(es, i, d)) ==> Run(base, es).value.current[d] == base[d]
    ensures forall i :: 0 <= i < |es| && LiveAt(es, i, d) && (forall j :: i < j < |es| ==> !LiveAt(es, j, d)) ==>
      var earlier := Run(base, es[..i]);
      && earlier.Some? && d in earlier.value.current
      && Run(base, es).value.current[d] == Pool(earlier.value.nextPool, earlier.value.current[d])
  {
    hide Run, RefRun, OnDevice, Entries, EntryOf, LiveAt, Tells, Refines;
    var ps := History(base, es, d);
    EveryRunRefines(base, es);
    assert d in Run(base, es).value.current by { DevicesStay(Run(base, es).value, RefRun(base, es), base); }
    NoEntries(ps);
    NewestLive(base, es, d, ps);
    if ps != [] {
      var last := ps[|ps| - 1];
      InRange(base, es, d, ps, last);
      RunPrefix(base, es, last.0);
      EveryRunRefines(base, es[..last.0]);
      DevicesStay(Run(base, es[..last.0]).value, RefRun(base, es[..last.0]), base);
      LastEntry(base, es, last.0, d, last.1);
    }
  }

  lemma DevicesStay<N, H>(s: State<N, H>, r: Ref<N, H>, base: map<int, Resource>)
    requires Refines(s, r, base)
    ensures s.current.Keys == base.Keys
  {}

  /** The newest live installation is the one of the last entry. */
  lemma NewestLive<N, H>(base: map<int, Resource>, es: seq<Event<N, H>>, d: int, ps: seq<(int, Live<N, H>)>)
    requires d in base && Tells(base, es, d, ps)
    ensures ps != [] ==> LiveAt(es, ps[|ps| - 1].0, d)
    ensures forall i :: 0 <= i < |es| && LiveAt(es, i, d) && (forall j :: i < j < |es| ==> !LiveAt(es, j, d)) ==>
      ps != [] && i == ps[|ps| - 1].0
  {
    hide LiveAt, EntryOf;
    if ps != [] { assert EntryAt(base, es, ps[|ps| - 1].0, d, ps[|ps| - 1].1); }
    forall i | 0 <= i < |es| && LiveAt(es, i, d) && (forall j :: i < j < |es| ==> !LiveAt(es, j, d))
      ensures ps != [] && i == ps[|ps| - 1].0
    {
      assert Found(base, es, i, d, ps);
      var k :| 0 <= k < |ps| && ps[k].0 == i;
      InRange(base, es, d, ps, ps[|ps| - 1]);
    }
  }

  lemma NoEntries<N, H>(ps: seq<(int, Live<N, H>)>)
    ensures if ps == [] then Entries(ps) == []
            else Entries(ps) != [] && Entries(ps)[|Entries(ps)| - 1] == ps[|ps| - 1].1
  {}

  lemma LastEntry<N, H>(base: map<int, Resource>, es: seq<Event<N, H>>, i: nat, d: int, x: Live<N, H>)
    requires d in base && i < |es| && es[i].Install? && x == EntryOf(base, es, i, d)
    requires Run(base, es[..i]).Some? && Refines(Run(base, es[..i]).value, RefRun(base, es[..i]), base)
    requires d in Run(base, es[..i]).value.current
    requires Run(base, es[..i]).value.current[d] == MostRecent(RefRun(base, es[..i]), d, base)
    ensures x.pool == Pool(Run(base, es[..i]).value.nextPool, Run(base, es[..i]).value.current[d])
  {}

  // ---------------------------------------------------------------- which runs are possible

  /** Some event created h, and none has destroyed it since. */
  ghost predicate Exists<N, H>(es: seq<Event<N, H>>, h: H) { exists i :: CreatedAt(es, i, h) }

  ghost predicate CreatedAt<N, H>(es: seq<Event<N, H>>, i: int, h: H) {
    0 <= i < |es| && es[i] == Create(h) && forall j :: i < j < |es| ==> es[j] != Destroy(h)
  }

  lemma ExistsBefore<N, H>(es: seq<Event<N, H>>, e: Event<N, H>, h: H)
    ensures Exists(es + [e], h) <==> e == Create(h) || (Exists(es, h) && e != Destroy(h))
  {
    var more := es + [e];
    if e == Create(h) { assert CreatedAt(more, |es|, h); }
    if i :| CreatedAt(es, i, h) && e != Destroy(h) { assert CreatedAt(more, i, h); }
    if i :| CreatedAt(more, i, h) && e != Create(h) {
      assert more[|es|] == e;
      forall j | i < j < |es| ensures es[j] != Destroy(h) { assert more[j] == es[j]; }
      assert CreatedAt(es, i, h);
    }
  }

  /** The handles of a state are those that were created and not destroyed since. */
  lemma {:induction false} HandlesExist<N, H>(base: map<int, Resource>, es: seq<Event<N, H>>, h: H)
    requires Run(base, es).Some?
    ensures h in Run(base, es).value.handles <==> Exists(es, h)
  {
    hide Exists;
    if es == [] {
      assert !Exists(es, h) by { NothingExists(es, h); }
    } else {
      HandlesExist(base, es[..|es| - 1], h);
      Split(es);
      ExistsBefore(es[..|es| - 1], es[|es| - 1], h);
    }
  }

  lemma NothingExists<N, H>(es: seq<Event<N, H>>, h: H)
    requires es == []
    ensures !Exists(es, h)
  {}

  /** Some installation by h is still live. */
  ghost predicate HoldsPool<N, H>(es: seq<Event<N, H>>, h: H) { exists i, d :: HeldAt(es, i, d, h) }

  ghost predicate HeldAt<N, H>(es: seq<Event<N, H>>, i: int, d: int, h: H) { LiveAt(es, i, d) && es[i].h == h }

  lemma DeviceExists<N, H>(base: map<int, Resource>, es: seq<Event<N, H>>, i: nat)
    requires (forall d :: d in base ==> base[d].Base?) && i < |es| && es[i].Install? && Run(base, es).Some?
    ensures es[i].device in base
  {
    RunPrefix(base, es, i + 1);
    assert es[..i + 1][..i] == es[..i];
    EveryRunRefines(base, es[..i]);
  }

  lemma {:induction false} InEntries<N, H>(ps: seq<(int, Live<N, H>)>, x: Live<N, H>)
    ensures x in Entries(ps) <==> exists p :: p in ps && p.1 == x
  {
    if ps != [] {
      InEntries(ps[..|ps| - 1], x);
      Split(ps);
    }
  }

  /** A handle holds a pool exactly when an installation by it is still live. */
  lemma HoldingExactly<N, H>(base: map<int, Resource>, es: seq<Event<N, H>>, h: H)
    requires (forall d :: d in base ==> base[d].Base?) && Run(base, es).Some? && h in Run(base, es).value.handles
    ensures Run(base, es).value.handles[h].Holding? <==> HoldsPool(es, h)
  {
    hide Run, RefRun, OnDevice, Entries, EntryOf, LiveAt, Distinct;
    var s, r := Run(base, es).value, RefRun(base, es);
    EveryRunRefines(base, es);
    if s.handles[h].Holding? {
      assert Logged(r.log, h);
      var x :| x in r.log && x.h == h;
      assert Remembered(s, x);
      OnDeviceIn(r.log, x.device, x);
      var ps := History(base, es, x.device);
      InEntries(ps, x);
      var p :| p in ps && p.1 == x;
      InRange(base, es, x.device, ps, p);
      assert HeldAt(es, p.0, x.device, h);
    }
    if i, d :| HeldAt(es, i, d, h) {
      LivePosition(es, i, d);
      DeviceExists(base, es, i);
      var ps := History(base, es, d);
      assert Found(base, es, i, d, ps);
      var p := (i, EntryOf(base, es, i, d));
      InRange(base, es, d, ps, p);
      InEntries(ps, p.1);
      OnDeviceIn(r.log, d, p.1);
      assert Remembered(s, p.1);
    }
  }

  lemma LivePosition<N, H>(es: seq<Event<N, H>>, i: int, d: int)
    requires LiveAt(es, i, d)
    ensures 0 <= i < |es| && es[i].Install? && es[i].device == d
  {}

  /** Which event can come next: a handle is created when there is none of that name, released and destroyed
      when there is, and may install on any device when it holds no pool. */
  lemma NextExactly<N, H>(base: map<int, Resource>, es: seq<Event<N, H>>, e: Event<N, H>)
    requires (forall d :: d in base ==> base[d].Base?) && Run(base, es).Some?
    ensures Run(base, es + [e]).Some? <==>
      && (e.Create? <==> !Exists(es, e.h))
      && (e.Install? ==> !HoldsPool(es, e.h) && e.device in base && Fresh(Run(base, es).value, e.node))
  {
    hide Exists, HoldsPool, Step, Fresh;
    assert (es + [e])[..|es|] == es;
    EveryRunRefines(base, es);
    RefinesSensible(Run(base, es).value, RefRun(base, es), base);
    HandlesExist(base, es, e.h);
    if e.h in Run(base, es).value.handles { HoldingExactly(base, es, e.h); }
  }

  /** The shortest run with a pool: create a handle and install on a device. */
  lemma FirstPool<N, H>(base: map<int, Resource>, h: H, d: int, n: N)
    requires (forall d :: d in base ==> base[d].Base?) && d in base
    ensures var s := Run(base, [Create(h), Install(h, d, n, Installed)]);
      && s.Some? && s.value.current == base[d := Pool(0, base[d])]
      && s.value.handles == map[h := Holding(d, n)] && s.value.lists == map[d := [Entry(n, true, base[d])]]
  {
    var es := [Create(h), Install(h, d, n, Installed)];
    assert es[..1] == [Create(h)] && es[..1][..0] == [];
    assert Run<N, H>(base, []) == Some(Initial(base));
    assert [] + [Entry(n, true, base[d])] == [Entry(n, true, base[d])];
    assert Run(base, es[..1]) == Some(State(map[], base, map[h := Idle], 0, {}));
  }
}
