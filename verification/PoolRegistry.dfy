/** The registry itself: `pool_installation`, `pool_registry` and `single_gpu_resources` of
    c/src/core/c_api.cpp as objects that are updated in place, each critical section proved to take
    exactly the step of PoolModel. */
module PoolRegistry {
  import opened Common
  import opened PoolModel
  import opened PoolProofs

  /** An element of a device's installation list. A handle's iterator is a reference to it. */
  class PoolInstallation {
    var active: bool
    var previousResource: Option<Resource>

    constructor ()
      ensures active && previousResource == None
    {
      active, previousResource := true, None;
    }
  }

  class SingleGpuResources {
    var poolDevice: Option<int>
    var poolInstallation: PoolInstallation?
    var workspaceConfigured: bool
    var largeWorkspaceConfigured: bool

    constructor ()
      ensures poolDevice == None && poolInstallation == null
      ensures !workspaceConfigured && !largeWorkspaceConfigured
    {
      poolDevice, poolInstallation := None, null;
      workspaceConfigured, largeWorkspaceConfigured := false, false;
    }
  }

  datatype Status = Success | InvalidPercent | WorkspaceInUse | Thrown

  class Registry {
    var devices: map<int, seq<PoolInstallation>>
    var current: map<int, Resource>  // the per-device resources of RMM
    var nextPool: nat                // the identity of the next pool object
    ghost var nodes: set<PoolInstallation>
    ghost var state: State<PoolInstallation, SingleGpuResources>
    ghost var ref: Ref<PoolInstallation, SingleGpuResources>
    ghost const base: map<int, Resource>

    /** The list that `entries` describes is the one in memory. */
    ghost predicate IsList(list: seq<PoolInstallation>, entries: seq<Entry<PoolInstallation>>)
      reads this`nodes, nodes
    {
      && |list| == |entries|
      && forall i :: 0 <= i < |list| ==>
           && entries[i].node == list[i] && list[i] in nodes
           && list[i].active == entries[i].active
           && list[i].previousResource == Some(entries[i].previous)
    }

    ghost predicate IsHandle(h: SingleGpuResources, v: Handle<PoolInstallation>)
      reads h
    {
      match v
      case Idle => h.poolDevice == None
      case Holding(d, n) => h.poolDevice == Some(d) && h.poolInstallation == n
    }

    /** The objects in memory are the ones that the state s describes. */
    ghost predicate Represents(s: State<PoolInstallation, SingleGpuResources>)
      reads this`devices, this`current, this`nextPool, this`nodes, nodes, s.handles.Keys
    {
      && devices.Keys == s.lists.Keys
      && (forall d :: d in devices ==> IsList(devices[d], s.lists[d]))
      && current == s.current
      && nextPool == s.nextPool
      && (forall h :: h in s.handles ==> IsHandle(h, s.handles[h]))
    }

    ghost predicate Valid()
      reads this, nodes, state.handles.Keys
    {
      Represents(state) && Refines(state, ref, base)
    }

    constructor (resources: map<int, Resource>)
      requires forall d :: d in resources ==> resources[d].Base?
      ensures Valid() && state == Initial(resources) && base == resources
    {
      devices, current, nextPool := map[], resources, 0;
      nodes, base, ref, state := {}, resources, Ref([], 0), Initial(resources);
    }

    /** `cuvsResourcesCreate` */
    method CreateHandle() returns (h: SingleGpuResources)
      requires Valid()
      modifies this`state
      ensures Valid() && fresh(h)
      ensures Sensible(old(state)) && state == Step(old(state), Create(h))
      ensures h !in old(state).handles && state == old(state).(handles := old(state).handles[h := Idle])
    {
      hide Refines;
      h := new SingleGpuResources();
      StepPreserves(state, ref, base, Create(h));
      state := Step(state, Create(h));
    }

    /** `reset_memory_pool` */
    method Reset(h: SingleGpuResources)
      requires Valid() && h in state.handles
      modifies this, h`poolDevice, nodes
      ensures Valid() && nodes == old(nodes)
      ensures Sensible(old(state)) && state == Step(old(state), Release(h))
      ensures ref == RefStep(old(ref), Release(h), base)
      ensures h.poolDevice == None
    {
      hide Refines;
      ghost var s := state;
      StepPreserves(state, ref, base, Release(h));
      state, ref := Step(state, Release(h)), RefStep(ref, Release(h), base);
      if h.poolDevice == None { return; }
      HoldingHasEntry(s, old(ref), base, h);
      ReleaseInstallation(h, s);
    }

    /** The rest of `reset_memory_pool`, for a handle that holds a pool. */
    method ReleaseInstallation(h: SingleGpuResources, ghost s: State<PoolInstallation, SingleGpuResources>)
      requires Represents(s) && h in s.handles && s.handles[h].Holding?
      requires s.handles[h].device in s.lists && s.handles[h].device in s.current
      requires forall d, i :: d in s.lists && d != s.handles[h].device && 0 <= i < |s.lists[d]| ==>
        s.lists[d][i].node != s.handles[h].node
      modifies this`devices, this`current, h`poolDevice, h.poolInstallation`active
      ensures h.poolDevice == None && Represents(ReleaseStep(s, h))
    {
      hide Chained, Actives, DropNode, Unwind, Deactivate, IsList;
      var d := h.poolDevice.value;
      ghost var entries := Deactivate(s.lists[d], h.poolInstallation);
      MarkInactive(h.poolInstallation, d, s);
      PopInactive(d, entries, s.freed);
      ghost var t := ReleaseStep(s, h);
      assert devices.Keys == t.lists.Keys && forall d' :: d' in devices ==> IsList(devices[d'], t.lists[d']);
      h.poolDevice := None;
      assert devices.Keys == t.lists.Keys && forall d' :: d' in devices ==> IsList(devices[d'], t.lists[d']);
      assert forall h' :: h' in t.handles ==> IsHandle(h', t.handles[h']);
    }

    /** `pool_installation_->active = false;` */
    method MarkInactive(n: PoolInstallation, d: int, ghost s: State<PoolInstallation, SingleGpuResources>)
      requires devices.Keys == s.lists.Keys && d in devices && forall d' :: d' in devices ==>
        IsList(devices[d'], s.lists[d'])
      requires forall d', i :: d' in s.lists && d' != d && 0 <= i < |s.lists[d']| ==> s.lists[d'][i].node != n
      modifies n`active
      ensures IsList(devices[d], Deactivate(s.lists[d], n))
      ensures forall d' :: d' in devices && d' != d ==> IsList(devices[d'], s.lists[d'])
    {
      hide Chained, Actives, DropNode, Deactivate;
      DeactivateKeepsChain(s.lists[d], n, Base(0), Base(0));
      n.active := false;
    }

    /** The loop of `reset_memory_pool`: newer pools may still use an older one, so an inactive entry
        stays until it is at the back. */
    method PopInactive(d: int, ghost list: seq<Entry<PoolInstallation>>, ghost destroyed: set<nat>)
      requires d in devices && d in current && IsList(devices[d], list)
      modifies this`devices, this`current
      ensures var slot := Unwind(Slot(list, old(current[d]), destroyed));
        && current == old(current)[d := slot.current]
        && (slot.list == [] ==> devices == old(devices) - {d})
        && (slot.list != [] ==>
              d in devices && devices == old(devices)[d := devices[d]] && IsList(devices[d], slot.list))
    {
      ghost var slot := Slot(list, current[d], destroyed);
      while devices[d] != [] && !devices[d][|devices[d]| - 1].active
        invariant d in devices && d in current
        invariant devices == old(devices)[d := devices[d]] && current == old(current)[d := current[d]]
        invariant IsList(devices[d], slot.list) && slot.current == current[d]
        invariant Unwind(slot) == Unwind(Slot(list, old(current[d]), destroyed))
        decreases |devices[d]|
      {
        var last := |devices[d]| - 1;
        var previous := devices[d][last].previousResource.value;
        devices := devices[d := devices[d][..last]];
        slot := Slot(slot.list[..last], previous, slot.freed + Dropped(current[d]));
        current := current[d := previous];
      }
      if devices[d] == [] { devices := devices - {d}; }
    }

    /** The second critical section of `set_memory_pool`. `outcome` is how RMM answers: the pool
        cannot be made, it cannot be installed, or both succeed. */
    method InstallPool(h: SingleGpuResources, d: int, outcome: Outcome) returns (status: Status)
      requires Valid() && h in state.handles && h.poolDevice == None && d in current
      modifies this, h`poolDevice, h`poolInstallation
      ensures Valid()
      ensures status == if outcome == Installed then Success else Thrown
      ensures outcome == PoolThrows ==> state == old(state)
      ensures outcome == SetThrows ==>
        state == old(state).(nextPool := old(state).nextPool + 1, freed := old(state).freed + {old(state).nextPool})
      ensures outcome != Installed ==> nodes == old(nodes) && devices == old(devices) && current == old(current)
      ensures outcome == Installed ==>
        && h.poolDevice == Some(d) && h.poolInstallation != null && fresh(h.poolInstallation)
        && nodes == old(nodes) + {h.poolInstallation}
        && var e := Event.Install(h, d, h.poolInstallation, Installed);
           && Sensible(old(state)) && Enabled(old(state), e)
           && state == Step(old(state), e) && ref == RefStep(old(ref), e, base)
    {
      hide Refines, Represents, InstallStep;
      ghost var s, r := state, ref;
      ListsNonEmpty(s, r, base);
      HoldsNothing(s, h);
      status := TryInstall(h, d, outcome, s);
      if outcome == SetThrows {
        FailedInstallPreserves(s, r, base);
        state, ref := s.(nextPool := s.nextPool + 1, freed := s.freed + {s.nextPool}), r.(next := r.next + 1);
      } else if outcome == Installed {
        ghost var e := Event.Install(h, d, h.poolInstallation, Installed);
        StepPreserves(s, r, base, e);
        state, ref := Step(s, e), RefStep(r, e, base);
      }
    }

    lemma HoldsNothing(s: State<PoolInstallation, SingleGpuResources>, h: SingleGpuResources)
      requires Represents(s) && h in s.handles && h.poolDevice == None
      ensures s.handles[h].Idle?
    {
      assert IsHandle(h, s.handles[h]);
    }

    lemma ListedNodes(s: State<PoolInstallation, SingleGpuResources>)
      requires Represents(s)
      ensures forall d, i :: d in s.lists && 0 <= i < |s.lists[d]| ==> s.lists[d][i].node in nodes
    {
      forall d | d in s.lists ensures IsList(devices[d], s.lists[d]) {}
    }

    /** `installations.emplace(installations.end())`, in a list that is made when there is none. */
    method Append(d: int) returns (installation: PoolInstallation)
      modifies this`devices
      ensures fresh(installation) && installation.active
      ensures devices == old(devices)[d := (if d in old(devices) then old(devices)[d] else []) + [installation]]
    {
      installation := new PoolInstallation();
      devices := devices[d := (if d in devices then devices[d] else []) + [installation]];
    }

    method TryInstall(h: SingleGpuResources, d: int, outcome: Outcome,
            ghost s: State<PoolInstallation, SingleGpuResources>)
      returns (status: Status)
      requires Represents(s) && h in s.handles && h.poolDevice == None && d in current
      requires forall d' :: d' in s.lists ==> s.lists[d'] != []
      modifies this`devices, this`current, this`nextPool, this`nodes, h`poolDevice, h`poolInstallation
      ensures status == if outcome == Installed then Success else Thrown
      ensures outcome == PoolThrows ==> Represents(s)
      ensures outcome == SetThrows ==> Represents(s.(nextPool := s.nextPool + 1, freed := s.freed + {s.nextPool}))
      ensures outcome != Installed ==> nodes == old(nodes) && devices == old(devices) && current == old(current)
      ensures outcome == Installed ==>
        && h.poolDevice == Some(d) && h.poolInstallation != null && fresh(h.poolInstallation)
        && nodes == old(nodes) + {h.poolInstallation}
        && d in s.current && Fresh(s, h.poolInstallation)
        && Represents(InstallStep(s, h, d, h.poolInstallation, Installed))
    {
      ListedNodes(s);
      hide InstallStep, IsHandle, IsList;
      if outcome == PoolThrows { return Thrown; }
      var pool := Pool(nextPool, current[d]);
      nextPool := nextPool + 1;
      ghost var before := devices;
      var installation := Append(d);
      if outcome == SetThrows {
        Erase(d, before);
        return Thrown;
      }
      RecordInstallation(h, d, installation, pool, s, if d in before then before[d] else []);
      status := Success;
    }

    /** The `catch` block of `set_memory_pool`. */
    method Erase(d: int, ghost before: map<int, seq<PoolInstallation>>)
      requires d in devices && devices[d] != []
      requires d in before ==> before[d] != []
      requires devices == before[d := devices[d]]
      requires devices[d][..|devices[d]| - 1] == if d in before then before[d] else []
      modifies this`devices
      ensures devices == before
    {
      devices := devices[d := devices[d][..|devices[d]| - 1]];
      if devices[d] == [] { devices := devices - {d}; }
    }

    /** The new element remembers the resource that was replaced. */
    method Emplace(d: int, n: PoolInstallation, ghost s: State<PoolInstallation, SingleGpuResources>,
            ghost below: seq<PoolInstallation>)
      requires d in current && n.active && n !in nodes
      requires devices.Keys == s.lists.Keys + {d}
      requires (forall d' :: d' in s.lists && d' != d ==> IsList(devices[d'], s.lists[d']))
      requires devices[d] == below + [n] && if d in s.lists then IsList(below, s.lists[d]) else below == []
      modifies this`nodes, n`previousResource
      ensures nodes == old(nodes) + {n}
      ensures IsList(devices[d], ListOf(s, d) + [Entry(n, true, current[d])])
      ensures forall d' :: d' in s.lists && d' != d ==> IsList(devices[d'], s.lists[d'])
    {
      nodes := nodes + {n};
      n.previousResource := Some(current[d]);
      assert forall i :: 0 <= i < |below| ==> devices[d][i] == below[i] && below[i] != n;
    }

    /** The installation has been appended and RMM has accepted the pool. */
    method RecordInstallation(h: SingleGpuResources, d: int, n: PoolInstallation, pool: Resource,
                              ghost s: State<PoolInstallation, SingleGpuResources>, ghost below: seq<PoolInstallation>)
      requires h in s.handles && d in s.current && current == s.current && n.active && n !in nodes
      requires nextPool == s.nextPool + 1 && pool == Pool(s.nextPool, s.current[d])
      requires devices.Keys == s.lists.Keys + {d}
      requires (forall d' :: d' in s.lists && d' != d ==> IsList(devices[d'], s.lists[d']))
      requires devices[d] == below + [n] && if d in s.lists then IsList(below, s.lists[d]) else below == []
      requires forall h' :: h' in s.handles ==> IsHandle(h', s.handles[h'])
      modifies this`nodes, this`current, n`previousResource, h`poolDevice, h`poolInstallation
      ensures nodes == old(nodes) + {n} && h.poolDevice == Some(d) && h.poolInstallation == n
      ensures Represents(InstallStep(s, h, d, n, Installed))
    {
      hide IsList, ListOf;
      ghost var t := InstallStep(s, h, d, n, Installed);
      Emplace(d, n, s, below);
      current := current[d := pool];
      h.poolDevice, h.poolInstallation := Some(d), n;
    }

    /** `set_memory_pool` on a handle that only its own thread uses. A call that is refused before
        its first critical section changes nothing; a call that throws in its second one leaves the
        state that its own reset produced, but for the identity of the pool that was lost. */
    method SetMemoryPool(h: SingleGpuResources, percent: int, d: int, outcome: Outcome) returns (status: Status)
      requires Valid() && h in state.handles && d in current
      modifies this, h, nodes
      ensures Valid() && Sensible(old(state))
      ensures status == InvalidPercent <==> !(0 < percent <= 100)
      ensures status == WorkspaceInUse <==>
        0 < percent <= 100 && (old(h.workspaceConfigured) || old(h.largeWorkspaceConfigured))
      ensures status in {InvalidPercent, WorkspaceInUse} ==> state == old(state)
      ensures status == Thrown ==>
        var reset := Step(old(state), Release(h));
        && outcome != Installed
        && state == (if outcome == PoolThrows then reset
                     else reset.(nextPool := reset.nextPool + 1, freed := reset.freed + {reset.nextPool}))
      ensures status == Success ==>
        var reset := Step(old(state), Release(h));
        && outcome == Installed && h.poolInstallation != null && d in reset.current
        && state == InstallStep(reset, h, d, h.poolInstallation, Installed)
    {
      hide Refines;
      RefinesSensible(state, ref, base);
      if !(0 < percent <= 100) { return InvalidPercent; }
      if h.workspaceConfigured || h.largeWorkspaceConfigured { return WorkspaceInUse; }
      Reset(h);
      status := InstallPool(h, d, outcome);
    }

    /** `cuvsResourcesDestroy`: the destructor resets, then the handle is gone. */
    method DestroyHandle(h: SingleGpuResources)
      requires Valid() && h in state.handles
      modifies this, h`poolDevice, nodes
      ensures Valid() && Sensible(old(state)) && state == Step(old(state), Destroy(h))
      ensures state.handles == old(state).handles - {h}
    {
      hide Refines;
      StepPreserves(state, ref, base, Destroy(h));
      ghost var t := Step(state, Destroy(h));
      Reset(h);
      state := t;
    }
  }
}
