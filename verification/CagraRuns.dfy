/** What holds of the CAGRA handles in every run of calls: EveryRunIsWellTyped and UntouchedHandlesStay. The
    rest are consequences that can be read off one step of the reference. */
module CagraRuns {
  import opened Common
  import opened CagraModel

  // ---------------------------------------------------------------- types

  /** A non-empty index has a supported element type and a quantized one has float queries; a filled
      dataset has a view, and the element type that its storage has. */
  ghost predicate WellTyped(s: State) {
    match s
    case Index(t, content) => content.Some? ==> Dispatch(t).Some? && (content == Some(DeviceVpq) ==> t == FLOAT32)
    case Dataset(t, mem, layout, _, filled) =>
      filled ==> Dispatch(t).Some? && ViewOf(mem, layout).Some? && (layout == Pq ==> t == FLOAT32)
  }

  ghost predicate AllWellTyped(r: Ref) { forall h :: h in r ==> WellTyped(r[h]) }

  lemma StepKeepsTypes(r: Ref, c: Call)
    requires Enabled(r, c) && AllWellTyped(r)
    ensures AllWellTyped(RefStep(r, c).ref)
  {
    match c {
      case MakeDataset(d, maker, ok) =>
      case Build(params, d, h, ok) => if d.Some? { assert WellTyped(r[d.value]); }
      case UpdateDataset(d, h, ok) => if d.Some? { assert WellTyped(r[d.value]); }
      case Merge(_, inputs, _, _, d, h, _) => MergeKeepsTypes(r, c);
      case _ =>
    }
  }

  lemma MergeKeepsTypes(r: Ref, c: Call)
    requires c.Merge? && Enabled(r, c) && AllWellTyped(r)
    ensures AllWellTyped(AfterMerge(r, c).ref)
  {
    if MergeAccepted(r, c) {
      assert ContentOf(r, c.inputs[0]).Some? && WellTyped(r[c.inputs[0].value]);
    }
  }

  /** In every run the dtype of a handle fits what it contains, so the type that an entry point selects
      by dtype, tag and layout exists and is the stored one. */
  lemma {:induction false} EveryRunIsWellTyped(calls: seq<Call>)
    ensures AllWellTyped(RefRun(EMPTY, calls))
  {
    if calls != [] {
      var s, c := RefRun(EMPTY, calls[..|calls| - 1]), calls[|calls| - 1];
      EveryRunIsWellTyped(calls[..|calls| - 1]);
      if Enabled(s, c) { StepKeepsTypes(s, c); }
    }
  }

  // ---------------------------------------------------------------- what a call leaves alone

  function Pointed(p: Option<nat>): set<nat> { if p.Some? then {p.value} else {} }

  /** The handles that a call may change. */
  function Targets(c: Call): set<nat> {
    match c
    case CreateIndex(h) => {h}
    case DestroyIndex(h) => {h}
    case CreateDataset(d) => {d}
    case MakeDataset(d, _, _) => {d}
    case DestroyDataset(d) => Pointed(d)
    case Build(_, _, h, _) => Pointed(h)
    case FromArgs(_, h, _) => {h}
    case UpdateDataset(_, h, _) => Pointed(h)
    case Extend(_, _, _) => {}
    case Search(_, _, _, _) => {}
    case Merge(_, _, _, _, d, h, _) => Pointed(d) + Pointed(h)
    case DeserializeGraph(_, h, _, _) => Pointed(h)
    case DeserializeBoth(_, h, _, d, _, _) => Pointed(h) + {d}
  }

  ghost predicate SameAt(r: Ref, s: Ref, h: nat) {
    (h in r <==> h in s) && (h in r && h in s ==> r[h] == s[h])
  }

  lemma StepLeavesAlone(r: Ref, c: Call, g: nat)
    requires Enabled(r, c) && g !in Targets(c)
    ensures SameAt(r, RefStep(r, c).ref, g)
  {}

  /** A handle changes only by the calls that name it as their target, whatever happens to the others. */
  lemma {:induction false} UntouchedHandlesStay(r: Ref, calls: seq<Call>, g: nat)
    requires forall k :: 0 <= k < |calls| ==> g !in Targets(calls[k])
    ensures SameAt(r, RefRun(r, calls), g)
  {
    if calls != [] {
      var s, c := RefRun(r, calls[..|calls| - 1]), calls[|calls| - 1];
      UntouchedHandlesStay(r, calls[..|calls| - 1], g);
      if Enabled(s, c) { StepLeavesAlone(s, c, g); }
    }
  }

  // ---------------------------------------------------------------- failures

  /** The calls that free the target's box before the library works. */
  predicate FreesFirst(r: Ref, c: Call)
    requires Enabled(r, c)
  {
    match c
    case Build(params, d, h, _) => Filled(r, d) && params && h.Some?
    case FromArgs(_, _, _) => true
    case Merge(_, _, _, _, _, _, _) => MergeAccepted(r, c)
    case _ => false
  }

  function Target(c: Call): nat
    requires c.Build? || c.FromArgs? || c.Merge?
  {
    match c
    case Build(_, _, h, _) => if h.Some? then h.value else 0
    case FromArgs(_, h, _) => h
    case Merge(_, _, _, _, _, h, _) => if h.Some? then h.value else 0
  }

  /** A failed call changes nothing at all, except that a failed build, from-args or merge that had
      passed its first checks leaves its target empty, with the new dtype. */
  lemma FailureIsContained(r: Ref, c: Call)
    requires Enabled(r, c) && !RefStep(r, c).ok
    ensures !FreesFirst(r, c) ==> RefStep(r, c).ref == r
    ensures FreesFirst(r, c) ==> IsIndex(RefStep(r, c).ref, Target(c)) && RefStep(r, c).ref[Target(c)].content == None
    ensures FreesFirst(r, c) ==> forall g :: g != Target(c) ==> SameAt(r, RefStep(r, c).ref, g)
  {}

  // ---------------------------------------------------------------- merging

  /** Exactly when a merge succeeds. */
  lemma MergeSucceedsExactly(r: Ref, c: Call)
    requires c.Merge? && Enabled(r, c)
    ensures RefStep(r, c).ok <==>
      && MergeAccepted(r, c) && c.index !in c.inputs && ShareLayout(r, c.inputs) && c.filter != Bitmap
      && if c.outcome == OutOfDeviceMemory(true) then c.filter == NoFilter && c.algo != Some(FASTENER)
         else c.outcome == MergedOnDevice
  {}

  /** A merge into one of its inputs passes the checks, frees that input and then fails. */
  lemma MergeIntoAnInputLosesIt(r: Ref, c: Call)
    requires c.Merge? && Enabled(r, c) && MergeAccepted(r, c) && c.index in c.inputs
    ensures !RefStep(r, c).ok && ContentOf(r, c.index).Some? && ContentOf(RefStep(r, c).ref, c.index) == None
  {
    var i :| 0 <= i < |c.inputs| && c.inputs[i] == c.index;
    assert ContentOf(r, c.inputs[i]).Some?;
  }

  // ---------------------------------------------------------------- searching

  /** What every index needs before it can be searched: after an update that succeeds, every search with
      queries of the index's type is accepted, whatever layout the index had before. */
  lemma UpdatedIndexIsSearchable(r: Ref, d: Option<nat>, h: nat, ok: bool, queries: DType)
    requires Enabled(r, UpdateDataset(d, Some(h), ok)) && RefStep(r, UpdateDataset(d, Some(h), ok)).ok
    ensures var s := RefStep(r, UpdateDataset(d, Some(h), ok)).ref;
      RefStep(s, Search(true, queries, h, true)).ok <==> queries == r[h].dtype
  {}

  /** An index that was merged or built over a host dataset, loaded with one, or built over a standard or
      BBQ dataset cannot be searched; attaching the loaded or merged dataset helps only if it is padded
      on the device, and then the index could be searched before. */
  lemma LoadedDatasetHelpsOnlyIfSearchable(r: Ref, named: bool, h: nat, outNull: bool, d: nat, file: Option<Header>)
    requires var c := DeserializeBoth(named, Some(h), outNull, d, file, WithDataset); Enabled(r, c) && RefStep(r, c).ok
    ensures var s := RefStep(r, DeserializeBoth(named, Some(h), outNull, d, file, WithDataset)).ref;
      && (Updatable(s, Some(d), Some(h)) <==> s[h].content == Some(DevicePadded))
      && (Updatable(s, Some(d), Some(h)) <==> RefStep(s, Search(true, s[h].dtype, h, true)).ok)
  {}

  /** `cuvsCagraIndexFromArgs` may report success and leave the handle empty: exactly for a tensor of a
      supported type that is in neither device nor host memory. */
  lemma SuccessMayLeaveEmpty(r: Ref, t: Tensor, h: nat, ok: bool)
    requires Enabled(r, FromArgs(t, h, ok)) && RefStep(r, FromArgs(t, h, ok)).ok
    ensures ContentOf(RefStep(r, FromArgs(t, h, ok)).ref, Some(h)) == None <==> !t.device && !t.host
  {}
}
