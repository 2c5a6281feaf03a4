/** The handles of the CAGRA C interface (c/src/neighbors/cagra.cpp) as values: for every handle what it
    contains, without addresses, boxes, tags and casts. This is the reference for CagraHandles. */
module CagraModel {
  import opened Common

  // ---------------------------------------------------------------- types

  /** A `DLDataType`; the third component, lanes, is compared nowhere. */
  datatype DType = DType(code: int, bits: int)

  const DL_INT := 0
  const DL_UINT := 1
  const DL_FLOAT := 2
  const FLOAT32 := DType(DL_FLOAT, 32)

  datatype Elem = F32 | F16 | I8 | U8

  /** The ladder with which every entry point selects the element type of its casts. */
  function Dispatch(t: DType): Option<Elem> {
    if t.code == DL_FLOAT && t.bits == 32 then Some(F32)
    else if t.code == DL_FLOAT && t.bits == 16 then Some(F16)
    else if t.code == DL_INT && t.bits == 8 then Some(I8)
    else if t.code == DL_UINT && t.bits == 8 then Some(U8)
    else None
  }

  datatype Mem = Host | Device
  datatype Layout = Standard | Padded | Pq | Bbq

  /** The dataset view of an index type; also the layout tag of a box. */
  datatype View = DevicePadded | HostPadded | DeviceStandard | DeviceVpq | DeviceBbq | HostStandard

  function ViewOf(mem: Mem, layout: Layout): Option<View> {
    match (mem, layout)
    case (Device, Standard) => Some(DeviceStandard)
    case (Device, Padded) => Some(DevicePadded)
    case (Device, Pq) => Some(DeviceVpq)
    case (Device, Bbq) => Some(DeviceBbq)
    case (Host, Standard) => Some(HostStandard)
    case (Host, Padded) => Some(HostPadded)
    case _ => None
  }

  function OnHost(v: View): View {
    match v case DevicePadded => HostPadded case DeviceStandard => HostStandard case _ => v
  }

  function MemOf(v: View): Mem { if v == HostPadded || v == HostStandard then Host else Device }

  function LayoutOf(v: View): Layout {
    match v
    case DevicePadded => Padded case HostPadded => Padded
    case DeviceStandard => Standard case HostStandard => Standard
    case DeviceVpq => Pq case DeviceBbq => Bbq
  }

  // ---------------------------------------------------------------- the reference state

  /** What a handle stands for. */
  datatype State =
    | Index(dtype: DType, content: Option<View>)
    | Dataset(dtype: DType, mem: Mem, layout: Layout, owning: bool, filled: bool)

  type Ref = map<nat, State>
  datatype Result = Result(ref: Ref, ok: bool)

  predicate IsIndex(r: Ref, h: nat) { h in r && r[h].Index? }

  predicate IsDataset(r: Ref, d: nat) { d in r && r[d].Dataset? }

  /** A pointer that is null or a handle. */
  predicate KnownIndex(r: Ref, h: Option<nat>) { h.Some? ==> IsIndex(r, h.value) }

  predicate KnownDataset(r: Ref, d: Option<nat>) { d.Some? ==> IsDataset(r, d.value) }

  // ---------------------------------------------------------------- calls

  datatype Tensor = Tensor(dtype: DType, device: bool, host: bool, rowWidth: bool)
  datatype Filter = NoFilter | Bitset | Bitmap
  datatype MergeOutcome = MergedOnDevice | OutOfDeviceMemory(hostOk: bool) | MergeThrows
  datatype Kind = KindNone | KindDevicePadded | KindDeviceStandard | KindHostPadded | KindHostStandard
  datatype Header = Header(dtype: DType, kind: Kind)
  datatype Loaded = LoadThrows | WithoutDataset | WithDataset

  datatype Maker =
    | MakeDense(mem: Mem, padded: bool, owning: bool, dtype: DType)
    | MakeBbqView(dtype: DType)
    | MakePq(source: Option<nat>, target: Mem)

  const FASTENER := 1

  /** An entry point with its arguments; None stands for a null pointer, a missing merge parameter
      for the default, and `ok` and the outcomes for what the library call inside does. */
  datatype Call =
    | CreateIndex(h: nat)
    | DestroyIndex(h: nat)
    | CreateDataset(d: nat)
    | MakeDataset(d: nat, maker: Maker, ok: bool)
    | DestroyDataset(dataset: Option<nat>)
    | Build(params: bool, dataset: Option<nat>, index: Option<nat>, ok: bool)
    | FromArgs(tensor: Tensor, h: nat, ok: bool)
    | UpdateDataset(dataset: Option<nat>, index: Option<nat>, ok: bool)
    | Extend(dataset: Option<nat>, h: nat, ok: bool)
    | Search(tensors: bool, queries: DType, h: nat, ok: bool)
    | Merge(params: bool, inputs: seq<Option<nat>>, filter: Filter, algo: Option<int>,
            dataset: Option<nat>, index: Option<nat>, outcome: MergeOutcome)
    | DeserializeGraph(named: bool, index: Option<nat>, file: Option<Header>, ok: bool)
    | DeserializeBoth(named: bool, index: Option<nat>, outNull: bool, d: nat, file: Option<Header>, loaded: Loaded)

  /** Handles that are passed exist, and handles that are made are new. */
  predicate Enabled(r: Ref, c: Call) {
    match c
    case CreateIndex(h) => h !in r
    case DestroyIndex(h) => IsIndex(r, h)
    case CreateDataset(d) => d !in r
    case MakeDataset(d, maker, _) => d !in r && (maker.MakePq? ==> KnownDataset(r, maker.source))
    case DestroyDataset(d) => KnownDataset(r, d)
    case Build(_, d, h, _) => KnownDataset(r, d) && KnownIndex(r, h)
    case FromArgs(_, h, _) => IsIndex(r, h)
    case UpdateDataset(d, h, _) => KnownDataset(r, d) && KnownIndex(r, h)
    case Extend(d, h, _) => KnownDataset(r, d) && IsIndex(r, h)
    case Search(_, _, h, _) => IsIndex(r, h)
    case Merge(_, inputs, _, _, d, h, _) =>
      KnownDataset(r, d) && KnownIndex(r, h) && forall i :: 0 <= i < |inputs| ==> KnownIndex(r, inputs[i])
    case DeserializeGraph(_, h, _, _) => KnownIndex(r, h)
    case DeserializeBoth(_, h, _, d, _, _) => KnownIndex(r, h) && d !in r
  }

  function Made(r: Ref, maker: Maker): Option<State>
    requires maker.MakePq? ==> KnownDataset(r, maker.source)
  {
    match maker
    case MakeDense(mem, padded, owning, dtype) =>
      if Dispatch(dtype).None? then None
      else Some(Dataset(dtype, mem, if padded then Padded else Standard, owning, true))
    case MakeBbqView(dtype) =>
      if Dispatch(dtype).None? then None else Some(Dataset(dtype, Device, Bbq, false, true))
    case MakePq(source, target) =>
      if source.None? || !r[source.value].filled || target != Device then None
      else if r[source.value].layout in {Standard, Padded} then Some(Dataset(FLOAT32, Device, Pq, true, true))
      else None
  }

  predicate Filled(r: Ref, d: Option<nat>)
    requires KnownDataset(r, d)
  {
    d.Some? && r[d.value].filled
  }

  function ContentOf(r: Ref, h: Option<nat>): Option<View> {
    if h.Some? && IsIndex(r, h.value) then r[h.value].content else None
  }

  function TypeOf(r: Ref, h: Option<nat>): DType {
    if h.Some? && IsIndex(r, h.value) then r[h.value].dtype else DType(0, 0)
  }

  // ---------------------------------------------------------------- merging

  /** What is checked before the output handle is touched. */
  predicate MergeAccepted(r: Ref, c: Call)
    requires c.Merge? && Enabled(r, c)
  {
    && |c.inputs| > 0 && c.params
    && (c.algo.Some? ==> 0 <= c.algo.value <= 2)
    && (forall i :: 0 <= i < |c.inputs| ==> ContentOf(r, c.inputs[i]).Some?)
    && (forall i :: 0 <= i < |c.inputs| ==> TypeOf(r, c.inputs[i]) == TypeOf(r, c.inputs[0]))
    && c.index.Some? && c.dataset.Some? && !r[c.dataset.value].filled
  }

  /** The inputs share a device layout. */
  predicate ShareLayout(r: Ref, inputs: seq<Option<nat>>)
    requires |inputs| > 0
  {
    && ContentOf(r, inputs[0]) in {Some(DevicePadded), Some(DeviceStandard)}
    && forall i :: 0 <= i < |inputs| ==> ContentOf(r, inputs[i]) == ContentOf(r, inputs[0])
  }

  /** The view of the merged index: on the device, or on the host when the device has no memory left
      and neither a filter nor the algorithm needs the device. */
  function MergedView(v: View, filter: Filter, algo: Option<int>, outcome: MergeOutcome): Option<View> {
    if filter == Bitmap then None
    else
      match outcome
      case MergedOnDevice => Some(v)
      case OutOfDeviceMemory(hostOk) =>
        if hostOk && filter == NoFilter && algo != Some(FASTENER) then Some(OnHost(v)) else None
      case MergeThrows => None
  }

  function AfterMerge(r: Ref, c: Call): Result
    requires c.Merge? && Enabled(r, c)
  {
    if !MergeAccepted(r, c) then Result(r, false)
    else
      var dtype := TypeOf(r, c.inputs[0]);
      var view := if ShareLayout(r, c.inputs) && c.index !in c.inputs
                  then MergedView(ContentOf(r, c.inputs[0]).value, c.filter, c.algo, c.outcome) else None;
      Result(Merged(r, c.index.value, c.dataset.value, dtype, view), view.Some?)
  }

  /** The output handle with the merged index, if there is one, and the dataset that it refers to. */
  function Merged(r: Ref, h: nat, d: nat, t: DType, view: Option<View>): Ref {
    match view
    case None => r[h := Index(t, None)]
    case Some(v) => r[h := Index(t, view)][d := Dataset(t, MemOf(v), LayoutOf(v), true, true)]
  }

  // ---------------------------------------------------------------- one call

  predicate Updatable(r: Ref, d: Option<nat>, h: Option<nat>)
    requires KnownDataset(r, d) && KnownIndex(r, h)
  {
    && ContentOf(r, h).Some? && Filled(r, d)
    && r[d.value].mem == Device && r[d.value].layout in {Padded, Pq}
    && r[h.value].dtype == r[d.value].dtype
  }

  predicate Extendable(r: Ref, d: Option<nat>, h: nat)
    requires KnownDataset(r, d) && IsIndex(r, h)
  {
    && Filled(r, d) && r[h].content == Some(DevicePadded)
    && r[d.value].mem == Device && r[d.value].layout == Padded
    && r[h].dtype == r[d.value].dtype
  }

  function ArgsView(t: Tensor): Option<View> {
    if t.device && Dispatch(t.dtype).Some? then Some(if t.rowWidth then DevicePadded else DeviceStandard) else None
  }

  /** What a call does to the handles and whether it succeeds. */
  function RefStep(r: Ref, c: Call): Result
    requires Enabled(r, c)
  {
    match c
    case CreateIndex(h) => Result(r[h := Index(DType(0, 0), None)], true)
    case DestroyIndex(h) => Result(r - {h}, true)
    case CreateDataset(d) => Result(r[d := Dataset(DType(0, 0), Device, Standard, true, false)], true)
    case MakeDataset(d, maker, ok) =>
      var made := Made(r, maker);
      if made.None? || !ok then Result(r, false) else Result(r[d := made.value], true)
    case DestroyDataset(d) => Result(if d.None? then r else r - {d.value}, true)
    case Build(params, d, h, ok) =>
      if !Filled(r, d) || !params || h.None? then Result(r, false)
      else
        var s := r[d.value];
        Result(r[h.value := Index(s.dtype, if ok then ViewOf(s.mem, s.layout) else None)], ok)
    case FromArgs(t, h, ok) =>
      var built := ok && ArgsView(t).Some?;
      Result(r[h := Index(t.dtype, if built then ArgsView(t) else None)],
             built || (Dispatch(t.dtype).Some? && !t.device && !t.host))
    case UpdateDataset(d, h, ok) =>
      if !Updatable(r, d, h) || !ok then Result(r, false)
      else Result(r[h.value := Index(r[d.value].dtype, ViewOf(r[d.value].mem, r[d.value].layout))], true)
    case Extend(d, h, ok) => Result(r, Extendable(r, d, h) && ok)
    case Search(tensors, queries, h, ok) =>
      Result(r, tensors && ok && r[h].content in {Some(DevicePadded), Some(DeviceVpq)} && queries == r[h].dtype)
    case Merge(_, _, _, _, _, _, _) => AfterMerge(r, c)
    case DeserializeGraph(named, h, file, ok) =>
      if !named || h.None? || file.None? || Dispatch(file.value.dtype).None? || !ok then Result(r, false)
      else Result(r[h.value := Index(file.value.dtype, Some(DevicePadded))], true)
    case DeserializeBoth(named, h, outNull, d, file, loaded) =>
      if !named || h.None? || !outNull || file.None? || Dispatch(file.value.dtype).None? || loaded != WithDataset
      then Result(r, false)
      else
        var t, v := file.value.dtype, SavedView(file.value.kind);
        Result(r[h.value := Index(t, Some(v))][d := Dataset(t, MemOf(v), LayoutOf(v), true, true)], true)
  }

  /** The view selected for a saved dataset kind. */
  function SavedView(k: Kind): View {
    match k
    case KindNone => DevicePadded
    case KindDevicePadded => DevicePadded
    case KindDeviceStandard => DeviceStandard
    case KindHostPadded => HostPadded
    case KindHostStandard => HostStandard
  }

  // ---------------------------------------------------------------- runs

  function RefRun(r: Ref, calls: seq<Call>): Ref {
    if calls == [] then r
    else
      var s := RefRun(r, calls[..|calls| - 1]);
      if Enabled(s, calls[|calls| - 1]) then RefStep(s, calls[|calls| - 1]).ref else s
  }

  const EMPTY: Ref := map[]
}
