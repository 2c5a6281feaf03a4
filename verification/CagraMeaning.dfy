/** What each entry point of the CAGRA C interface achieves: when exactly it succeeds, and what the handles
    are good for afterwards. */
module CagraMeaning {
  import opened Common
  import opened CagraModel
  import opened CagraRuns

  /** The element types: 32-bit and 16-bit floats, and signed and unsigned bytes. */
  predicate Supported(t: DType) { t in {DType(2, 32), DType(2, 16), DType(0, 8), DType(1, 8)} }

  lemma DispatchExactly(t: DType)
    ensures Dispatch(t).Some? <==> Supported(t)
    ensures Dispatch(DType(2, 32)) == Some(F32) && Dispatch(DType(2, 16)) == Some(F16)
    ensures Dispatch(DType(0, 8)) == Some(I8) && Dispatch(DType(1, 8)) == Some(U8)
  {}

  /** A view has one memory and one layout, and these determine it. */
  lemma ViewsExactly(v: View, mem: Mem, layout: Layout)
    ensures MemOf(v) == Host <==> v in {HostPadded, HostStandard}
    ensures LayoutOf(v) == Padded <==> v in {DevicePadded, HostPadded}
    ensures LayoutOf(v) == Standard <==> v in {DeviceStandard, HostStandard}
    ensures LayoutOf(v) == Pq <==> v == DeviceVpq
    ensures LayoutOf(v) == Bbq <==> v == DeviceBbq
    ensures ViewOf(mem, layout) == Some(v) <==> MemOf(v) == mem && LayoutOf(v) == layout
  {}

  lemma SearchExactly(r: Ref, tensors: bool, queries: DType, h: nat, ok: bool)
    requires Enabled(r, Search(tensors, queries, h, ok))
    ensures var s := RefStep(r, Search(tensors, queries, h, ok));
      && s.ref == r
      && (s.ok <==> tensors && ok && queries == r[h].dtype && r[h].content in {Some(DevicePadded), Some(DeviceVpq)})
  {}

  /** The handle h holds an index over a dataset of this type, memory and layout, which can be searched
      exactly for queries of the type, and only if the dataset is on the device and padded or PQ. */
  ghost predicate IndexOver(r: Ref, h: nat, t: DType, mem: Mem, layout: Layout) {
    && IsIndex(r, h) && r[h].dtype == t && r[h].content.Some?
    && MemOf(r[h].content.value) == mem && LayoutOf(r[h].content.value) == layout
    && forall queries :: RefStep(r, Search(true, queries, h, true)).ok <==>
      queries == t && mem == Device && layout in {Padded, Pq}
  }

  ghost predicate EmptyIndex(r: Ref, h: nat, t: DType) {
    && r.Keys >= {h} && r[h] == Index(t, None)
    && forall queries, ok :: !RefStep(r, Search(true, queries, h, ok)).ok
  }

  /** Only the handles of gs may differ. */
  ghost predicate OnlyChanged(r: Ref, s: Ref, gs: set<nat>) { forall g :: g !in gs ==> SameAt(r, s, g) }

  lemma IsIndexOver(r: Ref, h: nat, t: DType, v: View)
    requires h in r && r[h] == Index(t, Some(v))
    ensures IndexOver(r, h, t, MemOf(v), LayoutOf(v))
  {
    forall queries ensures RefStep(r, Search(true, queries, h, true)).ok <==>
      queries == t && MemOf(v) == Device && LayoutOf(v) in {Padded, Pq}
    {
      SearchExactly(r, true, queries, h, true);
    }
  }

  lemma IsEmptyIndex(r: Ref, h: nat, t: DType)
    requires h in r && r[h] == Index(t, None)
    ensures EmptyIndex(r, h, t)
  {
    forall queries, ok ensures !RefStep(r, Search(true, queries, h, ok)).ok { SearchExactly(r, true, queries, h, ok); }
  }

  // ---------------------------------------------------------------- building

  /** A build succeeds exactly when everything is given and the library succeeds, and the index is then one
      over the dataset's own memory and layout. */
  lemma BuildExactly(r: Ref, params: bool, d: Option<nat>, h: Option<nat>, ok: bool)
    requires Enabled(r, Build(params, d, h, ok)) && AllWellTyped(r)
    ensures var given := params && h.Some? && d.Some? && r[d.value].filled;
      var s := RefStep(r, Build(params, d, h, ok));
      && (s.ok <==> given && ok)
      && (!given ==> s.ref == r)
      && (given ==> OnlyChanged(r, s.ref, {h.value}))
      && (given && ok ==> IndexOver(s.ref, h.value, r[d.value].dtype, r[d.value].mem, r[d.value].layout))
      && (given && !ok ==> EmptyIndex(s.ref, h.value, r[d.value].dtype))
  {
    hide IndexOver, EmptyIndex, Dispatch;
    var s := RefStep(r, Build(params, d, h, ok));
    if params && h.Some? && d.Some? && r[d.value].filled {
      var x := r[d.value];
      assert WellTyped(x);
      if ok {
        var v := ViewOf(x.mem, x.layout).value;
        ViewsExactly(v, x.mem, x.layout);
        IsIndexOver(s.ref, h.value, x.dtype, v);
      } else {
        IsEmptyIndex(s.ref, h.value, x.dtype);
      }
    }
  }

  /** From arguments: a device tensor gives an index on the device, padded exactly when its rows have the
      width of padded rows; a host tensor is refused; a tensor in neither memory is accepted and ignored. */
  lemma FromArgsExactly(r: Ref, t: Tensor, h: nat, ok: bool)
    requires Enabled(r, FromArgs(t, h, ok))
    ensures var s := RefStep(r, FromArgs(t, h, ok));
      && OnlyChanged(r, s.ref, {h})
      && (s.ok <==> Supported(t.dtype) && if t.device then ok else !t.host)
      && (s.ok && t.device ==> IndexOver(s.ref, h, t.dtype, Device, if t.rowWidth then Padded else Standard))
      && (!s.ok || !t.device ==> EmptyIndex(s.ref, h, t.dtype))
  {
    hide IndexOver, EmptyIndex, Dispatch;
    var s := RefStep(r, FromArgs(t, h, ok));
    DispatchExactly(t.dtype);
    if s.ok && t.device {
      var v := if t.rowWidth then DevicePadded else DeviceStandard;
      ViewsExactly(v, Device, LayoutOf(v));
      IsIndexOver(s.ref, h, t.dtype, v);
    } else {
      IsEmptyIndex(s.ref, h, t.dtype);
    }
  }

  // ---------------------------------------------------------------- updating and extending

  /** An update succeeds exactly for a non-empty index, a filled dataset of its type that can be searched
      on the device, and a library that succeeds; the index is then one over this dataset. */
  lemma UpdateExactly(r: Ref, d: Option<nat>, h: Option<nat>, ok: bool)
    requires Enabled(r, UpdateDataset(d, h, ok))
    ensures var s := RefStep(r, UpdateDataset(d, h, ok));
      && (s.ok <==>
          && h.Some? && d.Some? && ok && r[h.value].content.Some?
          && r[d.value].filled && r[d.value].mem == Device && r[d.value].layout in {Padded, Pq}
          && r[d.value].dtype == r[h.value].dtype)
      && (!s.ok ==> s.ref == r)
      && (s.ok ==> OnlyChanged(r, s.ref, {h.value}))
      && (s.ok ==> IndexOver(s.ref, h.value, r[h.value].dtype, Device, r[d.value].layout))
  {
    hide IndexOver;
    var s := RefStep(r, UpdateDataset(d, h, ok));
    if s.ok {
      var v := if r[d.value].layout == Padded then DevicePadded else DeviceVpq;
      ViewsExactly(v, Device, r[d.value].layout);
      IsIndexOver(s.ref, h.value, r[h.value].dtype, v);
    }
  }

  /** An extension changes no handle. It succeeds exactly for an index that can be searched in padded form, a
      filled padded dataset of its type on the device, and a library that succeeds. */
  lemma ExtendExactly(r: Ref, d: Option<nat>, h: nat, ok: bool)
    requires Enabled(r, Extend(d, h, ok))
    ensures var s := RefStep(r, Extend(d, h, ok));
      && s.ref == r
      && (s.ok <==>
          && d.Some? && ok && IndexOver(r, h, r[h].dtype, Device, Padded)
          && r[d.value].filled && r[d.value].mem == Device && r[d.value].layout == Padded
          && r[d.value].dtype == r[h].dtype)
  {
    if r[h].content.Some? {
      var v := r[h].content.value;
      ViewsExactly(v, Device, Padded);
      IsIndexOver(r, h, r[h].dtype, v);
    }
  }

  // ---------------------------------------------------------------- loading

  /** A saved graph is loaded exactly when all is given, the type of the file is supported and all reading
      succeeds; the index can then be searched. */
  lemma DeserializeGraphExactly(r: Ref, named: bool, h: Option<nat>, file: Option<Header>, ok: bool)
    requires Enabled(r, DeserializeGraph(named, h, file, ok))
    ensures var s := RefStep(r, DeserializeGraph(named, h, file, ok));
      && (s.ok <==> named && h.Some? && file.Some? && Supported(file.value.dtype) && ok)
      && (!s.ok ==> s.ref == r)
      && (s.ok ==> OnlyChanged(r, s.ref, {h.value}) && IndexOver(s.ref, h.value, file.value.dtype, Device, Padded))
  {
    hide IndexOver, Dispatch;
    var s := RefStep(r, DeserializeGraph(named, h, file, ok));
    if file.Some? { DispatchExactly(file.value.dtype); }
    if s.ok {
      ViewsExactly(DevicePadded, Device, Padded);
      IsIndexOver(s.ref, h.value, file.value.dtype, DevicePadded);
    }
  }

  /** A saved index comes back with its dataset in the memory and layout it was saved with, padded on the
      device when the file does not say. */
  lemma DeserializeBothExactly(r: Ref, named: bool, h: Option<nat>, outNull: bool, d: nat, file: Option<Header>,
                               loaded: Loaded)
    requires Enabled(r, DeserializeBoth(named, h, outNull, d, file, loaded))
    ensures var s := RefStep(r, DeserializeBoth(named, h, outNull, d, file, loaded));
      && (s.ok <==> named && h.Some? && outNull && file.Some? && Supported(file.value.dtype) && loaded == WithDataset)
      && (!s.ok ==> s.ref == r)
      && (s.ok ==>
          var t, kind := file.value.dtype, file.value.kind;
          var mem := if kind in {KindHostPadded, KindHostStandard} then Host else Device;
          var layout := if kind in {KindDeviceStandard, KindHostStandard} then Standard else Padded;
          && OnlyChanged(r, s.ref, {h.value, d}) && IndexOver(s.ref, h.value, t, mem, layout)
          && d in s.ref && s.ref[d] == Dataset(t, mem, layout, true, true))
  {
    hide IndexOver, Dispatch;
    var s := RefStep(r, DeserializeBoth(named, h, outNull, d, file, loaded));
    if file.Some? { DispatchExactly(file.value.dtype); }
    if s.ok {
      var v := SavedView(file.value.kind);
      ViewsExactly(v, MemOf(v), LayoutOf(v));
      IsIndexOver(s.ref, h.value, file.value.dtype, v);
    }
  }

  // ---------------------------------------------------------------- merging

  /** A merge succeeds exactly when all is given, the output is not an input, the inputs are indices of one
      type over dense datasets of one layout on the device, no bitmap is given, and the library merges on the
      device or, with neither a filter nor the FASTENER algorithm, on the host. */
  lemma MergeExactly(r: Ref, c: Call)
    requires c.Merge? && Enabled(r, c)
    ensures RefStep(r, c).ok <==>
      && c.params && |c.inputs| > 0 && c.inputs[0].Some? && (c.algo.Some? ==> c.algo.value in {0, 1, 2})
      && c.index.Some? && c.dataset.Some? && !r[c.dataset.value].filled
      && (forall i :: 0 <= i < |c.inputs| ==>
          && c.inputs[i].Some? && c.inputs[i] != c.index
          && r[c.inputs[i].value].content in {Some(DevicePadded), Some(DeviceStandard)}
          && r[c.inputs[i].value] == r[c.inputs[0].value])
      && c.filter != Bitmap
      && (c.outcome == MergedOnDevice ||
          (c.outcome == OutOfDeviceMemory(true) && c.filter == NoFilter && c.algo != Some(1)))
  {
    MergeSucceedsExactly(r, c);
  }

  /** A merge that succeeds leaves an index over a dataset of the inputs' type and layout, on the device
      unless the device ran out of memory, and a handle of that dataset. */
  lemma MergeYields(r: Ref, c: Call)
    requires c.Merge? && Enabled(r, c) && RefStep(r, c).ok
    ensures var s, t := RefStep(r, c).ref, TypeOf(r, c.inputs[0]);
      var mem := if c.outcome.OutOfDeviceMemory? then Host else Device;
      var layout := if ContentOf(r, c.inputs[0]) == Some(DeviceStandard) then Standard else Padded;
      && OnlyChanged(r, s, {c.index.value, c.dataset.value})
      && IndexOver(s, c.index.value, t, mem, layout)
      && c.dataset.value in s && s[c.dataset.value] == Dataset(t, mem, layout, true, true)
  {
    hide IndexOver;
    var s, t := RefStep(r, c).ref, TypeOf(r, c.inputs[0]);
    MergeSucceedsExactly(r, c);
    var v := MergedView(ContentOf(r, c.inputs[0]).value, c.filter, c.algo, c.outcome).value;
    ViewsExactly(v, MemOf(v), LayoutOf(v));
    IsIndexOver(s, c.index.value, t, v);
  }

  // ---------------------------------------------------------------- making and destroying handles

  /** A dense dataset is made exactly for a supported type; a PQ dataset exactly from a filled dense one,
      on the device. */
  lemma MakeExactly(r: Ref, d: nat, maker: Maker, ok: bool)
    requires Enabled(r, MakeDataset(d, maker, ok))
    ensures var s := RefStep(r, MakeDataset(d, maker, ok));
      && OnlyChanged(r, s.ref, {d}) && (s.ok <==> d in s.ref)
    ensures RefStep(r, MakeDataset(d, maker, ok)).ok <==>
      match maker
      case MakeDense(_, _, _, t) => ok && Supported(t)
      case MakeBbqView(t) => ok && Supported(t)
      case MakePq(source, target) =>
        && ok && source.Some? && target == Device
        && r[source.value].filled && r[source.value].layout in {Standard, Padded}
    ensures RefStep(r, MakeDataset(d, maker, ok)).ok ==>
      var x := RefStep(r, MakeDataset(d, maker, ok)).ref[d];
      match maker
      case MakeDense(mem, padded, owning, t) => x == Dataset(t, mem, if padded then Padded else Standard, owning, true)
      case MakeBbqView(t) => x == Dataset(t, Device, Bbq, false, true)
      case MakePq(_, _) => x == Dataset(DType(2, 32), Device, Pq, true, true)
  {
    hide Dispatch;
    match maker
    case MakeDense(_, _, _, t) => DispatchExactly(t);
    case MakeBbqView(t) => DispatchExactly(t);
    case MakePq(_, _) =>
  }

  /** New handles are empty, destroyed handles are gone, and no other handle is touched. */
  lemma HandlesComeAndGo(r: Ref, h: nat)
    ensures h !in r ==>
      var s := RefStep(r, CreateIndex(h)); s.ok && OnlyChanged(r, s.ref, {h}) && EmptyIndex(s.ref, h, DType(0, 0))
    ensures h !in r ==>
      var s := RefStep(r, CreateDataset(h));
      s.ok && OnlyChanged(r, s.ref, {h}) && IsDataset(s.ref, h) && !s.ref[h].filled
    ensures IsIndex(r, h) ==>
      var s := RefStep(r, DestroyIndex(h)); s.ok && OnlyChanged(r, s.ref, {h}) && h !in s.ref
    ensures IsDataset(r, h) ==>
      var s := RefStep(r, DestroyDataset(Some(h))); s.ok && OnlyChanged(r, s.ref, {h}) && h !in s.ref
  {
    hide EmptyIndex;
    if h !in r { IsEmptyIndex(RefStep(r, CreateIndex(h)).ref, h, DType(0, 0)); }
  }
}
