/** The entry points of c/src/neighbors/cagra.cpp as methods that update handles and free and allocate
    boxes, each proved to do to the handles what CagraModel.RefStep says. */
module CagraHandles {
  import opened Common
  import opened CagraModel
  import opened CagraMemory

  class Library {
    var heap: map<nat, Cell>
    var handles: map<nat, Handle>

    ghost function Mem(): Memory
      reads this
    {
      Memory(heap, handles)
    }

    ghost predicate Valid()
      reads this
    {
      Consistent(Mem())
    }

    ghost function View(): Ref
      reads this
    {
      Abs(Mem())
    }

    constructor ()
      ensures Valid() && View() == EMPTY
    {
      heap, handles := map[], map[];
    }

    // -------------------------------------------------------------- boxes

    /** `new`: an address that is not in use. */
    method Allocate(c: Cell) returns (a: nat)
      modifies this`heap
      ensures a != 0 && a !in old(heap) && heap == old(heap)[a := c]
    {
      UnusedAddress(heap);
      a :| a != 0 && a !in heap;
      heap := heap[a := c];
    }

    /** `destroy_sg_cagra_c_api_box` and `destroy_typed_addr`: nothing is freed twice. */
    method Free(a: nat)
      requires a == 0 || a in heap
      modifies this`heap
      ensures heap == old(heap) - {a}
    {
      heap := heap - {a};
    }

    /** `reinterpret_cast` of a box's pointer: the index has the type that it is cast to. */
    method CastIndex(a: nat, elem: Elem, view: CagraModel.View)
      requires a in heap && heap[a].IndexBox? && heap[a].holds == IndexType(elem, view)
    {
    }

    /** `with_index_by_layout`: the index is cast to the type that the tag names. */
    method WithIndexByLayout(a: nat, elem: Elem, allowHost: bool, allowBbq: bool)
      returns (view: Option<CagraModel.View>)
      requires a == 0 || (a in heap && heap[a].IndexBox? && heap[a].holds == IndexType(elem, heap[a].layout))
      ensures view == (if a == 0 then None
                       else if !allowHost && MemOf(heap[a].layout) == Host then None
                       else if !allowBbq && heap[a].layout == DeviceBbq then None
                       else Some(heap[a].layout))
    {
      if a == 0 { return None; }
      match heap[a].layout
      case DevicePadded => CastIndex(a, elem, DevicePadded); return Some(DevicePadded);
      case HostPadded =>
        if !allowHost { return None; }
        CastIndex(a, elem, HostPadded);
        return Some(HostPadded);
      case DeviceStandard => CastIndex(a, elem, DeviceStandard); return Some(DeviceStandard);
      case DeviceVpq => CastIndex(a, elem, DeviceVpq); return Some(DeviceVpq);
      case DeviceBbq =>
        if !allowBbq { return None; }
        CastIndex(a, elem, DeviceBbq);
        return Some(DeviceBbq);
      case HostStandard =>
        if !allowHost { return None; }
        CastIndex(a, elem, HostStandard);
        return Some(HostStandard);
    }

    /** `with_dataset_view`: the storage is cast to an owner or a view of the type that the caller names. */
    method WithDatasetView(d: nat, elem: Elem, view: CagraModel.View)
      requires d in handles && handles[d].DatasetHandle? && handles[d].addr in heap
      requires heap[handles[d].addr].Storage?
      requires heap[handles[d].addr] == Storage(heap[handles[d].addr].owner, handles[d].owning, elem, view)
    {
    }

    /** `make_sg_cagra_c_api_index_box` and `bind_index_lifetime_holder_to_C_index`. */
    method Bind(h: nat, t: DType, elem: Elem, view: CagraModel.View)
      requires Valid() && h in handles && handles[h].IndexHandle? && handles[h].addr == 0
      requires Dispatch(t) == Some(elem) && (view == DeviceVpq ==> t == FLOAT32)
      modifies this
      ensures Valid() && View() == old(View())[h := Index(t, Some(view))]
    {
      hide Consistent, Abs;
      var box := IndexBox(h, view, IndexType(elem, view));
      var a := Allocate(box);
      handles := handles[h := IndexHandle(a, t)];
      Fill(old(Mem()), h, IndexHandle(a, t), box);
      assert Mem() == FilledWith(old(Mem()), h, IndexHandle(a, t), box);
    }

    /** `destroy_sg_cagra_c_api_box(index->addr); index->addr = 0; index->dtype = t;` */
    method Release(h: nat, t: DType)
      requires Valid() && h in handles && handles[h].IndexHandle?
      modifies this
      ensures Valid() && View() == old(View())[h := Index(t, None)]
      ensures handles == old(handles)[h := IndexHandle(0, t)]
    {
      hide Consistent, Abs;
      WhatAHandleHolds(Mem(), h);
      Free(handles[h].addr);
      handles := handles[h := IndexHandle(0, t)];
      Clear(old(Mem()), h, IndexHandle(0, t));
      assert Mem() == Cleared(old(Mem()), h, IndexHandle(0, t));
    }

    /** The fields of an empty or new dataset handle are set to newly allocated storage. */
    method Store(d: nat, t: DType, mem: CagraModel.Mem, layout: Layout, owning: bool, elem: Elem, view: CagraModel.View)
      requires Valid() && (d in handles ==> handles[d].DatasetHandle? && handles[d].addr == 0)
      requires ViewOf(mem, layout) == Some(view) && StoredElem(t, layout) == Some(elem)
      modifies this
      ensures Valid() && View() == old(View())[d := Dataset(t, mem, layout, owning, true)]
    {
      hide Consistent, Abs;
      var c := Storage(d, owning, elem, view);
      var a := Allocate(c);
      var x := DatasetHandle(a, t, mem, layout, owning);
      handles := handles[d := x];
      Fill(old(Mem()), d, x, c);
      assert Mem() == FilledWith(old(Mem()), d, x, c);
    }

    // -------------------------------------------------------------- handles

    method CreateIndex(h: nat)
      requires Valid() && h !in handles
      modifies this
      ensures Valid() && View() == RefStep(old(View()), Call.CreateIndex(h)).ref
    {
      hide Consistent, Abs;
      handles := handles[h := IndexHandle(0, DType(0, 0))];
      Clear(old(Mem()), h, IndexHandle(0, DType(0, 0)));
      NoZero(old(Mem()));
      assert Mem() == Cleared(old(Mem()), h, IndexHandle(0, DType(0, 0)));
    }

    method Destroy(h: nat)
      requires Valid() && h in handles
      modifies this
      ensures Valid() && View() == old(View()) - {h}
    {
      hide Consistent, Abs;
      WhatAHandleHolds(Mem(), h);
      if handles[h].addr != 0 { Free(handles[h].addr); }
      handles := handles - {h};
      Drop(old(Mem()), h);
      NoZero(old(Mem()));
      assert Mem() == Dropped(old(Mem()), h);
    }

    method CreateDataset(d: nat)
      requires Valid() && d !in handles
      modifies this
      ensures Valid() && View() == RefStep(old(View()), Call.CreateDataset(d)).ref
    {
      hide Consistent, Abs;
      var x := DatasetHandle(0, DType(0, 0), Device, Standard, true);
      handles := handles[d := x];
      Clear(old(Mem()), d, x);
      NoZero(old(Mem()));
      assert Mem() == Cleared(old(Mem()), d, x);
    }

    /** The `cuvsDatasetMake*` functions: they make the handle only when everything else succeeded. */
    method MakeDataset(d: nat, maker: Maker, ok: bool) returns (s: bool)
      requires Valid() && Enabled(View(), Call.MakeDataset(d, maker, ok))
      modifies this
      ensures Valid() && Result(View(), s) == RefStep(old(View()), Call.MakeDataset(d, maker, ok))
    {
      hide Consistent, Abs;
      SameHandles(Mem());
      match maker
      case MakeDense(mem, padded, owning, t) =>
        if Dispatch(t).None? || !ok { return false; }
        var layout := if padded then Padded else Standard;
        Store(d, t, mem, layout, owning, Dispatch(t).value, ViewOf(mem, layout).value);
        s := true;
      case MakeBbqView(t) =>
        if Dispatch(t).None? || !ok { return false; }
        Store(d, t, Device, Bbq, false, Dispatch(t).value, DeviceBbq);
        s := true;
      case MakePq(source, target) =>
        if source.None? { return false; }
        WhatAHandleHolds(Mem(), source.value);
        var x := handles[source.value];
        if x.addr == 0 || target != Device { return false; }
        if Dispatch(x.dtype).None? { return false; }
        if x.layout != Standard && x.layout != Padded { return false; }
        WithDatasetView(source.value, Dispatch(x.dtype).value, ViewOf(x.mem, x.layout).value);
        if !ok { return false; }
        Store(d, FLOAT32, Device, Pq, true, F16, DeviceVpq);
        s := true;
    }

    // -------------------------------------------------------------- building

    /** `build_index_from_dataset_view` */
    method BuildFromView(h: nat, elem: Elem, view: CagraModel.View, ok: bool) returns (s: bool)
      requires Valid() && h in handles && handles[h].IndexHandle? && handles[h].addr == 0
      requires Dispatch(handles[h].dtype) == Some(elem) && (view == DeviceVpq ==> handles[h].dtype == FLOAT32)
      modifies this
      ensures Valid() && s == ok
      ensures View() == if ok then old(View())[h := Index(old(handles)[h].dtype, Some(view))] else old(View())
    {
      if ok { Bind(h, handles[h].dtype, elem, view); }
      s := ok;
    }

    /** `build_dispatch_on_mem_type_and_layout` */
    method BuildDispatch(d: nat, h: nat, elem: Elem, ok: bool) returns (s: bool)
      requires Valid() && h in handles && handles[h].IndexHandle? && handles[h].addr == 0
      requires d in handles && handles[d].DatasetHandle? && handles[d].addr != 0
      requires handles[h].dtype == handles[d].dtype && Dispatch(handles[d].dtype) == Some(elem)
      requires handles[d].layout != Pq
      modifies this
      ensures Valid() && s == ok
      ensures View() ==
        if ok then old(View())[h := Index(old(handles)[h].dtype, ViewOf(old(handles)[d].mem, old(handles)[d].layout))]
        else old(View())
    {
      hide Consistent, Abs;
      WhatAHandleHolds(Mem(), d);
      var x := handles[d];
      if x.layout == Bbq {
        if x.mem != Device { return false; }
        WithDatasetView(d, elem, DeviceBbq);
        s := BuildFromView(h, elem, DeviceBbq, ok);
      } else if x.mem == Device {
        if x.layout == Padded {
          WithDatasetView(d, elem, DevicePadded);
          s := BuildFromView(h, elem, DevicePadded, ok);
        } else {
          WithDatasetView(d, elem, DeviceStandard);
          s := BuildFromView(h, elem, DeviceStandard, ok);
        }
      } else if x.layout == Padded {
        WithDatasetView(d, elem, HostPadded);
        s := BuildFromView(h, elem, HostPadded, ok);
      } else {
        WithDatasetView(d, elem, HostStandard);
        s := BuildFromView(h, elem, HostStandard, ok);
      }
    }

    /** `cuvsCagraBuild`: the old box goes first, so a build that fails leaves the handle empty. */
    method Build(params: bool, dataset: Option<nat>, index: Option<nat>, ok: bool) returns (s: bool)
      requires Valid() && Enabled(View(), Call.Build(params, dataset, index, ok))
      modifies this
      ensures Valid() && Result(View(), s) == RefStep(old(View()), Call.Build(params, dataset, index, ok))
    {
      hide Consistent, Abs;
      SameHandles(Mem());
      if dataset.None? { return false; }
      var d := dataset.value;
      WhatAHandleHolds(Mem(), d);
      var x := handles[d];
      if x.addr == 0 || !params || index.None? { return false; }
      var h := index.value;
      Release(h, x.dtype);
      WhatAHandleHolds(Mem(), d);
      if x.layout == Pq {
        if x.mem != Device || x.dtype != FLOAT32 { return false; }
        WithDatasetView(d, F16, DeviceVpq);
        s := BuildFromView(h, F32, DeviceVpq, ok);
      } else if Dispatch(x.dtype).Some? {
        s := BuildDispatch(d, h, Dispatch(x.dtype).value, ok);
      } else {
        s := false;
      }
    }

    /** `cuvsCagraIndexFromArgs` and `_from_args`. A tensor that is neither device nor host compatible
        is no error: the call succeeds and leaves the handle empty. */
    method FromArgs(t: Tensor, h: nat, ok: bool) returns (s: bool)
      requires Valid() && Enabled(View(), Call.FromArgs(t, h, ok))
      modifies this
      ensures Valid() && Result(View(), s) == RefStep(old(View()), Call.FromArgs(t, h, ok))
    {
      hide Consistent, Abs;
      SameHandles(Mem());
      WhatAHandleHolds(Mem(), h);
      Release(h, t.dtype);
      if Dispatch(t.dtype).None? { return false; }
      if t.device {
        if !ok { return false; }
        Bind(h, t.dtype, Dispatch(t.dtype).value, if t.rowWidth then DevicePadded else DeviceStandard);
        s := true;
      } else {
        s := !t.host;
      }
    }

    // -------------------------------------------------------------- using and changing an index

    /** `cuvsCagraUpdateDataset`, `dispatch_update_dataset` and `update_dataset`. */
    method UpdateDataset(dataset: Option<nat>, index: Option<nat>, ok: bool) returns (s: bool)
      requires Valid() && Enabled(View(), Call.UpdateDataset(dataset, index, ok))
      modifies this
      ensures Valid() && Result(View(), s) == RefStep(old(View()), Call.UpdateDataset(dataset, index, ok))
    {
      hide Consistent, Abs;
      SameHandles(Mem());
      if index.None? { return false; }
      var h := index.value;
      WhatAHandleHolds(Mem(), h);
      if handles[h].addr == 0 || dataset.None? { return false; }
      var d := dataset.value;
      WhatAHandleHolds(Mem(), d);
      var i, x := handles[h], handles[d];
      if x.addr == 0 { return false; }
      if !(x.mem == Device && (x.layout == Padded || x.layout == Pq)) { return false; }
      if i.dtype != x.dtype || Dispatch(i.dtype).None? { return false; }
      var elem := Dispatch(i.dtype).value;
      var view := if x.layout == Pq then DeviceVpq else DevicePadded;
      WithDatasetView(d, if x.layout == Pq then F16 else elem, view);
      var found := WithIndexByLayout(i.addr, elem, true, true);
      if found.None? || !ok { return false; }
      Release(h, i.dtype);
      Bind(h, i.dtype, elem, view);
      s := true;
    }

    /** `cuvsCagraExtend` and `_extend`: the index is extended in place. */
    method Extend(dataset: Option<nat>, h: nat, ok: bool) returns (s: bool)
      requires Valid() && Enabled(View(), Call.Extend(dataset, h, ok))
      ensures Result(View(), s) == RefStep(View(), Call.Extend(dataset, h, ok))
    {
      hide Consistent, Abs;
      SameHandles(Mem());
      if dataset.None? { return false; }
      var d := dataset.value;
      WhatAHandleHolds(Mem(), h);
      WhatAHandleHolds(Mem(), d);
      var i, x := handles[h], handles[d];
      if x.dtype != i.dtype || Dispatch(i.dtype).None? { return false; }
      if i.addr == 0 || heap[i.addr].layout != DevicePadded { return false; }
      if !(x.mem == Device && x.layout == Padded) || x.addr == 0 { return false; }
      var elem := Dispatch(i.dtype).value;
      var found := WithIndexByLayout(i.addr, elem, false, true);
      if found != Some(DevicePadded) { return false; }
      WithDatasetView(d, elem, DevicePadded);
      s := ok;
    }

    /** `cuvsCagraSearch` and `_search`. */
    method Search(tensors: bool, queries: DType, h: nat, ok: bool) returns (s: bool)
      requires Valid() && Enabled(View(), Call.Search(tensors, queries, h, ok))
      ensures Result(View(), s) == RefStep(View(), Call.Search(tensors, queries, h, ok))
    {
      hide Consistent, Abs;
      SameHandles(Mem());
      WhatAHandleHolds(Mem(), h);
      var i := handles[h];
      if !tensors || i.addr == 0 { return false; }
      if heap[i.addr].layout == DeviceBbq { return false; }
      if heap[i.addr].layout != DevicePadded && heap[i.addr].layout != DeviceVpq { return false; }
      if queries != i.dtype || Dispatch(queries).None? { return false; }
      var found := WithIndexByLayout(i.addr, Dispatch(queries).value, false, false);
      s := found.Some? && ok;
    }

    // -------------------------------------------------------------- loading

    lemma BoxShows(h: nat, a: nat, t: DType, box: Cell)
      requires box.IndexBox?
      ensures AbsHandle(map[a := box], IndexHandle(a, t)) == Index(t, Some(box.layout))
    {}

    /** The end of `_deserialize`: the new box is bound before the old one is freed. */
    method Swap(h: nat, t: DType, elem: Elem, view: CagraModel.View)
      requires Valid() && h in handles && handles[h].IndexHandle?
      requires Dispatch(t) == Some(elem) && view != DeviceVpq
      modifies this
      ensures Valid() && View() == old(View())[h := Index(t, Some(view))] && handles.Keys == old(handles).Keys
    {
      hide Consistent, Abs, AbsHandle;
      WhatAHandleHolds(Mem(), h);
      var box := IndexBox(h, view, IndexType(elem, view));
      var oldAddr := handles[h].addr;
      var a := Allocate(box);
      handles := handles[h := IndexHandle(a, t)];
      Free(oldAddr);
      SwapCells(old(Mem()), h, IndexHandle(a, t), box);
      BoxShows(h, a, t, box);
    }

    /** `cuvsCagraDeserializeGraph`: until everything is read, nothing changes. */
    method DeserializeGraph(named: bool, index: Option<nat>, file: Option<Header>, ok: bool) returns (s: bool)
      requires Valid() && Enabled(View(), Call.DeserializeGraph(named, index, file, ok))
      modifies this
      ensures Valid() && Result(View(), s) == RefStep(old(View()), Call.DeserializeGraph(named, index, file, ok))
    {
      hide Consistent, Abs;
      SameHandles(Mem());
      if !named || index.None? || file.None? || Dispatch(file.value.dtype).None? || !ok { return false; }
      WhatAHandleHolds(Mem(), index.value);
      Swap(index.value, file.value.dtype, Dispatch(file.value.dtype).value, DevicePadded);
      s := true;
    }

    /** `cuvsCagraDeserializeGraphAndDataset`: the dataset comes back in a new handle d. */
    method DeserializeBoth(named: bool, index: Option<nat>, outNull: bool, d: nat, file: Option<Header>, loaded: Loaded)
      returns (s: bool)
      requires Valid() && Enabled(View(), Call.DeserializeBoth(named, index, outNull, d, file, loaded))
      modifies this
      ensures Valid()
      ensures Result(View(), s) == RefStep(old(View()), Call.DeserializeBoth(named, index, outNull, d, file, loaded))
    {
      hide Consistent, Abs;
      SameHandles(Mem());
      if !named || index.None? || !outNull || file.None? { return false; }
      var t := file.value.dtype;
      if Dispatch(t).None? || loaded == LoadThrows || loaded == WithoutDataset { return false; }
      WhatAHandleHolds(Mem(), index.value);
      var v := SavedView(file.value.kind);
      Swap(index.value, t, Dispatch(t).value, v);
      Store(d, t, MemOf(v), LayoutOf(v), true, Dispatch(t).value, v);
      s := true;
    }

    // -------------------------------------------------------------- merging

    /** The loops over the inputs in `_merge` and `convert_opaque_indices_to_concrete_types`. */
    method InputsLayout(inputs: seq<Option<nat>>, elem: Elem) returns (view: Option<CagraModel.View>)
      requires Valid() && |inputs| > 0
      requires forall i :: 0 <= i < |inputs| ==> inputs[i].Some? && IsIndex(View(), inputs[i].value)
      requires forall i :: 0 <= i < |inputs| ==> Dispatch(TypeOf(View(), inputs[i])) == Some(elem)
      ensures view == if ShareLayout(View(), inputs) then ContentOf(View(), inputs[0]) else None
    {
      hide Consistent, Abs;
      SameHandles(Mem());
      WhatAHandleHolds(Mem(), inputs[0].value);
      var first := handles[inputs[0].value].addr;
      if first == 0 { return None; }
      var layout := heap[first].layout;
      if layout != DevicePadded && layout != DeviceStandard { return None; }
      for i := 0 to |inputs|
        invariant forall j :: 0 <= j < i ==> ContentOf(View(), inputs[j]) == Some(layout)
      {
        WhatAHandleHolds(Mem(), inputs[i].value);
        var a := handles[inputs[i].value].addr;
        if a == 0 { return None; }
        if heap[a].layout != layout { return None; }
      }
      for i := 0 to |inputs| {
        WhatAHandleHolds(Mem(), inputs[i].value);
        var a := handles[inputs[i].value].addr;
        if a == 0 { return None; }
        CastIndex(a, elem, layout);
      }
      view := Some(layout);
    }

    /** `_merge` and `merge_indices_for_layout`: on the device, or else on the host. */
    method MergeTyped(inputs: seq<Option<nat>>, filter: Filter, algo: Option<int>, d: nat, h: nat,
            outcome: MergeOutcome, elem: Elem)
      returns (s: bool)
      requires Valid() && |inputs| > 0 && IsIndex(View(), h) && IsDataset(View(), d) && !View()[d].filled
      requires View()[h].content == None && Dispatch(View()[h].dtype) == Some(elem)
      requires forall i :: 0 <= i < |inputs| ==> inputs[i].Some? && IsIndex(View(), inputs[i].value)
      requires forall i :: 0 <= i < |inputs| ==> Dispatch(TypeOf(View(), inputs[i])) == Some(elem)
      modifies this
      ensures Valid()
      ensures var view := if ShareLayout(old(View()), inputs)
                          then MergedView(ContentOf(old(View()), inputs[0]).value, filter, algo, outcome) else None;
        s == view.Some? && View() == Merged(old(View()), h, d, old(View())[h].dtype, view)
    {
      hide Consistent, Abs;
      SameHandles(Mem());
      WhatAHandleHolds(Mem(), h);
      WhatAHandleHolds(Mem(), d);
      var found := InputsLayout(inputs, elem);
      if found.None? || filter == Bitmap { return false; }
      var view := found.value;
      match outcome {
        case MergedOnDevice =>
        case OutOfDeviceMemory(hostOk) =>
          if algo == Some(FASTENER) || filter != NoFilter || !hostOk { return false; }
          view := OnHost(view);
        case MergeThrows => return false;
      }
      var t := handles[h].dtype;
      Bind(h, t, elem, view);
      SameHandles(Mem());
      WhatAHandleHolds(Mem(), d);
      Store(d, t, MemOf(view), LayoutOf(view), true, elem, view);
      s := true;
    }

    /** Once the output is released, the inputs share a layout only if the output was none of them. */
    lemma ReleasedInputs(r: Ref, inputs: seq<Option<nat>>, h: nat, t: DType)
      requires |inputs| > 0 && IsIndex(r, h)
      requires forall i :: 0 <= i < |inputs| ==> ContentOf(r, inputs[i]).Some? && TypeOf(r, inputs[i]) == t
      ensures var s := r[h := Index(t, None)];
        && (ShareLayout(s, inputs) <==> ShareLayout(r, inputs) && Some(h) !in inputs)
        && (Some(h) !in inputs ==> ContentOf(s, inputs[0]) == ContentOf(r, inputs[0]))
        && forall i :: 0 <= i < |inputs| ==> inputs[i].Some? && IsIndex(s, inputs[i].value) && TypeOf(s, inputs[i]) == t
    {
      var s := r[h := Index(t, None)];
      if Some(h) in inputs {
        var i :| 0 <= i < |inputs| && inputs[i] == Some(h);
        assert ContentOf(s, inputs[i]) == None;
      }
      forall i | 0 <= i < |inputs| && inputs[i] != Some(h) ensures ContentOf(s, inputs[i]) == ContentOf(r, inputs[i]) {}
    }

    /** The loop of `cuvsCagraMergeWithParams` over the inputs behind the first one. */
    method OthersBuilt(inputs: seq<Option<nat>>, t: DType) returns (same: bool)
      requires Valid() && |inputs| > 0 && forall i :: 0 <= i < |inputs| ==> KnownIndex(View(), inputs[i])
      ensures same <==>
        forall j :: 1 <= j < |inputs| ==> ContentOf(View(), inputs[j]).Some? && TypeOf(View(), inputs[j]) == t
    {
      hide Consistent, Abs;
      SameHandles(Mem());
      for i := 1 to |inputs|
        invariant forall j :: 1 <= j < i ==> ContentOf(View(), inputs[j]).Some? && TypeOf(View(), inputs[j]) == t
      {
        if inputs[i].None? { return false; }
        WhatAHandleHolds(Mem(), inputs[i].value);
        if handles[inputs[i].value].addr == 0 || handles[inputs[i].value].dtype != t { return false; }
      }
      same := true;
    }

    /** `cuvsCagraMergeWithParams` */
    method Merge(params: bool, inputs: seq<Option<nat>>, filter: Filter, algo: Option<int>,
                 dataset: Option<nat>, index: Option<nat>, outcome: MergeOutcome)
      returns (s: bool)
      requires Valid() && Enabled(View(), Call.Merge(params, inputs, filter, algo, dataset, index, outcome))
      modifies this
      ensures Valid()
      ensures Result(View(), s) ==
        RefStep(old(View()), Call.Merge(params, inputs, filter, algo, dataset, index, outcome))
    {
      hide Consistent, Abs, ShareLayout, MergedView;
      SameHandles(Mem());
      if |inputs| == 0 || !params || inputs[0].None? { return false; }
      WhatAHandleHolds(Mem(), inputs[0].value);
      if handles[inputs[0].value].addr == 0 { return false; }
      if algo.Some? && !(0 <= algo.value <= 2) { return false; }
      var t := handles[inputs[0].value].dtype;
      var same := OthersBuilt(inputs, t);
      if !same { return false; }
      if index.None? || dataset.None? { return false; }
      WhatAHandleHolds(Mem(), dataset.value);
      if handles[dataset.value].addr != 0 { return false; }
      ReleasedInputs(View(), inputs, index.value, t);
      Release(index.value, t);
      if Dispatch(t).None? { return false; }
      s := MergeTyped(inputs, filter, algo, dataset.value, index.value, outcome, Dispatch(t).value);
    }

    // -------------------------------------------------------------- any call

    method Perform(c: Call) returns (s: bool)
      requires Valid() && Enabled(View(), c)
      modifies this
      ensures Valid() && Result(View(), s) == RefStep(old(View()), c)
    {
      hide Consistent, Abs;
      SameHandles(Mem());
      s := true;
      match c {
        case CreateIndex(h) => CreateIndex(h);
        case DestroyIndex(h) => Destroy(h);
        case CreateDataset(d) => CreateDataset(d);
        case MakeDataset(d, maker, ok) => s := MakeDataset(d, maker, ok);
        case DestroyDataset(d) => if d.Some? { Destroy(d.value); }
        case Build(params, d, h, ok) => s := Build(params, d, h, ok);
        case FromArgs(t, h, ok) => s := FromArgs(t, h, ok);
        case UpdateDataset(d, h, ok) => s := UpdateDataset(d, h, ok);
        case Extend(d, h, ok) => s := Extend(d, h, ok);
        case Search(tensors, queries, h, ok) => s := Search(tensors, queries, h, ok);
        case Merge(params, inputs, filter, algo, d, h, outcome) =>
          s := Merge(params, inputs, filter, algo, d, h, outcome);
        case DeserializeGraph(named, h, file, ok) => s := DeserializeGraph(named, h, file, ok);
        case DeserializeBoth(named, h, outNull, d, file, loaded) =>
          s := DeserializeBoth(named, h, outNull, d, file, loaded);
      }
    }
  }

  /** Any sequence of calls, with any outcomes of the library: nothing is freed twice, nothing is cast
      to another type, nothing leaks, and the handles are what the reference run says. */
  method Run(calls: seq<Call>) returns (library: Library)
    requires forall k :: 0 <= k < |calls| ==> Enabled(RefRun(EMPTY, calls[..k]), calls[k])
    ensures fresh(library) && library.Valid() && library.View() == RefRun(EMPTY, calls)
    ensures library.View() == map[] ==> library.heap == map[]
  {
    library := new Library();
    for k := 0 to |calls|
      invariant library.Valid() && library.View() == RefRun(EMPTY, calls[..k])
    {
      assert calls[..k + 1][..k] == calls[..k];
      var s := library.Perform(calls[k]);
    }
    assert calls[..|calls|] == calls;
    NothingLeaks(library.Mem());
  }
}
