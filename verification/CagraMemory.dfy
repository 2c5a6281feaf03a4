/** The memory behind the CAGRA handles: boxes that carry a layout tag and an untyped pointer, dataset
    storage behind an untyped address, and which handle leads to which address. */
module CagraMemory {
  import opened Common
  import opened CagraModel

  /** The type with which an index was constructed. */
  datatype IndexType = IndexType(elem: Elem, view: View)

  /** What lives at an address: an index box, whose pointer leads to an index of type `holds`, or
      dataset storage, either an owning dataset or a view object. `owner` is the handle it was made for. */
  datatype Cell =
    | IndexBox(owner: nat, layout: View, holds: IndexType)
    | Storage(owner: nat, owning: bool, elem: Elem, view: View)

  /** `cuvsCagraIndex` and `cuvsDataset`. */
  datatype Handle =
    | IndexHandle(addr: nat, dtype: DType)
    | DatasetHandle(addr: nat, dtype: DType, mem: Mem, layout: Layout, owning: bool)

  datatype Memory = Memory(heap: map<nat, Cell>, handles: map<nat, Handle>)

  /** PQ storage is always half; any other has the element type of the dtype. */
  function StoredElem(t: DType, layout: Layout): Option<Elem> {
    if layout == Pq then if t == FLOAT32 then Some(F16) else None else Dispatch(t)
  }

  /** The cell is what the fields of the handle say: the tag of a box is the view of the index it was
      made for, and the type of what is stored is the one that the dtype selects. */
  ghost predicate Fits(c: Cell, x: Handle) {
    match x
    case IndexHandle(_, t) =>
      && c.IndexBox? && c.layout == c.holds.view && Dispatch(t) == Some(c.holds.elem)
      && (c.layout == DeviceVpq ==> t == FLOAT32)
    case DatasetHandle(_, t, mem, layout, owning) =>
      c.Storage? && c.owning == owning && ViewOf(mem, layout) == Some(c.view) && StoredElem(t, layout) == Some(c.elem)
  }

  ghost predicate HandleIn(heap: map<nat, Cell>, h: nat, x: Handle) {
    x.addr != 0 ==> x.addr in heap && heap[x.addr].owner == h && Fits(heap[x.addr], x)
  }

  ghost predicate Owned(m: Memory, a: nat, c: Cell) {
    c.owner in m.handles && m.handles[c.owner].addr == a
  }

  /** Every non-empty handle leads to a cell of its own that fits it, and there is no other cell. */
  ghost predicate Consistent(m: Memory) {
    && 0 !in m.heap
    && (forall h :: h in m.handles ==> HandleIn(m.heap, h, m.handles[h]))
    && (forall a :: a in m.heap ==> Owned(m, a, m.heap[a]))
  }

  ghost function AbsHandle(heap: map<nat, Cell>, x: Handle): State {
    match x
    case IndexHandle(a, t) => Index(t, if a in heap && heap[a].IndexBox? then Some(heap[a].layout) else None)
    case DatasetHandle(a, t, mem, layout, owning) => Dataset(t, mem, layout, owning, a != 0)
  }

  ghost function Abs(m: Memory): Ref {
    map h | h in m.handles :: AbsHandle(m.heap, m.handles[h])
  }

  // ---------------------------------------------------------------- the updates

  function AddrOf(m: Memory, h: nat): nat { if h in m.handles then m.handles[h].addr else 0 }

  /** The cell of handle h is freed and its fields become x, with a zero address. */
  function Cleared(m: Memory, h: nat, x: Handle): Memory {
    Memory(m.heap - {AddrOf(m, h)}, m.handles[h := x])
  }

  /** The empty or new handle h gets the fields x and the new cell c. */
  function FilledWith(m: Memory, h: nat, x: Handle, c: Cell): Memory {
    Memory(m.heap[x.addr := c], m.handles[h := x])
  }

  function Dropped(m: Memory, h: nat): Memory {
    Memory(m.heap - {AddrOf(m, h)}, m.handles - {h})
  }

  /** Another handle does not notice that the cell of h is gone. */
  lemma NotFreed(m: Memory, h: nat, g: nat)
    requires Consistent(m) && g in m.handles && g != h
    ensures HandleIn(m.heap - {AddrOf(m, h)}, g, m.handles[g])
    ensures AbsHandle(m.heap - {AddrOf(m, h)}, m.handles[g]) == AbsHandle(m.heap, m.handles[g])
  {
    hide Fits;
    assert HandleIn(m.heap, g, m.handles[g]);
    if h in m.handles { assert HandleIn(m.heap, h, m.handles[h]); }
  }

  lemma NotOverwritten(m: Memory, a: nat, c: Cell, g: nat)
    requires Consistent(m) && g in m.handles && a !in m.heap && a != 0
    ensures HandleIn(m.heap[a := c], g, m.handles[g])
    ensures AbsHandle(m.heap[a := c], m.handles[g]) == AbsHandle(m.heap, m.handles[g])
  {
    hide Fits;
    assert HandleIn(m.heap, g, m.handles[g]);
  }

  lemma StillOwned(m: Memory, h: nat, a: nat)
    requires Consistent(m) && a in m.heap && a != AddrOf(m, h)
    ensures m.heap[a].owner != h && Owned(m, a, m.heap[a])
  {
    hide Fits;
  }

  lemma Clear(m: Memory, h: nat, x: Handle)
    requires Consistent(m) && x.addr == 0
    ensures Consistent(Cleared(m, h, x)) && Abs(Cleared(m, h, x)) == Abs(m)[h := AbsHandle(map[], x)]
  {
    hide Consistent, HandleIn, AbsHandle, Owned;
    var n := Cleared(m, h, x);
    forall g | g in m.handles && g != h
      ensures HandleIn(n.heap, g, n.handles[g]) && AbsHandle(n.heap, n.handles[g]) == AbsHandle(m.heap, m.handles[g])
    {
      NotFreed(m, h, g);
    }
    forall a | a in n.heap ensures Owned(n, a, n.heap[a]) {
      StillOwned(m, h, a);
      OwnedElsewhere(m, n, h, a);
    }
    NoZero(m);
    EmptyHandle(n, h);
    MakeConsistent(n);
    assert Abs(n) == Abs(m)[h := AbsHandle(map[], x)];
  }

  lemma Drop(m: Memory, h: nat)
    requires Consistent(m) && h in m.handles
    ensures Consistent(Dropped(m, h)) && Abs(Dropped(m, h)) == Abs(m) - {h}
  {
    hide Consistent, HandleIn, AbsHandle, Owned;
    var n := Dropped(m, h);
    forall g | g in n.handles
      ensures HandleIn(n.heap, g, n.handles[g]) && AbsHandle(n.heap, n.handles[g]) == AbsHandle(m.heap, m.handles[g])
    {
      NotFreed(m, h, g);
    }
    forall a | a in n.heap ensures Owned(n, a, n.heap[a]) {
      StillOwned(m, h, a);
      OwnedElsewhere(m, n, h, a);
    }
    NoZero(m);
    MakeConsistent(n);
    assert Abs(n) == Abs(m) - {h};
  }

  lemma Fill(m: Memory, h: nat, x: Handle, c: Cell)
    requires Consistent(m) && AddrOf(m, h) == 0 && x.addr != 0 && x.addr !in m.heap && c.owner == h && Fits(c, x)
    ensures Consistent(FilledWith(m, h, x, c))
    ensures Abs(FilledWith(m, h, x, c)) == Abs(m)[h := AbsHandle(map[x.addr := c], x)]
  {
    hide Consistent, HandleIn, AbsHandle, Owned, Fits;
    var n := FilledWith(m, h, x, c);
    forall g | g in m.handles && g != h
      ensures HandleIn(n.heap, g, n.handles[g]) && AbsHandle(n.heap, n.handles[g]) == AbsHandle(m.heap, m.handles[g])
    {
      NotOverwritten(m, x.addr, c, g);
    }
    NoZero(m);
    forall a | a in n.heap ensures Owned(n, a, n.heap[a]) {
      if a == x.addr {
        NewlyOwned(n, h);
      } else {
        StillOwned(m, h, a);
        OwnedElsewhere(m, n, h, a);
      }
    }
    FullHandle(n, h, c);
    MakeConsistent(n);
    assert Abs(n) == Abs(m)[h := AbsHandle(map[x.addr := c], x)];
  }

  lemma OwnedElsewhere(m: Memory, n: Memory, h: nat, a: nat)
    requires a in m.heap && a in n.heap && n.heap[a] == m.heap[a] && Owned(m, a, m.heap[a]) && m.heap[a].owner != h
    requires forall g :: g in m.handles && g != h ==> g in n.handles && n.handles[g] == m.handles[g]
    ensures Owned(n, a, n.heap[a])
  {}

  lemma NewlyOwned(n: Memory, h: nat)
    requires h in n.handles && n.handles[h].addr in n.heap && n.heap[n.handles[h].addr].owner == h
    ensures Owned(n, n.handles[h].addr, n.heap[n.handles[h].addr])
  {}

  lemma EmptyHandle(n: Memory, h: nat)
    requires h in n.handles && n.handles[h].addr == 0 && 0 !in n.heap
    ensures HandleIn(n.heap, h, n.handles[h]) && AbsHandle(n.heap, n.handles[h]) == AbsHandle(map[], n.handles[h])
  {}

  lemma FullHandle(n: Memory, h: nat, c: Cell)
    requires h in n.handles && n.handles[h].addr in n.heap && n.heap[n.handles[h].addr] == c && c.owner == h
    requires Fits(c, n.handles[h])
    ensures HandleIn(n.heap, h, n.handles[h])
    ensures AbsHandle(n.heap, n.handles[h]) == AbsHandle(map[n.handles[h].addr := c], n.handles[h])
  {}

  lemma NoZero(m: Memory)
    requires Consistent(m)
    ensures 0 !in m.heap
  {}

  lemma MakeConsistent(n: Memory)
    requires 0 !in n.heap
    requires forall h :: h in n.handles ==> HandleIn(n.heap, h, n.handles[h])
    requires forall a :: a in n.heap ==> Owned(n, a, n.heap[a])
    ensures Consistent(n)
  {}

  // ---------------------------------------------------------------- what a handle holds

  /** A handle is empty in the reference exactly when its address is zero; otherwise its cell fits it. */
  lemma WhatAHandleHolds(m: Memory, h: nat)
    requires Consistent(m) && h in m.handles
    ensures var x := m.handles[h];
      && (x.addr != 0 ==> x.addr in m.heap && Fits(m.heap[x.addr], x))
      && Abs(m)[h] == AbsHandle(m.heap, x)
      && (x.IndexHandle? ==> Abs(m)[h] == Index(x.dtype, if x.addr == 0 then None else Some(m.heap[x.addr].layout)))
  {
    assert HandleIn(m.heap, h, m.handles[h]);
  }

  lemma SameHandles(m: Memory)
    ensures forall h :: h in Abs(m) <==> h in m.handles
    ensures forall h :: h in m.handles ==> (Abs(m)[h].Index? <==> m.handles[h].IndexHandle?)
  {}

  /** The new cell may be taken before the old one is freed. */
  lemma NewBeforeOld(m: Memory, h: nat, x: Handle, y: Handle, c: Cell)
    requires h in m.handles && x.addr !in m.heap && x.addr != 0 && m.handles[h].addr != x.addr
    ensures Memory(m.heap[x.addr := c] - {m.handles[h].addr}, m.handles[h := x]) ==
      FilledWith(Cleared(m, h, y), h, x, c)
  {}

  /** Taking the new cell first and then freeing the old one disturbs no other handle. */
  lemma SwapCells(m: Memory, h: nat, x: Handle, c: Cell)
    requires Consistent(m) && h in m.handles && x.addr != 0 && x.addr !in m.heap && c.owner == h && Fits(c, x)
    ensures var n := Memory(m.heap[x.addr := c] - {m.handles[h].addr}, m.handles[h := x]);
      Consistent(n) && Abs(n) == Abs(m)[h := AbsHandle(map[x.addr := c], x)]
  {
    hide Consistent, Abs, AbsHandle, Fits;
    var y := IndexHandle(0, x.dtype);
    assert m.handles[h].addr != x.addr by { WhatAHandleHolds(m, h); }
    Clear(m, h, y);
    Fill(Cleared(m, h, y), h, x, c);
    NewBeforeOld(m, h, x, y, c);
  }

  /** Every cell belongs to a handle that leads to it, so once all handles are destroyed nothing is left. */
  lemma NothingLeaks(m: Memory)
    requires Consistent(m)
    ensures forall a :: a in m.heap ==> m.heap[a].owner in Abs(m) && AddrOf(m, m.heap[a].owner) == a
    ensures Abs(m) == map[] ==> m.heap == map[]
  {
    hide HandleIn, AbsHandle;
    forall a | a in m.heap ensures m.heap[a].owner in Abs(m) && AddrOf(m, m.heap[a].owner) == a {
      assert Owned(m, a, m.heap[a]);
    }
  }

  /** There is always an unused address. */
  lemma UnusedAddress(heap: map<nat, Cell>)
    ensures exists a: nat :: a != 0 && a !in heap
  {
    var n := Unused(heap.Keys);
    assert n !in heap;
  }
}
