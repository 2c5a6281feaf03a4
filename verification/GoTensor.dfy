/** The buffers of a two-dimensional `Tensor` of go/dlpack.go: copied to the device, expanded there,
    copied back and sliced into rows. */
module GoTensor {
  import opened Common

  // ---------------------------------------------------------------- rows and flat data

  ghost predicate Rectangular<T>(rows: seq<seq<T>>, columns: nat) {
    forall i :: 0 <= i < |rows| ==> |rows[i]| == columns
  }

  lemma RectangularCat<T>(a: seq<seq<T>>, b: seq<seq<T>>, columns: nat)
    requires Rectangular(a, columns) && Rectangular(b, columns)
    ensures Rectangular(a + b, columns)
  {}

  function Flatten<T>(rows: seq<seq<T>>): seq<T> {
    if rows == [] then [] else Flatten(rows[..|rows| - 1]) + rows[|rows| - 1]
  }

  lemma {:induction false} FlattenSize<T>(rows: seq<seq<T>>, columns: nat)
    requires Rectangular(rows, columns)
    ensures |Flatten(rows)| == |rows| * columns
  {
    if rows != [] {
      FlattenSize(rows[..|rows| - 1], columns);
      Distribute(|rows| - 1, 1, columns);
    }
  }

  lemma {:induction false} FlattenCat<T>(a: seq<seq<T>>, b: seq<seq<T>>)
    ensures Flatten(a + b) == Flatten(a) + Flatten(b)
  {
    if b == [] {
      assert a + b == a;
    } else {
      FlattenCat(a, b[..|b| - 1]);
      assert (a + b)[..|a + b| - 1] == a + b[..|b| - 1];
      assert Flatten(a) + (Flatten(b[..|b| - 1]) + b[|b| - 1]) == (Flatten(a) + Flatten(b[..|b| - 1])) + b[|b| - 1];
    }
  }

  /** Row i is at i times the number of columns. */
  lemma {:induction false} FlattenAt<T>(rows: seq<seq<T>>, columns: nat, i: nat, j: nat)
    requires Rectangular(rows, columns) && i < |rows| && j < columns
    ensures 0 <= i * columns + j < |Flatten(rows)| && Flatten(rows)[i * columns + j] == rows[i][j]
    decreases |rows|
  {
    var rest := rows[..|rows| - 1];
    FlattenSize(rest, columns);
    NotNegative(i, columns);
    if i < |rest| { FlattenAt(rest, columns, i, j); }
  }

  /** A buffer in which a row was copied to a position, as far as there is room. */
  function Put<T>(buffer: seq<T>, at: nat, row: seq<T>): (r: seq<T>)
    ensures |r| == |buffer|
  {
    if at > |buffer| then buffer
    else
      var m := if |row| < |buffer| - at then |row| else |buffer| - at;
      buffer[..at] + row[..m] + buffer[at + m..]
  }

  /** A buffer in which rows of any lengths were copied, each to a multiple of the number of columns. */
  function Layered<T>(buffer: seq<T>, rows: seq<seq<T>>, columns: nat): (r: seq<T>)
    ensures |r| == |buffer|
  {
    if rows == [] then buffer
    else Put(Layered(buffer, rows[..|rows| - 1], columns), (|rows| - 1) * columns, rows[|rows| - 1])
  }

  /** Rows of one length fill the buffer from the beginning. */
  lemma {:induction false} LayeredIsFlat<T>(buffer: seq<T>, rows: seq<seq<T>>, columns: nat)
    requires Rectangular(rows, columns) && |rows| * columns <= |buffer|
    ensures Layered(buffer, rows, columns) == Flatten(rows) + buffer[|rows| * columns..]
  {
    if rows == [] {
      assert [] + buffer[0..] == buffer;
    } else {
      var rest, row, at := rows[..|rows| - 1], rows[|rows| - 1], (|rows| - 1) * columns;
      Distribute(|rows| - 1, 1, columns);
      NotNegative(|rows| - 1, columns);
      LayeredIsFlat(buffer, rest, columns);
      FlattenSize(rest, columns);
      PutNext(Flatten(rest), buffer[at..], row);
      assert buffer[at..][columns..] == buffer[at + columns..];
    }
  }

  lemma PutNext<T>(a: seq<T>, b: seq<T>, row: seq<T>)
    requires |row| <= |b|
    ensures Put(a + b, |a|, row) == (a + row) + b[|row|..]
  {
    assert (a + b)[..|a|] == a && (a + b)[|a| + |row|..] == b[|row|..] && row[..|row|] == row;
  }

  /** Row k, laid from k times the columns on, reaches position p. */
  ghost predicate Covers<T>(rows: seq<seq<T>>, columns: nat, k: int, p: int) {
    0 <= k < |rows| && k * columns <= p < k * columns + |rows[k]|
  }

  /** Position p of the buffer holds the element of the last row that reaches it. */
  lemma {:induction false} LayeredAt<T>(buffer: seq<T>, rows: seq<seq<T>>, columns: nat, k: nat, p: nat)
    requires p < |buffer| && Covers(rows, columns, k, p)
    requires forall l :: k < l < |rows| ==> !Covers(rows, columns, l, p)
    ensures Layered(buffer, rows, columns)[p] == rows[k][p - k * columns]
    decreases |rows|
  {
    hide Put;
    var n := |rows| - 1;
    NotNegative(n, columns);
    PutAt(Layered(buffer, rows[..n], columns), n * columns, rows[n], p);
    if k < n {
      assert !Covers(rows, columns, n, p);
      forall l | k < l < n ensures !Covers(rows[..n], columns, l, p) { assert !Covers(rows, columns, l, p); }
      LayeredAt(buffer, rows[..n], columns, k, p);
    }
  }

  /** A position that no row reaches is left as it was. */
  lemma {:induction false} LayeredBeside<T>(buffer: seq<T>, rows: seq<seq<T>>, columns: nat, p: nat)
    requires p < |buffer| && forall l :: 0 <= l < |rows| ==> !Covers(rows, columns, l, p)
    ensures Layered(buffer, rows, columns)[p] == buffer[p]
  {
    hide Put;
    if rows != [] {
      var n := |rows| - 1;
      NotNegative(n, columns);
      PutAt(Layered(buffer, rows[..n], columns), n * columns, rows[n], p);
      assert !Covers(rows, columns, n, p);
      forall l | 0 <= l < n ensures !Covers(rows[..n], columns, l, p) { assert !Covers(rows, columns, l, p); }
      LayeredBeside(buffer, rows[..n], columns, p);
    }
  }

  lemma PutAt<T>(buffer: seq<T>, at: nat, row: seq<T>, p: nat)
    requires p < |buffer|
    ensures Put(buffer, at, row)[p] == if at <= p < at + |row| then row[p - at] else buffer[p]
  {}

  /** Flat data read as n rows. */
  function RowsOf<T>(flat: seq<T>, n: nat, columns: nat): (rows: seq<seq<T>>)
    requires n * columns <= |flat|
    ensures |rows| == n && forall i :: 0 <= i < n ==> |rows[i]| == columns
  {
    if n == 0 then []
    else
      Distribute(n - 1, 1, columns);
      NotNegative(n - 1, columns);
      RowsOf(flat, n - 1, columns) + [flat[(n - 1) * columns..(n - 1) * columns + columns]]
  }

  lemma {:induction false} RowsOfAreFlat<T>(flat: seq<T>, n: nat, columns: nat)
    requires n * columns <= |flat|
    ensures Flatten(RowsOf(flat, n, columns)) == flat[..n * columns]
  {
    if n > 0 {
      var at := (n - 1) * columns;
      Distribute(n - 1, 1, columns);
      NotNegative(n - 1, columns);
      RowsOfAreFlat(flat, n - 1, columns);
      var rows := RowsOf(flat, n, columns);
      assert rows[..|rows| - 1] == RowsOf(flat, n - 1, columns);
      assert flat[..at + columns] == flat[..at] + flat[at..at + columns];
    }
  }

  lemma {:induction false} RowsOfFlat<T>(rows: seq<seq<T>>, tail: seq<T>, columns: nat)
    requires Rectangular(rows, columns)
    ensures |rows| * columns <= |Flatten(rows) + tail| && RowsOf(Flatten(rows) + tail, |rows|, columns) == rows
  {
    FlattenSize(rows, columns);
    if rows != [] {
      var rest, row := rows[..|rows| - 1], rows[|rows| - 1];
      RowsOfFlat(rest, row + tail, columns);
      FlattenSize(rest, columns);
      assert Flatten(rows) + tail == Flatten(rest) + (row + tail);
      assert (Flatten(rest) + (row + tail))[|Flatten(rest)|..|Flatten(rest)| + columns] == row;
      assert rows == rest + [row];
    }
  }

  /** The rows that a tensor gets from data of any shape: what the copying loop leaves in the buffer. */
  function Taken<T>(buffer: seq<T>, data: seq<seq<T>>): (rows: seq<seq<T>>)
    requires |data| > 0 && |buffer| == |data| * |data[0]|
    ensures |rows| == |data| && forall i :: 0 <= i < |rows| ==> |rows[i]| == |data[0]|
  {
    RowsOf(Layered(buffer, data, |data[0]|), |data|, |data[0]|)
  }

  function Zeros<T>(n: nat, zero: T): (zeros: seq<T>)
    ensures |zeros| == n && forall p :: 0 <= p < n ==> zeros[p] == zero
  {
    seq(n, _ => zero)
  }

  /** The rows that `Expand` appends. */
  function Extra<T>(data: seq<seq<T>>, zero: T): (rows: seq<seq<T>>)
    requires |data| > 0
  {
    NotNegative(|data|, |data[0]|);
    Taken(Zeros(|data| * |data[0]|, zero), data)
  }

  /** Rows of one length are taken as they are, whatever was in the buffer before. */
  lemma RectangularIsTaken<T>(buffer: seq<T>, data: seq<seq<T>>)
    requires |data| > 0 && |buffer| == |data| * |data[0]| && Rectangular(data, |data[0]|)
    ensures Taken(buffer, data) == data
  {
    LayeredIsFlat(buffer, data, |data[0]|);
    RowsOfFlat(data, buffer[|data| * |data[0]|..], |data[0]|);
  }

  // ---------------------------------------------------------------- the device

  /** A device allocation: the byte count that it was made with, and its elements. */
  datatype Block<T> = Block(bytes: nat, data: seq<T>)

  class Device<T(0)> {
    var blocks: map<nat, Block<T>>
    const elementBytes: nat  // dtype.bits / 8

    constructor (bits: nat)
      requires bits == 32 || bits == 64
      ensures blocks == map[] && elementBytes == bits / 8
    {
      blocks, elementBytes := map[], bits / 8;
    }

    /** `cuvsRMMAlloc`: a new block with undefined contents, or a failure. */
    method Alloc(elements: nat, ok: bool) returns (p: Option<nat>)
      modifies this
      ensures p.None? <==> !ok
      ensures p.None? ==> blocks == old(blocks)
      ensures p.Some? ==> p.value !in old(blocks) && exists junk: seq<T> ::
        |junk| == elements && blocks == old(blocks)[p.value := Block(elements * elementBytes, junk)]
    {
      if !ok { return None; }
      var junk := new T[elements];
      ghost var n := Unused(blocks.Keys);
      assert n !in blocks;
      var a: nat :| a !in blocks;
      blocks := blocks[a := Block(elements * elementBytes, junk[..])];
      p := Some(a);
    }

    /** `cuvsRMMFree`, which must be given the size of the allocation. */
    method Free(p: nat, bytes: nat, ok: bool)
      requires p in blocks && blocks[p].bytes == bytes
      modifies this
      ensures blocks == if ok then old(blocks) - {p} else old(blocks)
    {
      if ok { blocks := blocks - {p}; }
    }

    /** `cudaMemcpy` to the device, at an offset. */
    method CopyTo(p: nat, offset: nat, src: seq<T>, ok: bool)
      requires p in blocks && offset + |src| <= |blocks[p].data|
      modifies this
      ensures blocks ==
        if ok then old(blocks)[p := Block(old(blocks)[p].bytes, Overwritten(old(blocks)[p].data, offset, src))]
        else old(blocks)
    {
      if ok { blocks := blocks[p := Block(blocks[p].bytes, Overwritten(blocks[p].data, offset, src))]; }
    }
  }

  function Overwritten<T>(data: seq<T>, offset: nat, src: seq<T>): seq<T>
    requires offset + |src| <= |data|
  {
    data[..offset] + src + data[offset + |src|..]
  }

  lemma OverwrittenTwice<T>(junk: seq<T>, a: seq<T>, b: seq<T>)
    requires |junk| == |a| + |b|
    ensures |Overwritten(junk, 0, a)| == |junk| && Overwritten(Overwritten(junk, 0, a), |a|, b) == a + b
  {}

  // ---------------------------------------------------------------- loops over rows

  lemma NextRow(i: nat, n: nat, columns: nat)
    requires i < n
    ensures 0 <= i * columns && (i + 1) * columns == i * columns + columns <= n * columns
  {
    var above := n - i - 1;
    Distribute(i, 1, columns);
    Distribute(i + 1, above, columns);
    NotNegative(i, columns);
    NotNegative(above, columns);
  }

  lemma OneMoreRow<T>(buffer: seq<T>, data: seq<seq<T>>, columns: nat, i: nat)
    requires i < |data|
    ensures Layered(buffer, data[..i + 1], columns) == Put(Layered(buffer, data[..i], columns), i * columns, data[i])
  {
    assert data[..i + 1][..i] == data[..i];
  }

  /** `copy(dest[at:], row)`, which copies as much as fits. */
  method CopyRow<T>(dest: array<T>, at: nat, row: seq<T>)
    requires at <= dest.Length
    modifies dest
    ensures dest[..] == Put(old(dest[..]), at, row)
  {
    var m := if |row| < dest.Length - at then |row| else dest.Length - at;
    for j := 0 to m
      invariant forall p :: 0 <= p < dest.Length ==> dest[p] == if at <= p < at + j then row[p - at] else old(dest[p])
    {
      dest[at + j] := row[j];
    }
  }

  /** `flattenData`. The rows may have any lengths: each overwrites what an earlier, longer one has left,
      and leaves the rest of its place as it was. */
  method FlattenData<T>(data: seq<seq<T>>, dest: array<T>)
    requires |data| > 0 && dest.Length == |data| * |data[0]|
    modifies dest
    ensures dest[..] == Layered(old(dest[..]), data, |data[0]|)
  {
    hide Layered, Put;
    ghost var before := dest[..];
    var cols := |data[0]|;
    assert Layered(before, data[..0], cols) == before by { NothingLayered(before, cols); }
    for i := 0 to |data|
      invariant dest[..] == Layered(before, data[..i], cols)
    {
      NextRow(i, |data|, cols);
      CopyRow(dest, i * cols, data[i]);
      OneMoreRow(before, data, cols, i);
    }
    assert data[..|data|] == data;
  }

  lemma NothingLayered<T>(buffer: seq<T>, columns: nat)
    ensures Layered(buffer, [], columns) == buffer
  {}

  /** A row that is written element by element would pass the end of the buffer. */
  predicate Overruns<T>(data: seq<seq<T>>, columns: nat) {
    exists i :: 0 <= i < |data| && |data[i]| > (|data| - i) * columns
  }

  /** The loops at the start of `Expand`, into a buffer of zeros; None when an index is out of range, where
      the source panics. */
  method FlattenNew<T(0)>(data: seq<seq<T>>, zero: T) returns (flat: Option<seq<T>>)
    requires |data| > 0
    ensures |data| * |data[0]| >= 0
    ensures flat == if Overruns(data, |data[0]|) then None
                    else Some(Layered(Zeros(|data| * |data[0]|, zero), data, |data[0]|))
  {
    hide Layered, Put;
    var cols := |data[0]|;
    NotNegative(|data|, cols);
    var dest := new T[|data| * cols];
    for p := 0 to dest.Length
      invariant forall q :: 0 <= q < p ==> dest[q] == zero
    {
      dest[p] := zero;
    }
    ghost var zeros := dest[..];
    assert zeros == Zeros(|data| * cols, zero);
    assert Layered(zeros, data[..0], cols) == zeros by { NothingLayered(zeros, cols); }
    for i := 0 to |data|
      invariant dest[..] == Layered(zeros, data[..i], cols)
      invariant forall k :: 0 <= k < i ==> |data[k]| <= (|data| - k) * cols
    {
      NextRow(i, |data|, cols);
      Distribute(|data| - i, i, cols);
      if i * cols + |data[i]| > dest.Length { return None; }
      CopyRow(dest, i * cols, data[i]);
      OneMoreRow(zeros, data, cols, i);
    }
    assert data[..|data|] == data;
    flat := Some(dest[..]);
  }

  lemma RectangularFits<T>(data: seq<seq<T>>, columns: nat)
    requires Rectangular(data, columns)
    ensures !Overruns(data, columns)
  {
    forall i | 0 <= i < |data| ensures |data[i]| <= (|data| - i) * columns {
      Distribute(1, |data| - i - 1, columns);
      NotNegative(|data| - i - 1, columns);
    }
  }

  /** The loops of `Slice`. */
  method Unflatten<T(0)>(flat: seq<T>, rows: nat, columns: nat, ghost contents: seq<seq<T>>) returns (data: seq<seq<T>>)
    requires rows == |contents| && Rectangular(contents, columns) && flat == Flatten(contents)
    ensures data == contents
  {
    hide Flatten;
    data := [];
    for i := 0 to rows
      invariant data == contents[..i]
    {
      var row: seq<T> := [];
      for j := 0 to columns
        invariant row == contents[i][..j]
      {
        FlattenAt(contents, columns, i, j);
        row := row + [flat[i * columns + j]];
      }
      assert contents[i][..columns] == contents[i] && contents[..i + 1] == contents[..i] + [contents[i]];
      data := data + [row];
    }
  }

  // ---------------------------------------------------------------- the tensor

  /** The number of elements of a shape. */
  function Volume(shape: seq<nat>): nat {
    if shape == [] then 1 else Volume(shape[..|shape| - 1]) * shape[|shape| - 1]
  }

  lemma VolumeOfMatrix(rows: nat, columns: nat)
    ensures Volume([rows, columns]) == rows * columns
  {
    assert [rows, columns][..1] == [rows] && [rows][..0] == [];
    assert Volume([rows]) == 1 * rows;
  }

  /** `calculateBytes` */
  method CalculateBytes(shape: seq<nat>, elementBytes: nat) returns (bytes: nat)
    ensures bytes == Volume(shape) * elementBytes
  {
    bytes := 1;
    for dim := 0 to |shape|
      invariant bytes == Volume(shape[..dim])
    {
      assert shape[..dim + 1][..dim] == shape[..dim];
      bytes := bytes * shape[dim];
    }
    assert shape[..|shape|] == shape;
    bytes := bytes * elementBytes;
  }

  /** Where the data pointer leads: to memory of the host, or to a block of the device. */
  datatype Place<T> = OnHost(data: seq<T>) | OnDevice(p: nat)

  /** What the library does in one call of `Expand`. */
  datatype Outcome = Outcome(allocOk: bool, copyOk: bool, appendOk: bool, cleanupOk: bool, freeOk: bool)

  datatype Status = Done | Refused | Failed | Panicked

  predicate FillsBlock(o: Outcome) { o.allocOk && o.copyOk && o.appendOk }

  /** Whatever the call allocates or replaces is freed. */
  predicate FreesAll(o: Outcome) { o.allocOk ==> if o.copyOk && o.appendOk then o.freeOk else o.cleanupOk }

  class Tensor<T(0)> {
    var place: Place<T>
    var shape: seq<nat>    // the Go field
    var dlShape: seq<nat>  // the shape of the DLManagedTensor
    ghost var contents: seq<seq<T>>

    /** The tensor holds its contents row by row; both of its shapes, and on the device the byte count of its
        block, are the ones of these contents. */
    ghost predicate Valid(device: Device<T>)
      reads this, device
    {
      && |shape| == 2 && dlShape == shape && shape[0] == |contents| > 0 && shape[1] > 0
      && Rectangular(contents, shape[1])
      && match place
         case OnHost(data) => data == Flatten(contents)
         case OnDevice(p) =>
           p in device.blocks && device.blocks[p] == Block(shape[0] * shape[1] * device.elementBytes, Flatten(contents))
    }

    /** The part of `NewTensor` behind its check, with a buffer of undefined contents. */
    constructor (data: seq<seq<T>>, device: Device<T>, dest: array<T>)
      requires |data| > 0 && |data[0]| > 0 && dest.Length == |data| * |data[0]|
      modifies dest
      ensures Valid(device) && place.OnHost? && shape == [|data|, |data[0]|]
      ensures contents == Taken(old(dest[..]), data)
    {
      hide Flatten, Layered, RowsOf, Rectangular, Taken;
      ghost var before := dest[..];
      TakenIsFlat(before, data);
      FlattenData(data, dest);
      place := OnHost(dest[..]);
      shape, dlShape := [|data|, |data[0]|], [|data|, |data[0]|];
      contents := Taken(before, data);
    }

    /** `sizeInBytes` */
    method SizeInBytes(device: Device<T>) returns (bytes: nat)
      requires |shape| == 2
      ensures bytes == shape[0] * shape[1] * device.elementBytes
    {
      VolumeOfMatrix(shape[0], shape[1]);
      assert shape == [shape[0], shape[1]];
      bytes := CalculateBytes(shape, device.elementBytes);
    }

    /** What `cudaMemcpy` reads through the data pointer. */
    function Data(device: Device<T>): seq<T>
      reads this, device
      requires place.OnDevice? ==> place.p in device.blocks
    {
      if place.OnHost? then place.data else device.blocks[place.p].data
    }

    /** `ToDevice`. A failure leaves the tensor where it is, and nothing more on the device unless the free
        fails as well. For a tensor that is on the device already the copy may fail; if it succeeds the old
        block stays. */
    method ToDevice(device: Device<T>, allocOk: bool, copyOk: bool, freeOk: bool) returns (ok: bool)
      requires Valid(device)
      modifies this, device
      ensures Valid(device) && contents == old(contents) && shape == old(shape) && ok == (allocOk && copyOk)
      ensures ok ==> place.OnDevice? && place.p !in old(device.blocks)
      ensures ok ==> device.blocks == old(device.blocks)[place.p := device.blocks[place.p]]
      ensures !ok ==> place == old(place) && ((allocOk ==> freeOk) ==> device.blocks == old(device.blocks))
    {
      hide Flatten;
      FlattenSize(contents, shape[1]);
      var bytes := SizeInBytes(device);
      var data := Data(device);
      var p := device.Alloc(shape[0] * shape[1], allocOk);
      if p.None? { return false; }
      device.CopyTo(p.value, 0, data, copyOk);
      if !copyOk {
        device.Free(p.value, bytes, freeOk);
        return false;
      }
      place := OnDevice(p.value);
      ok := true;
    }

    /** The middle of `Expand`: a block with the old data and the new data behind it. When a copy fails, the
        block is freed with the size that it was allocated with. */
    method Enlarge(device: Device<T>, flatData: seq<T>, bytes: nat, newDataSize: nat, o: Outcome)
      returns (p: Option<nat>)
      requires |shape| == 2
      requires place.OnDevice? && place.p in device.blocks && |device.blocks[place.p].data| == shape[0] * shape[1]
      requires bytes == shape[0] * shape[1] * device.elementBytes && newDataSize == |flatData| * device.elementBytes
      modifies device
      ensures p.Some? <==> FillsBlock(o)
      ensures p.Some? ==> p.value !in old(device.blocks)
      ensures var data := old(device.blocks)[place.p].data + flatData;
        p.Some? ==> device.blocks == old(device.blocks)[p.value := Block(bytes + newDataSize, data)]
      ensures p.None? ==> forall q :: q in old(device.blocks) ==>
        q in device.blocks && device.blocks[q] == old(device.blocks)[q]
      ensures p.None? && FreesAll(o) ==> device.blocks == old(device.blocks)
    {
      hide Overwritten;
      var data := device.blocks[place.p].data;
      Distribute(shape[0] * shape[1], |flatData|, device.elementBytes);
      p := device.Alloc(shape[0] * shape[1] + |flatData|, o.allocOk);
      if p.None? { return; }
      ghost var junk := device.blocks[p.value].data;
      OverwrittenTwice(junk, data, flatData);
      device.CopyTo(p.value, 0, data, o.copyOk);
      if !o.copyOk {
        device.Free(p.value, bytes + newDataSize, o.cleanupOk);
        return None;
      }
      device.CopyTo(p.value, shape[0] * shape[1], flatData, o.appendOk);
      if !o.appendOk {
        device.Free(p.value, bytes + newDataSize, o.cleanupOk);
        return None;
      }
    }

    /** `Expand`. It refuses a tensor on the host and rows of another length than the tensor's, and panics
        without a row or with a row that passes the end of its buffer. The new block is filled before the old
        one is freed, so anything but success leaves the tensor as it was. */
    method Expand(device: Device<T>, newData: seq<seq<T>>, zero: T, o: Outcome) returns (status: Status)
      requires Valid(device)
      modifies this, device
      ensures Valid(device) && shape[1] == old(shape[1])
      ensures status == Expected(old(place), old(shape[1]), newData, o)
      ensures status == Done <==>
        && old(place).OnDevice? && |newData| > 0 && |newData[0]| == old(shape[1])
        && (forall i :: 0 <= i < |newData| ==> |newData[i]| <= (|newData| - i) * |newData[0]|)
        && o.allocOk && o.copyOk && o.appendOk && o.freeOk
      ensures status == Panicked <==>
        && old(place).OnDevice?
        && (|newData| == 0 || exists i :: 0 <= i < |newData| && |newData[i]| > (|newData| - i) * |newData[0]|)
      ensures status == Refused <==>
        || old(place).OnHost?
        || (status != Panicked && |newData| > 0 && |newData[0]| != old(shape[1]))
      ensures status == Done ==> contents == old(contents) + Extra(newData, zero)
      ensures status == Done && (forall i :: 0 <= i < |newData| ==> |newData[i]| == |newData[0]|) ==>
        contents == old(contents) + newData
      ensures status == Done ==> place.OnDevice? && place.p !in old(device.blocks)
      ensures status == Done ==> device.blocks == old(device.blocks)[place.p := device.blocks[place.p]] - {old(place).p}
      ensures status != Done ==> contents == old(contents) && place == old(place)
      ensures status != Done ==> forall q :: q in old(device.blocks) ==>
        q in device.blocks && device.blocks[q] == old(device.blocks)[q]
      ensures status != Done && (status == Failed ==> FreesAll(o)) ==> device.blocks == old(device.blocks)
      ensures status == Failed && (o.allocOk ==> !(o.copyOk && o.appendOk) && o.cleanupOk) ==>
        device.blocks == old(device.blocks)
    {
      hide Flatten, Rectangular, Layered, RowsOf, Overruns, Zeros, Taken, Extra;
      HowItEnds(place, shape[1], newData, o);
      if place.OnHost? { return Refused; }
      if |newData| == 0 { return Panicked; }
      var flatData := FlattenNew(newData, zero);
      if flatData.None? { return Panicked; }
      if dlShape[1] != |newData[0]| { return Refused; }
      ghost var added := Extra(newData, zero);
      ExtraIsFlat(newData, zero);
      RectangularCat(contents, added, shape[1]);
      FlattenSize(contents, shape[1]);
      FlattenSize(added, shape[1]);
      Distribute(shape[0], |newData|, shape[1]);
      Distribute(shape[0] * shape[1], |newData| * shape[1], device.elementBytes);
      var bytes := SizeInBytes(device);
      var p := Enlarge(device, flatData.value, bytes, |newData| * |newData[0]| * device.elementBytes, o);
      if p.None? { return Failed; }
      device.Free(place.p, bytes, o.freeOk);
      if !o.freeOk { return Failed; }
      shape := [dlShape[0] + |newData|, |newData[0]|];
      place, dlShape := OnDevice(p.value), shape;
      FlattenCat(contents, added);
      contents := contents + added;
      status := Done;
    }

    /** `ToHost`. For a tensor that is on the host already it must rely on the copy to fail, as it would go on
        to free a host pointer on the device. */
    method ToHost(device: Device<T>, mallocOk: bool, copyOk: bool, freeOk: bool) returns (ok: bool)
      requires Valid(device) && (place.OnHost? ==> !(mallocOk && copyOk))
      modifies this, device
      ensures Valid(device) && contents == old(contents) && shape == old(shape) && ok == (mallocOk && copyOk && freeOk)
      ensures ok ==> place.OnHost? && device.blocks == old(device.blocks) - {old(place).p}
      ensures !ok ==> place == old(place) && device.blocks == old(device.blocks)
    {
      var bytes := SizeInBytes(device);
      if !mallocOk || !copyOk { return false; }
      var data := Data(device);
      device.Free(place.p, bytes, freeOk);
      if !freeOk { return false; }
      place := OnHost(data);
      ok := true;
    }

    /** `Slice`, which refuses a tensor on the device. */
    method Slice(device: Device<T>) returns (data: Option<seq<seq<T>>>)
      requires Valid(device)
      ensures data == if place.OnHost? then Some(contents) else None
    {
      if place.OnDevice? { return None; }
      var unflattened := Unflatten(place.data, shape[0], shape[1], contents);
      data := Some(unflattened);
    }

    /** `Close` of a tensor on the device, with the resource it makes for this. */
    method CloseOnDevice(device: Device<T>, resourceOk: bool, freeOk: bool) returns (ok: bool)
      requires Valid(device) && place.OnDevice?
      modifies device
      ensures ok == (resourceOk && freeOk)
      ensures device.blocks == if ok then old(device.blocks) - {place.p} else old(device.blocks)
    {
      var bytes := SizeInBytes(device);
      if !resourceOk { return false; }
      device.Free(place.p, bytes, freeOk);
      ok := freeOk;
    }
  }

  predicate Panics<T>(newData: seq<seq<T>>) { |newData| == 0 || Overruns(newData, |newData[0]|) }

  /** How `Expand` ends. */
  function Expected<T>(place: Place<T>, columns: nat, newData: seq<seq<T>>, o: Outcome): Status {
    if place.OnHost? then Refused
    else if Panics(newData) then Panicked
    else if columns != |newData[0]| then Refused
    else if FillsBlock(o) && o.freeOk then Done
    else Failed
  }

  lemma HowItEnds<T>(place: Place<T>, columns: nat, newData: seq<seq<T>>, o: Outcome)
    ensures Expected(place, columns, newData, o) == Done <==>
      && place.OnDevice? && |newData| > 0 && |newData[0]| == columns
      && (forall i :: 0 <= i < |newData| ==> |newData[i]| <= (|newData| - i) * |newData[0]|)
      && o.allocOk && o.copyOk && o.appendOk && o.freeOk
    ensures Expected(place, columns, newData, o) == Panicked <==>
      && place.OnDevice?
      && (|newData| == 0 || exists i :: 0 <= i < |newData| && |newData[i]| > (|newData| - i) * |newData[0]|)
    ensures Expected(place, columns, newData, o) == Refused <==>
      || place.OnHost?
      || (Expected(place, columns, newData, o) != Panicked && |newData| > 0 && |newData[0]| != columns)
  {}

  /** The appended rows fill the buffer of the new data, and are the new data when its rows have one length. */
  lemma ExtraIsFlat<T>(newData: seq<seq<T>>, zero: T)
    requires |newData| > 0
    ensures |newData| * |newData[0]| >= 0 && Rectangular(Extra(newData, zero), |newData[0]|)
    ensures |Extra(newData, zero)| == |newData|
    ensures Flatten(Extra(newData, zero)) ==
      Layered(Zeros(|newData| * |newData[0]|, zero), newData, |newData[0]|)
    ensures (forall i :: 0 <= i < |newData| ==> |newData[i]| == |newData[0]|) ==> Extra(newData, zero) == newData
  {
    NotNegative(|newData|, |newData[0]|);
    TakenIsFlat(Zeros(|newData| * |newData[0]|, zero), newData);
    if Rectangular(newData, |newData[0]|) { RectangularIsTaken(Zeros(|newData| * |newData[0]|, zero), newData); }
  }

  lemma TakenIsFlat<T>(buffer: seq<T>, data: seq<seq<T>>)
    requires |data| > 0 && |buffer| == |data| * |data[0]|
    ensures Rectangular(Taken(buffer, data), |data[0]|)
    ensures Flatten(Taken(buffer, data)) == Layered(buffer, data, |data[0]|)
  {
    var flat := Layered(buffer, data, |data[0]|);
    RowsOfAreFlat(flat, |data|, |data[0]|);
    assert flat[..|flat|] == flat;
  }

  /** `NewTensor`: data without a first element is refused. */
  method NewTensor<T(0)>(data: seq<seq<T>>, device: Device<T>) returns (t: Tensor?<T>, ghost buffer: seq<T>)
    ensures t == null <==> |data| == 0 || |data[0]| == 0
    ensures t != null ==> fresh(t) && t.Valid(device) && t.place.OnHost? && t.shape == [|data|, |data[0]|]
    ensures t != null ==> |buffer| == |data| * |data[0]| && t.contents == Taken(buffer, data)
    ensures t != null && Rectangular(data, |data[0]|) ==> t.contents == data
  {
    buffer := [];
    if |data| == 0 || |data[0]| == 0 { return null, buffer; }
    NotNegative(|data|, |data[0]|);
    var dest := new T[|data| * |data[0]|];
    buffer := dest[..];
    t := new Tensor(data, device, dest);
    if Rectangular(data, |data[0]|) { RectangularIsTaken(buffer, data); }
  }

  // ---------------------------------------------------------------- runs

  datatype Batch<T> = Batch(data: seq<seq<T>>, outcome: Outcome)

  /** The batch is appended to a tensor with so many columns on the device. */
  predicate Accepted<T>(b: Batch<T>, columns: nat) { Expected<T>(OnDevice(0), columns, b.data, b.outcome) == Done }

  /** The rows of the batches that are appended. */
  function Appended<T>(batches: seq<Batch<T>>, columns: nat): seq<seq<T>> {
    if batches == [] then []
    else
      var last := batches[|batches| - 1];
      Appended(batches[..|batches| - 1], columns) + if Accepted(last, columns) then last.data else []
  }

  /** The data of the batches. */
  ghost function AllRows<T>(batches: seq<Batch<T>>): (all: seq<seq<seq<T>>>)
    ensures |all| == |batches| && forall k :: 0 <= k < |batches| ==> all[k] == batches[k].data
  {
    if batches == [] then [] else AllRows(batches[..|batches| - 1]) + [batches[|batches| - 1].data]
  }

  /** A batch is appended whole or not at all: whole exactly when it has a row, its first row has the tensor's
      columns, no row passes the end and every call succeeds. */
  lemma AppendedExactly<T>(batches: seq<Batch<T>>, b: Batch<T>, columns: nat)
    ensures Appended(batches + [b], columns) == Appended(batches, columns) +
      if && |b.data| > 0 && |b.data[0]| == columns
         && (forall i :: 0 <= i < |b.data| ==> |b.data[i]| <= (|b.data| - i) * |b.data[0]|)
         && b.outcome.allocOk && b.outcome.copyOk && b.outcome.appendOk && b.outcome.freeOk
      then b.data else []
  {
    HowItEnds(OnDevice(0), columns, b.data, b.outcome);
    assert (batches + [b])[..|batches|] == batches;
  }

  /** All batches fit and all calls succeed. */
  lemma {:induction false} AppendedAll<T>(batches: seq<Batch<T>>, columns: nat)
    requires forall k :: 0 <= k < |batches| ==>
      && |batches[k].data| > 0 && Rectangular(batches[k].data, columns)
      && batches[k].outcome.allocOk && batches[k].outcome.copyOk
      && batches[k].outcome.appendOk && batches[k].outcome.freeOk
    ensures Appended(batches, columns) == Flatten(AllRows(batches))
  {
    hide Overruns;
    if batches != [] {
      var last := batches[|batches| - 1];
      AppendedAll(batches[..|batches| - 1], columns);
      RectangularFits(last.data, columns);
    }
  }

  /** What the library does in the two transfers. */
  datatype Transfers =
    Transfers(allocOk: bool, sendOk: bool, cleanupOk: bool, mallocOk: bool, fetchOk: bool, freeOk: bool)

  predicate Sent(x: Transfers) { x.allocOk && x.sendOk }

  predicate Fetched(x: Transfers) { x.mallocOk && x.fetchOk && x.freeOk }

  /** Everything that is allocated on the way is freed, but for the tensor's own block. */
  ghost predicate AllFreed<T>(x: Transfers, batches: seq<Batch<T>>) {
    (x.allocOk && !x.sendOk ==> x.cleanupOk) && forall k :: 0 <= k < |batches| ==> FreesAll(batches[k].outcome)
  }

  /** A tensor that is made, moved to the device, expanded any number of times, moved back and sliced has its
      rows, followed by the rows of all batches whose expansion succeeded, in this order. Without a failing
      free the device is then as it was before; when only the way back fails, it has the one block of the
      tensor more. */
  method RoundTrip<T(0)>(data: seq<seq<T>>, batches: seq<Batch<T>>, zero: T, device: Device<T>, x: Transfers)
    returns (result: Option<seq<seq<T>>>, t: Tensor<T>)
    requires |data| > 0 && |data[0]| > 0 && Rectangular(data, |data[0]|)
    requires forall k :: 0 <= k < |batches| ==>
      |batches[k].data| > 0 && Rectangular(batches[k].data, |batches[k].data[0]|)
    modifies device
    ensures t.Valid(device)
    ensures result == if Sent(x) && Fetched(x) then Some(data + Appended(batches, |data[0]|)) else None
    ensures x.allocOk && x.sendOk && x.mallocOk && x.fetchOk && x.freeOk && (forall k :: 0 <= k < |batches| ==>
      && |batches[k].data[0]| == |data[0]| && batches[k].outcome.allocOk && batches[k].outcome.copyOk
      && batches[k].outcome.appendOk && batches[k].outcome.freeOk) ==>
      result == Some(data + Flatten(AllRows(batches))) && device.blocks == old(device.blocks)
    ensures !Sent(x) ==> t.place.OnHost? && t.contents == data
    ensures Sent(x) && !Fetched(x) ==> t.place.OnDevice? && t.contents == data + Appended(batches, |data[0]|)
    ensures AllFreed(x, batches) && (Sent(x) ==> Fetched(x)) ==> device.blocks == old(device.blocks)
    ensures AllFreed(x, batches) && Sent(x) && !Fetched(x) ==>
      t.place.p !in old(device.blocks) && device.blocks == old(device.blocks)[t.place.p := device.blocks[t.place.p]]
  {
    hide Flatten, Rectangular, Appended, Taken, Zeros;
    var made: Tensor?<T>;
    ghost var buffer;
    made, buffer := NewTensor(data, device);
    t := made;
    var moved := t.ToDevice(device, x.allocOk, x.sendOk, x.cleanupOk);
    if !moved { return None, t; }
    NothingAppended<T>(data, |data[0]|);
    for k := 0 to |batches|
      invariant t.Valid(device) && t.place.OnDevice? && t.shape[1] == |data[0]| && fresh(t)
      invariant t.contents == data + Appended(batches[..k], |data[0]|)
      invariant AllFreed(x, batches) ==>
        t.place.p !in old(device.blocks) && device.blocks == old(device.blocks)[t.place.p := device.blocks[t.place.p]]
    {
      OneMoreBatch(data, batches, |data[0]|, k);
      var newData := batches[k].data;
      var status := t.Expand(device, newData, zero, batches[k].outcome);
      RectangularIsTaken(Zeros(|newData| * |newData[0]|, zero), newData);
      RectangularFits(newData, |newData[0]|);
    }
    assert batches[..|batches|] == batches;
    moved := t.ToHost(device, x.mallocOk, x.fetchOk, x.freeOk);
    if !moved { return None, t; }
    result := t.Slice(device);
    if forall k :: 0 <= k < |batches| ==>
      && |batches[k].data[0]| == |data[0]| && batches[k].outcome.allocOk && batches[k].outcome.copyOk
      && batches[k].outcome.appendOk && batches[k].outcome.freeOk
    {
      AppendedAll(batches, |data[0]|);
    }
  }

  lemma NothingAppended<T>(data: seq<seq<T>>, columns: nat)
    ensures data + Appended<T>([], columns) == data
  {}

  lemma OneMoreBatch<T>(data: seq<seq<T>>, batches: seq<Batch<T>>, columns: nat, k: nat)
    requires k < |batches|
    ensures data + Appended(batches[..k + 1], columns)
         == data + Appended(batches[..k], columns) + if Accepted(batches[k], columns) then batches[k].data else []
  {
    assert batches[..k + 1][..k] == batches[..k];
  }
}
