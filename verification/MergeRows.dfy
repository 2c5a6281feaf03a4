/** The host fallback of `merge_indices_for_layout` (c/src/neighbors/cagra.cpp): the rows of all inputs are
    copied one below the other into one zero-filled buffer with its own row stride. */
module MergeRows {
  import opened Common

  /** A row-major matrix inside a larger buffer. */
  datatype Matrix<T> = Matrix(data: seq<T>, stride: nat, rows: nat)

  /** The last element that a strided matrix needs, plus one. */
  function Span(rows: nat, stride: nat, dim: nat): nat {
    if rows == 0 || dim == 0 then 0 else (rows - 1) * stride + dim
  }

  ghost predicate Readable<T>(m: Matrix<T>, dim: nat) {
    dim <= m.stride && Span(m.rows, m.stride, dim) <= |m.data|
  }

  lemma RowInside(rows: nat, stride: nat, dim: nat, r: nat)
    requires r < rows && dim <= stride
    ensures r * stride + dim <= Span(rows, stride, dim) || dim == 0
  {
    if r < rows - 1 { MulMonotonic(r, rows - 1, stride); }
  }

  lemma MulMonotonic(a: nat, b: nat, s: nat)
    requires a <= b
    ensures a * s <= b * s
  {}

  ghost function Row<T>(m: Matrix<T>, dim: nat, r: nat): (row: seq<T>)
    requires Readable(m, dim) && r < m.rows
    ensures |row| == dim
  {
    RowInside(m.rows, m.stride, dim, r);
    if dim == 0 then [] else m.data[r * m.stride..r * m.stride + dim]
  }

  ghost function Rows<T>(m: Matrix<T>, dim: nat, n: nat): (rows: seq<seq<T>>)
    requires Readable(m, dim) && n <= m.rows
    ensures |rows| == n && forall r :: 0 <= r < n ==> rows[r] == Row(m, dim, r)
  {
    if n == 0 then [] else Rows(m, dim, n - 1) + [Row(m, dim, n - 1)]
  }

  /** The rows of all inputs in order. */
  ghost function AllRows<T>(inputs: seq<Matrix<T>>, dim: nat): (rows: seq<seq<T>>)
    requires forall k :: 0 <= k < |inputs| ==> Readable(inputs[k], dim)
    ensures forall r :: 0 <= r < |rows| ==> |rows[r]| == dim
  {
    if inputs == [] then []
    else
      var last := inputs[|inputs| - 1];
      AllRows(inputs[..|inputs| - 1], dim) + Rows(last, dim, last.rows)
  }

  /** Element i of a buffer that holds some rows, each at a multiple of the stride, and otherwise zeros. */
  ghost function Cell<T>(rows: seq<seq<T>>, stride: nat, zero: T, i: nat): T {
    if stride > 0 && i / stride < |rows| && i % stride < |rows[i / stride]| then rows[i / stride][i % stride] else zero
  }

  ghost predicate Holds<T>(a: seq<T>, rows: seq<seq<T>>, stride: nat, zero: T) {
    forall i :: 0 <= i < |a| ==> a[i] == Cell(rows, stride, zero, i)
  }

  lemma InRow(q: nat, s: nat, i: nat)
    requires s > 0
    ensures i / s == q <==> q * s <= i < q * s + s
    ensures i / s == q ==> i % s == i - q * s
  {
    if q * s <= i < q * s + s { DivMod(q, s, i - q * s); }
  }

  /** Writing one more row at the next multiple of the stride. */
  lemma RowAdded<T>(a: seq<T>, b: seq<T>, rows: seq<seq<T>>, row: seq<T>, stride: nat, zero: T)
    requires Holds(a, rows, stride, zero) && |a| == |b| && |row| <= stride
    requires forall i :: 0 <= i < |a| ==>
      b[i] == if 0 <= i - |rows| * stride < |row| then row[i - |rows| * stride] else a[i]
    ensures Holds(b, rows + [row], stride, zero)
  {
    var more := rows + [row];
    forall i | 0 <= i < |b| ensures b[i] == Cell(more, stride, zero, i) {
      if stride > 0 { InRow(|rows|, stride, i); }
    }
  }

  /** `raft::copy_matrix`: height rows of width elements, from one stride to another. */
  method CopyMatrix<T>(dst: array<T>, offset: nat, stride: nat, src: Matrix<T>, width: nat, ghost rows: seq<seq<T>>,
          zero: T)
    requires Readable(src, width) && width <= stride && offset == |rows| * stride
    requires Span(|rows| + src.rows, stride, width) <= dst.Length
    requires Holds(dst[..], rows, stride, zero)
    modifies dst
    ensures Holds(dst[..], rows + Rows(src, width, src.rows), stride, zero)
  {
    hide Holds, Rows, Row, Span, Readable;
    NoRowsYet(src, width, rows);
    for r := 0 to src.rows
      invariant Holds(dst[..], rows + Rows(src, width, r), stride, zero)
    {
      ghost var before, done, row := dst[..], rows + Rows(src, width, r), Row(src, width, r);
      Distribute(|rows|, r, stride);
      NotNegative(r, stride);
      CopyRow(dst, offset + r * stride, src, r, width, |rows| + r, |rows| + src.rows, stride);
      RowAdded(before, dst[..], done, row, stride, zero);
      RowsGrow(src, width, rows, r);
    }
  }

  lemma NoRowsYet<T>(src: Matrix<T>, width: nat, rows: seq<seq<T>>)
    requires Readable(src, width)
    ensures rows + Rows(src, width, 0) == rows
  {}

  lemma RowsGrow<T>(src: Matrix<T>, width: nat, rows: seq<seq<T>>, r: nat)
    requires Readable(src, width) && r < src.rows
    ensures (rows + Rows(src, width, r)) + [Row(src, width, r)] == rows + Rows(src, width, r + 1)
  {
    hide Row;
  }

  method CopyRow<T>(dst: array<T>, offset: nat, src: Matrix<T>, r: nat, width: nat, ghost row: nat, ghost total: nat,
          ghost stride: nat)
    requires Readable(src, width) && r < src.rows && width <= stride && offset == row * stride && row < total
    requires Span(total, stride, width) <= dst.Length
    modifies dst
    ensures forall i :: 0 <= i < dst.Length ==>
      dst[i] == if 0 <= i - offset < width then Row(src, width, r)[i - offset] else old(dst[i])
  {
    RowInside(src.rows, src.stride, width, r);
    RowInside(total, stride, width, row);
    var from := r * src.stride;
    ghost var cells := Row(src, width, r);
    assert width > 0 ==>
      from + width <= |src.data| && offset + width <= dst.Length && cells == src.data[from..from + width];
    CopyCells(dst, offset, src.data, from, width, cells);
  }

  method CopyCells<T>(dst: array<T>, offset: nat, data: seq<T>, from: nat, width: nat, ghost cells: seq<T>)
    requires |cells| == width
    requires width > 0 ==> from + width <= |data| && offset + width <= dst.Length && cells == data[from..from + width]
    modifies dst
    ensures forall i :: 0 <= i < dst.Length ==>
      dst[i] == if 0 <= i - offset < width then cells[i - offset] else old(dst[i])
  {
    for c := 0 to width
      invariant forall i :: 0 <= i < dst.Length ==>
        dst[i] == if 0 <= i - offset < c then cells[i - offset] else old(dst[i])
    {
      dst[offset + c] := data[from + c];
    }
  }

  ghost function TotalRows<T>(inputs: seq<Matrix<T>>): nat {
    if inputs == [] then 0 else TotalRows(inputs[..|inputs| - 1]) + inputs[|inputs| - 1].rows
  }

  lemma {:induction false} PrefixRows<T>(inputs: seq<Matrix<T>>, k: nat, dim: nat)
    requires k <= |inputs| && forall j :: 0 <= j < |inputs| ==> Readable(inputs[j], dim)
    ensures |AllRows(inputs, dim)| == TotalRows(inputs) && TotalRows(inputs[..k]) <= TotalRows(inputs)
  {
    if inputs != [] {
      var before := inputs[..|inputs| - 1];
      if k < |inputs| {
        PrefixRows(before, k, dim);
        assert before[..k] == inputs[..k];
      } else {
        PrefixRows(before, k - 1, dim);
        assert inputs[..k] == inputs;
      }
    }
  }

  /** The fallback: a buffer of the span that the mapping asks for is filled with zeros and then with the
      rows of the inputs. Every write is inside the buffer, row r of the result is row r of all the rows
      together, and every other element stays zero. */
  method MergeOnHost<T(0)>(inputs: seq<Matrix<T>>, dim: nat, stride: nat, span: nat, zero: T) returns (matrix: array<T>)
    requires forall k :: 0 <= k < |inputs| ==> Readable(inputs[k], dim)
    requires dim <= stride && Span(TotalRows(inputs), stride, dim) <= span
    ensures fresh(matrix) && matrix.Length == span
    ensures Holds(matrix[..], AllRows(inputs, dim), stride, zero)
  {
    hide Holds, AllRows, Span, TotalRows, Readable, Rows;
    matrix := new T[span];
    for i := 0 to span
      invariant forall j :: 0 <= j < i ==> matrix[j] == zero
    {
      matrix[i] := zero;
    }
    var rowOffset := 0;
    NoRows(matrix[..], dim, stride, zero);
    assert inputs[..0] == [];
    for k := 0 to |inputs|
      invariant rowOffset == |AllRows(inputs[..k], dim)|
      invariant Holds(matrix[..], AllRows(inputs[..k], dim), stride, zero)
    {
      var index := inputs[k];
      assert inputs[..k + 1][..k] == inputs[..k];
      PrefixRows(inputs, k + 1, dim);
      PrefixRows(inputs[..k + 1], k, dim);
      NextRows(inputs[..k + 1], dim);
      SpanGrows(TotalRows(inputs[..k + 1]), TotalRows(inputs), stride, dim);
      CopyMatrix(matrix, rowOffset * stride, stride, index, dim, AllRows(inputs[..k], dim), zero);
      rowOffset := rowOffset + index.rows;
    }
    assert inputs[..|inputs|] == inputs;
  }

  lemma NoRows<T>(a: seq<T>, dim: nat, stride: nat, zero: T)
    requires forall i :: 0 <= i < |a| ==> a[i] == zero
    ensures AllRows<T>([], dim) == [] && Holds(a, AllRows([], dim), stride, zero)
  {}

  lemma NextRows<T>(inputs: seq<Matrix<T>>, dim: nat)
    requires inputs != [] && forall k :: 0 <= k < |inputs| ==> Readable(inputs[k], dim)
    ensures var last := inputs[|inputs| - 1];
      && AllRows(inputs, dim) == AllRows(inputs[..|inputs| - 1], dim) + Rows(last, dim, last.rows)
      && |AllRows(inputs, dim)| == |AllRows(inputs[..|inputs| - 1], dim)| + last.rows
  {}

  lemma SpanGrows(a: nat, b: nat, stride: nat, dim: nat)
    requires a <= b
    ensures Span(a, stride, dim) <= Span(b, stride, dim)
  {
    if 0 < a { MulMonotonic(a - 1, b - 1, stride); }
  }

  /** Read as a matrix with its stride, such a buffer has exactly the given rows. */
  lemma RowsComeBack<T>(a: seq<T>, rows: seq<seq<T>>, dim: nat, stride: nat, zero: T, r: nat)
    requires Holds(a, rows, stride, zero) && r < |rows| && dim <= stride && Span(|rows|, stride, dim) <= |a|
    requires forall k :: 0 <= k < |rows| ==> |rows[k]| == dim
    ensures Readable(Matrix(a, stride, |rows|), dim) && Row(Matrix(a, stride, |rows|), dim, r) == rows[r]
  {
    var row := Row(Matrix(a, stride, |rows|), dim, r);
    RowInside(|rows|, stride, dim, r);
    forall c | 0 <= c < dim ensures row[c] == rows[r][c] {
      DivMod(r, stride, c);
      assert row[c] == a[r * stride + c];
    }
  }

  /** Row r of input k is row number `rows of the inputs before k` + r of all rows. */
  lemma {:induction false} RowOfInput<T>(inputs: seq<Matrix<T>>, dim: nat, k: nat, r: nat)
    requires forall j :: 0 <= j < |inputs| ==> Readable(inputs[j], dim)
    requires k < |inputs| && r < inputs[k].rows
    ensures TotalRows(inputs[..k]) + r < |AllRows(inputs, dim)|
    ensures AllRows(inputs, dim)[TotalRows(inputs[..k]) + r] == Row(inputs[k], dim, r)
    decreases |inputs|
  {
    hide Row, Readable;
    var before := inputs[..|inputs| - 1];
    PrefixRows(before, |before|, dim);
    if k < |before| {
      RowOfInput(before, dim, k, r);
      assert before[..k] == inputs[..k];
    }
  }

  /** Every element of every input is in the merged buffer, in the column it had, and all else is zero. */
  lemma EveryCellArrives<T>(a: seq<T>, inputs: seq<Matrix<T>>, dim: nat, stride: nat, zero: T, k: nat, r: nat, c: nat)
    requires forall j :: 0 <= j < |inputs| ==> Readable(inputs[j], dim)
    requires dim <= stride && Span(TotalRows(inputs), stride, dim) <= |a|
    requires Holds(a, AllRows(inputs, dim), stride, zero)
    requires k < |inputs| && r < inputs[k].rows && c < dim
    ensures 0 <= (TotalRows(inputs[..k]) + r) * stride + c < |a|
    ensures 0 <= r * inputs[k].stride + c < |inputs[k].data|
    ensures a[(TotalRows(inputs[..k]) + r) * stride + c] == inputs[k].data[r * inputs[k].stride + c]
  {
    hide AllRows;
    var n := TotalRows(inputs[..k]) + r;
    RowOfInput(inputs, dim, k, r);
    PrefixRows(inputs, |inputs|, dim);
    RowInside(TotalRows(inputs), stride, dim, n);
    RowInside(inputs[k].rows, inputs[k].stride, dim, r);
    NotNegative(n, stride);
    NotNegative(r, inputs[k].stride);
    DivMod(n, stride, c);
    assert Row(inputs[k], dim, r)[c] == inputs[k].data[r * inputs[k].stride + c];
  }

  lemma PaddingIsZero<T>(a: seq<T>, inputs: seq<Matrix<T>>, dim: nat, stride: nat, zero: T, i: nat)
    requires forall j :: 0 <= j < |inputs| ==> Readable(inputs[j], dim)
    requires Holds(a, AllRows(inputs, dim), stride, zero) && i < |a| && stride > 0
    requires i / stride >= TotalRows(inputs) || i % stride >= dim
    ensures a[i] == zero
  {
    hide AllRows, TotalRows, Readable, Span;
    PrefixRows(inputs, |inputs|, dim);
    var rows := AllRows(inputs, dim);
    assert i / stride >= |rows| || |rows[i / stride]| <= i % stride;
    assert a[i] == Cell(rows, stride, zero, i);
  }
}
