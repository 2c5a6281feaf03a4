/** The meaning of a matrix document of cpp/cmake/modules/compute_matrix_product.py, given by recursion
    over the document alone: a leaf binds its nearest key, a list offers its alternatives one after the
    other, a dictionary combines those of its fields in the order of their keys. */
module MatrixModel {
  import opened Common

  datatype Value = Null | Bool(b: bool) | Int(i: int) | Float(r: real) | Str(s: string)

  /** A JSON document; a dictionary holds its fields in the order of insertion. */
  datatype Matrix = Leaf(value: Value) | List(items: seq<Matrix>) | Dict(fields: seq<Field>)

  datatype Field = Field(key: string, value: Matrix)

  type Entry = map<string, Value>

  /** One alternative: the values it binds, and whether the value it was reached from is a leaf under
      lists only, so that the key above it is used. */
  datatype Alt = Alt(binding: Entry, direct: bool)

  datatype Error = NoKeyError | AssertionError

  /** What a generator yields, and the exception it ends with, if any. */
  datatype Stream = Stream(alts: seq<Alt>, error: Option<Error>)

  // ---------------------------------------------------------------- streams

  const UNIT := Stream([Alt(map[], false)], None)

  function Raise(error: Option<Error>): Stream { Stream([], error) }

  /** First a, then b, unless a raises. */
  function Cat(a: Stream, b: Stream): Stream {
    if a.error.Some? then a else Stream(a.alts + b.alts, b.error)
  }

  function Join(x: Alt, y: Alt): Alt { Alt(x.binding + y.binding, x.direct) }

  function JoinAll(x: Alt, ys: seq<Alt>): (r: seq<Alt>)
    ensures |r| == |ys| && forall i :: 0 <= i < |ys| ==> r[i] == Join(x, ys[i])
  {
    if ys == [] then [] else [Join(x, ys[0])] + JoinAll(x, ys[1..])
  }

  function Scale(x: Alt, b: Stream): Stream { Stream(JoinAll(x, b.alts), b.error) }

  /** Every alternative of a, in order, with every alternative of b, in order. */
  function Prod(a: Stream, b: Stream): Stream
    decreases |a.alts|
  {
    if a.alts == [] then a
    else Cat(Scale(a.alts[0], b), Prod(Stream(a.alts[1..], a.error), b))
  }

  function MarkAll(alts: seq<Alt>, direct: bool): (r: seq<Alt>)
    ensures |r| == |alts| && forall i :: 0 <= i < |alts| ==> r[i] == Alt(alts[i].binding, direct)
  {
    if alts == [] then [] else [Alt(alts[0].binding, direct)] + MarkAll(alts[1..], direct)
  }

  function Mark(a: Stream, direct: bool): Stream { Stream(MarkAll(a.alts, direct), a.error) }

  // ---------------------------------------------------------------- sorting the keys

  predicate Less(a: string, b: string) {
    if a == [] || b == [] then a == [] && b != []
    else a[0] < b[0] || (a[0] == b[0] && Less(a[1..], b[1..]))
  }

  function Size(m: Matrix): (n: nat)
    ensures n > 0
  {
    match m
    case Leaf(_) => 1
    case List(items) => 1 + SizeAll(items)
    case Dict(fields) => 1 + SizeFields(fields)
  }

  function SizeAll(ms: seq<Matrix>): nat {
    if ms == [] then 0 else Size(ms[0]) + SizeAll(ms[1..])
  }

  function SizeFields(es: seq<Field>): nat {
    if es == [] then 0 else Size(es[0].value) + SizeFields(es[1..])
  }

  function Insert(e: Field, es: seq<Field>): (r: seq<Field>)
    ensures multiset(r) == multiset(es) + multiset{e}
    ensures SizeFields(r) == SizeFields(es) + Size(e.value)
  {
    if es == [] || Less(e.key, es[0].key) then [e] + es
    else
      assert es == [es[0]] + es[1..];
      [es[0]] + Insert(e, es[1..])
  }

  /** Python's `sorted(matrix.items())`: keys are distinct, so only keys are compared. */
  function Sorted(es: seq<Field>): (r: seq<Field>)
    ensures multiset(r) == multiset(es) && SizeFields(r) == SizeFields(es)
  {
    if es == [] then []
    else
      assert es == [es[0]] + es[1..];
      Insert(es[0], Sorted(es[1..]))
  }

  // ---------------------------------------------------------------- the meaning of a document

  /** `IDENTIFIER_RE` matches unless a newline comes before the last character. */
  predicate MatchesIdentifier(k: string) {
    forall i :: 0 <= i < |k| - 1 ==> k[i] != '\n'
  }

  function KeyCheck(k: string): Stream {
    Raise(if MatchesIdentifier(k) then None else Some(AssertionError))
  }

  function Den(key: Option<string>, m: Matrix): Stream
    decreases Size(m), 0
  {
    match m
    case Leaf(v) => if key == None then Raise(Some(NoKeyError)) else Stream([Alt(map[key.value := v], true)], None)
    case List(items) => DenList(key, items)
    case Dict(fields) => Mark(DenFields(Sorted(fields)), false)
  }

  function DenList(key: Option<string>, items: seq<Matrix>): Stream
    decreases SizeAll(items), 1
  {
    if items == [] then Raise(None) else Cat(Den(key, items[0]), DenList(key, items[1..]))
  }

  function DenFields(es: seq<Field>): Stream
    decreases SizeFields(es), 1
  {
    if es == [] then UNIT
    else Prod(Cat(Den(Some(es[0].key), es[0].value), KeyCheck(es[0].key)), DenFields(es[1..]))
  }
}
