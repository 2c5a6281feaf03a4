/** The traversal of `iterate_matrix_product`: a queue of parts of the document still to be combined is
    threaded through the recursion, and every list alternative replays the rest of the queue. */
module MatrixTraversal {
  import opened Common
  import opened MatrixModel
  import opened MatrixAlgebra

  datatype PathElement = Key(k: string) | Index(i: nat)

  datatype Item = Item(path: seq<PathElement>, key: Option<string>, matrix: Matrix)

  datatype Options = Options(warnUnused: bool, warnUsed: bool)

  datatype Warning = UsedKey(path: seq<PathElement>) | UnusedKey(path: seq<PathElement>)

  // ---------------------------------------------------------------- what the queue means

  function PathCheck(path: seq<PathElement>): Stream {
    if path != [] && path[|path| - 1].Key? then KeyCheck(path[|path| - 1].k) else Raise(None)
  }

  function DenItem(it: Item): Stream { Cat(Den(it.key, it.matrix), PathCheck(it.path)) }

  function DenQueue(q: seq<Item>): Stream {
    if q == [] then UNIT else Prod(DenItem(q[0]), DenQueue(q[1..]))
  }

  function UnderAll(e: Entry, alts: seq<Alt>): (r: seq<Alt>)
    ensures |r| == |alts| && forall i :: 0 <= i < |alts| ==> r[i] == Alt(e + alts[i].binding, alts[i].direct)
  {
    if alts == [] then [] else [Alt(e + alts[0].binding, alts[0].direct)] + UnderAll(e, alts[1..])
  }

  /** The stream s as it is seen by a caller that has already bound e. */
  function Under(e: Entry, s: Stream): Stream { Stream(UnderAll(e, s.alts), s.error) }

  function FieldItems(path: seq<PathElement>, fs: seq<Field>): seq<Item> {
    if fs == [] then []
    else [Item(path + [Key(fs[0].key)], Some(fs[0].key), fs[0].value)] + FieldItems(path, fs[1..])
  }

  function QueueSize(q: seq<Item>): nat {
    if q == [] then 0 else Size(q[0].matrix) + QueueSize(q[1..])
  }

  // ---------------------------------------------------------------- which keys are reported

  /** Some leaf of m has only lists above it in m, so the key above m is the one it is bound to. */
  predicate NamesLeaf(m: Matrix) {
    match m
    case Leaf(_) => true
    case List(items) => exists i :: 0 <= i < |items| && NamesLeaf(items[i])
    case Dict(_) => false
  }

  function Report(o: Options, path: seq<PathElement>, used: bool): seq<Warning> {
    if path == [] || path[|path| - 1].Index? then []
    else
      var k := path[|path| - 1].k;
      var underscored := k != [] && k[0] == '_';
      if o.warnUsed && used && underscored then [UsedKey(path)]
      else if o.warnUnused && !used && !underscored then [UnusedKey(path)]
      else []
  }

  /** The warnings of a visit to the first item of q followed by the rest. The item's own key counts as
      used exactly when it names a leaf directly in some entry that this visit produces. */
  function Visits(o: Options, q: seq<Item>): seq<Warning>
    decreases QueueSize(q), 1
  {
    if q == [] then []
    else
      VisitMatrix(o, q[0].path, q[0].key, q[0].matrix, q[1..])
      + if DenQueue(q).error.Some? then []
        else Report(o, q[0].path, NamesLeaf(q[0].matrix) && DenQueue(q[1..]).alts != [])
  }

  function VisitMatrix(o: Options, path: seq<PathElement>, key: Option<string>, m: Matrix, q: seq<Item>): seq<Warning>
    decreases Size(m) + QueueSize(q), 0
  {
    match m
    case Leaf(_) => if key == None then [] else Visits(o, q)
    case List(items) => VisitList(o, path, key, items, 0, q)
    case Dict(fields) =>
      FieldItemsSize(path, Sorted(fields), q);
      Visits(o, FieldItems(path, Sorted(fields)) + q)
  }

  function VisitList(o: Options, path: seq<PathElement>, key: Option<string>, items: seq<Matrix>, i: nat, q: seq<Item>)
    : seq<Warning>
    requires i <= |items|
    decreases SizeAll(items) + QueueSize(q), 2, |items| - i
  {
    if i == |items| then []
    else
      SizeOfItem(items, i);
      var alternative := [Item(path + [Index(i)], key, items[i])] + q;
      Visits(o, alternative)
      + if DenQueue(alternative).error.Some? then [] else VisitList(o, path, key, items, i + 1, q)
  }

  lemma {:induction false} SizeOfItem(items: seq<Matrix>, i: nat)
    requires i < |items|
    ensures Size(items[i]) <= SizeAll(items)
  {
    if i > 0 { SizeOfItem(items[1..], i - 1); }
  }

  lemma FieldItemsCons(path: seq<PathElement>, fs: seq<Field>)
    requires fs != []
    ensures FieldItems(path, fs) ==
      [Item(path + [Key(fs[0].key)], Some(fs[0].key), fs[0].value)] + FieldItems(path, fs[1..])
  {}

  lemma QueueSizeCons(it: Item, q: seq<Item>)
    ensures QueueSize([it] + q) == Size(it.matrix) + QueueSize(q)
  {
    assert ([it] + q)[1..] == q;
  }

  lemma {:induction false} FieldItemsSize(path: seq<PathElement>, fs: seq<Field>, q: seq<Item>)
    ensures QueueSize(FieldItems(path, fs) + q) == SizeFields(fs) + QueueSize(q)
  {
    hide FieldItems, QueueSize;
    if fs == [] {
      assert FieldItems(path, fs) + q == q by { NoFieldItems(path); }
    } else {
      var it, rest := Item(path + [Key(fs[0].key)], Some(fs[0].key), fs[0].value), FieldItems(path, fs[1..]);
      FieldItemsSize(path, fs[1..], q);
      FieldItemsCons(path, fs);
      QueueSizeCons(it, rest + q);
      assert ([it] + rest) + q == [it] + (rest + q);
    }
  }

  lemma NoFieldItems(path: seq<PathElement>)
    ensures FieldItems(path, []) == []
  {}

  // ---------------------------------------------------------------- how queues and entries combine

  lemma UnderCat(e: Entry, a: Stream, b: Stream)
    ensures Under(e, Cat(a, b)) == Cat(Under(e, a), Under(e, b))
  {
    assert UnderAll(e, a.alts + b.alts) == UnderAll(e, a.alts) + UnderAll(e, b.alts);
  }

  lemma UnderMark(e: Entry, a: Stream, direct: bool)
    ensures Under(e, Mark(a, direct)) == Mark(Under(e, a), direct)
  {
    assert UnderAll(e, MarkAll(a.alts, direct)) == MarkAll(UnderAll(e, a.alts), direct);
  }

  lemma UnderEmpty(a: Stream)
    ensures Under(map[], a) == a
  {
    forall i | 0 <= i < |a.alts| ensures UnderAll(map[], a.alts)[i] == a.alts[i] {
      assert map[] + a.alts[i].binding == a.alts[i].binding;
    }
    assert UnderAll(map[], a.alts) == a.alts;
  }

  lemma SingleProd(x: Alt, b: Stream)
    ensures Prod(Stream([x], None), b) == Scale(x, b)
  {
    assert Stream([x], None).alts[1..] == [];
    assert Scale(x, b).alts + [] == Scale(x, b).alts;
  }

  lemma EntryAssociative(a: Entry, b: Entry, c: Entry)
    ensures a + b + c == a + (b + c)
  {}

  lemma UnderScale(e: Entry, x: Alt, b: Stream)
    ensures Under(e, Scale(x, b)) == Mark(Under(e + x.binding, b), x.direct)
  {
    var l, r := UnderAll(e, JoinAll(x, b.alts)), MarkAll(UnderAll(e + x.binding, b.alts), x.direct);
    forall i | 0 <= i < |b.alts| ensures l[i] == r[i] {
      EntryAssociative(e, x.binding, b.alts[i].binding);
    }
    assert l == r;
  }

  /** Binding a leaf and going on is combining the leaf's one alternative with the rest. */
  lemma LeafStep(e: Entry, k: string, v: Value, rest: Stream)
    ensures Mark(Under(e[k := v], rest), true) == Under(e, Prod(Den(Some(k), Leaf(v)), rest))
  {
    var x := Alt(map[k := v], true);
    SingleProd(x, rest);
    UnderScale(e, x, rest);
    assert e + x.binding == e[k := v];
  }

  lemma NothingFollows(a: Stream)
    ensures Cat(a, Raise(None)) == a
  {
    assert a.alts + [] == a.alts;
  }

  /** The check of a key comes after everything that its visit yields. */
  lemma CheckCommutes(a: Stream, check: Stream, rest: Stream)
    requires check.alts == []
    ensures Prod(Cat(a, check), rest) == Cat(Prod(a, rest), check)
  {
    ProdCat(a, check, rest);
  }

  lemma {:induction false} FieldItemsMean(path: seq<PathElement>, fs: seq<Field>)
    ensures DenQueue(FieldItems(path, fs)) == DenFields(fs)
  {
    if fs != [] {
      FieldItemsMean(path, fs[1..]);
      var items := FieldItems(path, fs);
      assert items[1..] == FieldItems(path, fs[1..]);
      assert DenItem(items[0]) == Cat(Den(Some(fs[0].key), fs[0].value), KeyCheck(fs[0].key));
    }
  }

  /** Putting the fields of a dictionary in front of the queue combines their product with it. */
  lemma {:induction false} QueueCat(front: seq<Item>, q: seq<Item>)
    ensures Mark(DenQueue(front + q), false) == Prod(Mark(DenQueue(front), false), DenQueue(q))
  {
    hide Den, DenItem, Mark, Prod, DenQueue;
    if front == [] {
      EmptyFront(q);
    } else {
      var it, rest := front[0], front[1..];
      QueueCat(rest, q);
      assert front == [it] + rest && front + q == [it] + (rest + q);
      QueueCons(it, rest);
      QueueCons(it, rest + q);
      ProdOfMarks(DenItem(it), DenQueue(rest + q), DenQueue(rest), DenQueue(q));
    }
  }

  lemma QueueCons(it: Item, q: seq<Item>)
    ensures DenQueue([it] + q) == Prod(DenItem(it), DenQueue(q))
  {
    assert ([it] + q)[1..] == q;
  }

  lemma EmptyFront(q: seq<Item>)
    ensures Mark(DenQueue([] + q), false) == Prod(Mark(DenQueue([]), false), DenQueue(q))
  {
    assert [] + q == q;
    UnitProd(DenQueue(q));
    assert Mark(UNIT, false) == UNIT;
  }

  lemma ProdOfMarks(d: Stream, whole: Stream, front: Stream, back: Stream)
    requires Mark(whole, false) == Prod(Mark(front, false), back)
    ensures Mark(Prod(d, whole), false) == Prod(Mark(Prod(d, front), false), back)
  {
    hide Prod, Mark;
    calc {
      Mark(Prod(d, whole), false);
      { MarkProd(d, whole, false); MarkProd(Mark(d, false), whole, false); }
      Prod(Mark(d, false), Mark(whole, false));
      { ProdAssociative(Mark(d, false), Mark(front, false), back); }
      Prod(Prod(Mark(d, false), Mark(front, false)), back);
      { MarkProd(d, front, false); MarkProd(Mark(d, false), front, false); }
      Prod(Mark(Prod(d, front), false), back);
    }
  }

  lemma {:induction false} DenListSnoc(key: Option<string>, items: seq<Matrix>, m: Matrix)
    ensures DenList(key, items + [m]) == Cat(DenList(key, items), Den(key, m))
  {
    if items == [] {
      assert items + [m] == [m] && [m][1..] == [];
      assert Den(key, m).alts + [] == Den(key, m).alts;
    } else {
      DenListSnoc(key, items[1..], m);
      assert (items + [m])[1..] == items[1..] + [m];
      CatAssociative(Den(key, items[0]), DenList(key, items[1..]), Den(key, m));
    }
  }

  lemma {:induction false} DenListCat(key: Option<string>, a: seq<Matrix>, b: seq<Matrix>)
    ensures DenList(key, a + b) == Cat(DenList(key, a), DenList(key, b))
  {
    if a == [] {
      assert a + b == b;
    } else {
      DenListCat(key, a[1..], b);
      assert (a + b)[1..] == a[1..] + b;
      CatAssociative(Den(key, a[0]), DenList(key, a[1..]), DenList(key, b));
    }
  }

  // ---------------------------------------------------------------- used keys

  ghost predicate AnyDirect(s: Stream) { exists i :: 0 <= i < |s.alts| && s.alts[i].direct }

  lemma AnyDirectCat(a: Stream, b: Stream)
    requires a.error == None
    ensures AnyDirect(Cat(a, b)) <==> AnyDirect(a) || AnyDirect(b)
  {
    var c := Cat(a, b);
    forall i | 0 <= i < |a.alts| ensures c.alts[i] == a.alts[i] {}
    forall i | 0 <= i < |b.alts| ensures c.alts[|a.alts| + i] == b.alts[i] {}
  }

  lemma {:induction false} ProdDirect(a: Stream, b: Stream)
    requires Prod(a, b).error == None
    ensures a.error == None && (AnyDirect(Prod(a, b)) <==> AnyDirect(a) && b.alts != [])
    decreases |a.alts|
  {
    if a.alts != [] {
      var rest := Stream(a.alts[1..], a.error);
      ProdDirect(rest, b);
      AnyDirectCat(Scale(a.alts[0], b), Prod(rest, b));
      AnyDirectCat(Stream([a.alts[0]], None), rest);
      assert [a.alts[0]] + rest.alts == a.alts;
      assert AnyDirect(Scale(a.alts[0], b)) <==> a.alts[0].direct && b.alts != [] by {
        if a.alts[0].direct && b.alts != [] { assert Scale(a.alts[0], b).alts[0].direct; }
      }
      assert AnyDirect(Stream([a.alts[0]], None)) <==> a.alts[0].direct by {
        if a.alts[0].direct { assert Stream([a.alts[0]], None).alts[0].direct; }
      }
    }
  }

  lemma {:induction false} DenDirect(key: Option<string>, m: Matrix)
    requires Den(key, m).error == None
    ensures AnyDirect(Den(key, m)) <==> NamesLeaf(m)
    decreases Size(m), 0
  {
    match m
    case Leaf(v) => assert Den(key, m).alts[0].direct;
    case List(items) => DenListDirect(key, items);
    case Dict(_) =>
  }

  lemma {:induction false} DenListDirect(key: Option<string>, items: seq<Matrix>)
    requires DenList(key, items).error == None
    ensures AnyDirect(DenList(key, items)) <==> exists i :: 0 <= i < |items| && NamesLeaf(items[i])
    decreases SizeAll(items), 1
  {
    if items != [] {
      DenDirect(key, items[0]);
      DenListDirect(key, items[1..]);
      AnyDirectCat(Den(key, items[0]), DenList(key, items[1..]));
      if i :| 0 <= i < |items[1..]| && NamesLeaf(items[1..][i]) { assert NamesLeaf(items[i + 1]); }
      if i :| 0 <= i < |items| && NamesLeaf(items[i]) && i > 0 { assert NamesLeaf(items[1..][i - 1]); }
    }
  }

  /** What the flags of a visit say about its key. */
  lemma VisitUses(it: Item, rest: seq<Item>, entry: Entry, out: Stream)
    requires out == Under(entry, Prod(Den(it.key, it.matrix), DenQueue(rest))) && out.error == None
    ensures AnyDirect(out) <==> NamesLeaf(it.matrix) && DenQueue(rest).alts != []
  {
    var den := Prod(Den(it.key, it.matrix), DenQueue(rest));
    ProdDirect(Den(it.key, it.matrix), DenQueue(rest));
    DenDirect(it.key, it.matrix);
    forall i | 0 <= i < |den.alts| ensures out.alts[i].direct == den.alts[i].direct {}
  }

  // ---------------------------------------------------------------- the traversal, step by step

  lemma NextStep(entry: Entry, queue: seq<Item>)
    requires queue != []
    ensures var it, rest := queue[0], queue[1..];
      Under(entry, DenQueue(queue)) ==
        Cat(Under(entry, Prod(Den(it.key, it.matrix), DenQueue(rest))), PathCheck(it.path))
  {
    var it, rest := queue[0], queue[1..];
    CheckCommutes(Den(it.key, it.matrix), PathCheck(it.path), DenQueue(rest));
    UnderCat(entry, Prod(Den(it.key, it.matrix), DenQueue(rest)), PathCheck(it.path));
  }

  lemma DictStep(entry: Entry, path: seq<PathElement>, key: Option<string>, fields: seq<Field>, queue: seq<Item>)
    ensures Mark(Under(entry, DenQueue(FieldItems(path, Sorted(fields)) + queue)), false)
         == Under(entry, Prod(Den(key, Dict(fields)), DenQueue(queue)))
  {
    var items := FieldItems(path, Sorted(fields));
    UnderMark(entry, DenQueue(items + queue), false);
    QueueCat(items, queue);
    FieldItemsMean(path, Sorted(fields));
  }

  lemma ListStep(entry: Entry, path: seq<PathElement>, key: Option<string>, items: seq<Matrix>, i: nat,
          queue: seq<Item>)
    requires i < |items|
    ensures var alternative := [Item(path + [Index(i)], key, items[i])] + queue;
      Under(entry, Prod(DenList(key, items[..i + 1]), DenQueue(queue)))
      == Cat(Under(entry, Prod(DenList(key, items[..i]), DenQueue(queue))), Under(entry, DenQueue(alternative)))
  {
    var it := Item(path + [Index(i)], key, items[i]);
    assert ([it] + queue)[1..] == queue;
    NothingFollows(Den(key, items[i]));
    assert items[..i + 1] == items[..i] + [items[i]];
    DenListSnoc(key, items[..i], items[i]);
    ProdCat(DenList(key, items[..i]), Den(key, items[i]), DenQueue(queue));
    UnderCat(entry, Prod(DenList(key, items[..i]), DenQueue(queue)), Prod(Den(key, items[i]), DenQueue(queue)));
  }

  lemma StopsEarly(entry: Entry, key: Option<string>, items: seq<Matrix>, i: nat, queue: seq<Item>)
    requires i <= |items| && Prod(DenList(key, items[..i]), DenQueue(queue)).error.Some?
    ensures Prod(DenList(key, items), DenQueue(queue)) == Prod(DenList(key, items[..i]), DenQueue(queue))
  {
    assert items == items[..i] + items[i..];
    DenListCat(key, items[..i], items[i..]);
    ProdCat(DenList(key, items[..i]), DenList(key, items[i..]), DenQueue(queue));
  }

  lemma EmptyStep(entry: Entry)
    ensures Under(entry, DenQueue([])) == Stream([Alt(entry, false)], None)
  {
    assert entry + map[] == entry;
  }

  /** The loop of `iterate_next_dimension` over what a visit yields. */
  method AnyUsed(out: Stream) returns (used: bool)
    ensures used <==> AnyDirect(out)
  {
    used := false;
    for i := 0 to |out.alts|
      invariant used <==> exists j :: 0 <= j < i && out.alts[j].direct
    {
      if out.alts[i].direct { used := true; }
    }
  }

  method IterateNextDimension(o: Options, queue: seq<Item>, entry: Entry) returns (out: Stream, warnings: seq<Warning>)
    ensures out == Under(entry, DenQueue(queue))
    ensures warnings == Visits(o, queue)
    decreases QueueSize(queue), 1
  {
    if queue == [] {
      EmptyStep(entry);
      return Stream([Alt(entry, false)], None), [];
    }
    hide Den, Prod, DenItem, NamesLeaf, VisitMatrix, Mark, Scale, DenQueue, UnderAll, Report, MatchesIdentifier;
    hide AnyDirect;
    var it, rest := queue[0], queue[1..];
    out, warnings := IterateImpl(o, it.path, it.key, it.matrix, rest, entry);
    NextStep(entry, queue);
    var used := AnyUsed(out);
    if out.error.Some? { return; }
    VisitUses(it, rest, entry, out);
    NothingFollows(out);
    if it.path != [] && it.path[|it.path| - 1].Key? && !MatchesIdentifier(it.path[|it.path| - 1].k) {
      out := out.(error := Some(AssertionError));
      return;
    }
    warnings := warnings + Report(o, it.path, used);
  }

  method IterateImpl(o: Options, path: seq<PathElement>, key: Option<string>, matrix: Matrix, queue: seq<Item>,
          entry: Entry)
    returns (out: Stream, warnings: seq<Warning>)
    ensures out == Under(entry, Prod(Den(key, matrix), DenQueue(queue)))
    ensures warnings == VisitMatrix(o, path, key, matrix, queue)
    decreases Size(matrix) + QueueSize(queue), 0
  {
    hide Prod, DenQueue, Under, Visits;
    match matrix
    case Dict(fields) =>
      var sorted := Sorted(fields);
      var items := FieldItems(path, sorted);
      FieldItemsSize(path, sorted, queue);
      out, warnings := IterateNextDimension(o, items + queue, entry);
      out := Mark(out, false);
      DictStep(entry, path, key, fields, queue);
    case List(items) =>
      out, warnings := IterateAlternatives(o, path, key, items, queue, entry);
    case Leaf(v) =>
      if key == None {
        NoKeyStep(entry, v, DenQueue(queue));
        return Raise(Some(NoKeyError)), [];
      }
      out, warnings := IterateNextDimension(o, queue, entry[key.value := v]);
      out := Mark(out, true);
      LeafStep(entry, key.value, v, DenQueue(queue));
  }

  lemma NoKeyStep(entry: Entry, v: Value, rest: Stream)
    ensures Under(entry, Prod(Den(None, Leaf(v)), rest)) == Raise(Some(NoKeyError))
  {}

  /** The loop over the alternatives of a list; each one replays the rest of the queue. */
  method IterateAlternatives(o: Options, path: seq<PathElement>, key: Option<string>, items: seq<Matrix>,
          queue: seq<Item>, entry: Entry)
    returns (out: Stream, warnings: seq<Warning>)
    ensures out == Under(entry, Prod(DenList(key, items), DenQueue(queue)))
    ensures warnings == VisitList(o, path, key, items, 0, queue)
    decreases SizeAll(items) + QueueSize(queue), 2
  {
    out, warnings := Raise(None), [];
    hide Prod, DenQueue, Visits, DenList, Den, UnderAll, VisitList;
    ghost var all := VisitList(o, path, key, items, 0, queue);
    NoAlternatives(entry, key, items, queue);
    for i := 0 to |items|
      invariant out == Under(entry, Prod(DenList(key, items[..i]), DenQueue(queue))) && out.error == None
      invariant warnings + VisitList(o, path, key, items, i, queue) == all
    {
      var alternative := [Item(path + [Index(i)], key, items[i])] + queue;
      SizeOfItem(items, i);
      assert alternative[1..] == queue;
      var next, more := IterateNextDimension(o, alternative, entry);
      ListStep(entry, path, key, items, i, queue);
      VisitListStep(o, path, key, items, i, queue);
      out, warnings := Cat(out, next), warnings + more;
      if out.error.Some? {
        StopsEarly(entry, key, items, i + 1, queue);
        return;
      }
    }
    assert items[..|items|] == items;
    NoMoreAlternatives(o, path, key, items, queue);
  }

  lemma VisitListStep(o: Options, path: seq<PathElement>, key: Option<string>, items: seq<Matrix>, i: nat, q: seq<Item>)
    requires i < |items|
    ensures var alternative := [Item(path + [Index(i)], key, items[i])] + q;
      VisitList(o, path, key, items, i, q) == Visits(o, alternative)
        + if DenQueue(alternative).error.Some? then [] else VisitList(o, path, key, items, i + 1, q)
  {}

  lemma NoMoreAlternatives(o: Options, path: seq<PathElement>, key: Option<string>, items: seq<Matrix>, q: seq<Item>)
    ensures VisitList(o, path, key, items, |items|, q) == []
  {}

  lemma NoAlternatives(entry: Entry, key: Option<string>, items: seq<Matrix>, queue: seq<Item>)
    ensures Under(entry, Prod(DenList(key, items[..0]), DenQueue(queue))) == Raise(None)
  {}

  /** `iterate_matrix_product` yields, in order, exactly the alternatives that the document denotes,
      raises exactly the error that it denotes, and reports exactly the keys of Visits. */
  method IterateMatrixProduct(o: Options, matrix: Matrix)
    returns (entries: seq<Entry>, error: Option<Error>, warnings: seq<Warning>)
    ensures var den := Den(None, matrix);
      && |entries| == |den.alts| && (forall i :: 0 <= i < |entries| ==> entries[i] == den.alts[i].binding)
      && error == den.error
    ensures warnings == VisitMatrix(o, [], None, matrix, [])
  {
    hide Den, Prod, VisitMatrix, UnderAll;
    var out: Stream;
    out, warnings := IterateImpl(o, [], None, matrix, [], map[]);
    ProdUnit(Den(None, matrix));
    UnderEmpty(Den(None, matrix));
    entries := [];
    for i := 0 to |out.alts|
      invariant |entries| == i && forall j :: 0 <= j < i ==> entries[j] == out.alts[j].binding
    {
      entries := entries + [out.alts[i].binding];
    }
    error := out.error;
  }
}
