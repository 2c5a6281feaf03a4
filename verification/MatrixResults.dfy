/** What the documentation of compute_matrix_product.py promises, proved of the meaning of a document. */
module MatrixResults {
  import opened Common
  import opened MatrixModel
  import opened MatrixAlgebra
  import opened MatrixTraversal

  // ---------------------------------------------------------------- the order of keys

  lemma {:induction false} LessTransitive(a: string, b: string, c: string)
    requires Less(a, b) && Less(b, c)
    ensures Less(a, c)
  {
    if a != [] && a[0] == b[0] && b[0] == c[0] { LessTransitive(a[1..], b[1..], c[1..]); }
  }

  lemma {:induction false} LessTotal(a: string, b: string)
    ensures Less(a, b) || Less(b, a) || a == b
    ensures !(Less(a, b) && Less(b, a)) && !Less(a, a)
  {
    if a != [] {
      LessTotal(a[1..], a[1..]);
      if b != [] && a[0] == b[0] {
        LessTotal(a[1..], b[1..]);
        if a[1..] == b[1..] { assert a == [a[0]] + a[1..] && b == [b[0]] + b[1..]; }
      }
    }
  }

  ghost predicate Increasing(fs: seq<Field>) {
    forall i, j :: 0 <= i < j < |fs| ==> Less(fs[i].key, fs[j].key)
  }

  ghost predicate UniqueKeys(fs: seq<Field>) {
    forall i, j :: 0 <= i < j < |fs| ==> fs[i].key != fs[j].key
  }

  lemma {:induction false} InsertIncreasing(e: Field, fs: seq<Field>)
    requires Increasing(fs) && forall f :: f in fs ==> f.key != e.key
    ensures Increasing(Insert(e, fs))
  {
    hide Less, Increasing;
    if fs == [] {
      OneIsIncreasing(e);
      assert Insert(e, fs) == [e];
    } else {
      LessTotal(e.key, fs[0].key);
      IncreasingCons(fs[0], fs[1..]);
      assert fs == [fs[0]] + fs[1..];
      if Less(e.key, fs[0].key) {
        forall f | f in fs ensures Less(e.key, f.key) {
          if f != fs[0] { LessTransitive(e.key, fs[0].key, f.key); }
        }
        IncreasingCons(e, fs);
      } else {
        InsertIncreasing(e, fs[1..]);
        forall f | f in Insert(e, fs[1..]) ensures Less(fs[0].key, f.key) {
          assert f in multiset(Insert(e, fs[1..]));
          assert f == e || f in fs[1..];
        }
        IncreasingCons(fs[0], Insert(e, fs[1..]));
      }
    }
  }

  lemma OneIsIncreasing(e: Field)
    ensures Increasing([e])
  {}

  lemma IncreasingCons(e: Field, fs: seq<Field>)
    ensures Increasing([e] + fs) <==> Increasing(fs) && forall f :: f in fs ==> Less(e.key, f.key)
  {
    hide Less;
    var more := [e] + fs;
    if Increasing(more) {
      forall i, j | 0 <= i < j < |fs| ensures Less(fs[i].key, fs[j].key) {
        assert more[i + 1] == fs[i] && more[j + 1] == fs[j];
      }
      forall f | f in fs ensures Less(e.key, f.key) {
        var j :| 0 <= j < |fs| && fs[j] == f;
        assert more[0] == e && more[j + 1] == f;
      }
    }
    if Increasing(fs) && forall f :: f in fs ==> Less(e.key, f.key) {
      forall i, j | 0 <= i < j < |more| ensures Less(more[i].key, more[j].key) {
        assert more[j] == fs[j - 1];
        if i > 0 { assert more[i] == fs[i - 1]; }
      }
    }
  }

  /** Python's order of strings: after n equal characters a ends first or has the smaller character. */
  lemma {:induction false} LessExactly(a: string, b: string)
    ensures Less(a, b) <==>
      exists n: nat :: n <= |a| && n < |b| && a[..n] == b[..n] && (n == |a| || a[n] < b[n])
  {
    if n: nat :| n <= |a| && n < |b| && a[..n] == b[..n] && (n == |a| || a[n] < b[n]) { BeforeIsLess(a, b, n); }
    if Less(a, b) { var n := LessIsBefore(a, b); }
  }

  lemma {:induction false} BeforeIsLess(a: string, b: string, n: nat)
    requires n <= |a| && n < |b| && a[..n] == b[..n] && (n == |a| || a[n] < b[n])
    ensures Less(a, b)
  {
    if n > 0 {
      assert a[0] == a[..n][0] == b[..n][0] == b[0];
      assert a[1..][..n - 1] == a[..n][1..] == b[..n][1..] == b[1..][..n - 1];
      BeforeIsLess(a[1..], b[1..], n - 1);
    }
  }

  lemma {:induction false} LessIsBefore(a: string, b: string) returns (n: nat)
    requires Less(a, b)
    ensures n <= |a| && n < |b| && a[..n] == b[..n] && (n == |a| || a[n] < b[n])
  {
    n := 0;
    if a != [] && a[0] == b[0] {
      var m := LessIsBefore(a[1..], b[1..]);
      n := m + 1;
      assert a[..n] == [a[0]] + a[1..][..m] && b[..n] == [b[0]] + b[1..][..m];
    }
  }

  lemma {:induction false} SortedKeys(fs: seq<Field>)
    requires UniqueKeys(fs)
    ensures Increasing(Sorted(fs))
  {
    if fs != [] {
      SortedKeys(fs[1..]);
      forall f | f in Sorted(fs[1..]) ensures f.key != fs[0].key {
        assert f in multiset(Sorted(fs[1..]));
        assert f in fs[1..];
      }
      InsertIncreasing(fs[0], Sorted(fs[1..]));
    }
  }

  /** The fields of a dictionary come in increasing order of their keys, each as often as it is there. */
  lemma SortedIncreasing(fs: seq<Field>)
    requires UniqueKeys(fs)
    ensures multiset(Sorted(fs)) == multiset(fs)
    ensures forall i, j :: 0 <= i < j < |Sorted(fs)| ==>
      exists n: nat ::
        && n <= |Sorted(fs)[i].key| && n < |Sorted(fs)[j].key|
        && Sorted(fs)[i].key[..n] == Sorted(fs)[j].key[..n]
        && (n == |Sorted(fs)[i].key| || Sorted(fs)[i].key[n] < Sorted(fs)[j].key[n])
  {
    hide Less;
    SortedKeys(fs);
    var r := Sorted(fs);
    forall i, j | 0 <= i < j < |r|
      ensures exists n: nat ::
        && n <= |r[i].key| && n < |r[j].key| && r[i].key[..n] == r[j].key[..n]
        && (n == |r[i].key| || r[i].key[n] < r[j].key[n])
    {
      assert Less(r[i].key, r[j].key);
      LessExactly(r[i].key, r[j].key);
    }
  }

  // ---------------------------------------------------------------- insertion order does not matter

  /** Every dictionary has distinct keys, as Python's do. */
  ghost predicate Proper(m: Matrix) {
    match m
    case Leaf(_) => true
    case List(items) => forall i :: 0 <= i < |items| ==> Proper(items[i])
    case Dict(fields) => UniqueKeys(fields) && forall i :: 0 <= i < |fields| ==> Proper(fields[i].value)
  }

  /** The same document, but for the order in which the fields of its dictionaries were inserted:
      some reordering of n's fields corresponds to m's fields one by one. */
  ghost predicate SameUpToOrder(m: Matrix, n: Matrix)
    decreases m
  {
    match m
    case Leaf(_) => m == n
    case List(items) =>
      n.List? && |items| == |n.items| && forall i :: 0 <= i < |items| ==> SameUpToOrder(items[i], n.items[i])
    case Dict(fields) =>
      n.Dict? && exists gs: seq<Field> ::
        && multiset(gs) == multiset(n.fields) && |gs| == |fields|
        && forall i :: 0 <= i < |fields| ==> fields[i].key == gs[i].key && SameUpToOrder(fields[i].value, gs[i].value)
  }

  lemma InMultiset(fs: seq<Field>, gs: seq<Field>, f: Field)
    requires multiset(fs) == multiset(gs) && f in fs
    ensures f in gs
  {
    assert f in multiset(fs);
  }

  lemma SameFirst(fs: seq<Field>, gs: seq<Field>)
    requires Increasing(fs) && Increasing(gs) && fs != [] && multiset(fs) == multiset(gs)
    ensures gs != [] && fs[0] == gs[0]
  {
    InMultiset(fs, gs, fs[0]);
    InMultiset(gs, fs, gs[0]);
    LessTotal(fs[0].key, gs[0].key);
  }

  lemma {:induction false} IncreasingIsUnique(fs: seq<Field>, gs: seq<Field>)
    requires Increasing(fs) && Increasing(gs) && multiset(fs) == multiset(gs)
    ensures fs == gs
  {
    if fs == [] {
      assert |multiset(gs)| == |gs|;
    } else {
      SameFirst(fs, gs);
      assert fs == [fs[0]] + fs[1..] && gs == [gs[0]] + gs[1..];
      assert multiset(fs[1..]) == multiset(fs) - multiset{fs[0]} && multiset(gs[1..]) == multiset(gs) - multiset{gs[0]};
      IncreasingIsUnique(fs[1..], gs[1..]);
    }
  }

  /** Reordering the fields of one dictionary does not change the order in which they are visited. */
  lemma SortedForgetsOrder(fs: seq<Field>, gs: seq<Field>)
    requires UniqueKeys(fs) && UniqueKeys(gs) && multiset(fs) == multiset(gs)
    ensures Sorted(fs) == Sorted(gs)
  {
    SortedKeys(fs);
    SortedKeys(gs);
    IncreasingIsUnique(Sorted(fs), Sorted(gs));
  }

  ghost predicate Same(m: Matrix, n: Matrix) { Proper(m) && Proper(n) && SameUpToOrder(m, n) }

  ghost predicate SameField(f: Field, g: Field) { f.key == g.key && Same(f.value, g.value) }

  ghost predicate SameFields(fs: seq<Field>, gs: seq<Field>) {
    |fs| == |gs| && forall i :: 0 <= i < |fs| ==> SameField(fs[i], gs[i])
  }

  lemma SameFieldsCons(f: Field, fs: seq<Field>, g: Field, gs: seq<Field>)
    requires SameField(f, g) && SameFields(fs, gs)
    ensures SameFields([f] + fs, [g] + gs)
  {}

  lemma {:induction false} InsertSame(f: Field, fs: seq<Field>, g: Field, gs: seq<Field>)
    requires SameField(f, g) && SameFields(fs, gs)
    ensures SameFields(Insert(f, fs), Insert(g, gs))
  {
    hide Same;
    if fs != [] {
      assert SameField(fs[0], gs[0]);
      if Less(f.key, fs[0].key) {
        SameFieldsCons(f, fs, g, gs);
      } else {
        InsertSame(f, fs[1..], g, gs[1..]);
        SameFieldsCons(fs[0], Insert(f, fs[1..]), gs[0], Insert(g, gs[1..]));
      }
    }
  }

  lemma {:induction false} SortedSame(fs: seq<Field>, gs: seq<Field>)
    requires SameFields(fs, gs)
    ensures SameFields(Sorted(fs), Sorted(gs))
  {
    hide Same, Insert;
    if fs != [] {
      assert SameField(fs[0], gs[0]);
      SortedSame(fs[1..], gs[1..]);
      InsertSame(fs[0], Sorted(fs[1..]), gs[0], Sorted(gs[1..]));
    }
  }

  lemma ProperReordered(fs: seq<Field>, gs: seq<Field>, original: seq<Field>)
    requires |gs| == |fs| && multiset(gs) == multiset(original)
    requires UniqueKeys(fs) && forall i :: 0 <= i < |fs| ==> fs[i].key == gs[i].key
    requires forall i :: 0 <= i < |original| ==> Proper(original[i].value)
    ensures UniqueKeys(gs) && forall i :: 0 <= i < |gs| ==> Proper(gs[i].value)
  {
    forall i | 0 <= i < |gs| ensures Proper(gs[i].value) {
      InMultiset(gs, original, gs[i]);
    }
  }

  /** Two dictionaries that differ in insertion order are visited field by field in the same order. */
  lemma SameInOrder(fs: seq<Field>, ns: seq<Field>)
    requires Same(Dict(fs), Dict(ns))
    ensures SameFields(Sorted(fs), Sorted(ns))
  {
    var gs: seq<Field> :| multiset(gs) == multiset(ns) && |gs| == |fs|
      && forall i :: 0 <= i < |fs| ==> fs[i].key == gs[i].key && SameUpToOrder(fs[i].value, gs[i].value);
    ProperReordered(fs, gs, ns);
    SortedSame(fs, gs);
    SortedForgetsOrder(gs, ns);
  }

  /** The order in which dictionary fields were inserted, at any depth, has no effect on the product. */
  lemma {:induction false} InsertionOrderIsIrrelevant(key: Option<string>, m: Matrix, n: Matrix)
    requires Same(m, n)
    ensures Den(key, m) == Den(key, n)
    decreases Size(m), 0
  {
    match m
    case Leaf(_) =>
    case List(items) => DenListSame(key, items, n.items);
    case Dict(fs) =>
      SameInOrder(fs, n.fields);
      DenFieldsSame(Sorted(fs), Sorted(n.fields));
  }

  lemma {:induction false} DenListSame(key: Option<string>, ms: seq<Matrix>, ns: seq<Matrix>)
    requires |ms| == |ns| && forall i :: 0 <= i < |ms| ==> Same(ms[i], ns[i])
    ensures DenList(key, ms) == DenList(key, ns)
    decreases SizeAll(ms), 1
  {
    hide Same, Den;
    if ms != [] {
      InsertionOrderIsIrrelevant(key, ms[0], ns[0]);
      DenListSame(key, ms[1..], ns[1..]);
    }
  }

  lemma {:induction false} DenFieldsSame(fs: seq<Field>, gs: seq<Field>)
    requires SameFields(fs, gs)
    ensures DenFields(fs) == DenFields(gs)
    decreases SizeFields(fs), 1
  {
    hide Same, Den;
    if fs != [] {
      assert SameField(fs[0], gs[0]);
      InsertionOrderIsIrrelevant(Some(fs[0].key), fs[0].value, gs[0].value);
      DenFieldsSame(fs[1..], gs[1..]);
    }
  }

  lemma {:induction false} NamesLeafSame(m: Matrix, n: Matrix)
    requires Same(m, n)
    ensures NamesLeaf(m) <==> NamesLeaf(n)
    decreases m
  {
    if m.List? {
      forall i | 0 <= i < |m.items| ensures NamesLeaf(m.items[i]) <==> NamesLeaf(n.items[i]) {
        NamesLeafSame(m.items[i], n.items[i]);
      }
    }
  }

  ghost predicate SameItem(a: Item, b: Item) { a.path == b.path && a.key == b.key && Same(a.matrix, b.matrix) }

  ghost predicate SameQueue(q: seq<Item>, r: seq<Item>) {
    |q| == |r| && forall i :: 0 <= i < |q| ==> SameItem(q[i], r[i])
  }

  lemma SameQueueCons(a: Item, q: seq<Item>, b: Item, r: seq<Item>)
    requires SameItem(a, b) && SameQueue(q, r)
    ensures SameQueue([a] + q, [b] + r)
  {}

  lemma {:induction false} DenQueueSame(q: seq<Item>, r: seq<Item>)
    requires SameQueue(q, r)
    ensures DenQueue(q) == DenQueue(r)
  {
    hide Same, Den;
    if q != [] {
      assert SameItem(q[0], r[0]);
      InsertionOrderIsIrrelevant(q[0].key, q[0].matrix, r[0].matrix);
      DenQueueSame(q[1..], r[1..]);
    }
  }

  lemma {:induction false} FieldItemsSame(path: seq<PathElement>, fs: seq<Field>, gs: seq<Field>, q: seq<Item>,
          r: seq<Item>)
    requires SameFields(fs, gs) && SameQueue(q, r)
    ensures SameQueue(FieldItems(path, fs) + q, FieldItems(path, gs) + r)
  {
    hide Same;
    var x, y := FieldItems(path, fs), FieldItems(path, gs);
    if fs == [] {
      assert x + q == q && y + r == r;
    } else {
      assert SameField(fs[0], gs[0]);
      FieldItemsSame(path, fs[1..], gs[1..], q, r);
      assert x + q == [x[0]] + (FieldItems(path, fs[1..]) + q) && y + r == [y[0]] + (FieldItems(path, gs[1..]) + r);
      SameQueueCons(x[0], FieldItems(path, fs[1..]) + q, y[0], FieldItems(path, gs[1..]) + r);
    }
  }

  lemma {:induction false} VisitsSame(o: Options, q: seq<Item>, r: seq<Item>)
    requires SameQueue(q, r)
    ensures Visits(o, q) == Visits(o, r)
    decreases QueueSize(q), 1
  {
    hide Same, DenQueue, VisitMatrix, Report, NamesLeaf;
    if q != [] {
      assert SameItem(q[0], r[0]);
      DenQueueSame(q, r);
      DenQueueSame(q[1..], r[1..]);
      NamesLeafSame(q[0].matrix, r[0].matrix);
      WarningsForgetInsertionOrder(o, q[0].path, q[0].key, q[0].matrix, r[0].matrix, q[1..], r[1..]);
    }
  }

  /** Nor has it any effect on the warnings, whatever is queued behind the document. */
  lemma {:induction false} WarningsForgetInsertionOrder(o: Options, path: seq<PathElement>, key: Option<string>,
                                                        m: Matrix, n: Matrix, q: seq<Item>, r: seq<Item>)
    requires Same(m, n) && SameQueue(q, r)
    ensures VisitMatrix(o, path, key, m, q) == VisitMatrix(o, path, key, n, r)
    decreases Size(m) + QueueSize(q), 0
  {
    hide Visits, SameQueue;
    match m
    case Leaf(_) => VisitsSame(o, q, r);
    case List(items) => VisitListSame(o, path, key, items, n.items, 0, q, r);
    case Dict(fs) =>
      SameInOrder(fs, n.fields);
      FieldItemsSize(path, Sorted(fs), q);
      FieldItemsSame(path, Sorted(fs), Sorted(n.fields), q, r);
      VisitsSame(o, FieldItems(path, Sorted(fs)) + q, FieldItems(path, Sorted(n.fields)) + r);
  }

  lemma {:induction false} VisitListSame(o: Options, path: seq<PathElement>, key: Option<string>,
                                         ms: seq<Matrix>, ns: seq<Matrix>, i: nat, q: seq<Item>, r: seq<Item>)
    requires i <= |ms| == |ns| && (forall j :: 0 <= j < |ms| ==> Same(ms[j], ns[j])) && SameQueue(q, r)
    ensures VisitList(o, path, key, ms, i, q) == VisitList(o, path, key, ns, i, r)
    decreases SizeAll(ms) + QueueSize(q), 2, |ms| - i
  {
    hide Same, DenQueue, Visits, SameQueue;
    if i < |ms| {
      var a, b := Item(path + [Index(i)], key, ms[i]), Item(path + [Index(i)], key, ns[i]);
      SizeOfItem(ms, i);
      assert ([a] + q)[1..] == q;
      SameQueueCons(a, q, b, r);
      DenQueueSame([a] + q, [b] + r);
      VisitsSame(o, [a] + q, [b] + r);
      VisitListSame(o, path, key, ms, ns, i + 1, q, r);
    }
  }

  // ---------------------------------------------------------------- how many entries

  /** A leaf counts one, a list the sum of its items, a dictionary the product of its fields. */
  function Count(m: Matrix): nat {
    match m
    case Leaf(_) => 1
    case List(items) => CountItems(items)
    case Dict(fields) => CountFields(fields)
  }

  function CountItems(ms: seq<Matrix>): nat {
    if ms == [] then 0 else Count(ms[0]) + CountItems(ms[1..])
  }

  function CountFields(fs: seq<Field>): nat {
    if fs == [] then 1 else Count(fs[0].value) * CountFields(fs[1..])
  }

  lemma {:induction false} CountInsert(e: Field, fs: seq<Field>)
    ensures CountFields(Insert(e, fs)) == Count(e.value) * CountFields(fs)
  {
    if fs != [] && !Less(e.key, fs[0].key) {
      CountInsert(e, fs[1..]);
      assert Insert(e, fs)[1..] == Insert(e, fs[1..]);
      Exchange(Count(fs[0].value), Count(e.value), CountFields(fs[1..]));
    } else {
      assert Insert(e, fs)[1..] == fs;
    }
  }

  lemma Exchange(a: nat, b: nat, c: nat)
    ensures a * (b * c) == b * (a * c)
  {}

  lemma {:induction false} CountSorted(fs: seq<Field>)
    ensures CountFields(Sorted(fs)) == CountFields(fs)
  {
    if fs != [] {
      CountSorted(fs[1..]);
      CountInsert(fs[0], Sorted(fs[1..]));
    }
  }

  /** When nothing is raised the number of entries is the one that the document's shape gives. */
  lemma {:induction false} EntryCount(key: Option<string>, m: Matrix)
    requires Den(key, m).error == None
    ensures |Den(key, m).alts| == Count(m)
    decreases Size(m), 0
  {
    match m
    case Leaf(_) =>
    case List(items) => EntryCountItems(key, items);
    case Dict(fields) =>
      EntryCountFields(Sorted(fields));
      CountSorted(fields);
  }

  lemma {:induction false} EntryCountItems(key: Option<string>, ms: seq<Matrix>)
    requires DenList(key, ms).error == None
    ensures |DenList(key, ms).alts| == CountItems(ms)
    decreases SizeAll(ms), 1
  {
    if ms != [] {
      EntryCount(key, ms[0]);
      EntryCountItems(key, ms[1..]);
    }
  }

  lemma {:induction false} EntryCountFields(fs: seq<Field>)
    requires DenFields(fs).error == None
    ensures |DenFields(fs).alts| == CountFields(fs)
    decreases SizeFields(fs), 1
  {
    hide Den, Prod, Count, MatchesIdentifier;
    if fs != [] {
      var d, rest := Cat(Den(Some(fs[0].key), fs[0].value), KeyCheck(fs[0].key)), DenFields(fs[1..]);
      ProdNeedsBoth(d, rest);
      EntryCount(Some(fs[0].key), fs[0].value);
      if d.alts != [] { EntryCountFields(fs[1..]); }
      ProdSize(d, rest);
    }
  }

  lemma {:induction false} ProdNeedsBoth(a: Stream, b: Stream)
    requires Prod(a, b).error == None
    ensures a.error == None && (a.alts == [] || b.error == None)
    decreases |a.alts|
  {
    if a.alts != [] { ProdNeedsBoth(Stream(a.alts[1..], a.error), b); }
  }

  // ---------------------------------------------------------------- errors

  /** The document raises nothing when it is under a key: every key that is checked matches. The fields
      behind one without alternatives are never visited. */
  predicate Faultless(m: Matrix)
    decreases Size(m), 0
  {
    match m
    case Leaf(_) => true
    case List(items) => FaultlessItems(items)
    case Dict(fields) => FaultlessFields(Sorted(fields))
  }

  predicate FaultlessItems(ms: seq<Matrix>)
    decreases SizeAll(ms), 1
  {
    ms != [] ==> Faultless(ms[0]) && FaultlessItems(ms[1..])
  }

  predicate FaultlessFields(fs: seq<Field>)
    decreases SizeFields(fs), 1
  {
    fs != [] ==>
      && Faultless(fs[0].value) && MatchesIdentifier(fs[0].key)
      && (Count(fs[0].value) > 0 ==> FaultlessFields(fs[1..]))
  }

  /** Some leaf has only lists above it, and nothing before it raises. */
  predicate BareFirst(m: Matrix)
    decreases Size(m), 0
  {
    match m
    case Leaf(_) => true
    case List(items) => BareFirstIn(items)
    case Dict(_) => false
  }

  predicate BareFirstIn(ms: seq<Matrix>)
    decreases SizeAll(ms), 1
  {
    ms != [] && (BareFirst(ms[0]) || (Faultless(ms[0]) && !NamesLeaf(ms[0]) && BareFirstIn(ms[1..])))
  }

  ghost predicate SomeNamesLeaf(ms: seq<Matrix>) { exists i :: 0 <= i < |ms| && NamesLeaf(ms[i]) }

  lemma SomeNamesLeafCons(ms: seq<Matrix>)
    requires ms != []
    ensures SomeNamesLeaf(ms) <==> NamesLeaf(ms[0]) || SomeNamesLeaf(ms[1..])
  {
    if i :| 0 <= i < |ms[1..]| && NamesLeaf(ms[1..][i]) { assert NamesLeaf(ms[i + 1]); }
    if i :| 0 <= i < |ms| && NamesLeaf(ms[i]) && i > 0 { assert NamesLeaf(ms[1..][i - 1]); }
  }

  /** Where nothing else raises, having a leaf under lists only is what counts. */
  lemma {:induction false} BareMeansNamesLeaf(m: Matrix)
    ensures BareFirst(m) ==> NamesLeaf(m)
    ensures Faultless(m) ==> (BareFirst(m) <==> NamesLeaf(m))
    decreases Size(m), 0
  {
    match m
    case Leaf(_) =>
    case List(items) =>
      BareInMeansNamesLeaf(items);
      assert NamesLeaf(m) <==> SomeNamesLeaf(items);
    case Dict(_) =>
  }

  lemma {:induction false} BareInMeansNamesLeaf(ms: seq<Matrix>)
    ensures BareFirstIn(ms) ==> SomeNamesLeaf(ms)
    ensures FaultlessItems(ms) ==> (BareFirstIn(ms) <==> SomeNamesLeaf(ms))
    decreases SizeAll(ms), 1
  {
    hide SomeNamesLeaf, Faultless, BareFirst;
    if ms == [] {
      assert !SomeNamesLeaf(ms) by { NoItems(ms); }
    } else {
      BareMeansNamesLeaf(ms[0]);
      BareInMeansNamesLeaf(ms[1..]);
      SomeNamesLeafCons(ms);
    }
  }

  lemma NoItems(ms: seq<Matrix>)
    requires ms == []
    ensures !SomeNamesLeaf(ms)
  {}

  /** The error of a product: one of the second factor strikes with the first alternative. */
  lemma {:induction false} ProdError(a: Stream, b: Stream)
    ensures Prod(a, b).error == if a.alts != [] && b.error.Some? then b.error else a.error
    decreases |a.alts|
  {
    if a.alts != [] { ProdError(Stream(a.alts[1..], a.error), b); }
  }

  /** What every document raises: NoKeyError exactly when some leaf has only lists above it and no key
      before it fails the check, and an AssertionError exactly when a key that is checked fails first. */
  lemma {:induction false} NoKeyErrorExactly(key: Option<string>, m: Matrix)
    ensures Den(key, m).error ==
      if key == None && BareFirst(m) then Some(NoKeyError)
      else if Faultless(m) then None else Some(AssertionError)
    decreases Size(m), 0
  {
    match m
    case Leaf(_) =>
    case List(items) => NoKeyErrorItems(key, items);
    case Dict(fields) => ErrorOfFields(Sorted(fields));
  }

  lemma {:induction false} NoKeyErrorItems(key: Option<string>, ms: seq<Matrix>)
    ensures DenList(key, ms).error ==
      if key == None && BareFirstIn(ms) then Some(NoKeyError)
      else if FaultlessItems(ms) then None else Some(AssertionError)
    decreases SizeAll(ms), 1
  {
    hide Den, Faultless, BareFirst, NamesLeaf;
    if ms != [] {
      NoKeyErrorExactly(key, ms[0]);
      NoKeyErrorItems(key, ms[1..]);
      BareMeansNamesLeaf(ms[0]);
    }
  }

  lemma {:induction false} ErrorOfFields(fs: seq<Field>)
    ensures DenFields(fs).error == if FaultlessFields(fs) then None else Some(AssertionError)
    decreases SizeFields(fs), 1
  {
    hide Den, Faultless, BareFirst, MatchesIdentifier, Prod, Count;
    if fs != [] {
      var key, m := Some(fs[0].key), fs[0].value;
      NoKeyErrorExactly(key, m);
      ErrorOfFields(fs[1..]);
      ProdError(Cat(Den(key, m), KeyCheck(fs[0].key)), DenFields(fs[1..]));
      if Den(key, m).error == None { EntryCount(key, m); }
    }
  }

  /** Every key of the document passes the identifier check. */
  ghost predicate CleanKeys(m: Matrix) {
    match m
    case Leaf(_) => true
    case List(items) => forall i :: 0 <= i < |items| ==> CleanKeys(items[i])
    case Dict(fields) => CleanFields(fields)
  }

  ghost predicate CleanFields(fs: seq<Field>) {
    forall i :: 0 <= i < |fs| ==> MatchesIdentifier(fs[i].key) && CleanKeys(fs[i].value)
  }

  lemma SortedClean(fs: seq<Field>)
    requires CleanFields(fs)
    ensures CleanFields(Sorted(fs))
  {
    var r := Sorted(fs);
    forall i | 0 <= i < |r| ensures MatchesIdentifier(r[i].key) && CleanKeys(r[i].value) {
      assert r[i] in multiset(r);
      assert r[i] in fs;
    }
  }

  lemma {:induction false} CleanIsFaultless(m: Matrix)
    requires CleanKeys(m)
    ensures Faultless(m)
    decreases Size(m), 0
  {
    match m
    case Leaf(_) =>
    case List(items) => CleanItemsAreFaultless(items);
    case Dict(fields) =>
      SortedClean(fields);
      CleanFieldsAreFaultless(Sorted(fields));
  }

  lemma {:induction false} CleanItemsAreFaultless(ms: seq<Matrix>)
    requires forall i :: 0 <= i < |ms| ==> CleanKeys(ms[i])
    ensures FaultlessItems(ms)
    decreases SizeAll(ms), 1
  {
    if ms != [] {
      CleanIsFaultless(ms[0]);
      CleanItemsAreFaultless(ms[1..]);
    }
  }

  lemma {:induction false} CleanFieldsAreFaultless(fs: seq<Field>)
    requires CleanFields(fs)
    ensures FaultlessFields(fs)
    decreases SizeFields(fs), 1
  {
    if fs != [] {
      CleanIsFaultless(fs[0].value);
      CleanFieldsAreFaultless(fs[1..]);
    }
  }

  /** The rule of the documentation, for documents in which every key passes the check. */
  lemma NoKeyErrorWithCleanKeys(m: Matrix)
    requires CleanKeys(m)
    ensures Den(None, m).error == if NamesLeaf(m) then Some(NoKeyError) else None
  {
    CleanIsFaultless(m);
    BareMeansNamesLeaf(m);
    NoKeyErrorExactly(None, m);
  }

  /** Other documents may raise something else first: in `[{"a\nb": 1}, 2]` the leaf 2 has no key. */
  lemma AnotherErrorComesFirst()
    ensures var m := List([Dict([Field("a\nb", Leaf(Int(1)))]), Leaf(Int(2))]);
      NamesLeaf(m) && Den(None, m).error == Some(AssertionError)
  {
    var f := Field("a\nb", Leaf(Int(1)));
    var items := [Dict([f]), Leaf(Int(2))];
    assert NamesLeaf(items[1]);
    assert f.key[1] == '\n';
    assert Sorted([f]) == [f] by { assert [f][1..] == []; }
    assert !FaultlessFields([f]);
    NoKeyErrorExactly(None, List(items));
  }

  /** The document up to, and without, its first leaf that has only lists above it. */
  function BeforeBareLeaf(m: Matrix): Matrix {
    match m
    case Leaf(_) => List([])
    case List(items) => List(BeforeBareLeafIn(items))
    case Dict(_) => m
  }

  function BeforeBareLeafIn(ms: seq<Matrix>): seq<Matrix> {
    if ms == [] then []
    else if NamesLeaf(ms[0]) then [BeforeBareLeaf(ms[0])]
    else [ms[0]] + BeforeBareLeafIn(ms[1..])
  }

  /** The entries that come before a NoKeyError are exactly those of the document before that leaf. */
  lemma {:induction false} EntriesBeforeNoKeyError(m: Matrix)
    requires BareFirst(m) || Faultless(m)
    ensures Den(None, BeforeBareLeaf(m)) == Stream(Den(None, m).alts, None)
    ensures !NamesLeaf(BeforeBareLeaf(m)) && (!NamesLeaf(m) ==> BeforeBareLeaf(m) == m)
    decreases Size(m), 0
  {
    NoKeyErrorExactly(None, m);
    match m
    case Leaf(_) =>
    case List(items) =>
      EntriesBeforeItems(items);
      assert NamesLeaf(m) <==> SomeNamesLeaf(items);
      assert NamesLeaf(BeforeBareLeaf(m)) <==> SomeNamesLeaf(BeforeBareLeafIn(items));
    case Dict(_) =>
  }

  lemma {:induction false} EntriesBeforeItems(ms: seq<Matrix>)
    requires DenList(None, ms).error != Some(AssertionError)
    ensures var before := BeforeBareLeafIn(ms);
      && DenList(None, before) == Stream(DenList(None, ms).alts, None)
      && !SomeNamesLeaf(before) && (!SomeNamesLeaf(ms) ==> before == ms)
    decreases SizeAll(ms), 1
  {
    hide SomeNamesLeaf, Den, NamesLeaf;
    if ms == [] {
      NoItems(ms);
    } else {
      var before := BeforeBareLeafIn(ms);
      NoKeyErrorExactly(None, ms[0]);
      BareMeansNamesLeaf(ms[0]);
      EntriesBeforeNoKeyError(ms[0]);
      SomeNamesLeafCons(ms);
      SomeNamesLeafCons(before);
      if NamesLeaf(ms[0]) {
        assert before[1..] == [];
        NoItems(before[1..]);
        NothingFollows(Den(None, before[0]));
      } else {
        EntriesBeforeItems(ms[1..]);
        assert before[1..] == BeforeBareLeafIn(ms[1..]) && ms == [ms[0]] + ms[1..];
      }
    }
  }
}
