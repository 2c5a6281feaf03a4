/** The naming convention that compute_matrix_product.py documents: keys used only for grouping start with
    an underscore, keys that appear in the product do not. */
module MatrixWarnings {
  import opened Common
  import opened MatrixModel
  import opened MatrixAlgebra
  import opened MatrixTraversal
  import opened MatrixResults

  const ALL_WARNINGS := Options(true, true)

  predicate Underscored(k: string) { k != [] && k[0] == '_' }

  // ---------------------------------------------------------------- the convention

  predicate KeyFollows(k: string, m: Matrix) { NamesLeaf(m) <==> !Underscored(k) }

  /** Every key of the document follows the convention. */
  ghost predicate Follows(m: Matrix) {
    match m
    case Leaf(_) => true
    case List(items) => forall i :: 0 <= i < |items| ==> Follows(items[i])
    case Dict(fields) => FieldsFollow(fields)
  }

  ghost predicate FieldsFollow(fs: seq<Field>) {
    forall f :: f in fs ==> KeyFollows(f.key, f.value) && Follows(f.value)
  }

  ghost predicate NoEmptyList(m: Matrix) {
    match m
    case Leaf(_) => true
    case List(items) => items != [] && forall i :: 0 <= i < |items| ==> NoEmptyList(items[i])
    case Dict(fields) => NoEmptyListIn(fields)
  }

  ghost predicate NoEmptyListIn(fs: seq<Field>) { forall f :: f in fs ==> NoEmptyList(f.value) }

  // ---------------------------------------------------------------- which documents are quiet

  /** A key is not reported. It appears in an entry when it names a leaf and what comes behind it is live,
      that is, has at least one entry. */
  predicate KeyQuiet(k: string, m: Matrix, live: bool) { NamesLeaf(m) && live <==> !Underscored(k) }

  /** No key of the document is reported when what comes behind the document is live, or is not. */
  predicate Quiet(m: Matrix, live: bool)
    decreases Size(m), 0
  {
    match m
    case Leaf(_) => true
    case List(items) => QuietItems(items, live)
    case Dict(fields) => QuietFields(Sorted(fields), live)
  }

  predicate QuietItems(ms: seq<Matrix>, live: bool)
    decreases SizeAll(ms), 1
  {
    ms != [] ==> Quiet(ms[0], live) && QuietItems(ms[1..], live)
  }

  /** Behind a field come the later fields, and they are visited only if the field has an alternative. */
  predicate QuietFields(fs: seq<Field>, live: bool)
    decreases SizeFields(fs), 1
  {
    fs != [] ==>
      var l := live && CountFields(fs[1..]) > 0;
      && Quiet(fs[0].value, l) && KeyQuiet(fs[0].key, fs[0].value, l)
      && (Count(fs[0].value) > 0 ==> QuietFields(fs[1..], live))
  }

  ghost predicate ItemQuiet(it: Item, live: bool) {
    && Quiet(it.matrix, live)
    && (it.path != [] && it.path[|it.path| - 1].Key? ==> KeyQuiet(it.path[|it.path| - 1].k, it.matrix, live))
  }

  ghost predicate QuietQueue(q: seq<Item>) {
    q != [] ==> ItemQuiet(q[0], DenQueue(q[1..]).alts != []) && (Count(q[0].matrix) > 0 ==> QuietQueue(q[1..]))
  }

  // ---------------------------------------------------------------- what has no entries

  lemma {:induction false} NamedLeavesCount(m: Matrix)
    ensures NamesLeaf(m) ==> Count(m) > 0
    decreases Size(m), 0
  {
    match m
    case Leaf(_) =>
    case List(items) =>
      NamedLeavesCountIn(items);
      assert NamesLeaf(m) <==> SomeNamesLeaf(items);
    case Dict(_) =>
  }

  lemma {:induction false} NamedLeavesCountIn(ms: seq<Matrix>)
    ensures SomeNamesLeaf(ms) ==> CountItems(ms) > 0
    decreases SizeAll(ms), 1
  {
    hide SomeNamesLeaf, NamesLeaf, Count;
    if ms == [] {
      NoItems(ms);
    } else {
      NamedLeavesCount(ms[0]);
      NamedLeavesCountIn(ms[1..]);
      SomeNamesLeafCons(ms);
    }
  }

  /** For a part without entries it makes no difference what comes behind it. */
  lemma {:induction false} DeadEitherWay(m: Matrix, a: bool, b: bool)
    requires Count(m) == 0
    ensures Quiet(m, a) <==> Quiet(m, b)
    decreases Size(m), 0
  {
    match m
    case Leaf(_) =>
    case List(items) => DeadItemsEitherWay(items, a, b);
    case Dict(fields) =>
      CountSorted(fields);
      DeadFieldsEitherWay(Sorted(fields), a, b);
  }

  lemma {:induction false} DeadItemsEitherWay(ms: seq<Matrix>, a: bool, b: bool)
    requires CountItems(ms) == 0
    ensures QuietItems(ms, a) <==> QuietItems(ms, b)
    decreases SizeAll(ms), 1
  {
    hide Quiet, Count;
    if ms != [] {
      DeadEitherWay(ms[0], a, b);
      DeadItemsEitherWay(ms[1..], a, b);
    }
  }

  lemma Positive(a: nat, b: nat)
    ensures a * b > 0 <==> a > 0 && b > 0
  {
    if a > 0 && b > 0 {
      Distribute(a - 1, 1, b);
      NotNegative(a - 1, b);
    }
  }

  lemma {:induction false} DeadFieldsEitherWay(fs: seq<Field>, a: bool, b: bool)
    requires CountFields(fs) == 0
    ensures QuietFields(fs, a) <==> QuietFields(fs, b)
    decreases SizeFields(fs), 1
  {
    hide Quiet, Count, NamesLeaf;
    if fs != [] {
      var m, n := fs[0].value, CountFields(fs[1..]);
      Positive(Count(m), n);
      NamedLeavesCount(m);
      if Count(m) == 0 {
        DeadEitherWay(m, a && n > 0, b && n > 0);
      } else {
        DeadFieldsEitherWay(fs[1..], a, b);
      }
    }
  }

  /** A product has an alternative exactly when both factors have. */
  lemma ProdLive(a: Stream, b: Stream)
    requires Prod(a, b).error == None
    ensures Prod(a, b).alts != [] <==> a.alts != [] && b.alts != []
  {
    hide Prod;
    ProdNeedsBoth(a, b);
    ProdSize(a, b);
    Positive(|a.alts|, |b.alts|);
  }

  // ---------------------------------------------------------------- queues

  /** The first item of a queue that raises nothing, and what is behind it. */
  lemma QueueParts(it: Item, rest: seq<Item>)
    requires DenQueue([it] + rest).error == None
    ensures Prod(Den(it.key, it.matrix), DenQueue(rest)).error == None
    ensures Den(it.key, it.matrix).error == None && |Den(it.key, it.matrix).alts| == Count(it.matrix)
    ensures Count(it.matrix) > 0 ==> DenQueue(rest).error == None
    ensures DenQueue([it] + rest).alts != [] <==> Count(it.matrix) > 0 && DenQueue(rest).alts != []
  {
    hide Prod, Den, Count, DenQueue;
    var den := Den(it.key, it.matrix);
    QueueCons(it, rest);
    CheckCommutes(den, PathCheck(it.path), DenQueue(rest));
    assert Prod(DenItem(it), DenQueue(rest)) == Cat(Prod(den, DenQueue(rest)), PathCheck(it.path));
    ProdNeedsBoth(den, DenQueue(rest));
    ProdLive(den, DenQueue(rest));
    EntryCount(it.key, it.matrix);
  }

  lemma QuietQueueCons(it: Item, rest: seq<Item>)
    ensures QuietQueue([it] + rest) <==>
      ItemQuiet(it, DenQueue(rest).alts != []) && (Count(it.matrix) > 0 ==> QuietQueue(rest))
  {
    assert ([it] + rest)[1..] == rest;
  }

  lemma {:induction false} FieldsLive(path: seq<PathElement>, fs: seq<Field>, q: seq<Item>)
    requires DenQueue(FieldItems(path, fs) + q).error == None
    ensures DenQueue(FieldItems(path, fs) + q).alts != [] <==> CountFields(fs) > 0 && DenQueue(q).alts != []
  {
    hide Den, DenQueue, Count;
    if fs == [] {
      assert FieldItems(path, fs) + q == q;
    } else {
      var it, more := FieldItems(path, fs)[0], FieldItems(path, fs[1..]) + q;
      assert FieldItems(path, fs) + q == [it] + more;
      QueueParts(it, more);
      Positive(Count(fs[0].value), CountFields(fs[1..]));
      if Count(fs[0].value) > 0 { FieldsLive(path, fs[1..], q); }
    }
  }

  /** The fields of a dictionary in front of a queue are as quiet as the dictionary in front of it. */
  lemma {:induction false} FieldsQuiet(path: seq<PathElement>, fs: seq<Field>, q: seq<Item>)
    requires DenQueue(FieldItems(path, fs) + q).error == None
    ensures QuietQueue(FieldItems(path, fs) + q) <==>
      QuietFields(fs, DenQueue(q).alts != []) && (CountFields(fs) > 0 ==> QuietQueue(q))
  {
    hide Den, DenQueue, Count, Quiet, NamesLeaf, QuietQueue;
    if fs == [] {
      assert FieldItems(path, fs) + q == q;
    } else {
      var f, it, more := fs[0], FieldItems(path, fs)[0], FieldItems(path, fs[1..]) + q;
      var live, n := DenQueue(q).alts != [], CountFields(fs[1..]);
      assert FieldItems(path, fs) + q == [it] + more;
      assert it.path[|it.path| - 1] == Key(f.key) && it.matrix == f.value;
      QueueParts(it, more);
      QuietQueueCons(it, more);
      Positive(Count(f.value), n);
      NamedLeavesCount(f.value);
      if Count(f.value) > 0 {
        FieldsLive(path, fs[1..], q);
        FieldsQuiet(path, fs[1..], q);
      } else {
        DeadEitherWay(f.value, DenQueue(more).alts != [], live && n > 0);
      }
    }
  }

  // ---------------------------------------------------------------- no warning exactly when quiet

  lemma ReportQuiet(path: seq<PathElement>, m: Matrix, live: bool)
    ensures Report(ALL_WARNINGS, path, NamesLeaf(m) && live) == [] <==>
      (path != [] && path[|path| - 1].Key? ==> KeyQuiet(path[|path| - 1].k, m, live))
  {}

  lemma {:induction false} VisitsQuietExactly(q: seq<Item>)
    requires DenQueue(q).error == None
    ensures Visits(ALL_WARNINGS, q) == [] <==> QuietQueue(q)
    decreases QueueSize(q), 1
  {
    hide Den, Prod, DenQueue, NamesLeaf, Report, VisitMatrix, KeyQuiet, Quiet, Count;
    if q != [] {
      var it, rest := q[0], q[1..];
      assert q == [it] + rest;
      QueueParts(it, rest);
      MatrixQuietExactly(it.path, it.key, it.matrix, rest);
      ReportQuiet(it.path, it.matrix, DenQueue(rest).alts != []);
    }
  }

  lemma {:induction false} MatrixQuietExactly(path: seq<PathElement>, key: Option<string>, m: Matrix, q: seq<Item>)
    requires Prod(Den(key, m), DenQueue(q)).error == None
    ensures VisitMatrix(ALL_WARNINGS, path, key, m, q) == [] <==>
      Quiet(m, DenQueue(q).alts != []) && (Count(m) > 0 ==> QuietQueue(q))
    decreases Size(m) + QueueSize(q), 0
  {
    hide DenQueue, Visits, QuietQueue, Prod;
    ProdNeedsBoth(Den(key, m), DenQueue(q));
    match m
    case Leaf(_) => VisitsQuietExactly(q);
    case List(items) =>
      assert items[0..] == items;
      ListQuietExactly(path, key, items, 0, q);
    case Dict(fields) =>
      var items := FieldItems(path, Sorted(fields));
      FieldItemsSize(path, Sorted(fields), q);
      QueueCat(items, q);
      FieldItemsMean(path, Sorted(fields));
      CountSorted(fields);
      VisitsQuietExactly(items + q);
      FieldsQuiet(path, Sorted(fields), q);
  }

  lemma {:induction false} ListQuietExactly(path: seq<PathElement>, key: Option<string>, items: seq<Matrix>, i: nat,
          q: seq<Item>)
    requires i <= |items| && Prod(DenList(key, items[i..]), DenQueue(q)).error == None
    ensures VisitList(ALL_WARNINGS, path, key, items, i, q) == [] <==>
      QuietItems(items[i..], DenQueue(q).alts != []) && (CountItems(items[i..]) > 0 ==> QuietQueue(q))
    decreases SizeAll(items) + QueueSize(q), 2, |items| - i
  {
    hide DenQueue, Visits, Quiet, QuietQueue, Prod, Den, Count, KeyQuiet;
    if i < |items| {
      var it, tail := Item(path + [Index(i)], key, items[i]), items[i..];
      assert tail[0] == items[i] && tail[1..] == items[i + 1..];
      SizeOfItem(items, i);
      ProdCat(Den(key, items[i]), DenList(key, tail[1..]), DenQueue(q));
      NothingFollows(Den(key, items[i]));
      QueueCons(it, q);
      VisitsQuietExactly([it] + q);
      QuietQueueCons(it, q);
      ListQuietExactly(path, key, items, i + 1, q);
    }
  }

  /** For every document that raises nothing: there is no warning exactly when it is quiet. */
  lemma QuietExactly(m: Matrix)
    requires Faultless(m) && !NamesLeaf(m)
    ensures VisitMatrix(ALL_WARNINGS, [], None, m, []) == [] <==> Quiet(m, true)
  {
    hide VisitMatrix, Quiet;
    BareMeansNamesLeaf(m);
    NoKeyErrorExactly(None, m);
    ProdUnit(Den(None, m));
    MatrixQuietExactly([], None, m, []);
  }

  // ---------------------------------------------------------------- documents that follow the convention

  /** No visited key that names a leaf has something without entries behind it. */
  predicate NothingDead(m: Matrix, live: bool)
    decreases Size(m), 0
  {
    match m
    case Leaf(_) => true
    case List(items) => NothingDeadIn(items, live)
    case Dict(fields) => NothingDeadBehind(Sorted(fields), live)
  }

  predicate NothingDeadIn(ms: seq<Matrix>, live: bool)
    decreases SizeAll(ms), 1
  {
    ms != [] ==> NothingDead(ms[0], live) && NothingDeadIn(ms[1..], live)
  }

  predicate NothingDeadBehind(fs: seq<Field>, live: bool)
    decreases SizeFields(fs), 1
  {
    fs != [] ==>
      var l := live && CountFields(fs[1..]) > 0;
      && NothingDead(fs[0].value, l) && (NamesLeaf(fs[0].value) ==> l)
      && (Count(fs[0].value) > 0 ==> NothingDeadBehind(fs[1..], live))
  }

  lemma SortedFollow(fs: seq<Field>)
    ensures FieldsFollow(fs) <==> FieldsFollow(Sorted(fs))
    ensures NoEmptyListIn(fs) <==> NoEmptyListIn(Sorted(fs))
  {
    forall f ensures f in fs <==> f in Sorted(fs) {
      if f in fs { InMultiset(fs, Sorted(fs), f); }
      if f in Sorted(fs) { InMultiset(Sorted(fs), fs, f); }
    }
  }

  lemma {:induction false} FollowersAreQuiet(m: Matrix, live: bool)
    requires Follows(m)
    ensures Quiet(m, live) <==> NothingDead(m, live)
    decreases Size(m), 0
  {
    match m
    case Leaf(_) =>
    case List(items) => FollowingItemsAreQuiet(items, live);
    case Dict(fields) =>
      SortedFollow(fields);
      FollowingFieldsAreQuiet(Sorted(fields), live);
  }

  lemma {:induction false} FollowingItemsAreQuiet(ms: seq<Matrix>, live: bool)
    requires forall i :: 0 <= i < |ms| ==> Follows(ms[i])
    ensures QuietItems(ms, live) <==> NothingDeadIn(ms, live)
    decreases SizeAll(ms), 1
  {
    hide Quiet, NothingDead, Follows;
    if ms != [] {
      FollowersAreQuiet(ms[0], live);
      FollowingItemsAreQuiet(ms[1..], live);
    }
  }

  lemma {:induction false} FollowingFieldsAreQuiet(fs: seq<Field>, live: bool)
    requires FieldsFollow(fs)
    ensures QuietFields(fs, live) <==> NothingDeadBehind(fs, live)
    decreases SizeFields(fs), 1
  {
    hide Quiet, NothingDead, Follows, Count, NamesLeaf;
    if fs != [] {
      assert fs[0] in fs && KeyFollows(fs[0].key, fs[0].value) && Follows(fs[0].value);
      FollowersAreQuiet(fs[0].value, live && CountFields(fs[1..]) > 0);
      FollowingFieldsAreQuiet(fs[1..], live);
    }
  }

  lemma {:induction false} WithoutEmptyLists(m: Matrix)
    requires NoEmptyList(m)
    ensures Count(m) > 0 && (Quiet(m, true) <==> Follows(m))
    decreases Size(m), 0
  {
    match m
    case Leaf(_) =>
    case List(items) => ItemsWithoutEmptyLists(items);
    case Dict(fields) =>
      SortedFollow(fields);
      CountSorted(fields);
      FieldsWithoutEmptyLists(Sorted(fields));
  }

  lemma {:induction false} ItemsWithoutEmptyLists(ms: seq<Matrix>)
    requires forall i :: 0 <= i < |ms| ==> NoEmptyList(ms[i])
    ensures ms != [] ==> CountItems(ms) > 0
    ensures QuietItems(ms, true) <==> forall i :: 0 <= i < |ms| ==> Follows(ms[i])
    decreases SizeAll(ms), 1
  {
    hide Quiet, Follows, Count, NoEmptyList;
    if ms != [] {
      WithoutEmptyLists(ms[0]);
      ItemsWithoutEmptyLists(ms[1..]);
      if QuietItems(ms, true) {
        forall i | 0 <= i < |ms| ensures Follows(ms[i]) {
          if i > 0 { assert ms[i] == ms[1..][i - 1]; }
        }
      }
    }
  }

  lemma {:induction false} FieldsWithoutEmptyLists(fs: seq<Field>)
    requires NoEmptyListIn(fs)
    ensures CountFields(fs) > 0 && (QuietFields(fs, true) <==> FieldsFollow(fs))
    decreases SizeFields(fs), 1
  {
    hide Quiet, Follows, Count, NamesLeaf, NoEmptyList;
    if fs != [] {
      WithoutEmptyLists(fs[0].value);
      FieldsWithoutEmptyLists(fs[1..]);
      Positive(Count(fs[0].value), CountFields(fs[1..]));
      assert fs == [fs[0]] + fs[1..];
    }
  }

  /** What the convention is worth, for every document that raises nothing. A document that follows it
      causes no warning exactly when nothing dead is behind a key that names a leaf; when no list is empty,
      exactly the documents that follow it cause no warning. */
  lemma QuietExactlyWhenConventional(m: Matrix)
    requires Faultless(m) && !NamesLeaf(m)
    ensures Follows(m) ==> (VisitMatrix(ALL_WARNINGS, [], None, m, []) == [] <==> NothingDead(m, true))
    ensures NoEmptyList(m) ==> (VisitMatrix(ALL_WARNINGS, [], None, m, []) == [] <==> Follows(m))
  {
    hide VisitMatrix, Quiet, NothingDead, Follows, NoEmptyList;
    QuietExactly(m);
    if Follows(m) { FollowersAreQuiet(m, true); }
    if NoEmptyList(m) { WithoutEmptyLists(m); }
  }

  // ---------------------------------------------------------------- two documents with an empty list

  lemma SortedOne(f: Field)
    ensures Sorted([f]) == [f]
  {
    assert [f][1..] == [];
  }

  lemma ListOfOne(m: Matrix)
    requires m == List([Leaf(Int(1))])
    ensures NamesLeaf(m) && Follows(m) && CleanKeys(m)
  {
    assert NamesLeaf(m.items[0]);
    assert forall i :: 0 <= i < |m.items| ==> m.items[i] == Leaf(Int(1));
  }

  lemma EmptyList(m: Matrix)
    requires m == List([])
    ensures !NamesLeaf(m) && Follows(m) && CleanKeys(m) && Count(m) == 0 && !NoEmptyList(m)
  {}

  lemma SortedTwo(a: Field, b: Field)
    requires Less(a.key, b.key)
    ensures Sorted([a, b]) == [a, b]
  {
    assert [a, b][1..] == [b];
    SortedOne(b);
  }

  /** `{"A": [1], "_b": []}` follows the convention, but the empty list leaves no entry in which "A" could
      appear, so "A" is reported as unused. */
  lemma EmptyListCausesWarning()
    ensures var m := Dict([Field("A", List([Leaf(Int(1))])), Field("_b", List([]))]);
      Follows(m) && VisitMatrix(ALL_WARNINGS, [], None, m, []) != []
  {
    hide VisitMatrix, NamesLeaf, Count, Follows, CleanKeys, Sorted, Quiet, Faultless;
    var a, b := Field("A", List([Leaf(Int(1))])), Field("_b", List([]));
    ListOfOne(a.value);
    EmptyList(b.value);
    FirstIsReported(a, b);
  }

  /** A key that names a leaf is reported when the only field behind it has no entries. */
  lemma FirstIsReported(a: Field, b: Field)
    requires Less(a.key, b.key) && MatchesIdentifier(a.key) && MatchesIdentifier(b.key)
    requires NamesLeaf(a.value) && !NamesLeaf(b.value) && !Underscored(a.key) && Underscored(b.key)
    requires Follows(a.value) && Follows(b.value) && CleanKeys(a.value) && CleanKeys(b.value) && Count(b.value) == 0
    ensures var m := Dict([a, b]); Follows(m) && VisitMatrix(ALL_WARNINGS, [], None, m, []) != []
  {
    var fs := [a, b];
    assert FieldsFollow(fs) && CleanFields(fs);
    hide VisitMatrix;
    assert Follows(Dict(fs)) && CleanKeys(Dict(fs));
    CleanIsFaultless(Dict(fs));
    SortedTwo(a, b);
    assert fs[1..] == [b] && [b][1..] == [] && CountFields([b]) == 0;
    assert !QuietFields(fs, true);
    QuietExactly(Dict(fs));
  }

  /** `{"_b": []}` has an empty list too, and causes no warning. */
  lemma EmptyListMayBeQuiet()
    ensures var m := Dict([Field("_b", List([]))]);
      Follows(m) && !NoEmptyList(m) && VisitMatrix(ALL_WARNINGS, [], None, m, []) == []
  {
    var b := Field("_b", List([]));
    SortedOne(b);
    assert [b][1..] == [] && b in [b];
    assert KeyFollows("_b", b.value) && Follows(b.value) && !NoEmptyList(b.value);
    assert FieldsFollow([b]) && !NoEmptyListIn([b]);
    hide VisitMatrix;
    CleanIsFaultless(Dict([b]));
    assert QuietFields([b], true);
    QuietExactly(Dict([b]));
  }

  // ---------------------------------------------------------------- which warning is given

  /** A used key is reported exactly when it begins with an underscore and such warnings are wanted, and
      an unused key exactly when it does not and the other kind is wanted; a list index never is. */
  lemma ReportExactly(o: Options, path: seq<PathElement>, used: bool)
    ensures |Report(o, path, used)| <= 1
    ensures forall p :: UsedKey(p) in Report(o, path, used) <==>
      && o.warnUsed && used && p == path
      && exists q, k: string :: path == q + [Key(k)] && "_" <= k
    ensures forall p :: UnusedKey(p) in Report(o, path, used) <==>
      && o.warnUnused && !used && p == path
      && exists q, k: string :: path == q + [Key(k)] && !("_" <= k)
  {
    if path != [] && path[|path| - 1].Key? {
      assert path == path[..|path| - 1] + [Key(path[|path| - 1].k)];
    }
  }

  /** In the document with one key and a value the key is used; in the one with one key and an empty
      dictionary it is not. */
  lemma OneKeyIsReported(o: Options, k: string, v: Value)
    requires MatchesIdentifier(k)
    ensures VisitMatrix(o, [], None, Dict([Field(k, Leaf(v))]), [])
         == if o.warnUsed && |k| > 0 && k[0] == '_' then [UsedKey([Key(k)])] else []
    ensures VisitMatrix(o, [], None, Dict([Field(k, Dict([]))]), [])
         == if o.warnUnused && (|k| > 0 ==> k[0] != '_') then [UnusedKey([Key(k)])] else []
  {
    hide VisitMatrix;
    OneKeyVisit(o, k, Leaf(v));
    OneKeyVisit(o, k, Dict([]));
  }

  lemma OneKeyVisit(o: Options, k: string, m: Matrix)
    requires MatchesIdentifier(k) && (m.Leaf? || m == Dict([]))
    ensures VisitMatrix(o, [], None, Dict([Field(k, m)]), []) == Report(o, [Key(k)], NamesLeaf(m))
  {
    hide Report;
    var f := Field(k, m);
    SortedOne(f);
    var it := Item([] + [Key(k)], Some(k), m);
    assert [f][1..] == [];
    assert FieldItems([], [f]) + [] == [it];
    assert [it][1..] == [];
    NothingBehind(it);
    assert VisitMatrix(o, it.path, it.key, m, []) == [];
    assert it.path == [Key(k)];
  }

  lemma NothingBehind(it: Item)
    requires it.key.Some? && MatchesIdentifier(it.key.value) && (it.matrix.Leaf? || it.matrix == Dict([]))
    requires it.path == [Key(it.key.value)]
    ensures DenQueue([it]).error == None && DenQueue([]).alts != []
  {
    assert [it][1..] == [];
    ProdUnit(DenItem(it));
  }

  /** A key is reported after the keys inside it and after the keys behind it: the warnings for
      `{"a": {"b": {}}}` and for `{"a": {}, "b": {}}`. */
  lemma InnerAndLaterKeysFirst(a: string, b: string)
    requires !Underscored(a) && !Underscored(b) && MatchesIdentifier(a) && MatchesIdentifier(b)
    ensures var inner := Dict([Field(b, Dict([]))]);
      VisitMatrix(ALL_WARNINGS, [], None, Dict([Field(a, inner)]), [])
        == [UnusedKey([Key(a), Key(b)]), UnusedKey([Key(a)])]
    ensures Less(a, b) ==>
      VisitMatrix(ALL_WARNINGS, [], None, Dict([Field(a, Dict([])), Field(b, Dict([]))]), [])
        == [UnusedKey([Key(b)]), UnusedKey([Key(a)])]
  {
    hide VisitMatrix, DenQueue, Underscored, MatchesIdentifier, Less;
    var inner := Dict([Field(b, Dict([]))]);
    var x, y, z := Item([Key(a)], Some(a), inner), Item([Key(a), Key(b)], Some(b), Dict([])),
      Item([Key(b)], Some(b), Dict([]));
    var w := Item([Key(a)], Some(a), Dict([]));
    CleanInner(b);
    assert [z] + [] == [z];
    VisitOneField([], None, Field(a, inner), x);
    VisitOneField([Key(a)], Some(a), Field(b, Dict([])), y);
    VisitGroup(x, []);
    VisitGroup(y, []);
    VisitNothing(y, []);
    if Less(a, b) {
      VisitTwoFields(Field(a, Dict([])), Field(b, Dict([])), w, z);
      VisitGroup(w, [z]);
      VisitNothing(w, [z]);
      VisitGroup(z, []);
      VisitNothing(z, []);
    }
  }

  lemma CleanInner(b: string)
    requires MatchesIdentifier(b)
    ensures CleanKeys(Dict([])) && CleanKeys(Dict([Field(b, Dict([]))]))
  {
    assert CleanFields([]) && CleanFields([Field(b, Dict([]))]);
  }

  /** A dictionary in which no key fails the check, under a key without underscore. */
  ghost predicate CleanGroup(it: Item) {
    && it.matrix.Dict? && CleanKeys(it.matrix) && it.key.Some?
    && it.path != [] && it.path[|it.path| - 1] == Key(it.key.value)
    && MatchesIdentifier(it.key.value) && !Underscored(it.key.value)
  }

  lemma {:induction false} CleanGroupsRaiseNothing(q: seq<Item>)
    requires forall it :: it in q ==> CleanGroup(it)
    ensures DenQueue(q).error == None
  {
    hide Den, Prod, CleanKeys, MatchesIdentifier;
    if q != [] {
      assert CleanGroup(q[0]);
      CleanGroupsRaiseNothing(q[1..]);
      CleanIsFaultless(q[0].matrix);
      NoKeyErrorExactly(q[0].key, q[0].matrix);
      assert DenItem(q[0]).error == None by { PathIsClean(q[0]); }
      ProdError(DenItem(q[0]), DenQueue(q[1..]));
    }
  }

  lemma PathIsClean(it: Item)
    requires CleanGroup(it)
    ensures PathCheck(it.path) == Raise(None)
  {}

  /** A group is reported behind all that its visit reports. */
  lemma VisitGroup(it: Item, rest: seq<Item>)
    requires CleanGroup(it) && forall r :: r in rest ==> CleanGroup(r)
    ensures Visits(ALL_WARNINGS, [it] + rest)
         == VisitMatrix(ALL_WARNINGS, it.path, it.key, it.matrix, rest) + [UnusedKey(it.path)]
  {
    hide VisitMatrix, DenQueue, CleanGroup;
    CleanGroupsRaiseNothing([it] + rest);
    assert ([it] + rest)[1..] == rest;
    GroupReport(it, DenQueue(rest).alts != []);
  }

  lemma GroupReport(it: Item, live: bool)
    requires CleanGroup(it)
    ensures Report(ALL_WARNINGS, it.path, NamesLeaf(it.matrix) && live) == [UnusedKey(it.path)]
  {}

  lemma VisitNothing(it: Item, q: seq<Item>)
    requires it.matrix == Dict([])
    ensures VisitMatrix(ALL_WARNINGS, it.path, it.key, it.matrix, q) == Visits(ALL_WARNINGS, q)
    ensures q == [] ==> Visits(ALL_WARNINGS, q) == []
  {
    hide Visits;
    assert FieldItems(it.path, []) + q == q;
    NoVisits();
  }

  lemma NoVisits()
    ensures Visits(ALL_WARNINGS, []) == []
  {}

  lemma VisitOneField(path: seq<PathElement>, key: Option<string>, f: Field, it: Item)
    requires it == Item(path + [Key(f.key)], Some(f.key), f.value)
    ensures VisitMatrix(ALL_WARNINGS, path, key, Dict([f]), []) == Visits(ALL_WARNINGS, [it] + [])
  {
    hide Visits;
    SortedOne(f);
    FieldItemsCons(path, [f]);
    assert [f][1..] == [] && FieldItems(path, [f]) + [] == [it] + [];
  }

  lemma VisitTwoFields(f: Field, g: Field, it: Item, jt: Item)
    requires Less(f.key, g.key)
    requires it == Item([Key(f.key)], Some(f.key), f.value) && jt == Item([Key(g.key)], Some(g.key), g.value)
    ensures VisitMatrix(ALL_WARNINGS, [], None, Dict([f, g]), []) == Visits(ALL_WARNINGS, [it] + [jt])
  {
    hide Visits;
    SortedTwo(f, g);
    FieldItemsCons([], [f, g]);
    FieldItemsCons([], [g]);
    assert [f, g][1..] == [g] && [g][1..] == [];
    assert [] + [Key(f.key)] == [Key(f.key)] && [] + [Key(g.key)] == [Key(g.key)];
    assert FieldItems([], [f, g]) + [] == [it] + [jt];
  }
}
