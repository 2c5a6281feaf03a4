/** What the entries of a matrix product hold: the values of leaves under their nearest keys, and in the
    plain case of a dictionary of lists of values every choice of one value from each list. */
module MatrixFlat {
  import opened Common
  import opened MatrixModel
  import opened MatrixAlgebra
  import opened MatrixTraversal
  import opened MatrixResults

  ghost predicate Flat(f: Field) {
    f.value.List? && MatchesIdentifier(f.key) && forall i :: 0 <= i < |f.value.items| ==> f.value.items[i].Leaf?
  }

  ghost predicate AllFlat(fs: seq<Field>) { forall f :: f in fs ==> Flat(f) }

  /** The position of an item for each field. */
  ghost predicate Choice(fs: seq<Field>, c: seq<nat>) {
    |c| == |fs| && forall j :: 0 <= j < |fs| ==> fs[j].value.List? && c[j] < |fs[j].value.items|
  }

  /** The position of the entry in which a choice is made: the last field varies fastest. */
  ghost function Rank(fs: seq<Field>, c: seq<nat>): nat
    requires |c| == |fs|
  {
    if fs == [] then 0
    else
      NotNegative(c[0], CountFields(fs[1..]));
      c[0] * CountFields(fs[1..]) + Rank(fs[1..], c[1..])
  }

  /** The entry binds the chosen value of every field, and nothing else. */
  ghost predicate Binds(fs: seq<Field>, c: seq<nat>, e: Entry) {
    && |c| == |fs| && (forall k :: k in e ==> exists j :: 0 <= j < |fs| && fs[j].key == k)
    && forall j :: 0 <= j < |fs| ==>
      && fs[j].value.List? && c[j] < |fs[j].value.items| && fs[j].key in e
      && fs[j].value.items[c[j]] == Leaf(e[fs[j].key])
  }

  lemma {:induction false} LeavesInOrder(k: string, items: seq<Matrix>)
    requires forall i :: 0 <= i < |items| ==> items[i].Leaf?
    ensures var s := DenList(Some(k), items);
      && s.error == None && |s.alts| == |items| == CountItems(items)
      && forall i :: 0 <= i < |items| ==> s.alts[i].binding == map[k := items[i].value]
  {
    if items != [] { LeavesInOrder(k, items[1..]); }
  }

  lemma NewKey(f: Field, fs: seq<Field>, c: seq<nat>, e: Entry)
    requires Binds(fs, c, e) && UniqueKeys([f] + fs)
    ensures f.key !in e
  {
    var gs := [f] + fs;
    forall k | k in e ensures k != f.key {
      var j :| 0 <= j < |fs| && fs[j].key == k;
      assert gs[0].key != gs[j + 1].key;
    }
  }

  lemma BindsCons(f: Field, fs: seq<Field>, i: nat, c: seq<nat>, e: Entry)
    requires Binds(fs, c, e) && UniqueKeys([f] + fs)
    requires f.value.List? && i < |f.value.items| && f.value.items[i].Leaf?
    ensures Binds([f] + fs, [i] + c, map[f.key := f.value.items[i].value] + e)
  {
    var gs, d, whole := [f] + fs, [i] + c, map[f.key := f.value.items[i].value] + e;
    NewKey(f, fs, c, e);
    hide UniqueKeys;
    forall j | 0 <= j < |gs|
      ensures gs[j].value.List? && d[j] < |gs[j].value.items| && gs[j].key in whole
      ensures gs[j].value.items[d[j]] == Leaf(whole[gs[j].key])
    {
      if j > 0 { assert gs[j] == fs[j - 1] && d[j] == c[j - 1]; }
    }
    forall k | k in whole ensures exists j :: 0 <= j < |gs| && gs[j].key == k {
      if k in e {
        var j :| 0 <= j < |fs| && fs[j].key == k;
        assert gs[j + 1].key == k;
      } else {
        assert gs[0].key == k;
      }
    }
  }

  lemma UniqueTail(fs: seq<Field>)
    requires UniqueKeys(fs) && fs != []
    ensures UniqueKeys(fs[1..])
  {}

  lemma DenFieldsCons(fs: seq<Field>)
    requires fs != [] && Flat(fs[0])
    ensures DenFields(fs) == Prod(DenList(Some(fs[0].key), fs[0].value.items), DenFields(fs[1..]))
  {
    NothingFollows(DenList(Some(fs[0].key), fs[0].value.items));
  }

  lemma {:induction false} FlatFields(fs: seq<Field>, c: seq<nat>)
    requires AllFlat(fs) && UniqueKeys(fs) && Choice(fs, c)
    ensures var s := DenFields(fs);
      s.error == None && Rank(fs, c) < |s.alts| == CountFields(fs) && Binds(fs, c, s.alts[Rank(fs, c)].binding)
  {
    hide Den, DenList, DenFields, Prod, Binds, UniqueKeys, Flat;
    if fs == [] {
      NoFields(c);
    } else {
      var f, rest, i, d := fs[0], fs[1..], c[0], c[1..];
      assert fs == [f] + rest && c == [i] + d;
      UniqueTail(fs);
      FlatFields(rest, d);
      assert Flat(f);
      FirstField(f, i);
      DenFieldsCons(fs);
      ProdIsLexicographic(DenList(Some(f.key), f.value.items), DenFields(rest), i, Rank(rest, d));
      BindsCons(f, rest, i, d, DenFields(rest).alts[Rank(rest, d)].binding);
    }
  }

  lemma NoFields(c: seq<nat>)
    requires c == []
    ensures DenFields([]) == Stream([Alt(map[], false)], None) && Binds([], c, map[])
  {}

  lemma FirstField(f: Field, i: nat)
    requires Flat(f) && i < |f.value.items|
    ensures var s := DenList(Some(f.key), f.value.items);
      && f.value.items[i].Leaf?
      && s.error == None && |s.alts| == |f.value.items| == Count(f.value)
      && s.alts[i].binding == map[f.key := f.value.items[i].value]
  {
    LeavesInOrder(f.key, f.value.items);
  }

  /** A dictionary of lists of values yields one entry for every choice of an item from each list. */
  lemma FlatProduct(fs: seq<Field>, c: seq<nat>)
    requires AllFlat(fs) && UniqueKeys(fs) && Choice(Sorted(fs), c)
    ensures var s := Den(None, Dict(fs));
      && s.error == None && Rank(Sorted(fs), c) < |s.alts| == CountFields(fs)
      && Binds(Sorted(fs), c, s.alts[Rank(Sorted(fs), c)].binding)
  {
    hide Flat, Binds, Choice, Rank;
    var r := Sorted(fs);
    forall f | f in r ensures Flat(f) {
      assert f in multiset(r);
      assert f in fs;
    }
    UniqueWhenSorted(fs);
    FlatFields(r, c);
    CountSorted(fs);
  }

  lemma UniqueWhenSorted(fs: seq<Field>)
    requires UniqueKeys(fs)
    ensures UniqueKeys(Sorted(fs))
  {
    SortedKeys(fs);
    var r := Sorted(fs);
    forall i, j | 0 <= i < j < |r| ensures r[i].key != r[j].key {
      LessTotal(r[i].key, r[j].key);
    }
  }

  /** The choices come in lexicographic order. */
  lemma {:induction false} ChoicesInOrder(fs: seq<Field>, c: seq<nat>, d: seq<nat>, n: nat)
    requires AllFlat(fs) && Choice(fs, c) && Choice(fs, d) && n < |fs| && c[..n] == d[..n] && c[n] < d[n]
    ensures Rank(fs, c) < Rank(fs, d)
  {
    if n == 0 {
      RankIsSmall(fs[1..], c[1..]);
      var m := CountFields(fs[1..]);
      Multiples(d[0] - c[0], m);
      Distribute(c[0], d[0] - c[0], m);
    } else {
      assert c[0] == c[..n][0] == d[..n][0] == d[0];
      assert c[1..][..n - 1] == c[..n][1..] == d[..n][1..] == d[1..][..n - 1];
      ChoicesInOrder(fs[1..], c[1..], d[1..], n - 1);
    }
  }

  lemma {:induction false} RankIsSmall(fs: seq<Field>, c: seq<nat>)
    requires AllFlat(fs) && Choice(fs, c)
    ensures Rank(fs, c) < CountFields(fs)
  {
    if fs != [] {
      assert Flat(fs[0]);
      var m, n := CountFields(fs[1..]), |fs[0].value.items|;
      RankIsSmall(fs[1..], c[1..]);
      FirstField(fs[0], c[0]);
      Multiples(n - c[0], m);
      Distribute(c[0], n - c[0], m);
    }
  }

  // ---------------------------------------------------------------- the nearest key

  /** Some leaf v of m has k as its nearest key; `key` is the one above m. */
  ghost predicate Offers(key: Option<string>, m: Matrix, k: string, v: Value)
    decreases m
  {
    match m
    case Leaf(x) => key == Some(k) && x == v
    case List(items) => exists i :: 0 <= i < |items| && Offers(key, items[i], k, v)
    case Dict(fields) => exists i :: 0 <= i < |fields| && Offers(Some(fields[i].key), fields[i].value, k, v)
  }

  ghost predicate SomeItemOffers(key: Option<string>, ms: seq<Matrix>, k: string, v: Value) {
    exists m :: m in ms && Offers(key, m, k, v)
  }

  ghost predicate SomeFieldOffers(fs: seq<Field>, k: string, v: Value) {
    exists f :: f in fs && Offers(Some(f.key), f.value, k, v)
  }

  lemma {:induction false} ProdParts(a: Stream, b: Stream, z: Alt)
    requires z in Prod(a, b).alts
    ensures exists x, y :: x in a.alts && y in b.alts && z == Join(x, y)
    decreases |a.alts|
  {
    hide Join;
    if a.alts != [] && z !in Scale(a.alts[0], b).alts { ProdParts(Stream(a.alts[1..], a.error), b, z); }
  }

  /** An entry binds only values of leaves to their nearest keys; keys used for grouping do not appear. */
  lemma {:induction false} BoundToNearestKey(key: Option<string>, m: Matrix, x: Alt, k: string)
    requires x in Den(key, m).alts && k in x.binding
    ensures Offers(key, m, k, x.binding[k])
    decreases Size(m), 0
  {
    match m
    case Leaf(_) =>
    case List(items) => ItemBinds(key, items, x, k);
    case Dict(fields) =>
      var s := DenFields(Sorted(fields));
      var i :| 0 <= i < |s.alts| && x == Mark(s, false).alts[i];
      FieldBinds(Sorted(fields), s.alts[i], k);
      var f :| f in Sorted(fields) && Offers(Some(f.key), f.value, k, x.binding[k]);
      assert f in multiset(Sorted(fields));
      assert f in fields;
  }

  lemma {:induction false} ItemBinds(key: Option<string>, ms: seq<Matrix>, x: Alt, k: string)
    requires x in DenList(key, ms).alts && k in x.binding
    ensures SomeItemOffers(key, ms, k, x.binding[k])
    decreases SizeAll(ms), 1
  {
    hide Den, Offers;
    if x in Den(key, ms[0]).alts { BoundToNearestKey(key, ms[0], x, k); } else { ItemBinds(key, ms[1..], x, k); }
  }

  lemma {:induction false} FieldBinds(fs: seq<Field>, z: Alt, k: string)
    requires z in DenFields(fs).alts && k in z.binding
    ensures SomeFieldOffers(fs, k, z.binding[k])
    decreases SizeFields(fs), 1
  {
    hide Den, Offers, Prod;
    if fs != [] {
      var d := Cat(Den(Some(fs[0].key), fs[0].value), KeyCheck(fs[0].key));
      ProdParts(d, DenFields(fs[1..]), z);
      var x, y :| x in d.alts && y in DenFields(fs[1..]).alts && z == Join(x, y);
      assert x in Den(Some(fs[0].key), fs[0].value).alts;
      if k in y.binding {
        FieldBinds(fs[1..], y, k);
      } else {
        BoundToNearestKey(Some(fs[0].key), fs[0].value, x, k);
        assert fs[0] in fs;
      }
    }
  }
}
