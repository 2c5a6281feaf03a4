/** The algebra of streams that the traversal rests on. */
module MatrixAlgebra {
  import opened Common
  import opened MatrixModel

  lemma JoinAllCons(x: Alt, y: Alt, ys: seq<Alt>)
    ensures JoinAll(x, [y] + ys) == [Join(x, y)] + JoinAll(x, ys)
    ensures JoinAll(x, []) == []
  {
    assert ([y] + ys)[1..] == ys;
  }

  lemma {:induction false} JoinAllCat(x: Alt, ys: seq<Alt>, zs: seq<Alt>)
    ensures JoinAll(x, ys + zs) == JoinAll(x, ys) + JoinAll(x, zs)
  {
    hide JoinAll, Join;
    if ys == [] {
      assert ys + zs == zs && JoinAll(x, ys) + JoinAll(x, zs) == JoinAll(x, zs);
    } else {
      var y, rest := ys[0], ys[1..];
      assert ys == [y] + rest && ys + zs == [y] + (rest + zs);
      JoinAllCons(x, y, rest);
      JoinAllCons(x, y, rest + zs);
      JoinAllCat(x, rest, zs);
      assert [Join(x, y)] + (JoinAll(x, rest) + JoinAll(x, zs)) == ([Join(x, y)] + JoinAll(x, rest)) + JoinAll(x, zs);
    }
  }

  lemma CatAssociative(a: Stream, b: Stream, c: Stream)
    ensures Cat(Cat(a, b), c) == Cat(a, Cat(b, c))
  {
    assert (a.alts + b.alts) + c.alts == a.alts + (b.alts + c.alts);
  }

  lemma ScaleCat(x: Alt, b: Stream, c: Stream)
    ensures Scale(x, Cat(b, c)) == Cat(Scale(x, b), Scale(x, c))
  {
    JoinAllCat(x, b.alts, c.alts);
  }

  lemma ScaleScale(x: Alt, y: Alt, b: Stream)
    ensures Scale(x, Scale(y, b)) == Scale(Join(x, y), b)
  {
    var l, r := JoinAll(x, JoinAll(y, b.alts)), JoinAll(Join(x, y), b.alts);
    forall i | 0 <= i < |b.alts| ensures l[i] == r[i] {
      assert x.binding + (y.binding + b.alts[i].binding) == x.binding + y.binding + b.alts[i].binding;
    }
    assert l == r;
  }

  /** A list multiplies out alternative by alternative. */
  lemma {:induction false} ProdCat(a: Stream, b: Stream, c: Stream)
    ensures Prod(Cat(a, b), c) == Cat(Prod(a, c), Prod(b, c))
    decreases |a.alts|
  {
    if a.error == None {
      if a.alts == [] {
        assert Cat(a, b) == b;
        assert Cat(a, Prod(b, c)) == Prod(b, c);
      } else {
        var rest := Stream(a.alts[1..], a.error);
        ProdCat(rest, b, c);
        assert Cat(a, b).alts[1..] == Cat(rest, b).alts;
        CatAssociative(Scale(a.alts[0], c), Prod(rest, c), Prod(b, c));
      }
    } else {
      RaisedStaysRaised(a, c);
    }
  }

  lemma {:induction false} RaisedStaysRaised(a: Stream, c: Stream)
    requires a.error.Some?
    ensures Prod(a, c).error.Some?
    decreases |a.alts|
  {
    if a.alts != [] { RaisedStaysRaised(Stream(a.alts[1..], a.error), c); }
  }

  lemma {:induction false} ProdScale(x: Alt, b: Stream, c: Stream)
    ensures Prod(Scale(x, b), c) == Scale(x, Prod(b, c))
    decreases |b.alts|
  {
    if b.alts != [] {
      var rest := Stream(b.alts[1..], b.error);
      ProdScale(x, rest, c);
      assert Scale(x, b).alts[1..] == Scale(x, rest).alts;
      ScaleScale(x, b.alts[0], c);
      ScaleCat(x, Scale(b.alts[0], c), Prod(rest, c));
    }
  }

  lemma {:induction false} ProdAssociative(a: Stream, b: Stream, c: Stream)
    ensures Prod(Prod(a, b), c) == Prod(a, Prod(b, c))
    decreases |a.alts|
  {
    if a.alts != [] {
      var rest := Stream(a.alts[1..], a.error);
      ProdAssociative(rest, b, c);
      ProdCat(Scale(a.alts[0], b), Prod(rest, b), c);
      ProdScale(a.alts[0], b, c);
    }
  }

  lemma {:induction false} ProdUnit(a: Stream)
    ensures Prod(a, UNIT) == a
    decreases |a.alts|
  {
    if a.alts != [] {
      ProdUnit(Stream(a.alts[1..], a.error));
      assert a.alts[0].binding + map[] == a.alts[0].binding;
      assert JoinAll(a.alts[0], UNIT.alts) == [a.alts[0]];
      assert [a.alts[0]] + a.alts[1..] == a.alts;
    }
  }

  lemma UnitProd(b: Stream)
    ensures Prod(UNIT, b) == Mark(b, false)
  {
    assert UNIT.alts[1..] == [];
    forall i | 0 <= i < |b.alts| ensures JoinAll(UNIT.alts[0], b.alts)[i] == MarkAll(b.alts, false)[i] {
      assert map[] + b.alts[i].binding == b.alts[i].binding;
    }
    assert JoinAll(UNIT.alts[0], b.alts) == MarkAll(b.alts, false);
    assert JoinAll(UNIT.alts[0], b.alts) + [] == JoinAll(UNIT.alts[0], b.alts);
  }

  lemma MarkCat(a: Stream, b: Stream, direct: bool)
    ensures Mark(Cat(a, b), direct) == Cat(Mark(a, direct), Mark(b, direct))
  {
    assert MarkAll(a.alts + b.alts, direct) == MarkAll(a.alts, direct) + MarkAll(b.alts, direct);
  }

  lemma MarkScale(x: Alt, b: Stream, direct: bool)
    ensures Mark(Scale(x, b), direct) == Scale(x.(direct := direct), b)
    ensures Scale(x, Mark(b, direct)) == Scale(x, b)
  {
    assert MarkAll(JoinAll(x, b.alts), direct) == JoinAll(x.(direct := direct), b.alts);
    assert JoinAll(x, MarkAll(b.alts, direct)) == JoinAll(x, b.alts);
  }

  /** In a product the first factor alone says whether the key above it is used. */
  lemma {:induction false} MarkProd(a: Stream, b: Stream, direct: bool)
    ensures Mark(Prod(a, b), direct) == Prod(Mark(a, direct), b)
    ensures Prod(a, Mark(b, direct)) == Prod(a, b)
    decreases |a.alts|
  {
    if a.alts != [] {
      var rest := Stream(a.alts[1..], a.error);
      MarkProd(rest, b, direct);
      MarkScale(a.alts[0], b, direct);
      MarkCat(Scale(a.alts[0], b), Prod(rest, b), direct);
      assert Mark(a, direct).alts[1..] == Mark(rest, direct).alts;
    }
  }

  lemma PositionInside(i: nat, j: nat, m: nat, n: nat)
    requires i < m && j < n
    ensures 0 <= i * n + j < m * n
    ensures i > 0 ==> 0 <= (i - 1) * n + j && i * n + j == n + ((i - 1) * n + j)
  {
    var above := m - 1 - i;
    Distribute(i + 1, above, n);
    Distribute(i, 1, n);
    NotNegative(above, n);
    NotNegative(i, n);
    if i > 0 {
      var k := i - 1;
      Distribute(k, 1, n);
      NotNegative(k, n);
    }
  }

  lemma ScaledAt(x: Alt, b: Stream)
    requires b.error == None
    ensures Scale(x, b).error == None && |Scale(x, b).alts| == |b.alts|
    ensures forall j :: 0 <= j < |b.alts| ==> Scale(x, b).alts[j] == Join(x, b.alts[j])
  {}

  lemma ProdSplits(a: Stream, b: Stream)
    requires a.alts != [] && b.error == None
    ensures var rest := Prod(Stream(a.alts[1..], a.error), b);
      Prod(a, b) == Stream(Scale(a.alts[0], b).alts + rest.alts, rest.error)
  {}

  lemma JoinExactly(x: Alt, y: Alt)
    ensures var e := Join(x, y).binding; forall k ::
      (k in e <==> k in x.binding || k in y.binding)
      && (k in e ==> e[k] == if k in y.binding then y.binding[k] else x.binding[k])
  {}

  /** The product is the lexicographic one: when nothing raises, alternative number i * |b| + j is
      alternative i of a with alternative j of b, and b's bindings win. */
  lemma {:induction false} ProdIsLexicographic(a: Stream, b: Stream, i: nat, j: nat)
    requires a.error == None && b.error == None && i < |a.alts| && j < |b.alts|
    ensures Prod(a, b).error == None && |Prod(a, b).alts| == |a.alts| * |b.alts|
    ensures 0 <= i * |b.alts| + j < |a.alts| * |b.alts|
    ensures Prod(a, b).alts[i * |b.alts| + j] == Join(a.alts[i], b.alts[j])
    ensures var x, y, e := a.alts[i].binding, b.alts[j].binding, Join(a.alts[i], b.alts[j]).binding;
      forall k :: (k in e <==> k in x || k in y) && (k in e ==> e[k] == if k in y then y[k] else x[k])
    decreases |a.alts|
  {
    hide Scale, JoinAll, Join, Prod;
    var n, rest := |b.alts|, Stream(a.alts[1..], a.error);
    var p := i * n + j;
    ProdSize(a, b);
    PositionInside(i, j, |a.alts|, n);
    JoinExactly(a.alts[i], b.alts[j]);
    ProdSplits(a, b);
    ScaledAt(a.alts[0], b);
    var first, others := Scale(a.alts[0], b).alts, Prod(rest, b).alts;
    if i > 0 {
      ProdIsLexicographic(rest, b, i - 1, j);
      assert p == n + ((i - 1) * n + j);
      assert (first + others)[p] == others[p - n];
    } else {
      assert p == j && (first + others)[p] == first[j];
    }
  }

  lemma {:induction false} ProdSize(a: Stream, b: Stream)
    requires a.error == None && (a.alts == [] || b.error == None)
    ensures Prod(a, b).error == None && |Prod(a, b).alts| == |a.alts| * |b.alts|
    decreases |a.alts|
  {
    hide Scale, JoinAll;
    if a.alts != [] {
      ProdSize(Stream(a.alts[1..], a.error), b);
      ScaledAt(a.alts[0], b);
      OneMore(|a.alts|, |b.alts|);
    }
  }

  lemma OneMore(m: nat, n: nat)
    requires m > 0
    ensures m * n == n + (m - 1) * n
  {
    Distribute(m - 1, 1, n);
  }
}
