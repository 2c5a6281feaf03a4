/** The row width arithmetic of go/cagra/cagra.go. */
module GoRowWidth {
  import opened Common

  predicate Divides(d: int, n: int)
    requires d > 0
  {
    n % d == 0
  }

  lemma DividesMultiple(d: int, k: int)
    requires d > 0
    ensures Divides(d, k * d) && Divides(d, d * k)
  {
    DivMod(k, d, 0);
  }

  lemma DividesCombination(d: int, a: int, x: int, b: int, y: int)
    requires d > 0 && Divides(d, a) && Divides(d, b)
    ensures Divides(d, a * x + b * y)
  {
    assert a * x + b * y == ((a / d) * x + (b / d) * y) * d by {
      assert a == (a / d) * d && b == (b / d) * d;
    }
    DividesMultiple(d, (a / d) * x + (b / d) * y);
  }

  // ---------------------------------------------------------------- gcd and lcm

  /** g divides both and is a combination of both, so every common divisor divides it. */
  ghost predicate IsGcd(g: int, a: int, b: int) {
    g > 0 && Divides(g, a) && Divides(g, b) && exists x, y :: Combines(g, a, x, b, y)
  }

  ghost predicate Combines(g: int, a: int, x: int, b: int, y: int) { g == a * x + b * y }

  lemma GcdIsGreatest(g: int, a: int, b: int, d: int)
    requires IsGcd(g, a, b) && d > 0 && Divides(d, a) && Divides(d, b)
    ensures Divides(d, g)
  {
    var x, y :| Combines(g, a, x, b, y);
    DividesCombination(d, a, x, b, y);
  }

  /** One step of Euclid's algorithm, backwards. */
  lemma EuclidStep(g: int, a: int, b: int)
    requires b > 0 && a >= 0 && IsGcd(g, b, a % b)
    ensures IsGcd(g, a, b)
  {
    var x, y :| Combines(g, b, x, a % b, y);
    assert a == b * (a / b) + a % b;
    DividesCombination(g, b, a / b, a % b, 1);
    assert b * (a / b) + (a % b) * 1 == a;
    assert b * x + (a - b * (a / b)) * y == a * y + b * (x - (a / b) * y);
    assert Combines(g, a, y, b, x - (a / b) * y);
  }

  method Gcd(a0: int, b0: int) returns (a: int)
    requires a0 > 0 && b0 >= 0
    ensures IsGcd(a, a0, b0)
  {
    a := a0;
    var b := b0;
    while b != 0
      invariant a > 0 && b >= 0
      invariant forall g :: IsGcd(g, a, b) ==> IsGcd(g, a0, b0)
      decreases b
    {
      ghost var c, d := a, b;
      a, b := b, a % b;
      forall g | IsGcd(g, a, b) ensures IsGcd(g, a0, b0) { EuclidStep(g, c, d); }
    }
    assert Combines(a, a, 1, 0, 0);
    assert IsGcd(a, a, 0);
  }

  /** A multiple of a and b, and a divisor of every common multiple. */
  ghost predicate IsLcm(l: int, a: int, b: int)
    requires a > 0 && b > 0
  {
    l > 0 && Divides(a, l) && Divides(b, l) && forall m :: Divides(a, m) && Divides(b, m) ==> Divides(l, m)
  }

  lemma LcmDivides(g: int, a: int, b: int, m: int)
    requires a > 0 && b > 0 && IsGcd(g, a, b) && a / g * b > 0 && Divides(a, m) && Divides(b, m)
    ensures Divides(a / g * b, m)
  {
    var x, y :| Combines(g, a, x, b, y);
    var k, l, c := m / a, m / b, a / g;
    assert m == a * k && m == b * l && a == c * g;
    // m * g = m * a * x + m * b * y = a * b * (l * x + k * y)
    calc {
      m * g;
      m * (a * x + b * y);
      (m * a) * x + (m * b) * y;
      { assert m * a == (b * l) * a && m * b == (a * k) * b; }
      ((b * l) * a) * x + ((a * k) * b) * y;
      { Regroup(a, b, k, l, x, y); }
      (a * b) * (l * x + k * y);
      { assert a * b == (c * b) * g by { assert (c * g) * b == (c * b) * g; } }
      ((c * b) * g) * (l * x + k * y);
    }
    var q := l * x + k * y;
    Cancel(g, m, (c * b) * q) by { assert ((c * b) * g) * q == ((c * b) * q) * g; }
    DividesMultiple(c * b, q);
  }

  lemma Regroup(a: int, b: int, k: int, l: int, x: int, y: int)
    ensures ((b * l) * a) * x + ((a * k) * b) * y == (a * b) * (l * x + k * y)
  {
    assert ((b * l) * a) * x == (a * b) * (l * x);
    assert ((a * k) * b) * y == (a * b) * (k * y);
  }

  lemma Cancel(g: int, m: int, n: int)
    requires g > 0 && m * g == n * g
    ensures m == n
  {}

  method Lcm(a: int, b: int) returns (l: int)
    requires a > 0 && b > 0
    ensures IsLcm(l, a, b)
  {
    var g := Gcd(a, b);
    l := a / g * b;
    assert a == (a / g) * g && b == (b / g) * g;
    assert a / g >= 0 && a / g != 0;
    assert l > 0;
    DividesMultiple(b, a / g);
    assert l == (b / g) * a by { assert (a / g) * ((b / g) * g) == (b / g) * ((a / g) * g); }
    DividesMultiple(a, b / g);
    forall m | Divides(a, m) && Divides(b, m) ensures Divides(l, m) { LcmDivides(g, a, b, m); }
  }

  // ---------------------------------------------------------------- the row width

  const ALIGN_BYTES := 16

  /** Rows of this width are 16-byte aligned. */
  predicate Aligned(columns: int, sizeofValue: int) { Divides(ALIGN_BYTES, columns * sizeofValue) }

  /** The least aligned width that is not below the number of columns. */
  ghost predicate IsRequiredWidth(width: int, columns: int, sizeofValue: int) {
    && columns <= width && Aligned(width, sizeofValue)
    && forall v :: columns <= v && Aligned(v, sizeofValue) ==> width <= v
  }

  lemma RoundUp(n: int, l: int)
    requires l > 0
    ensures var r := (n + l - 1) / l * l;
      n <= r < n + l && Divides(l, r) && forall m :: n <= m && Divides(l, m) ==> r <= m
  {
    var q := (n + l - 1) / l;
    assert n + l - 1 == q * l + (n + l - 1) % l;
    DividesMultiple(l, q);
    forall m | n <= m && Divides(l, m) ensures q * l <= m {
      assert m == (m / l) * l;
      var e := q - m / l;
      assert e * l == q * l - m;
      Multiples(e, l);
    }
  }

  method CagraRequiredRowWidth(columns: int, sizeofValue: int) returns (width: int)
    requires columns >= 0 && sizeofValue > 0
    ensures IsRequiredWidth(width, columns, sizeofValue)
    ensures columns <= width && (width * sizeofValue) % 16 == 0
  {
    hide IsLcm, Divides;
    var lcm := Lcm(ALIGN_BYTES, sizeofValue);
    var bytes := columns * sizeofValue;
    assert lcm > 0 by { LcmIsPositive(lcm, sizeofValue); }
    var rounded := (bytes + lcm - 1) / lcm * lcm;
    width := rounded / sizeofValue;
    RoundedWidth(lcm, columns, sizeofValue);
    forall v | columns <= v && Aligned(v, sizeofValue) ensures width <= v { LeastWidth(lcm, columns, sizeofValue, v); }
  }

  lemma LcmIsPositive(lcm: int, sizeofValue: int)
    requires sizeofValue > 0 && IsLcm(lcm, ALIGN_BYTES, sizeofValue)
    ensures lcm > 0
  {}

  lemma RoundedWidth(lcm: int, columns: int, sizeofValue: int)
    requires sizeofValue > 0 && lcm > 0 && IsLcm(lcm, ALIGN_BYTES, sizeofValue)
    ensures var rounded := (columns * sizeofValue + lcm - 1) / lcm * lcm; var width := rounded / sizeofValue;
      && rounded == width * sizeofValue && columns <= width
      && Aligned(width, sizeofValue) && (width * sizeofValue) % 16 == 0
  {
    var rounded := (columns * sizeofValue + lcm - 1) / lcm * lcm;
    var width := rounded / sizeofValue;
    RoundUp(columns * sizeofValue, lcm);
    MultipleOfMultiple(sizeofValue, lcm, rounded);
    MultipleOfMultiple(ALIGN_BYTES, lcm, rounded);
    assert rounded == width * sizeofValue;
    Order(columns, width, sizeofValue);
  }

  lemma LeastWidth(lcm: int, columns: int, sizeofValue: int, v: int)
    requires sizeofValue > 0 && lcm > 0 && IsLcm(lcm, ALIGN_BYTES, sizeofValue)
    requires columns <= v && Aligned(v, sizeofValue)
    ensures (columns * sizeofValue + lcm - 1) / lcm * lcm / sizeofValue <= v
  {
    hide IsRequiredWidth;
    var rounded := (columns * sizeofValue + lcm - 1) / lcm * lcm;
    RoundedWidth(lcm, columns, sizeofValue);
    RoundUp(columns * sizeofValue, lcm);
    DividesMultiple(sizeofValue, v);
    Order(columns, v, sizeofValue);
    Order(rounded / sizeofValue, v, sizeofValue);
  }

  lemma MultipleOfMultiple(d: int, l: int, m: int)
    requires d > 0 && l > 0 && Divides(d, l) && Divides(l, m)
    ensures Divides(d, m)
  {
    var k, q := l / d, m / l;
    assert l == k * d && m == q * l;
    Regrouped(q, k, d);
    DividesMultiple(d, q * k);
  }

  lemma Regrouped(q: int, k: int, d: int)
    ensures q * (k * d) == (q * k) * d
  {}

  lemma Order(a: int, b: int, s: int)
    requires s > 0
    ensures a <= b <==> a * s <= b * s
  {
    if a > b { assert (a - b) * s >= s by { Multiples(a - b, s); } assert (a - b) * s == a * s - b * s; }
    if a <= b { assert (b - a) * s >= 0; assert (b - a) * s == b * s - a * s; }
  }

  lemma AlignedExactly(columns: int, sizeofValue: int)
    ensures Aligned(columns, sizeofValue) <==> (columns * sizeofValue) % 16 == 0
  {}

  /** No smaller width has rows of a multiple of 16 bytes. */
  lemma NoSmallerWidth(width: int, v: int, columns: int, sizeofValue: int)
    requires IsRequiredWidth(width, columns, sizeofValue) && columns <= v < width
    ensures (v * sizeofValue) % 16 != 0
  {
    AlignedExactly(v, sizeofValue);
  }

  /** The required width is determined, needs no further padding, and is the number of columns exactly
      when those are aligned already. */
  lemma RequiredWidthFacts(width: int, again: int, other: int, columns: int, sizeofValue: int)
    requires IsRequiredWidth(width, columns, sizeofValue) && IsRequiredWidth(other, columns, sizeofValue)
    requires IsRequiredWidth(again, width, sizeofValue)
    ensures other == width && again == width && (width == columns <==> (columns * sizeofValue) % 16 == 0)
  {
    AlignedExactly(columns, sizeofValue);
    RequiredOfAligned(width, columns, sizeofValue);
  }

  lemma RequiredOfAligned(width: int, columns: int, sizeofValue: int)
    requires IsRequiredWidth(width, columns, sizeofValue)
    ensures width == columns <==> Aligned(columns, sizeofValue)
  {}

  datatype Tensor = Tensor(ndim: int, shape: Option<(int, int)>, strides: Option<(int, int)>)

  method IsCagraPaddedTensor(t: Tensor, sizeofValue: int) returns (padded: bool)
    requires sizeofValue > 0 && (t.shape.Some? ==> t.shape.value.1 >= 0)
    ensures t.ndim != 2 || t.shape.None? ==> !padded
    ensures t.ndim == 2 && t.shape.Some? && t.strides.None? ==> (padded <==> (t.shape.value.1 * sizeofValue) % 16 == 0)
    ensures t.ndim == 2 && t.shape.Some? && t.strides.Some? ==>
      (padded <==> IsRequiredWidth(t.strides.value.0, t.shape.value.1, sizeofValue))
  {
    if t.ndim != 2 || t.shape.None? { return false; }
    var columns := t.shape.value.1;
    var actual := columns;
    if t.strides.Some? { actual := t.strides.value.0; }
    var required := CagraRequiredRowWidth(columns, sizeofValue);
    AlignedExactly(columns, sizeofValue);
    RequiredOfAligned(required, columns, sizeofValue);
    padded := actual == required;
  }
}
