/** What several modules share. */
module Common {
  datatype Option<T> = None | Some(value: T)

  /** There is always a number, other than 0, that is not in use. */
  lemma Unused(s: set<nat>) returns (n: nat)
    ensures n != 0 && n !in s
  {
    n := 1;
    var rest := s;
    while rest != {}
      invariant n > 0 && rest <= s && forall x :: x in s && x !in rest ==> x < n
      decreases |rest|
    {
      var x :| x in rest;
      rest := rest - {x};
      n := if x < n then n else x + 1;
    }
  }

  lemma Distribute(a: int, b: int, n: int)
    ensures (a + b) * n == a * n + b * n
  {}

  lemma NotNegative(a: nat, n: nat)
    ensures a * n >= 0
  {}

  lemma Multiples(e: int, d: int)
    requires d >= 0
    ensures (e >= 1 ==> e * d >= d) && (e <= -1 ==> e * d + d <= 0)
  {}

  lemma DivMod(q: int, d: int, r: int)
    requires 0 <= r < d
    ensures (q * d + r) / d == q && (q * d + r) % d == r
  {
    var n := q * d + r;
    var e := n / d - q;
    assert n == (n / d) * d + n % d;
    assert e * d == r - n % d;
    Multiples(e, d);
  }
}
