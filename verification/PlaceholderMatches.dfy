/** What the regular expression of clang_format_with_cmake_placeholders.py finds, in terms of characters. */
module PlaceholderMatches {
  import opened PlaceholderModel

  /** `@[a-zA-Z_][a-zA-Z0-9_]*@` */
  ghost predicate IsPlaceholder(w: string) {
    && |w| >= 3 && w[0] == '@' && w[|w| - 1] == '@'
    && ('a' <= w[1] <= 'z' || 'A' <= w[1] <= 'Z' || w[1] == '_')
    && forall j :: 1 < j < |w| - 1 ==>
      'a' <= w[j] <= 'z' || 'A' <= w[j] <= 'Z' || '0' <= w[j] <= '9' || w[j] == '_'
  }

  lemma RunEnds(s: string, n: nat)
    requires n < |s| && (forall j :: 0 <= j < n ==> NameChar(s[j])) && !NameChar(s[n])
    ensures RunLength(s) == n
  {
    assert forall j :: 0 <= j < n ==> NameChar(s[j]);
  }

  /** A text begins with at most one placeholder, and it is the one that is matched. */
  lemma MatchExactly(s: string, n: nat)
    requires n <= |s|
    ensures IsPlaceholder(s[..n]) <==> n > 0 && MatchLength(s) == n
  {
    var w := s[..n];
    if IsPlaceholder(w) {
      forall j | 0 <= j < n - 2 ensures NameChar(s[1..][j]) { assert s[1..][j] == w[j + 1]; }
      assert s[1..][n - 2] == w[n - 1];
      RunEnds(s[1..], n - 2);
      assert w[0] == s[0] && w[1] == s[1];
    }
    if n > 0 && MatchLength(s) == n {
      forall j | 1 < j < n - 1 ensures NameChar(w[j]) { assert w[j] == s[j]; }
      assert w[0] == s[0] && w[1] == s[1] && w[n - 1] == s[n - 1];
    }
  }

  lemma MatchedAt(s: string, p: nat, q: nat)
    requires p <= q <= |s|
    ensures IsPlaceholder(s[p..q]) <==> q > p && MatchLength(s[p..]) == q - p
  {
    MatchExactly(s[p..], q - p);
    assert s[p..][..q - p] == s[p..q];
  }

  /** No placeholder begins from position i to before position j. */
  ghost predicate NoneBegins(s: string, i: nat, j: nat) {
    forall p, q :: i <= p < j && p <= q <= |s| ==> !IsPlaceholder(s[p..q])
  }

  lemma NoneBeginsHere(s: string, i: nat)
    requires i <= |s| && MatchLength(s[i..]) == 0
    ensures NoneBegins(s, i, i + 1)
  {
    hide MatchLength, IsPlaceholder;
    forall q | i <= q <= |s| ensures !IsPlaceholder(s[i..q]) { MatchedAt(s, i, q); }
  }

  lemma NoneBeginsUpTo(s: string, i: nat, j: nat, k: nat)
    requires i <= j && NoneBegins(s, i, j) && NoneBegins(s, j, k)
    ensures NoneBegins(s, i, k)
  {
    hide IsPlaceholder;
  }

  lemma NoPlaceholderHere(s: string, i: nat)
    requires i < |s| && MatchLength(s[i..]) == 0
    ensures FindAll(s, i) == FindAll(s, i + 1)
  {}

  lemma PlaceholderHere(s: string, i: nat)
    requires i < |s| && MatchLength(s[i..]) > 0
    ensures var n := MatchLength(s[i..]);
      && n > 2 && i + n <= |s| && FindAll(s, i) == [Match(i, i + n, s[i + 1..i + n - 1])] + FindAll(s, i + n)
  {}

  lemma NothingLeft(s: string)
    ensures FindAll(s, |s|) == [] && MatchLength(s[|s|..]) == 0
  {}

  /** The matches are the leftmost placeholders, each one searched for behind the one before. */
  lemma {:induction false} LeftmostMatch(s: string, i: nat)
    requires i <= |s|
    ensures FindAll(s, i) == [] ==> NoneBegins(s, i, |s| + 1)
    ensures FindAll(s, i) != [] ==>
      var m := FindAll(s, i)[0];
      && i <= m.start < m.end - 1 < |s| && FindAll(s, i) == [m] + FindAll(s, m.end)
      && IsPlaceholder(s[m.start..m.end]) && m.name == s[m.start + 1..m.end - 1]
      && NoneBegins(s, i, m.start)
    decreases |s| - i
  {
    hide MatchLength, IsPlaceholder, FindAll, NoneBegins;
    if i == |s| {
      NothingLeft(s);
      NoneBeginsHere(s, i);
    } else if MatchLength(s[i..]) == 0 {
      LeftmostMatch(s, i + 1);
      NoPlaceholderHere(s, i);
      NoneBeginsHere(s, i);
      NoneBeginsUpTo(s, i, i + 1, if FindAll(s, i) == [] then |s| + 1 else FindAll(s, i)[0].start);
    } else {
      PlaceholderHere(s, i);
      MatchedAt(s, i, i + MatchLength(s[i..]));
      assert NoneBegins(s, i, i) by { NoneBeginsNowhere(s, i); }
    }
  }

  lemma NoneBeginsNowhere(s: string, i: nat)
    ensures NoneBegins(s, i, i)
  {}

  /** The first `@` in a text is the start of the first match if a name and another `@` follow it. */
  lemma FirstPlaceholder(u: string, name: string, v: string)
    requires '@' !in u && name != ""
    requires 'a' <= name[0] <= 'z' || 'A' <= name[0] <= 'Z' || name[0] == '_'
    requires forall j :: 1 <= j < |name| ==>
      'a' <= name[j] <= 'z' || 'A' <= name[j] <= 'Z' || '0' <= name[j] <= '9' || name[j] == '_'
    ensures var ms := FindAll(u + "@" + name + "@" + v, 0);
      ms != [] && ms[0] == Match(|u|, |u| + |name| + 2, name)
  {
    hide IsPlaceholder, FindAll, MatchLength, NoneBegins;
    var s, p, q := u + "@" + name + "@" + v, |u|, |u| + |name| + 2;
    assert s[p..q] == "@" + name + "@" && s[p + 1..q - 1] == name;
    QuotedName(name);
    LeftmostMatch(s, 0);
    if FindAll(s, 0) == [] { NotLater(s, p, q, |s| + 1); }
    var m := FindAll(s, 0)[0];
    NotLater(s, p, q, m.start);
    FirstIsLeft(s, m.start, m.end);
    MatchedAt(s, p, q);
    MatchedAt(s, p, m.end);
  }

  lemma QuotedName(name: string)
    requires name != ""
    requires 'a' <= name[0] <= 'z' || 'A' <= name[0] <= 'Z' || name[0] == '_'
    requires forall j :: 1 <= j < |name| ==>
      'a' <= name[j] <= 'z' || 'A' <= name[j] <= 'Z' || '0' <= name[j] <= '9' || name[j] == '_'
    ensures IsPlaceholder("@" + name + "@")
  {
    var w := "@" + name + "@";
    assert forall j :: 1 <= j < |w| - 1 ==> w[j] == name[j - 1];
  }

  lemma FirstIsLeft(s: string, p: nat, q: nat)
    requires p <= q <= |s| && IsPlaceholder(s[p..q])
    ensures s[p] == '@'
  {
    assert s[p..q][0] == s[p];
  }

  lemma NotLater(s: string, p: nat, q: nat, k: nat)
    requires p <= q <= |s| && IsPlaceholder(s[p..q]) && NoneBegins(s, 0, k)
    ensures k <= p
  {}

  // ---------------------------------------------------------------- searching and replacing

  /** `find` succeeds exactly when t begins at some position. */
  lemma {:induction false} ContainsExactly(s: string, t: string)
    ensures Contains(s, t) <==> exists p :: 0 <= p <= |s| && t <= s[p..]
  {
    assert s[0..] == s;
    if s != [] {
      ContainsExactly(s[1..], t);
      if p :| 0 <= p <= |s[1..]| && t <= s[1..][p..] { assert s[1..][p..] == s[p + 1..]; }
      if p :| 0 < p <= |s| && t <= s[p..] { assert s[1..][p - 1..] == s[p..]; }
    }
  }

  /** `replace` leaves what is before the first occurrence of t as it is, and goes on behind it. */
  lemma {:induction false} ReplaceLeftmost(s: string, p: nat, t: string, r: string)
    requires t != [] && p <= |s| && t <= s[p..] && forall q :: 0 <= q < p ==> !(t <= s[q..])
    ensures p + |t| <= |s| && Replace(s, t, r) == s[..p] + r + Replace(s[p + |t|..], t, r)
  {
    hide Replace;
    ReplaceStep(s, t, r);
    assert s[0..] == s;
    if p == 0 {
      assert s[..p] + r == r;
    } else {
      assert s[1..][p - 1..] == s[p..];
      forall q | 0 <= q < p - 1 ensures !(t <= s[1..][q..]) { assert s[1..][q..] == s[q + 1..]; }
      ReplaceLeftmost(s[1..], p - 1, t, r);
      assert s[1..][p - 1 + |t|..] == s[p + |t|..];
      Prepend(s, p, r, Replace(s[p + |t|..], t, r));
    }
  }

  lemma Prepend(s: string, p: nat, r: string, rest: string)
    requires 0 < p <= |s|
    ensures [s[0]] + (s[1..][..p - 1] + r + rest) == s[..p] + r + rest
  {
    assert s[..p] == [s[0]] + s[1..][..p - 1];
  }

  lemma ReplaceStep(s: string, t: string, r: string)
    requires t != [] && s != []
    ensures Replace(s, t, r) == if t <= s then r + Replace(s[|t|..], t, r) else [s[0]] + Replace(s[1..], t, r)
  {}

  lemma {:induction false} ReplaceNothing(s: string, t: string, r: string)
    requires t != [] && !Contains(s, t)
    ensures Replace(s, t, r) == s
  {
    if s != [] {
      ReplaceNothing(s[1..], t, r);
      assert s == [s[0]] + s[1..];
    }
  }

  // ---------------------------------------------------------------- tokens

  /** The number that a string of decimal digits stands for. */
  function DecimalValue(s: string): int {
    if s == [] then 0 else 10 * DecimalValue(s[..|s| - 1]) + (s[|s| - 1] as int - '0' as int)
  }

  /** A token is a number in decimal notation, without leading zeros, between `##__` and `##`. */
  lemma TokenIsDecimal(n: nat)
    ensures exists d: string ::
      && Token(n) == "##__" + d + "##" && DecimalValue(d) == n
      && |d| > 0 && (forall j :: 0 <= j < |d| ==> '0' <= d[j] <= '9') && (d[0] == '0' ==> d == "0")
  {
    ValueOfDigits(n);
    DigitsInRange(n);
  }

  lemma DigitChar(n: nat)
    requires n < 10
    ensures '0' <= Digit(n) <= '9' && Digit(n) as int == '0' as int + n
  {}

  lemma DecimalValueSnoc(s: string, c: char)
    ensures DecimalValue(s + [c]) == 10 * DecimalValue(s) + (c as int - '0' as int)
  {
    assert (s + [c])[..|s|] == s;
  }

  lemma {:induction false} ValueOfDigits(n: nat)
    ensures DecimalValue(Digits(n)) == n
  {
    hide DecimalValue, Digit;
    DigitChar(n % 10);
    if n < 10 {
      DecimalValueSnoc("", Digit(n));
      assert DecimalValue("") == 0 by { NoDigits(); }
      assert "" + [Digit(n)] == [Digit(n)];
    } else {
      ValueOfDigits(n / 10);
      DecimalValueSnoc(Digits(n / 10), Digit(n % 10));
    }
  }

  lemma NoDigits()
    ensures DecimalValue("") == 0
  {}

  lemma {:induction false} DigitsInRange(n: nat)
    ensures var d := Digits(n);
      |d| > 0 && (forall j :: 0 <= j < |d| ==> '0' <= d[j] <= '9') && (d[0] == '0' ==> n == 0 && d == "0")
  {
    hide Digit;
    DigitChar(n % 10);
    if n >= 10 { DigitsInRange(n / 10); }
  }
}
