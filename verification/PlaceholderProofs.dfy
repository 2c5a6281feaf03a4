/** When putting the names back undoes the substitution. */
module PlaceholderProofs {
  import opened PlaceholderModel

  // ---------------------------------------------------------------- numbers and tokens

  predicate IsDigit(c: char) { '0' <= c <= '9' }

  function Pow10(n: nat): nat { if n == 0 then 1 else 10 * Pow10(n - 1) }

  lemma {:induction false} DigitsAreDigits(n: nat)
    ensures |Digits(n)| > 0 && n < Pow10(|Digits(n)|)
    ensures forall i :: 0 <= i < |Digits(n)| ==> IsDigit(Digits(n)[i])
  {
    if n >= 10 { DigitsAreDigits(n / 10); }
  }

  lemma LastDigit(n: nat)
    ensures |Digits(n)| > 0 && Digits(n)[|Digits(n)| - 1] == Digit(n % 10)
    ensures n >= 10 ==> Digits(n)[..|Digits(n)| - 1] == Digits(n / 10)
    ensures n < 10 <==> |Digits(n)| == 1
  {
    if n >= 10 { DigitsAreDigits(n / 10); }
  }

  lemma {:induction false} DigitsInjective(m: nat, n: nat)
    requires Digits(m) == Digits(n)
    ensures m == n
  {
    hide Digits;
    LastDigit(m);
    LastDigit(n);
    assert m % 10 == n % 10;
    if m >= 10 { DigitsInjective(m / 10, n / 10); }
  }

  lemma {:induction false} Pow10Monotonic(m: nat, n: nat)
    requires m <= n
    ensures Pow10(m) <= Pow10(n)
  {
    if m < n { Pow10Monotonic(m, n - 1); }
  }

  /** The shape of a token. */
  lemma TokenShape(n: nat)
    ensures var t, d := Token(n), |Digits(n)|;
      && |t| == d + 6 && d > 0
      && t[0] == '#' && t[1] == '#' && t[2] == '_' && t[3] == '_' && t[d + 4] == '#' && t[d + 5] == '#'
      && (forall i :: 4 <= i < d + 4 ==> IsDigit(t[i]))
      && t[4..d + 4] == Digits(n) && t[d + 4..] == "##" && t[d + 5..] == "#"
  {
    DigitsAreDigits(n);
    assert Token(n)[4..|Digits(n)| + 4] == Digits(n);
  }

  /** No token is the beginning of another one. */
  lemma TokensArePrefixFree(m: nat, n: nat, y: string, z: string)
    requires Token(m) + y == Token(n) + z
    ensures m == n
  {
    TokenShape(m);
    TokenShape(n);
    var a, b := Token(m) + y, Token(n) + z;
    var d, e := |Digits(m)|, |Digits(n)|;
    assert d == e by {
      assert a[d + 4] == '#' && b[e + 4] == '#';
      assert forall i :: 4 <= i < d + 4 ==> IsDigit(a[i]);
      assert forall i :: 4 <= i < e + 4 ==> IsDigit(b[i]);
    }
    assert Digits(m) == a[4..d + 4] == b[4..e + 4] == Digits(n);
    DigitsInjective(m, n);
  }

  lemma {:induction false} ContainsFits(s: string, t: string)
    requires Contains(s, t)
    ensures |t| <= |s|
  {
    if !(t <= s) { ContainsFits(s[1..], t); }
  }

  /** A text contains tokens of small numbers only, so the search for a free one ends. */
  lemma ContainedIsSmall(s: string, n: nat)
    requires Contains(s, Token(n))
    ensures n < Pow10(|s|)
  {
    ContainsFits(s, Token(n));
    TokenShape(n);
    DigitsAreDigits(n);
    Pow10Monotonic(|Digits(n)|, |s|);
  }

  // ---------------------------------------------------------------- replacing, on symbols

  function Raws(s: string): (x: seq<Symbol>)
    ensures |x| == |s| && forall i :: 0 <= i < |s| ==> x[i] == Raw(s[i])
  {
    if s == [] then [] else [Raw(s[0])] + Raws(s[1..])
  }

  /** Replacing the tokens of name i, leftmost first. */
  ghost function PutBack(t: Table, i: nat, x: seq<Symbol>): seq<Symbol> {
    if x == [] then []
    else if Raws(Token(NumOf(t, i))) <= x then [Name(i)] + PutBack(t, i, x[|Token(NumOf(t, i))|..])
    else [x[0]] + PutBack(t, i, x[1..])
  }

  ghost function UndoOne(t: Table, i: nat, x: Symbol): seq<Symbol> {
    if x.Name? && x.k >= i then Raws(Token(NumOf(t, x.k))) else [x]
  }

  /** The symbols in which the names from i on are still written as tokens. */
  ghost function Undo(t: Table, i: nat, x: seq<Symbol>): seq<Symbol> {
    if x == [] then [] else UndoOne(t, i, x[0]) + Undo(t, i, x[1..])
  }

  lemma {:induction false} ShowCat(t: Table, x: seq<Symbol>, y: seq<Symbol>)
    ensures Show(t, x + y) == Show(t, x) + Show(t, y)
  {
    hide ShowOne;
    if x == [] {
      assert x + y == y;
    } else {
      ShowCat(t, x[1..], y);
      assert (x + y)[1..] == x[1..] + y;
    }
  }

  lemma {:induction false} ExpandCat(t: Table, x: seq<Symbol>, y: seq<Symbol>)
    ensures Expand(t, x + y) == Expand(t, x) + Expand(t, y)
  {
    hide ExpandOne;
    if x == [] {
      assert x + y == y;
    } else {
      ExpandCat(t, x[1..], y);
      assert (x + y)[1..] == x[1..] + y;
    }
  }

  lemma {:induction false} UndoCat(t: Table, i: nat, x: seq<Symbol>, y: seq<Symbol>)
    ensures Undo(t, i, x + y) == Undo(t, i, x) + Undo(t, i, y)
  {
    hide UndoOne;
    if x == [] {
      assert x + y == y;
    } else {
      UndoCat(t, i, x[1..], y);
      assert (x + y)[1..] == x[1..] + y;
    }
  }

  lemma {:induction false} RawsAlone(t: Table, i: nat, s: string)
    ensures Show(t, Raws(s)) == s && Expand(t, Raws(s)) == s && Undo(t, i, Raws(s)) == Raws(s)
  {
    if s != [] {
      RawsAlone(t, i, s[1..]);
      assert Raws(s)[1..] == Raws(s[1..]);
      assert s == [s[0]] + s[1..];
    }
  }

  /** Only names before i have been put back. */
  ghost predicate Below(i: nat, x: seq<Symbol>) { forall j :: 0 <= j < |x| && x[j].Name? ==> x[j].k < i }

  lemma {:induction false} PutBackKeepsText(t: Table, i: nat, x: seq<Symbol>)
    ensures Expand(t, PutBack(t, i, x)) == Expand(t, x)
    decreases |x|
  {
    hide Token;
    if x != [] {
      var token := Token(NumOf(t, i));
      TokenShape(NumOf(t, i));
      if Raws(token) <= x {
        PutBackKeepsText(t, i, x[|token|..]);
        assert x == Raws(token) + x[|token|..];
        RawsAlone(t, 0, token);
        ExpandCat(t, Raws(token), x[|token|..]);
        assert PutBack(t, i, x)[1..] == PutBack(t, i, x[|token|..]);
      } else {
        PutBackKeepsText(t, i, x[1..]);
        assert PutBack(t, i, x)[1..] == PutBack(t, i, x[1..]);
      }
    }
  }

  /** Writing out again what was put back gives the symbols as they were. */
  lemma {:induction false} UndoPutBack(t: Table, i: nat, x: seq<Symbol>)
    requires Below(i, x)
    ensures Below(i + 1, PutBack(t, i, x)) && Undo(t, i, PutBack(t, i, x)) == x
    decreases |x|
  {
    hide Token, Undo, UndoOne;
    if x == [] {
      assert Undo(t, i, []) == [] by { NothingUndone(t, i); }
    } else {
      var token := Token(NumOf(t, i));
      TokenShape(NumOf(t, i));
      if Raws(token) <= x {
        var rest := x[|token|..];
        UndoPutBack(t, i, rest);
        assert x == Raws(token) + rest;
        UndoMore(t, i, Name(i), PutBack(t, i, rest));
      } else {
        UndoPutBack(t, i, x[1..]);
        UndoMore(t, i, x[0], PutBack(t, i, x[1..]));
        assert x == [x[0]] + x[1..];
      }
    }
  }

  lemma NothingUndone(t: Table, i: nat)
    ensures Undo(t, i, []) == []
  {}

  lemma UndoMore(t: Table, i: nat, a: Symbol, x: seq<Symbol>)
    ensures Undo(t, i, [a] + x) == UndoOne(t, i, a) + Undo(t, i, x)
    ensures a == Name(i) ==> UndoOne(t, i, a) == Raws(Token(NumOf(t, i)))
    ensures (a.Name? ==> a.k < i) ==> UndoOne(t, i, a) == [a]
  {
    assert ([a] + x)[1..] == x;
  }

  lemma {:induction false} UndoUndo(t: Table, i: nat, j: nat, x: seq<Symbol>)
    requires i <= j
    ensures Undo(t, i, Undo(t, j, x)) == Undo(t, i, x)
  {
    hide Token;
    if x != [] {
      UndoUndo(t, i, j, x[1..]);
      UndoCat(t, i, UndoOne(t, j, x[0]), Undo(t, j, x[1..]));
      if x[0].Name? && x[0].k >= j {
        RawsAlone(t, i, Token(NumOf(t, x[0].k)));
      } else {
        assert [x[0]][1..] == [];
        assert UndoOne(t, i, x[0]) + [] == UndoOne(t, i, x[0]);
      }
    }
  }

  // ---------------------------------------------------------------- strings and symbols agree

  lemma {:induction false} TextMatchesRaws(t: Table, u: string, x: seq<Symbol>)
    requires '@' !in u
    ensures u <= Show(t, x) <==> Raws(u) <= x
  {
    if u != [] && x != [] {
      assert u == [u[0]] + u[1..] && Raws(u) == [Raw(u[0])] + Raws(u[1..]) && x == [x[0]] + x[1..];
      match x[0]
      case Raw(c) =>
        TextMatchesRaws(t, u[1..], x[1..]);
        assert Show(t, x)[0] == c && Show(t, x)[1..] == Show(t, x[1..]);
        if u <= Show(t, x) { assert u[0] == c && u[1..] <= Show(t, x)[1..]; }
        if Raws(u) <= x { assert Raws(u)[0] == x[0] && Raws(u)[1..] <= x[1..]; }
      case Name(k) =>
        assert Show(t, x)[0] == '@';
        assert u[0] in u;
    }
  }

  lemma TokenHasNoAt(n: nat)
    ensures '@' !in Token(n)
  {
    TokenShape(n);
    var t, d := Token(n), |Digits(n)|;
    forall i | 0 <= i < |t| ensures t[i] != '@' {
      if 4 <= i < d + 4 { assert IsDigit(t[i]); }
    }
  }

  lemma {:induction false} ReplaceSkips(u: string, y: string, from: string, to: string)
    requires from != [] && from[0] !in u
    ensures Replace(u + y, from, to) == u + Replace(y, from, to)
  {
    if u == [] {
      assert u + y == y;
    } else {
      assert (u + y)[0] == u[0] && (u + y)[1..] == u[1..] + y;
      ReplaceSkips(u[1..], y, from, to);
    }
  }

  ghost predicate PlainNames(t: Table) { forall i :: 0 <= i < |t.names| ==> '#' !in t.names[i] }

  lemma ReplaceMatched(t: Table, i: nat, rest: seq<Symbol>)
    ensures Token(NumOf(t, i)) != []
    ensures var token, name := Token(NumOf(t, i)), Quoted(NameOf(t, i));
      && Replace(Show(t, Raws(token) + rest), token, name) == name + Replace(Show(t, rest), token, name)
      && PutBack(t, i, Raws(token) + rest) == [Name(i)] + PutBack(t, i, rest)
  {
    hide Token, Quoted, Show;
    var token := Token(NumOf(t, i));
    TokenShape(NumOf(t, i));
    ShowCat(t, Raws(token), rest);
    RawsAlone(t, 0, token);
    assert (token + Show(t, rest))[|token|..] == Show(t, rest);
    assert (Raws(token) + rest)[|token|..] == rest;
  }

  lemma ReplaceUnmatched(t: Table, i: nat, x: seq<Symbol>)
    requires PlainNames(t) && x != [] && !(Token(NumOf(t, i)) <= Show(t, x))
    ensures Token(NumOf(t, i)) != []
    ensures var token, name := Token(NumOf(t, i)), Quoted(NameOf(t, i));
      Replace(Show(t, x), token, name) == ShowOne(t, x[0]) + Replace(Show(t, x[1..]), token, name)
  {
    hide Token;
    var token, name := Token(NumOf(t, i)), Quoted(NameOf(t, i));
    TokenShape(NumOf(t, i));
    if x[0].Name? {
      assert '#' !in Quoted(NameOf(t, x[0].k));
      ReplaceSkips(Quoted(NameOf(t, x[0].k)), Show(t, x[1..]), token, name);
    } else {
      assert Show(t, x)[1..] == Show(t, x[1..]);
    }
  }

  lemma ShowMore(t: Table, a: Symbol, x: seq<Symbol>)
    ensures Show(t, [a] + x) == ShowOne(t, a) + Show(t, x)
  {}

  /** `str.replace` of a token by its name is PutBack on symbols. */
  lemma {:induction false} ReplaceIsPutBack(t: Table, i: nat, x: seq<Symbol>)
    requires PlainNames(t)
    ensures Token(NumOf(t, i)) != []
    ensures Show(t, PutBack(t, i, x)) == Replace(Show(t, x), Token(NumOf(t, i)), Quoted(NameOf(t, i)))
    decreases |x|
  {
    hide Token, Quoted, PlainNames;
    var token := Token(NumOf(t, i));
    TokenShape(NumOf(t, i));
    TokenHasNoAt(NumOf(t, i));
    TextMatchesRaws(t, token, x);
    if x != [] {
      hide Replace, Show;
      if Raws(token) <= x {
        var rest := x[|token|..];
        assert x == Raws(token) + rest;
        ReplaceIsPutBack(t, i, rest);
        ReplaceMatched(t, i, rest);
        ShowMore(t, Name(i), PutBack(t, i, rest));
      } else {
        ReplaceIsPutBack(t, i, x[1..]);
        ReplaceUnmatched(t, i, x);
        ShowMore(t, x[0], PutBack(t, i, x[1..]));
      }
    }
  }

  lemma {:induction false} ShowUndo(t: Table, x: seq<Symbol>)
    ensures Show(t, Undo(t, 0, x)) == Expand(t, x)
  {
    if x != [] {
      ShowUndo(t, x[1..]);
      ShowCat(t, UndoOne(t, 0, x[0]), Undo(t, 0, x[1..]));
      if x[0].Name? {
        RawsAlone(t, 0, Token(NumOf(t, x[0].k)));
      } else {
        assert [x[0]][1..] == [];
      }
    }
  }

  /** What is shown and what is expanded together determine the symbols. */
  lemma {:induction false} SymbolsAreDetermined(t: Table, x: seq<Symbol>, y: seq<Symbol>)
    requires DistinctNums(t) && Below(|t.nums|, x) && Below(|t.nums|, y)
    requires Show(t, x) == Show(t, y) && Expand(t, x) == Expand(t, y)
    ensures x == y
  {
    hide Token;
    if x == [] {
      if y != [] { NotEmpty(t, y); }
    } else {
      NotEmpty(t, x);
      if y != [] {
        FirstSymbol(t, x, y);
        assert Show(t, x[1..]) == Show(t, x)[|ShowOne(t, x[0])|..];
        assert Show(t, y[1..]) == Show(t, y)[|ShowOne(t, y[0])|..];
        assert Expand(t, x[1..]) == Expand(t, x)[|ExpandOne(t, x[0])|..];
        assert Expand(t, y[1..]) == Expand(t, y)[|ExpandOne(t, y[0])|..];
        SymbolsAreDetermined(t, x[1..], y[1..]);
        assert x == [x[0]] + x[1..] && y == [y[0]] + y[1..];
      }
    }
  }

  ghost predicate DistinctNums(t: Table) { forall i, j :: 0 <= i < j < |t.nums| ==> t.nums[i] != t.nums[j] }

  lemma NotEmpty(t: Table, x: seq<Symbol>)
    requires x != []
    ensures Show(t, x) != []
  {}

  lemma FirstSymbol(t: Table, x: seq<Symbol>, y: seq<Symbol>)
    requires DistinctNums(t) && Below(|t.nums|, x) && Below(|t.nums|, y) && x != [] && y != []
    requires Show(t, x) == Show(t, y) && Expand(t, x) == Expand(t, y)
    ensures x[0] == y[0]
  {
    hide Token;
    FirstCharacters(t, x);
    FirstCharacters(t, y);
    if x[0].Name? && y[0].Name? {
      var k, l := x[0].k, y[0].k;
      assert k < |t.nums| && l < |t.nums|;
      TokensArePrefixFree(t.nums[k], t.nums[l], Expand(t, x[1..]), Expand(t, y[1..]));
      assert !(k < l) && !(l < k);
    }
  }

  lemma FirstCharacters(t: Table, x: seq<Symbol>)
    requires x != []
    ensures Show(t, x) != [] && Expand(t, x) != []
    ensures x[0].Raw? ==> Show(t, x)[0] == x[0].c == Expand(t, x)[0]
    ensures x[0].Name? ==> Show(t, x)[0] == '@' && Expand(t, x)[0] == '#'
    ensures x[0].Name? ==> Expand(t, x) == Token(NumOf(t, x[0].k)) + Expand(t, x[1..])
  {
    if x[0].Name? { TokenShape(NumOf(t, x[0].k)); }
  }

  // ---------------------------------------------------------------- one replacement

  /** The text that the replacement of name i sees: earlier names are back, later ones are tokens. */
  ghost function StageText(t: Table, i: nat, g: seq<Symbol>): string { Show(t, Undo(t, i, g)) }

  /** In that text the token of name i begins at no literal character, and not in the `##` that ends
      the token of a later name. */
  ghost predicate OnlyGenuine(t: Table, i: nat, g: seq<Symbol>) {
    g != [] ==>
      && OnlyGenuine(t, i, g[1..])
      && (g[0].Raw? ==> !(Token(NumOf(t, i)) <= StageText(t, i, g)))
      && (g[0].Name? && g[0].k > i ==>
            && !(Token(NumOf(t, i)) <= "##" + StageText(t, i, g[1..]))
            && !(Token(NumOf(t, i)) <= "#" + StageText(t, i, g[1..])))
  }

  ghost predicate Matches(t: Table, i: nat, x: seq<Symbol>) { Raws(Token(NumOf(t, i))) <= x }

  /** Token i begins nowhere in u when y follows. */
  ghost predicate Unmatched(t: Table, i: nat, u: string, y: seq<Symbol>) {
    u != [] ==> !Matches(t, i, Raws(u) + y) && Unmatched(t, i, u[1..], y)
  }

  lemma {:induction false} SkipsUnmatched(t: Table, i: nat, u: string, y: seq<Symbol>)
    requires Unmatched(t, i, u, y)
    ensures PutBack(t, i, Raws(u) + y) == Raws(u) + PutBack(t, i, y)
  {
    hide Token, Matches, PutBack;
    if u == [] {
      assert Raws(u) + y == y && Raws(u) + PutBack(t, i, y) == PutBack(t, i, y);
    } else {
      var a, b := [Raw(u[0])], Raws(u[1..]);
      SkipsUnmatched(t, i, u[1..], y);
      OneUnmatched(t, i, u, y);
      assert Raws(u) == a + b;
      assert a + (b + PutBack(t, i, y)) == (a + b) + PutBack(t, i, y);
    }
  }

  lemma OneUnmatched(t: Table, i: nat, u: string, y: seq<Symbol>)
    requires u != [] && !Matches(t, i, Raws(u) + y)
    ensures PutBack(t, i, Raws(u) + y) == [Raw(u[0])] + PutBack(t, i, Raws(u[1..]) + y)
  {
    assert (Raws(u) + y)[1..] == Raws(u[1..]) + y;
  }

  lemma {:induction false} StopsAtMatch(t: Table, i: nat, u: string, y: seq<Symbol>, o: nat)
    requires o < |u| && Matches(t, i, Raws(u[o..]) + y)
    ensures !(Raws(u) <= PutBack(t, i, Raws(u) + y))
  {
    hide Token;
    var x := Raws(u) + y;
    if Matches(t, i, x) {
      assert PutBack(t, i, x)[0] == Name(i);
    } else {
      assert u[0..] == u && o > 0;
      assert u[1..][o - 1..] == u[o..];
      StopsAtMatch(t, i, u[1..], y, o - 1);
      OneUnmatched(t, i, u, y);
      var p := PutBack(t, i, Raws(u[1..]) + y);
      assert Raws(u) == [Raw(u[0])] + Raws(u[1..]);
      PrefixTail(Raw(u[0]), Raws(u[1..]), p);
    }
  }

  lemma PrefixTail<T>(a: T, b: seq<T>, c: seq<T>)
    ensures [a] + b <= [a] + c ==> b <= c
  {
    if [a] + b <= [a] + c {
      forall i | 0 <= i < |b| ensures b[i] == c[i] { assert ([a] + b)[i + 1] == ([a] + c)[i + 1]; }
    }
  }

  /** Within another token, and what follows it, a token can begin only in the final `##`. */
  lemma MatchPosition(t: Table, i: nat, k: nat, y: seq<Symbol>, o: nat)
    requires o < |Token(NumOf(t, k))| && Matches(t, i, Raws(Token(NumOf(t, k))[o..]) + y)
    ensures NumOf(t, i) == NumOf(t, k) || o >= |Token(NumOf(t, k))| - 2
  {
    hide Token;
    var a, b := Token(NumOf(t, i)), Token(NumOf(t, k));
    var d, e := |Digits(NumOf(t, i))|, |Digits(NumOf(t, k))|;
    TokenShape(NumOf(t, i));
    TokenShape(NumOf(t, k));
    var x := Raws(b[o..]) + y;
    forall j | 0 <= j < |a| && o + j < |b| ensures a[j] == b[o + j] {
      assert Raws(a)[j] == x[j] && x[j] == Raw(b[o..][j]);
    }
    if o < |b| - 2 {
      assert a[0] == b[o + 0] && a[1] == b[o + 1];
      assert o == 0;
      SameLength(a, b, d, e);
      assert Digits(NumOf(t, i)) == a[4..d + 4] == b[4..e + 4] == Digits(NumOf(t, k));
      DigitsInjective(NumOf(t, i), NumOf(t, k));
    }
  }

  lemma SameLength(a: string, b: string, d: nat, e: nat)
    requires |a| == d + 6 && |b| == e + 6 && a[d + 4] == '#' && b[e + 4] == '#'
    requires forall j :: 4 <= j < d + 4 ==> IsDigit(a[j])
    requires forall j :: 4 <= j < e + 4 ==> IsDigit(b[j])
    requires forall j :: 0 <= j < |a| && 0 + j < |b| ==> a[j] == b[0 + j]
    ensures d == e
  {
    assert d + 4 < |b| ==> a[d + 4] == b[0 + (d + 4)];
    assert e + 4 < |a| ==> a[e + 4] == b[0 + (e + 4)];
  }

  lemma {:induction false} InsideToken(t: Table, i: nat, k: nat, y: seq<Symbol>, o: nat)
    requires NumOf(t, i) != NumOf(t, k) && o <= |Token(NumOf(t, k))|
    requires !Matches(t, i, Raws("##") + y) && !Matches(t, i, Raws("#") + y)
    ensures Unmatched(t, i, Token(NumOf(t, k))[o..], y)
    decreases |Token(NumOf(t, k))| - o
  {
    hide Token, Matches;
    var b := Token(NumOf(t, k));
    TokenShape(NumOf(t, k));
    if o < |b| {
      InsideToken(t, i, k, y, o + 1);
      assert b[o..][1..] == b[o + 1..];
      if o < |b| - 2 && Matches(t, i, Raws(b[o..]) + y) { MatchPosition(t, i, k, y, o); }
    }
  }

  lemma MatchIsTextual(t: Table, i: nat, u: string, y: seq<Symbol>)
    ensures Matches(t, i, Raws(u) + y) <==> Token(NumOf(t, i)) <= u + Show(t, y)
  {
    hide Token;
    TokenHasNoAt(NumOf(t, i));
    TextMatchesRaws(t, Token(NumOf(t, i)), Raws(u) + y);
    ShowCat(t, Raws(u), y);
    RawsAlone(t, 0, u);
  }

  /** Replacing the token of name i puts back exactly the places of name i if and only if the token
      occurs at no other place. */
  lemma {:induction false} StageExactly(t: Table, i: nat, g: seq<Symbol>)
    requires DistinctNums(t) && i < |t.nums| && Below(|t.nums|, g)
    ensures PutBack(t, i, Undo(t, i, g)) == Undo(t, i + 1, g) <==> OnlyGenuine(t, i, g)
  {
    hide Token;
    if g != [] {
      var rest, y, z := g[1..], Undo(t, i, g[1..]), Undo(t, i + 1, g[1..]);
      StageExactly(t, i, rest);
      match g[0]
      case Raw(c) =>
        assert StageText(t, i, g) == [c] + Show(t, y) by { assert ([Raw(c)] + y)[1..] == y; }
        RawStage(t, i, c, y, z);
      case Name(k) =>
        if k <= i {
          EarlierStage(t, i, k, y, z);
        } else {
          LaterStage(t, i, k, y, z);
        }
    }
  }

  lemma EarlierStage(t: Table, i: nat, k: nat, y: seq<Symbol>, z: seq<Symbol>)
    requires k <= i
    ensures PutBack(t, i, UndoOne(t, i, Name(k)) + y) == [Name(k)] + z <==> PutBack(t, i, y) == z
  {
    hide Token;
    TokenShape(NumOf(t, i));
    SameTail([Name(k)], PutBack(t, i, y), z);
    if k < i {
      assert ([Name(k)] + y)[1..] == y;
    } else {
      assert (Raws(Token(NumOf(t, i))) + y)[|Token(NumOf(t, i))|..] == y;
    }
  }

  lemma SameTail<T>(a: seq<T>, b: seq<T>, c: seq<T>)
    ensures a + b == a + c <==> b == c
  {
    if a + b == a + c { assert b == (a + b)[|a|..] == (a + c)[|a|..] == c; }
  }

  lemma RawStage(t: Table, i: nat, c: char, y: seq<Symbol>, z: seq<Symbol>)
    ensures PutBack(t, i, [Raw(c)] + y) == [Raw(c)] + z <==>
      !(Token(NumOf(t, i)) <= [c] + Show(t, y)) && PutBack(t, i, y) == z
  {
    hide Token;
    MatchIsTextual(t, i, [c], y);
    assert Raws([c]) == [Raw(c)];
    assert ([Raw(c)] + y)[1..] == y;
    if Matches(t, i, [Raw(c)] + y) {
      assert PutBack(t, i, [Raw(c)] + y)[0] == Name(i);
    } else {
      SameTail([Raw(c)], PutBack(t, i, y), z);
    }
  }

  lemma LaterStage(t: Table, i: nat, k: nat, y: seq<Symbol>, z: seq<Symbol>)
    requires NumOf(t, i) != NumOf(t, k)
    ensures PutBack(t, i, Raws(Token(NumOf(t, k))) + y) == Raws(Token(NumOf(t, k))) + z <==>
      && !(Token(NumOf(t, i)) <= "##" + Show(t, y)) && !(Token(NumOf(t, i)) <= "#" + Show(t, y))
      && PutBack(t, i, y) == z
  {
    hide Token, Matches, PutBack;
    var b := Token(NumOf(t, k));
    TokenShape(NumOf(t, k));
    MatchIsTextual(t, i, "##", y);
    MatchIsTextual(t, i, "#", y);
    if Matches(t, i, Raws("##") + y) {
      assert b[|b| - 2..] == "##";
      StopsAtMatch(t, i, b, y, |b| - 2);
    } else if Matches(t, i, Raws("#") + y) {
      assert b[|b| - 1..] == "#";
      StopsAtMatch(t, i, b, y, |b| - 1);
    } else {
      InsideToken(t, i, k, y, 0);
      assert b[0..] == b;
      SkipsUnmatched(t, i, b, y);
      SameTail(Raws(b), PutBack(t, i, y), z);
    }
  }
}
