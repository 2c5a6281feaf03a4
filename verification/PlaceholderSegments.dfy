/** The condition of the round trip, stated of the literal segments of the file alone. */
module PlaceholderSegments {
  import opened PlaceholderModel
  import opened PlaceholderProofs

  /** Token i occurs in no literal segment. A segment is read together with the `##` that ends the token of a
      later name before it, and the `##` that begins the token of this or a later name behind it; tokens of
      earlier names are names again. `text` is what has been read of the segment. */
  predicate SegmentsClean(t: Table, i: nat, g: seq<Symbol>, text: string)
    decreases g
  {
    if g == [] then !Contains(text, Token(NumOf(t, i)))
    else
      match g[0]
      case Raw(c) => SegmentsClean(t, i, g[1..], text + [c])
      case Name(k) =>
        && !Contains(text + (if k >= i then "##" else ""), Token(NumOf(t, i)))
        && SegmentsClean(t, i, g[1..], if k > i then "##" else "")
  }

  /** The token begins nowhere in u when w follows. */
  ghost predicate NoStart(token: string, u: string, w: string) {
    u != [] ==> !(token <= u + w) && NoStart(token, u[1..], w)
  }

  lemma {:induction false} NoStartSnoc(token: string, u: string, c: char, w: string)
    ensures NoStart(token, u + [c], w) <==> NoStart(token, u, [c] + w) && !(token <= [c] + w)
  {
    if u == [] {
      assert u + [c] == [c] && [c][1..] == [];
    } else {
      NoStartSnoc(token, u[1..], c, w);
      assert (u + [c])[1..] == u[1..] + [c] && u + [c] + w == u + ([c] + w);
    }
  }

  lemma {:induction false} NoStartAtEnd(token: string, u: string)
    requires token != []
    ensures NoStart(token, u, "") <==> !Contains(u, token)
  {
    if u != [] {
      NoStartAtEnd(token, u[1..]);
      assert u + "" == u;
    }
  }

  /** A token does not reach into a name that has been put back. */
  lemma {:induction false} NoStartBeforeName(n: nat, u: string, w: string)
    requires w != [] && w[0] == '@'
    ensures NoStart(Token(n), u, w) <==> !Contains(u, Token(n))
  {
    hide Token;
    TokenShape(n);
    if u != [] {
      NoStartBeforeName(n, u[1..], w);
      StopsAtName(n, u, w);
    }
  }

  lemma StopsAtName(n: nat, u: string, w: string)
    requires w != [] && w[0] == '@'
    ensures Token(n) <= u + w <==> Token(n) <= u
  {
    hide Token;
    TokenHasNoAt(n);
    if |u| < |Token(n)| <= |u + w| { DiffersAt(Token(n), u + w, |u|); }
    if Token(n) <= u { forall j | 0 <= j < |Token(n)| ensures Token(n)[j] == (u + w)[j] {} }
  }

  /** Nor farther than two characters into a token. */
  lemma {:induction false} NoStartBeforeToken(n: nat, u: string, m: nat, rest: string)
    ensures NoStart(Token(n), u, Token(m) + rest) <==> !Contains(u + "##", Token(n))
  {
    hide Token;
    TokenShape(n);
    if u == [] {
      assert u + "##" == "##";
      if Contains("##", Token(n)) { ContainsFits("##", Token(n)); }
    } else {
      NoStartBeforeToken(n, u[1..], m, rest);
      StopsInToken(n, u, m, rest);
      assert (u + "##")[1..] == u[1..] + "##";
    }
  }

  lemma StopsInToken(n: nat, u: string, m: nat, rest: string)
    requires u != []
    ensures Token(n) <= u + (Token(m) + rest) <==> Token(n) <= u + "##"
  {
    hide Token;
    TokenShape(n);
    TokenShape(m);
    var a, w, o, d := Token(n), Token(m) + rest, |u|, |Digits(n)|;
    assert w[0] == '#' && w[1] == '#' && w[2] == '_';
    if a <= u + w {
      if o + 2 < |a| { NotInside(n, o, u + w); }
      forall j | 0 <= j < |a| ensures a[j] == (u + "##")[j] { assert a[j] == (u + w)[j]; }
    }
    if a <= u + "##" {
      forall j | 0 <= j < |a| ensures a[j] == (u + w)[j] { assert a[j] == (u + "##")[j]; }
    }
  }

  /** Inside a token `##_` occurs at its beginning only. */
  lemma NotInside(n: nat, o: nat, s: string)
    requires 0 < o && o + 2 < |Token(n)| <= |s| && s[o] == '#' && s[o + 1] == '#' && s[o + 2] == '_'
    ensures !(Token(n) <= s)
  {
    hide Token;
    TokenShape(n);
    DiffersAt(Token(n), s, if o == 1 then 2 else o);
  }

  lemma DiffersAt(a: string, s: string, o: nat)
    requires o < |a| <= |s| && a[o] != s[o]
    ensures !(a <= s)
  {}

  // ---------------------------------------------------------------- segments and stages

  lemma StageParts(t: Table, i: nat, g: seq<Symbol>)
    requires g != []
    ensures var rest := StageText(t, i, g[1..]);
      match g[0]
      case Raw(c) => StageText(t, i, g) == [c] + rest
      case Name(k) => StageText(t, i, g) == (if k >= i then Token(NumOf(t, k)) else Quoted(NameOf(t, k))) + rest
  {
    hide Token, Quoted;
    var x := UndoOne(t, i, g[0]);
    ShowCat(t, x, Undo(t, i, g[1..]));
    if g[0].Name? && g[0].k >= i {
      RawsAlone(t, 0, Token(NumOf(t, g[0].k)));
    } else {
      assert x[1..] == [] && Show(t, x) == ShowOne(t, g[0]) + [];
    }
  }

  lemma NoStartInEnd(token: string, w: string)
    ensures NoStart(token, "##", w) <==> !(token <= "##" + w) && !(token <= "#" + w)
  {
    var one: string, two: string := "#", "##";
    assert two[1..] == one && one[1..] == "";
    assert NoStart(token, one, w) <==> !(token <= one + w);
  }

  lemma {:induction false} SegmentsExactly(t: Table, i: nat, g: seq<Symbol>, u: string)
    ensures SegmentsClean(t, i, g, u) <==> NoStart(Token(NumOf(t, i)), u, StageText(t, i, g)) && OnlyGenuine(t, i, g)
    decreases g
  {
    hide Token, NoStart, StageText, Contains;
    var token := Token(NumOf(t, i));
    TokenShape(NumOf(t, i));
    if g == [] {
      assert StageText(t, i, g) == "" by { NothingStaged(t, i); }
      NoStartAtEnd(token, u);
    } else {
      var rest := StageText(t, i, g[1..]);
      StageParts(t, i, g);
      match g[0]
      case Raw(c) =>
        SegmentsExactly(t, i, g[1..], u + [c]);
        NoStartSnoc(token, u, c, rest);
      case Name(k) =>
        if k >= i {
          NoStartBeforeToken(NumOf(t, i), u, NumOf(t, k), rest);
        } else {
          NoStartBeforeName(NumOf(t, i), u, Quoted(NameOf(t, k)) + rest);
          assert u + "" == u;
        }
        SegmentsExactly(t, i, g[1..], if k > i then "##" else "");
        NoStartInEnd(token, rest);
        assert NoStart(token, "", rest) by { NothingStarts(token, rest); }
    }
  }

  lemma NothingStaged(t: Table, i: nat)
    ensures StageText(t, i, []) == ""
  {}

  lemma NothingStarts(token: string, w: string)
    ensures NoStart(token, "", w)
  {}

  /** Every token is absent from every literal segment, read as above. */
  predicate LiteralsClean(t: Table, g: seq<Symbol>) {
    forall i :: 0 <= i < |t.nums| ==> SegmentsClean(t, i, g, "")
  }
}
