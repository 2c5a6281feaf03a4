/** `split_top_level` and `update_depth` of fern/scripts/generate_api_reference.py. */
module ApiSplit {

  /** The dictionary `depth`: one counter per kind of bracket, none of them ever negative. */
  datatype Depth = Depth(round: nat, square: nat, curly: nat, angle: nat)

  const TOP := Depth(0, 0, 0, 0)

  function Less(n: nat): nat { if n == 0 then 0 else n - 1 }

  /** `update_depth` */
  function Update(d: Depth, c: char): Depth {
    match c
    case '(' => d.(round := d.round + 1)
    case '[' => d.(square := d.square + 1)
    case '{' => d.(curly := d.curly + 1)
    case '<' => d.(angle := d.angle + 1)
    case ')' => d.(round := Less(d.round))
    case ']' => d.(square := Less(d.square))
    case '}' => d.(curly := Less(d.curly))
    case '>' => d.(angle := Less(d.angle))
    case _ => d
  }

  function After(d: Depth, text: string): Depth
    decreases text
  {
    if text == "" then d else After(Update(d, text[0]), text[1..])
  }

  /** The pieces of a text that begins at depth d. */
  function Pieces(d: Depth, text: string, sep: char): (pieces: seq<string>)
    ensures pieces != []
    decreases text
  {
    if text == "" then [""]
    else
      var e := Update(d, text[0]);
      var rest := Pieces(e, text[1..], sep);
      if text[0] == sep && e == TOP then [""] + rest else [[text[0]] + rest[0]] + rest[1..]
  }

  function Join(pieces: seq<string>, sep: char): string
    requires pieces != []
  {
    if |pieces| == 1 then pieces[0] else pieces[0] + [sep] + Join(pieces[1..], sep)
  }

  /** Two lists of pieces of adjacent texts: the last piece of the first goes on in the second. */
  function Glue(a: seq<string>, b: seq<string>): seq<string>
    requires a != [] && b != []
  {
    a[..|a| - 1] + [a[|a| - 1] + b[0]] + b[1..]
  }

  lemma GlueCons(x: string, a: seq<string>, b: seq<string>)
    requires a != [] && b != []
    ensures Glue([x] + a, b) == [x] + Glue(a, b)
  {}

  lemma GlueFirst(c: char, a: seq<string>, b: seq<string>)
    requires a != [] && b != []
    ensures Glue([[c] + a[0]] + a[1..], b) == [[c] + Glue(a, b)[0]] + Glue(a, b)[1..]
  {
    if |a| == 1 { assert [c] + (a[0] + b[0]) == ([c] + a[0]) + b[0]; }
  }

  lemma {:induction false} PiecesOfCat(d: Depth, a: string, b: string, sep: char)
    ensures Pieces(d, a + b, sep) == Glue(Pieces(d, a, sep), Pieces(After(d, a), b, sep))
    ensures After(d, a + b) == After(After(d, a), b)
    decreases |a|
  {
    hide Update, Glue;
    if a == "" {
      assert a + b == b;
      EmptyBefore(Pieces(d, b, sep));
    } else {
      var e := Update(d, a[0]);
      PiecesOfCat(e, a[1..], b, sep);
      assert (a + b)[1..] == a[1..] + b;
      var x, y := Pieces(e, a[1..], sep), Pieces(After(d, a), b, sep);
      GlueCons("", x, y);
      GlueFirst(a[0], x, y);
    }
  }

  lemma EmptyBefore(b: seq<string>)
    requires b != []
    ensures Glue([""], b) == b
  {
    assert "" + b[0] == b[0];
  }

  // ---------------------------------------------------------------- the pieces and the text

  /** The pieces, joined by the separator, are the text. */
  lemma {:induction false} JoinedPiecesAreTheText(d: Depth, text: string, sep: char)
    ensures Join(Pieces(d, text, sep), sep) == text
    decreases text
  {
    hide Update;
    if text != "" {
      var e := Update(d, text[0]);
      var rest := Pieces(e, text[1..], sep);
      JoinedPiecesAreTheText(e, text[1..], sep);
      assert text == [text[0]] + text[1..];
      if text[0] == sep && e == TOP {
        assert ([""] + rest)[1..] == rest;
      } else {
        JoinFirst(text[0], rest, sep);
      }
    }
  }

  lemma JoinFirst(c: char, pieces: seq<string>, sep: char)
    requires pieces != []
    ensures Join([[c] + pieces[0]] + pieces[1..], sep) == [c] + Join(pieces, sep)
  {
    var more := [[c] + pieces[0]] + pieces[1..];
    assert more[1..] == pieces[1..];
  }

  /** No piece can be split again: every piece begins at the top level and has no separator there. */
  lemma {:induction false} PiecesStayWhole(d: Depth, text: string, sep: char)
    ensures var pieces := Pieces(d, text, sep);
      && Pieces(d, pieces[0], sep) == [pieces[0]]
      && forall k :: 1 <= k < |pieces| ==> Pieces(TOP, pieces[k], sep) == [pieces[k]]
    decreases text
  {
    hide Update;
    if text != "" {
      var e := Update(d, text[0]);
      var rest := Pieces(e, text[1..], sep);
      PiecesStayWhole(e, text[1..], sep);
      var pieces := Pieces(d, text, sep);
      if text[0] == sep && e == TOP {
        forall k | 1 <= k < |pieces| ensures Pieces(TOP, pieces[k], sep) == [pieces[k]] {
          assert pieces[k] == rest[k - 1];
        }
      } else {
        assert pieces[0][0] == text[0] && pieces[0][1..] == rest[0];
        forall k | 1 <= k < |pieces| ensures Pieces(TOP, pieces[k], sep) == [pieces[k]] { assert pieces[k] == rest[k]; }
      }
    }
  }

  /** Splitting a + sep + b at that separator splits a and b on their own exactly when the separator
      stands at the top level; so an opening bracket never separates anything. */
  lemma SplitsExactly(d: Depth, a: string, b: string, sep: char)
    ensures Pieces(d, a + [sep] + b, sep) == Pieces(d, a, sep) + Pieces(TOP, b, sep) <==>
      Update(After(d, a), sep) == TOP
  {
    hide Update;
    var e := Update(After(d, a), sep);
    var x, y := Pieces(d, a, sep), Pieces(e, b, sep);
    assert a + [sep] + b == a + ([sep] + b) && ([sep] + b)[1..] == b;
    PiecesOfCat(d, a, [sep] + b, sep);
    if e == TOP {
      GlueEmpty(x, y);
    } else {
      LastGrows(x, y, Pieces(TOP, b, sep), sep);
    }
  }

  lemma GlueEmpty(x: seq<string>, y: seq<string>)
    requires x != [] && y != []
    ensures Glue(x, [""] + y) == x + y
  {
    assert x[|x| - 1] + "" == x[|x| - 1];
    assert x == x[..|x| - 1] + [x[|x| - 1]];
  }

  lemma LastGrows(x: seq<string>, y: seq<string>, z: seq<string>, c: char)
    requires x != [] && y != []
    ensures Glue(x, [[c] + y[0]] + y[1..]) != x + z
  {
    var k := |x| - 1;
    assert |Glue(x, [[c] + y[0]] + y[1..])[k]| > |x[k]|;
    assert (x + z)[k] == x[k];
  }

  lemma {:induction false} OpenersNeverSplit(d: Depth, text: string, sep: char)
    requires sep in {'(', '[', '{', '<'}
    ensures Pieces(d, text, sep) == [text]
    decreases text
  {
    if text != "" {
      OpenersNeverSplit(Update(d, text[0]), text[1..], sep);
      assert text == [text[0]] + text[1..];
    }
  }

  // ---------------------------------------------------------------- what the counters count

  /** How many more brackets of a kind the text opens than it closes. */
  function Excess(text: string, open: char, close: char): int {
    multiset(text)[open] as int - multiset(text)[close]
  }

  /** The counter of a kind of bracket, by its opening character. */
  function Counter(d: Depth, open: char): nat {
    if open == '(' then d.round else if open == '[' then d.square else if open == '{' then d.curly else d.angle
  }

  ghost predicate Kind(open: char, close: char) {
    (open, close) in {('(', ')'), ('[', ']'), ('{', '}'), ('<', '>')}
  }

  lemma AfterSnoc(d: Depth, text: string, c: char)
    ensures After(d, text + [c]) == Update(After(d, text), c)
  {
    PiecesOfCat(d, text, [c], c);
    OneChar(After(d, text), c, c);
  }

  lemma CounterSteps(d: Depth, c: char, open: char, close: char)
    requires Kind(open, close)
    ensures Counter(Update(d, c), open) ==
      if c == open then Counter(d, open) + 1
      else if c == close && Counter(d, open) > 0 then Counter(d, open) - 1 else Counter(d, open)
  {}

  lemma ExcessSnoc(text: string, i: nat, c: char, open: char, close: char)
    requires i <= |text| && Kind(open, close)
    ensures (text + [c])[i..] == text[i..] + [c]
    ensures Excess((text + [c])[i..], open, close) ==
      Excess(text[i..], open, close) + if c == open then 1 else if c == close then -1 else 0
  {
    assert (text + [c])[i..] == text[i..] + [c];
  }

  /** The counter of a kind is the largest number by which some rest of the text opens more brackets of the
      kind than it closes. */
  lemma {:induction false} CountersExactly(text: string, open: char, close: char)
    requires Kind(open, close)
    ensures forall i :: 0 <= i <= |text| ==> Excess(text[i..], open, close) <= Counter(After(TOP, text), open)
    ensures exists i :: 0 <= i <= |text| && Excess(text[i..], open, close) == Counter(After(TOP, text), open)
    decreases |text|
  {
    hide Update, Counter, Excess, Kind;
    NothingCounts(text, open, close);
    if text == "" {
      assert After(TOP, text) == TOP && Counter(TOP, open) == 0 by { TopIsZero(open); }
    } else {
      var n := |text| - 1;
      var before, c := text[..n], text[n];
      assert text == before + [c];
      CountersExactly(before, open, close);
      AfterSnoc(TOP, before, c);
      CounterSteps(After(TOP, before), c, open, close);
      var m: nat :| m <= n && Excess(before[m..], open, close) == Counter(After(TOP, before), open);
      forall i | 0 <= i <= n
        ensures Excess(text[i..], open, close) ==
          Excess(before[i..], open, close) + if c == open then 1 else if c == close then -1 else 0
      {
        ExcessSnoc(before, i, c, open, close);
      }
      var i := if c == close && Counter(After(TOP, before), open) == 0 then n + 1 else m;
      assert open != close by { TwoCharacters(open, close); }
      assert Excess(text[i..], open, close) == Counter(After(TOP, text), open);
    }
  }

  lemma TwoCharacters(open: char, close: char)
    requires Kind(open, close)
    ensures open != close
  {}

  lemma NothingCounts(text: string, open: char, close: char)
    ensures text[|text|..] == "" && Excess(text[|text|..], open, close) == 0
  {}

  lemma TopIsZero(open: char)
    ensures Counter(TOP, open) == 0 && After(TOP, "") == TOP
  {}

  /** Where no beginning of the text closes more brackets of a kind than it opens, the counter is simply the
      number of opened minus the number of closed ones. */
  lemma CountersOfProperText(text: string, open: char, close: char)
    requires Kind(open, close) && forall i :: 0 <= i <= |text| ==> Excess(text[..i], open, close) >= 0
    ensures Counter(After(TOP, text), open) == multiset(text)[open] as int - multiset(text)[close]
  {
    CountersExactly(text, open, close);
    forall i | 0 <= i <= |text|
      ensures Excess(text[i..], open, close) <= Excess(text, open, close)
    {
      assert text == text[..i] + text[i..];
      assert Excess(text[..i], open, close) >= 0;
    }
    assert text[0..] == text;
  }

  /** Every bracket opened in text[..n] is closed before position n, counted for each kind on its own. */
  ghost predicate NothingOpen(text: string, n: nat)
    requires n <= |text|
  {
    forall i :: 0 <= i <= n ==>
      && multiset(text[i..n])['('] <= multiset(text[i..n])[')']
      && multiset(text[i..n])['['] <= multiset(text[i..n])[']']
      && multiset(text[i..n])['{'] <= multiset(text[i..n])['}']
      && multiset(text[i..n])['<'] <= multiset(text[i..n])['>']
  }

  lemma TopExactly(text: string, n: nat)
    requires n <= |text|
    ensures After(TOP, text[..n]) == TOP <==> NothingOpen(text, n)
  {
    hide Update, After;
    var u := text[..n];
    CountersExactly(u, '(', ')');
    CountersExactly(u, '[', ']');
    CountersExactly(u, '{', '}');
    CountersExactly(u, '<', '>');
    forall i | 0 <= i <= n ensures u[i..] == text[i..n] {}
  }

  /** For every kind of bracket the text closes what it opens, and nothing else. */
  ghost predicate Balanced(text: string) {
    && multiset(text)['('] == multiset(text)[')'] && multiset(text)['['] == multiset(text)[']']
    && multiset(text)['{'] == multiset(text)['}'] && multiset(text)['<'] == multiset(text)['>']
    && forall i :: 0 <= i <= |text| ==>
      && multiset(text[..i])['('] >= multiset(text[..i])[')'] && multiset(text[..i])['['] >= multiset(text[..i])[']']
      && multiset(text[..i])['{'] >= multiset(text[..i])['}'] && multiset(text[..i])['<'] >= multiset(text[..i])['>']
  }

  /** A separator that is no bracket splits behind a balanced text. */
  lemma BalancedTextSplits(a: string, b: string, sep: char)
    requires Balanced(a) && sep !in {'(', ')', '[', ']', '{', '}', '<', '>'}
    ensures After(TOP, a) == TOP
    ensures Pieces(TOP, a + [sep] + b, sep) == Pieces(TOP, a, sep) + Pieces(TOP, b, sep)
  {
    CountersOfProperText(a, '(', ')');
    CountersOfProperText(a, '[', ']');
    CountersOfProperText(a, '{', '}');
    CountersOfProperText(a, '<', '>');
    SplitsExactly(TOP, a, b, sep);
  }

  // ---------------------------------------------------------------- where the text is cut

  /** Some pieces at the beginning, joined, end before position idx. */
  ghost predicate CutAt(pieces: seq<string>, sep: char, idx: int) {
    exists k :: 1 <= k < |pieces| && |Join(pieces[..k], sep)| == idx
  }

  lemma {:induction false} CutsAreTop(d: Depth, text: string, sep: char, idx: nat)
    requires idx < |text|
    ensures CutAt(Pieces(d, text, sep), sep, idx) <==> text[idx] == sep && After(d, text[..idx + 1]) == TOP
    decreases text
  {
    hide Update, CutAt;
    var e := Update(d, text[0]);
    var rest := Pieces(e, text[1..], sep);
    assert text[..idx + 1][1..] == text[1..][..idx];
    if text[0] == sep && e == TOP { CutsAfterEmpty(rest, sep, idx); } else { CutsAfterChar(text[0], rest, sep, idx); }
    if idx > 0 { CutsAreTop(e, text[1..], sep, idx - 1); }
  }

  lemma CutsAfterEmpty(rest: seq<string>, sep: char, idx: nat)
    requires rest != []
    ensures CutAt([""] + rest, sep, idx) <==> idx == 0 || CutAt(rest, sep, idx - 1)
  {
    var more := [""] + rest;
    assert Join(more[..1], sep) == "";
    forall k | 1 <= k < |rest| ensures |Join(more[..k + 1], sep)| == 1 + |Join(rest[..k], sep)| {
      assert more[..k + 1][1..] == rest[..k];
    }
    if k :| 1 <= k < |more| && |Join(more[..k], sep)| == idx && k > 1 {
      assert |Join(more[..(k - 1) + 1], sep)| == 1 + |Join(rest[..k - 1], sep)|;
    }
  }

  lemma CutsAfterChar(c: char, rest: seq<string>, sep: char, idx: nat)
    requires rest != []
    ensures CutAt([[c] + rest[0]] + rest[1..], sep, idx) <==> idx > 0 && CutAt(rest, sep, idx - 1)
  {
    var more := [[c] + rest[0]] + rest[1..];
    forall k | 1 <= k < |rest| ensures |Join(more[..k], sep)| == 1 + |Join(rest[..k], sep)| {
      assert more[..k] == [[c] + rest[..k][0]] + rest[..k][1..];
      JoinFirst(c, rest[..k], sep);
    }
  }

  /** The text is cut exactly at the separators up to which no bracket is left open. */
  lemma CutsExactly(text: string, sep: char)
    ensures forall idx :: 0 <= idx < |text| ==>
      (CutAt(Pieces(TOP, text, sep), sep, idx) <==> text[idx] == sep && NothingOpen(text, idx + 1))
  {
    hide Update, CutAt, NothingOpen, After;
    forall idx | 0 <= idx < |text|
      ensures CutAt(Pieces(TOP, text, sep), sep, idx) <==> text[idx] == sep && NothingOpen(text, idx + 1)
    {
      CutsAreTop(TOP, text, sep, idx);
      TopExactly(text, idx + 1);
    }
  }

  // ---------------------------------------------------------------- the loop

  method SplitTopLevel(text: string, sep: char) returns (chunks: seq<string>)
    ensures chunks == Pieces(TOP, text, sep)
    ensures Join(chunks, sep) == text
    ensures forall idx :: 0 <= idx < |text| ==>
      (CutAt(chunks, sep, idx) <==> text[idx] == sep && NothingOpen(text, idx + 1))
  {
    hide Update, Glue, CutAt, NothingOpen;
    chunks := [];
    var depth, start := TOP, 0;
    for idx := 0 to |text|
      invariant 0 <= start <= idx && depth == After(TOP, text[..idx])
      invariant Pieces(TOP, text[..idx], sep) == chunks + [text[start..idx]]
    {
      var before, c := text[..idx], text[idx];
      assert text[..idx + 1] == before + [c] && text[start..idx + 1] == text[start..idx] + [c];
      PiecesOfCat(TOP, before, [c], sep);
      OneChar(depth, c, sep);
      depth := Update(depth, c);
      assert [c][1..] == "" && After(TOP, text[..idx + 1]) == depth;
      GlueLast(chunks, text[start..idx], c);
      if c == sep && depth == TOP {
        chunks := chunks + [text[start..idx]];
        start := idx + 1;
        assert text[start..idx + 1] == "";
      }
    }
    assert text[..|text|] == text && text[start..|text|] == text[start..];
    chunks := chunks + [text[start..]];
    JoinedPiecesAreTheText(TOP, text, sep);
    CutsExactly(text, sep);
  }

  lemma OneChar(d: Depth, c: char, sep: char)
    ensures After(d, [c]) == Update(d, c)
    ensures Pieces(d, [c], sep) == if c == sep && Update(d, c) == TOP then ["", ""] else [[c]]
  {
    assert [c][1..] == "" && [c] + "" == [c];
  }

  lemma GlueLast(chunks: seq<string>, last: string, c: char)
    ensures Glue(chunks + [last], ["", ""]) == chunks + [last] + [""]
    ensures Glue(chunks + [last], [[c]]) == chunks + [last + [c]]
  {
    assert last + "" == last;
  }
}
