/** The loops of ci/checks/clang_format_with_cmake_placeholders.py, and when they give the file back. */
module PlaceholderRoundTrip {
  import opened PlaceholderModel
  import opened PlaceholderProofs
  import opened PlaceholderSegments
  import opened PlaceholderMatches

  // ---------------------------------------------------------------- all replacements

  ghost function PutAll(t: Table, n: nat, x: seq<Symbol>): seq<Symbol> {
    if n == 0 then x else PutBack(t, n - 1, PutAll(t, n - 1, x))
  }

  /** The first n replacements of the reverse loop. */
  function Restore(t: Table, n: nat, s: string): string {
    if n == 0 then s else Replace(Restore(t, n - 1, s), Token(NumOf(t, n - 1)), Quoted(NameOf(t, n - 1)))
  }

  lemma {:induction false} PutAllShows(t: Table, n: nat, x: seq<Symbol>)
    requires PlainNames(t)
    ensures Show(t, PutAll(t, n, x)) == Restore(t, n, Show(t, x))
  {
    hide PutBack, Show, Replace, Token, Quoted;
    if n > 0 {
      PutAllShows(t, n - 1, x);
      ReplaceIsPutBack(t, n - 1, PutAll(t, n - 1, x));
    }
  }

  lemma {:induction false} PutAllKeeps(t: Table, n: nat, x: seq<Symbol>)
    requires Below(0, x)
    ensures Below(n, PutAll(t, n, x)) && Expand(t, PutAll(t, n, x)) == Expand(t, x)
  {
    hide PutBack, Undo, Expand;
    if n > 0 {
      PutAllKeeps(t, n - 1, x);
      PutBackKeepsText(t, n - 1, PutAll(t, n - 1, x));
      UndoPutBack(t, n - 1, PutAll(t, n - 1, x));
    }
  }

  lemma {:induction false} UndoneIsRaw(t: Table, g: seq<Symbol>)
    ensures Below(0, Undo(t, 0, g)) && Expand(t, Undo(t, 0, g)) == Expand(t, g)
  {
    if g != [] {
      UndoneIsRaw(t, g[1..]);
      ExpandCat(t, UndoOne(t, 0, g[0]), Undo(t, 0, g[1..]));
      if g[0].Name? {
        RawsAlone(t, 0, Token(NumOf(t, g[0].k)));
      } else {
        assert [g[0]][1..] == [];
      }
    }
  }

  lemma {:induction false} NothingToUndo(t: Table, n: nat, g: seq<Symbol>)
    requires Below(n, g)
    ensures Undo(t, n, g) == g
  {
    if g != [] {
      NothingToUndo(t, n, g[1..]);
      assert g == [g[0]] + g[1..];
    }
  }

  lemma {:induction false} AllGenuine(t: Table, n: nat, g: seq<Symbol>)
    requires DistinctNums(t) && n <= |t.nums| && Below(|t.nums|, g)
    requires forall i :: 0 <= i < n ==> OnlyGenuine(t, i, g)
    ensures PutAll(t, n, Undo(t, 0, g)) == Undo(t, n, g)
  {
    hide PutBack, Undo, OnlyGenuine;
    if n > 0 {
      AllGenuine(t, n - 1, g);
      StageExactly(t, n - 1, g);
    }
  }

  lemma {:induction false} GenuineBefore(t: Table, n: nat, m: nat, g: seq<Symbol>)
    requires n <= m && PutAll(t, m, Undo(t, 0, g)) == Undo(t, m, g)
    ensures PutAll(t, n, Undo(t, 0, g)) == Undo(t, n, g)
    decreases m - n
  {
    if n < m {
      GenuineBefore(t, n + 1, m, g);
      UndoneIsRaw(t, g);
      PutAllKeeps(t, n, Undo(t, 0, g));
      UndoPutBack(t, n, PutAll(t, n, Undo(t, 0, g)));
      UndoUndo(t, n, n + 1, g);
    }
  }

  ghost predicate Usable(t: Table, g: seq<Symbol>) {
    |t.names| == |t.nums| && DistinctNums(t) && PlainNames(t) && Below(|t.nums|, g)
  }

  /** At each stage of the restoration the replaced token occurs only where its placeholder was. */
  ghost predicate AllStagesGenuine(t: Table, g: seq<Symbol>) {
    forall i :: 0 <= i < |t.nums| ==> OnlyGenuine(t, i, g)
  }

  lemma PutAllExactly(t: Table, g: seq<Symbol>)
    requires Usable(t, g)
    ensures PutAll(t, |t.nums|, Undo(t, 0, g)) == g <==> AllStagesGenuine(t, g)
  {
    hide PutBack, Undo, Expand, Show, OnlyGenuine;
    var m, x := |t.nums|, Undo(t, 0, g);
    NothingToUndo(t, m, g);
    if PutAll(t, m, x) == g {
      forall i | 0 <= i < m ensures OnlyGenuine(t, i, g) {
        GenuineBefore(t, i, m, g);
        GenuineBefore(t, i + 1, m, g);
        StageExactly(t, i, g);
      }
    }
    if AllStagesGenuine(t, g) { AllGenuine(t, m, g); }
  }

  /** Putting all names back one after the other gives the original text if and only if at each stage
      the token that is replaced occurs only where its placeholder was. */
  lemma RoundTripExactly(t: Table, g: seq<Symbol>)
    requires Usable(t, g)
    ensures Restore(t, |t.nums|, Expand(t, g)) == Show(t, g) <==> AllStagesGenuine(t, g)
  {
    hide PutBack, PutAll, Undo, Expand, Show, Restore, OnlyGenuine;
    var m, x := |t.nums|, Undo(t, 0, g);
    ShowUndo(t, g);
    UndoneIsRaw(t, g);
    PutAllShows(t, m, x);
    PutAllKeeps(t, m, x);
    PutAllExactly(t, g);
    if Restore(t, m, Expand(t, g)) == Show(t, g) { SymbolsAreDetermined(t, PutAll(t, m, x), g); }
  }

  /** The stages go right if and only if no token occurs in a literal segment. */
  lemma StagesExactly(t: Table, g: seq<Symbol>)
    ensures AllStagesGenuine(t, g) <==> LiteralsClean(t, g)
  {
    hide OnlyGenuine, SegmentsClean, StageText, Token;
    forall i | 0 <= i < |t.nums| ensures OnlyGenuine(t, i, g) <==> SegmentsClean(t, i, g, "") {
      SegmentsExactly(t, i, g, "");
      NothingStarts(Token(NumOf(t, i)), StageText(t, i, g));
    }
  }

  // ---------------------------------------------------------------- a condition on the literals

  /** No literal segment contains two adjacent underscores. */
  ghost predicate NoDoubleUnderscore(g: seq<Symbol>) {
    forall j :: 0 <= j < |g| - 1 && g[j] == Raw('_') ==> g[j + 1] != Raw('_')
  }

  lemma StageStart(t: Table, i: nat, g: seq<Symbol>)
    requires g != []
    ensures StageText(t, i, g) != []
    ensures g[0].Raw? ==> StageText(t, i, g) == [g[0].c] + StageText(t, i, g[1..])
    ensures g[0].Name? ==> "##" <= StageText(t, i, g) || "@" <= StageText(t, i, g)
  {
    var x := UndoOne(t, i, g[0]);
    ShowCat(t, x, Undo(t, i, g[1..]));
    if g[0].Name? && g[0].k >= i {
      var token := Token(NumOf(t, g[0].k));
      TokenShape(NumOf(t, g[0].k));
      RawsAlone(t, 0, token);
      assert StageText(t, i, g) == token + StageText(t, i, g[1..]);
    } else {
      assert x[1..] == [] && Show(t, x) == ShowOne(t, g[0]) + [];
      assert StageText(t, i, g) == ShowOne(t, g[0]) + StageText(t, i, g[1..]);
    }
  }

  lemma NoUnderscoresAhead(t: Table, i: nat, g: seq<Symbol>)
    requires NoDoubleUnderscore(g)
    ensures !("__" <= StageText(t, i, g)) && !("#__" <= StageText(t, i, g))
  {
    if g != [] {
      StageStart(t, i, g);
      if |g| > 1 { StageStart(t, i, g[1..]); }
      if |g| > 2 { StageStart(t, i, g[2..]); assert g[1..][1..] == g[2..]; }
      StartsWith(StageText(t, i, g));
    }
  }

  lemma StartsWith(s: string)
    ensures "__" <= s <==> |s| >= 2 && s[0] == '_' && s[1] == '_'
    ensures "#__" <= s <==> |s| >= 3 && s[0] == '#' && s[1] == '_' && s[2] == '_'
  {}

  lemma TokenStart(n: nat, u: string, s: string)
    requires Token(n) <= u + s && u in {"#", "##"}
    ensures (u == "##" ==> "__" <= s) && (u == "#" ==> "#__" <= s)
  {
    TokenShape(n);
    forall j | 0 <= j < |Token(n)| ensures Token(n)[j] == (u + s)[j] {}
    StartsWith(s);
    assert (u + s)[2] == '_' && (u + s)[3] == '_' && (u + s)[1] == '#';
  }

  /** Two adjacent underscores in a literal are needed for anything to go wrong. */
  lemma {:induction false} NoDoubleUnderscoreSuffices(t: Table, i: nat, g: seq<Symbol>)
    requires NoDoubleUnderscore(g)
    ensures OnlyGenuine(t, i, g)
  {
    hide Token, Undo, StageText;
    if g != [] {
      var token, rest := Token(NumOf(t, i)), StageText(t, i, g[1..]);
      NoDoubleUnderscoreSuffices(t, i, g[1..]);
      NoUnderscoresAhead(t, i, g[1..]);
      StageStart(t, i, g);
      if g[0].Raw? && token <= [g[0].c] + rest {
        TokenShape(NumOf(t, i));
        assert token[0] == ([g[0].c] + rest)[0];
        TokenStart(NumOf(t, i), "#", rest);
      }
      if token <= "##" + rest { TokenStart(NumOf(t, i), "##", rest); }
      if token <= "#" + rest { TokenStart(NumOf(t, i), "#", rest); }
    }
  }

  // ---------------------------------------------------------------- the substitution loop

  lemma {:induction false} ExpandStable(t: Table, u: Table, x: seq<Symbol>)
    requires Below(|t.nums|, x) && t.nums <= u.nums
    ensures Expand(t, x) == Expand(u, x)
  {
    if x != [] { ExpandStable(t, u, x[1..]); }
  }

  lemma {:induction false} NoMatchAhead(names: seq<string>, s: string, i: nat)
    requires i <= |s| && FindAll(s, i) == []
    ensures Symbols(names, s, i) == Raws(s[i..])
    decreases |s| - i
  {
    if i < |s| {
      NoMatchAhead(names, s, i + 1);
      assert s[i..][1..] == s[i + 1..];
    }
  }

  lemma NoMatchAt(names: seq<string>, s: string, i: nat)
    requires i < |s| && MatchLength(s[i..]) == 0
    ensures FindAll(s, i) == FindAll(s, i + 1) && Symbols(names, s, i) == [Raw(s[i])] + Symbols(names, s, i + 1)
  {}

  lemma MatchAt(names: seq<string>, s: string, i: nat)
    requires i <= |s| && MatchLength(s[i..]) > 0
    ensures var n := MatchLength(s[i..]);
      && n > 2 && i + n <= |s| && FindAll(s, i) == [Match(i, i + n, s[i + 1..i + n - 1])] + FindAll(s, i + n)
      && Symbols(names, s, i) == [Name(IndexOf(names, s[i + 1..i + n - 1]))] + Symbols(names, s, i + n)
  {
    hide IndexOf;
  }

  lemma {:induction false} NextMatch(names: seq<string>, s: string, i: nat)
    requires i <= |s| && FindAll(s, i) != []
    ensures var m := FindAll(s, i)[0];
      && i <= m.start < m.end <= |s| && FindAll(s, m.end) == FindAll(s, i)[1..]
      && s[m.start..m.end] == Quoted(m.name) && OfNameChars(m.name)
      && IsPlaceholder(s[m.start..m.end])
      && (forall p, q :: i <= p < m.start && p <= q <= |s| ==> !IsPlaceholder(s[p..q]))
      && Symbols(names, s, i) == Raws(s[i..m.start]) + ([Name(IndexOf(names, m.name))] + Symbols(names, s, m.end))
    decreases |s| - i
  {
    hide MatchLength, IndexOf, Quoted, OfNameChars, Raws, FindAll, Symbols, IsPlaceholder;
    LeftmostMatch(s, i);
    var n := MatchLength(s[i..]);
    if n == 0 {
      assert i < |s| by { NothingAtEnd(s); }
      NoMatchAt(names, s, i);
      NextMatch(names, s, i + 1);
      var m := FindAll(s, i)[0];
      RawsCons(s[i], s[i + 1..m.start]);
      assert s[i..m.start] == [s[i]] + s[i + 1..m.start];
      CatCat([Raw(s[i])], Raws(s[i + 1..m.start]), [Name(IndexOf(names, m.name))] + Symbols(names, s, m.end));
    } else {
      MatchAt(names, s, i);
      MatchHere(s, i, n);
      assert Raws(s[i..i]) == [];
    }
  }

  lemma NothingAtEnd(s: string)
    ensures FindAll(s, |s|) == []
  {}

  lemma CatCat<T>(a: seq<T>, b: seq<T>, c: seq<T>)
    ensures a + (b + c) == (a + b) + c
  {}

  lemma RawsCons(c: char, s: string)
    ensures Raws([c] + s) == [Raw(c)] + Raws(s)
  {}

  lemma MatchHere(s: string, i: nat, n: nat)
    requires i <= |s| && n == MatchLength(s[i..]) && n > 0
    ensures i + n <= |s| && n >= 3
    ensures var name := s[i + 1..i + n - 1]; s[i..i + n] == Quoted(name) && OfNameChars(name)
  {
    var u, name := s[i..], s[i + 1..i + n - 1];
    forall j | 0 <= j < n ensures s[i + j] == u[j] {}
    forall j | 0 <= j < |name| ensures name[j] == u[j + 1] {}
  }

  lemma {:induction false} AppearingGrows(a: seq<Match>, b: seq<Match>)
    ensures Appearing(a) <= Appearing(a + b)
  {
    if b == [] {
      assert a + b == a;
    } else {
      AppearingGrows(a, b[..|b| - 1]);
      assert (a + b)[..|a + b| - 1] == a + b[..|b| - 1];
    }
  }

  lemma {:induction false} IndexOfUnique(names: seq<string>, k: nat)
    requires k < |names| && Distinct(names)
    ensures IndexOf(names, names[k]) == k
  {
    if k > 0 { IndexOfUnique(names[1..], k - 1); }
  }

  /** `while contents.find(f"##__{placeholder_counter}##") != -1` */
  method NextFree(contents: string, counter: nat) returns (n: nat)
    ensures FirstFree(contents, counter, n)
  {
    n := counter;
    while Contains(contents, Token(n))
      invariant counter <= n && forall m :: counter <= m < n ==> Contains(contents, Token(m))
      decreases Pow10(|contents|) - n
    {
      ContainedIsSmall(contents, n);
      n := n + 1;
    }
  }

  /** The table that the loop builds for a text. */
  ghost predicate IsTable(t: Table, contents: string) {
    TableFor(t, contents) && t.names == Appearing(FindAll(contents, 0))
  }

  lemma NoNames()
    ensures Distinct([])
  {}

  lemma {:induction false} AppearingIsDistinct(ms: seq<Match>)
    ensures Distinct(Appearing(ms))
    ensures forall k :: 0 <= k < |ms| ==> ms[k].name in Appearing(ms)
  {
    hide Distinct;
    if ms == [] {
      assert Distinct([]) by { NoNames(); }
    } else {
      var before, name := ms[..|ms| - 1], ms[|ms| - 1].name;
      AppearingIsDistinct(before);
      if name !in Appearing(before) { DistinctMore(Appearing(before), name); }
      forall k | 0 <= k < |ms| ensures ms[k].name in Appearing(ms) {
        if k < |before| { assert before[k].name in Appearing(before); }
      }
    }
  }

  lemma DistinctMore(names: seq<string>, name: string)
    requires Distinct(names) && name !in names
    ensures Distinct(names + [name])
  {}

  lemma IncreasingMore(nums: seq<nat>, n: nat)
    requires Increasing(nums) && CounterAt(nums, |nums|) <= n
    ensures Increasing(nums + [n])
  {}

  lemma AllFreeMore(contents: string, nums: seq<nat>, n: nat)
    requires AllFree(contents, nums) && FirstFree(contents, CounterAt(nums, |nums|), n)
    ensures AllFree(contents, nums + [n])
  {
    hide FirstFree;
    var more := nums + [n];
    forall i | 0 <= i < |more| ensures FirstFree(contents, CounterAt(more, i), more[i]) {
      assert CounterAt(more, i) == CounterAt(nums, i);
      if i < |nums| { assert FirstFree(contents, CounterAt(nums, i), nums[i]); }
    }
  }

  lemma TableGrows(t: Table, contents: string, name: string, n: nat)
    requires TableFor(t, contents) && name !in t.names && OfNameChars(name)
    requires FirstFree(contents, CounterAt(t.nums, |t.nums|), n)
    ensures TableFor(Table(t.names + [name], t.nums + [n]), contents)
  {
    hide FirstFree, OfNameChars, Distinct, Increasing, AllFree;
    FreeIsLater(contents, CounterAt(t.nums, |t.nums|), n);
    DistinctMore(t.names, name);
    IncreasingMore(t.nums, n);
    AllFreeMore(contents, t.nums, n);
  }

  lemma FreeIsLater(contents: string, from: nat, n: nat)
    requires FirstFree(contents, from, n)
    ensures from <= n
  {}

  lemma FreeIsUnique(contents: string, from: nat, m: nat, n: nat)
    requires FirstFree(contents, from, m) && FirstFree(contents, from, n)
    ensures m == n
  {
    hide Contains, Token;
    assert !(m < n) && !(n < m);
  }

  ghost function FirstFreeFrom(contents: string, from: nat): (n: nat)
    ensures FirstFree(contents, from, n)
    decreases Pow10(|contents|) - from
  {
    if Contains(contents, Token(from)) then
      ContainedIsSmall(contents, from);
      FirstFreeFrom(contents, from + 1)
    else from
  }

  /** The first k free numbers. */
  ghost function Numbers(contents: string, k: nat): (nums: seq<nat>)
    ensures |nums| == k
  {
    if k == 0 then []
    else
      var before := Numbers(contents, k - 1);
      before + [FirstFreeFrom(contents, CounterAt(before, |before|))]
  }

  lemma {:induction false} NumbersAreFree(contents: string, k: nat)
    ensures Increasing(Numbers(contents, k)) && AllFree(contents, Numbers(contents, k))
  {
    hide FirstFree;
    if k > 0 {
      var before := Numbers(contents, k - 1);
      var n := FirstFreeFrom(contents, CounterAt(before, |before|));
      NumbersAreFree(contents, k - 1);
      FreeIsLater(contents, CounterAt(before, |before|), n);
      IncreasingMore(before, n);
      AllFreeMore(contents, before, n);
    }
  }

  lemma {:induction false} FreeNumbersAreThese(contents: string, nums: seq<nat>)
    requires AllFree(contents, nums)
    ensures nums == Numbers(contents, |nums|)
  {
    hide FirstFree;
    if nums != [] {
      var before, n := nums[..|nums| - 1], nums[|nums| - 1];
      forall i | 0 <= i < |before| ensures FirstFree(contents, CounterAt(before, i), before[i]) {
        assert CounterAt(before, i) == CounterAt(nums, i) && FirstFree(contents, CounterAt(nums, i), nums[i]);
      }
      FreeNumbersAreThese(contents, before);
      assert CounterAt(before, |before|) == CounterAt(nums, |before|);
      assert FirstFree(contents, CounterAt(nums, |before|), n);
      FreeIsUnique(contents, CounterAt(before, |before|), n, FirstFreeFrom(contents, CounterAt(before, |before|)));
    }
  }

  lemma {:induction false} MatchesAreNames(s: string, i: nat)
    requires i <= |s|
    ensures forall k :: 0 <= k < |FindAll(s, i)| ==> OfNameChars(FindAll(s, i)[k].name)
    decreases |s| - i
  {
    hide FindAll, OfNameChars, Symbols, Raws, Quoted, IndexOf;
    var ms := FindAll(s, i);
    if ms != [] {
      NextMatch([], s, i);
      MatchesAreNames(s, ms[0].end);
      forall k | 0 <= k < |ms| ensures OfNameChars(ms[k].name) {
        if k > 0 { assert ms[k] == ms[1..][k - 1]; }
      }
    }
  }

  lemma {:induction false} AppearingAreNames(ms: seq<Match>)
    requires forall k :: 0 <= k < |ms| ==> OfNameChars(ms[k].name)
    ensures forall name :: name in Appearing(ms) ==> OfNameChars(name)
  {
    hide OfNameChars;
    if ms != [] { AppearingAreNames(ms[..|ms| - 1]); }
  }

  /** The names of a text and the numbers of their tokens. */
  ghost function TableOf(contents: string): Table {
    var names := Appearing(FindAll(contents, 0));
    Table(names, Numbers(contents, |names|))
  }

  lemma TableOfIsTable(contents: string)
    ensures IsTable(TableOf(contents), contents)
  {
    hide FindAll, Appearing, Numbers, Distinct, Increasing, AllFree, OfNameChars;
    AppearingIsDistinct(FindAll(contents, 0));
    MatchesAreNames(contents, 0);
    AppearingAreNames(FindAll(contents, 0));
    NumbersAreFree(contents, |TableOf(contents).names|);
  }

  lemma OnlyOneTable(t: Table, contents: string)
    requires IsTable(t, contents)
    ensures t == TableOf(contents)
  {
    hide FindAll, Appearing, Numbers, Distinct, Increasing, AllFree, OfNameChars;
    FreeNumbersAreThese(contents, t.nums);
  }

  /** The table when a name has been met. */
  ghost function Met(t: Table, contents: string, name: string): Table {
    if name in t.names then t
    else Table(t.names + [name], t.nums + [FirstFreeFrom(contents, CounterAt(t.nums, |t.nums|))])
  }

  /** The two dictionaries, the second one in insertion order. */
  ghost predicate Dictionaries(t: Table, forward: map<string, string>, reverse: seq<(string, string)>) {
    && |t.names| == |t.nums| == |reverse|
    && (forall name :: name in forward <==> name in t.names)
    && (forall k :: 0 <= k < |t.names| ==> t.names[k] in forward && forward[t.names[k]] == Token(t.nums[k]))
    && (forall k :: 0 <= k < |t.names| ==> reverse[k] == (Token(t.nums[k]), Quoted(t.names[k])))
  }

  lemma DictionariesGrow(t: Table, forward: map<string, string>, reverse: seq<(string, string)>, name: string, n: nat)
    requires Dictionaries(t, forward, reverse) && name !in t.names
    ensures var u := Table(t.names + [name], t.nums + [n]);
      Dictionaries(u, forward[name := Token(n)], reverse + [(Token(n), Quoted(name))])
  {
    hide Token, Quoted;
  }

  lemma LooksUp(t: Table, forward: map<string, string>, reverse: seq<(string, string)>, name: string)
    requires Dictionaries(t, forward, reverse)
    ensures name in forward <==> name in t.names
    ensures forall k :: 0 <= k < |t.names| && t.names[k] == name ==>
      name in forward && k < |t.nums| && forward[name] == Token(t.nums[k])
  {
    hide Token, Quoted;
  }

  lemma BelowMore(n: nat, m: nat, x: seq<Symbol>, u: string, k: nat)
    requires Below(n, x) && n <= m && k < m
    ensures Below(m, x + (Raws(u) + [Name(k)]))
  {}

  lemma ExpandMore(t: Table, x: seq<Symbol>, u: string, k: nat)
    ensures Expand(t, x + (Raws(u) + [Name(k)])) == Expand(t, x) + (u + Token(NumOf(t, k)))
  {
    hide Token, Raws;
    ExpandCat(t, x, Raws(u) + [Name(k)]);
    ExpandCat(t, Raws(u), [Name(k)]);
    RawsAlone(t, 0, u);
    assert Expand(t, [Name(k)][1..]) == [];
    assert Expand(t, [Name(k)]) == Token(NumOf(t, k));
  }

  lemma SameLengths(t: Table, contents: string)
    requires TableFor(t, contents)
    ensures |t.names| == |t.nums|
  {}

  /** The body of the `try` and of its handler: the replacement of a name, a fresh token for a new one. */
  method ReplacementFor(contents: string, name: string, forward: map<string, string>, reverse: seq<(string, string)>,
                        counter: nat, ghost t: Table)
    returns (replacement: string, forward': map<string, string>, reverse': seq<(string, string)>, counter': nat)
    requires TableFor(t, contents) && Dictionaries(t, forward, reverse) && counter == CounterAt(t.nums, |t.nums|)
    requires OfNameChars(name)
    ensures var u := Met(t, contents, name);
      && TableFor(u, contents) && Dictionaries(u, forward', reverse') && counter' == CounterAt(u.nums, |u.nums|)
      && |u.names| == |u.nums|
      && forall k :: 0 <= k < |u.names| && u.names[k] == name ==> replacement == Token(u.nums[k])
  {
    hide Token, Quoted, FirstFree, OfNameChars, TableFor, Dictionaries;
    assert |t.names| == |t.nums| by { SameLengths(t, contents); }
    LooksUp(t, forward, reverse, name);
    forward', reverse', counter' := forward, reverse, counter;
    if name in forward {
      replacement := forward[name];
    } else {
      counter' := NextFree(contents, counter);
      FreeIsUnique(contents, counter, counter', FirstFreeFrom(contents, counter));
      replacement := Token(counter');
      forward' := forward[name := replacement];
      reverse' := reverse + [(replacement, Quoted(name))];
      TableGrows(t, contents, name, counter');
      DictionariesGrow(t, forward, reverse, name, counter');
      counter' := counter' + 1;
    }
  }

  /** What the loop has done when it has handled k matches and stands at `start`. */
  ghost predicate Progress(contents: string, ms: seq<Match>, k: nat, start: nat, t: Table, done: seq<Symbol>,
          replaced: string) {
    && k <= |ms| && start <= |contents| && FindAll(contents, start) == ms[k..]
    && t.names == Appearing(ms[..k]) && |t.names| == |t.nums| && Below(|t.nums|, done)
    && replaced == Expand(t, done)
    && Symbols(Appearing(ms), contents, 0) == done + Symbols(Appearing(ms), contents, start)
  }

  lemma Begin(contents: string)
    ensures var ms, t := FindAll(contents, 0), Table([], []);
      && Progress(contents, ms, 0, 0, t, [], "")
      && TableFor(t, contents) && Dictionaries(t, map[], []) && CounterAt(t.nums, |t.nums|) == 0
  {
    hide FindAll, Symbols;
  }

  lemma MatchAhead(contents: string, ms: seq<Match>, k: nat, start: nat, t: Table, done: seq<Symbol>, replaced: string)
    requires Progress(contents, ms, k, start, t, done, replaced) && k < |ms|
    ensures start <= ms[k].start <= ms[k].end <= |contents| && OfNameChars(ms[k].name)
  {
    hide Expand, Symbols, FindAll, OfNameChars, Appearing, Quoted, Raws;
    NextMatch(t.names, contents, start);
  }

  lemma NextName(ms: seq<Match>, k: nat)
    requires k < |ms|
    ensures var names := Appearing(ms[..k]);
      Appearing(ms[..k + 1]) == if ms[k].name in names then names else names + [ms[k].name]
  {
    assert ms[..k + 1][..k] == ms[..k];
  }

  /** One more match. */
  lemma Advance(contents: string, ms: seq<Match>, k: nat, start: nat, t: Table, done: seq<Symbol>, replaced: string,
          replacement: string)
    returns (more: seq<Symbol>)
    requires Progress(contents, ms, k, start, t, done, replaced) && k < |ms| && start <= ms[k].start <= |contents|
    requires var u := Met(t, contents, ms[k].name);
      && |u.names| == |u.nums|
      && forall j :: 0 <= j < |u.names| && u.names[j] == ms[k].name ==> replacement == Token(u.nums[j])
    ensures var u := Met(t, contents, ms[k].name);
      Progress(contents, ms, k + 1, ms[k].end, u, more, replaced + (contents[start..ms[k].start] + replacement))
  {
    hide Token, Quoted, Raws, Expand, Symbols, FindAll, OfNameChars, IndexOf, Met, Below, Appearing;
    var m, names, before, u := ms[k], Appearing(ms), contents[start..ms[k].start], Met(t, contents, ms[k].name);
    NextMatch(names, contents, start);
    assert ms[k..][1..] == ms[k + 1..];
    NextName(ms, k);
    MetGrows(t, contents, m.name);
    ExpandStable(t, u, done);
    var index := Position(ms, k + 1, u);
    ExpandMore(u, done, before, index);
    BelowMore(|t.nums|, |u.nums|, done, before, index);
    MoreSymbols(Symbols(names, contents, 0), done, Raws(before), [Name(index)], Symbols(names, contents, m.end));
    more := done + (Raws(before) + [Name(index)]);
  }

  lemma Finish(contents: string, ms: seq<Match>, start: nat, t: Table, done: seq<Symbol>, replaced: string)
    requires Progress(contents, ms, |ms|, start, t, done, replaced) && ms == FindAll(contents, 0)
    requires TableFor(t, contents)
    ensures t == TableOf(contents) && start <= |contents|
    ensures replaced + contents[start..] == Expand(t, Symbols(t.names, contents, 0))
  {
    hide Expand, Symbols, FindAll, TableFor, TableOf, Below;
    assert ms[..|ms|] == ms;
    LastSegment(t, contents, done, start);
    OnlyOneTable(t, contents);
  }

  /** The first `@` of the text, at position p, begins the placeholder of this name. */
  ghost predicate BeginsAt(contents: string, p: nat, name: string) {
    && p + |name| + 2 <= |contents| && '@' !in contents[..p]
    && contents[p..p + |name| + 2] == "@" + name + "@" && IsPlaceholder(contents[p..p + |name| + 2])
  }

  /** What the first placeholder of the text becomes; without placeholders the text stays as it is. */
  ghost predicate FirstIsReplaced(contents: string, replaced: string, reverse: seq<(string, string)>) {
    && (forall p: nat, name :: BeginsAt(contents, p, name) ==>
      reverse != [] && reverse[0].1 == "@" + name + "@" && contents[..p] + reverse[0].0 <= replaced)
    && ((forall p, q :: 0 <= p <= q <= |contents| ==> !IsPlaceholder(contents[p..q])) ==>
      reverse == [] && replaced == contents)
  }

  lemma NameFirst(contents: string, p: nat, name: string)
    requires BeginsAt(contents, p, name)
    ensures var ms := FindAll(contents, 0); ms != [] && ms[0] == Match(p, p + |name| + 2, name)
  {
    hide FindAll;
    var w, q := "@" + name + "@", p + |name| + 2;
    forall j | 0 <= j < |name| ensures name[j] == contents[p..q][j + 1] {}
    assert contents[..p] + contents[p..q] + contents[q..] == contents;
    FirstPlaceholder(contents[..p], name, contents[q..]);
    assert contents == contents[..p] + "@" + name + "@" + contents[q..];
  }

  lemma FirstToken(contents: string, p: nat, name: string)
    requires BeginsAt(contents, p, name)
    ensures var t := TableOf(contents);
      && |t.names| == |t.nums| > 0 && t.names[0] == name
      && contents[..p] + Token(t.nums[0]) <= Expand(t, Symbols(t.names, contents, 0))
  {
    hide BeginsAt, FindAll, Symbols, Expand, IndexOf, Token, IsPlaceholder, OfNameChars, Quoted, TableOf, TableFor;
    var t, ms := TableOf(contents), FindAll(contents, 0);
    TableOfIsTable(contents);
    NameFirst(contents, p, name);
    SameSize(t, contents);
    assert p <= |contents| by { NextMatch(t.names, contents, 0); }
    NamesBegin(ms);
    assert IndexOf(t.names, name) == 0 by { assert t.names[0] == name; FirstIndex(t.names); }
    NextMatch(t.names, contents, 0);
    assert contents[0..p] == contents[..p];
    var rest := Symbols(t.names, contents, ms[0].end);
    ExpandMore(t, [], contents[..p], 0);
    CatCat(Raws(contents[..p]), [Name(0)], rest);
    ExpandCat(t, Raws(contents[..p]) + [Name(0)], rest);
    assert [] + (Raws(contents[..p]) + [Name(0)]) == Raws(contents[..p]) + [Name(0)];
    assert Expand(t, []) == "" by { NoSymbols(t); }
  }

  lemma NoSymbols(t: Table)
    ensures Expand(t, []) == ""
  {}

  lemma SameSize(t: Table, contents: string)
    requires IsTable(t, contents)
    ensures |t.names| == |t.nums| && t.names == Appearing(FindAll(contents, 0))
  {}

  lemma FirstIndex(names: seq<string>)
    requires names != []
    ensures IndexOf(names, names[0]) == 0
  {}

  lemma NamesBegin(ms: seq<Match>)
    requires ms != []
    ensures Appearing(ms) != [] && Appearing(ms)[0] == ms[0].name
  {
    assert ms == ms[..1] + ms[1..] && ms[..1][..0] == [];
    assert Appearing(ms[..1]) == [ms[0].name];
    AppearingGrows(ms[..1], ms[1..]);
  }

  lemma WithoutPlaceholders(contents: string)
    requires forall p, q :: 0 <= p <= q <= |contents| ==> !IsPlaceholder(contents[p..q])
    ensures var t := TableOf(contents); t.names == [] && Expand(t, Symbols(t.names, contents, 0)) == contents
  {
    hide IsPlaceholder, FindAll, Symbols, Expand, TableFor, TableOf;
    LeftmostMatch(contents, 0);
    var t := TableOf(contents);
    TableOfIsTable(contents);
    SameSize(t, contents);
    assert Appearing([]) == [];
    NoMatchAhead(t.names, contents, 0);
    assert contents[0..] == contents;
    RawsAlone(t, 0, contents);
  }

  lemma FirstReplaced(contents: string, replaced: string, reverse: seq<(string, string)>)
    requires var t := TableOf(contents); replaced == Expand(t, Symbols(t.names, contents, 0)) && Reverses(t, reverse)
    ensures FirstIsReplaced(contents, replaced, reverse)
  {
    hide Expand, Symbols, TableOf, IsPlaceholder, Token;
    forall p: nat, name | BeginsAt(contents, p, name)
      ensures reverse != [] && reverse[0].1 == "@" + name + "@" && contents[..p] + reverse[0].0 <= replaced
    {
      FirstToken(contents, p, name);
    }
    if forall p, q :: 0 <= p <= q <= |contents| ==> !IsPlaceholder(contents[p..q]) {
      WithoutPlaceholders(contents);
    }
  }

  /** The loop over the matches: the result is the text with every placeholder written as its token. */
  method Substitute(contents: string) returns (replaced: string, reverse: seq<(string, string)>)
    ensures var t := TableOf(contents); replaced == Expand(t, Symbols(t.names, contents, 0)) && Reverses(t, reverse)
    ensures FirstIsReplaced(contents, replaced, reverse)
  {
    hide *;
    var ms := FindAll(contents, 0);
    var forward: map<string, string>, start, counter: nat := map[], 0, 0;
    replaced, reverse := "", [];
    ghost var t, done: seq<Symbol> := Table([], []), [];
    Begin(contents);
    for k := 0 to |ms|
      invariant 0 <= start && Progress(contents, ms, k, start, t, done, replaced)
      invariant TableFor(t, contents) && Dictionaries(t, forward, reverse) && counter == CounterAt(t.nums, |t.nums|)
    {
      MatchAhead(contents, ms, k, start, t, done, replaced);
      var replacement;
      replacement, forward, reverse, counter := ReplacementFor(contents, ms[k].name, forward, reverse, counter, t);
      done := Advance(contents, ms, k, start, t, done, replaced, replacement);
      replaced := replaced + (contents[start..ms[k].start] + replacement);
      start := ms[k].end;
      t := Met(t, contents, ms[k].name);
    }
    Finish(contents, ms, start, t, done, replaced);
    replaced := replaced + contents[start..];
    ReverseOf(t, forward, reverse);
    FirstReplaced(contents, replaced, reverse);
  }

  lemma MetGrows(t: Table, contents: string, name: string)
    ensures var u := Met(t, contents, name);
      t.nums <= u.nums && u.names == if name in t.names then t.names else t.names + [name]
  {}

  lemma MoreSymbols(all: seq<Symbol>, done: seq<Symbol>, a: seq<Symbol>, b: seq<Symbol>, rest: seq<Symbol>)
    requires all == done + (a + (b + rest))
    ensures all == (done + (a + b)) + rest
  {
    CatCat(a, b, rest);
    CatCat(done, a + b, rest);
  }

  lemma LastSegment(t: Table, contents: string, done: seq<Symbol>, start: nat)
    requires start <= |contents| && FindAll(contents, start) == []
    ensures Expand(t, done + Symbols(t.names, contents, start)) == Expand(t, done) + contents[start..]
  {
    hide Expand, FindAll, Symbols, Raws;
    NoMatchAhead(t.names, contents, start);
    ExpandCat(t, done, Raws(contents[start..]));
    RawsAlone(t, 0, contents[start..]);
  }

  /** The reverse dictionary leads from the tokens to the placeholders. */
  ghost predicate Reverses(t: Table, reverse: seq<(string, string)>) {
    && |reverse| == |t.names| == |t.nums|
    && forall k :: 0 <= k < |reverse| ==> reverse[k] == (Token(t.nums[k]), Quoted(t.names[k]))
  }

  lemma ReverseOf(t: Table, forward: map<string, string>, reverse: seq<(string, string)>)
    requires Dictionaries(t, forward, reverse)
    ensures Reverses(t, reverse)
  {}

  /** The position of the name of match k - 1, which no later match changes. */
  ghost function Position(ms: seq<Match>, k: nat, t: Table): (index: nat)
    requires 0 < k <= |ms| && t.names == Appearing(ms[..k]) && |t.names| == |t.nums|
    ensures index < |t.nums| && t.names[index] == ms[k - 1].name
    ensures index == IndexOf(Appearing(ms), ms[k - 1].name)
  {
    AppearingIsDistinct(ms);
    AppearingIsDistinct(ms[..k]);
    AppearingGrows(ms[..k], ms[k..]);
    assert ms[..k] + ms[k..] == ms && ms[..k][k - 1] == ms[k - 1];
    var index := IndexOf(t.names, ms[k - 1].name);
    IndexOfUnique(Appearing(ms), index);
    index
  }

  // ---------------------------------------------------------------- the whole round trip

  ghost predicate AllKnown(names: seq<string>, ms: seq<Match>) {
    forall k :: 0 <= k < |ms| ==> ms[k].name in names
  }

  lemma KnownTail(names: seq<string>, m: Match, ms: seq<Match>)
    requires AllKnown(names, [m] + ms)
    ensures m.name in names && AllKnown(names, ms)
  {
    assert ([m] + ms)[0] == m;
    forall k | 0 <= k < |ms| ensures ms[k].name in names { assert ([m] + ms)[k + 1] == ms[k]; }
  }

  lemma {:induction false} ShowSymbols(t: Table, s: string, i: nat)
    requires i <= |s| && AllKnown(t.names, FindAll(s, i))
    ensures Show(t, Symbols(t.names, s, i)) == s[i..] && Below(|t.names|, Symbols(t.names, s, i))
    decreases |s| - i
  {
    hide MatchLength, Quoted, FindAll, Symbols, AllKnown, Show;
    if i == |s| {
      NothingShown(t, s);
    } else if MatchLength(s[i..]) == 0 {
      NoMatchAt(t.names, s, i);
      ShowSymbols(t, s, i + 1);
      ShowMore(t, Raw(s[i]), Symbols(t.names, s, i + 1));
      assert s[i..] == [s[i]] + s[i + 1..];
    } else {
      var n := MatchLength(s[i..]);
      MatchAt(t.names, s, i);
      MatchHere(s, i, n);
      var name := s[i + 1..i + n - 1];
      KnownTail(t.names, Match(i, i + n, name), FindAll(s, i + n));
      ShowSymbols(t, s, i + n);
      ShowMore(t, Name(IndexOf(t.names, name)), Symbols(t.names, s, i + n));
      assert s[i..] == s[i..i + n] + s[i + n..];
    }
  }

  lemma NothingShown(t: Table, s: string)
    ensures Symbols(t.names, s, |s|) == [] && Show(t, []) == ""
  {}

  /** The tokens are pairwise different and occur nowhere in the text. */
  lemma TokensAreFresh(contents: string)
    ensures var nums := TableOf(contents).nums;
      && (forall i, j :: 0 <= i < j < |nums| ==> Token(nums[i]) != Token(nums[j]))
      && forall i :: 0 <= i < |nums| ==> !Contains(contents, Token(nums[i]))
  {
    hide Token, Contains, TableOf;
    var t := TableOf(contents);
    TableOfIsTable(contents);
    forall i, j | 0 <= i < j < |t.nums| ensures Token(t.nums[i]) != Token(t.nums[j]) {
      if Token(t.nums[i]) == Token(t.nums[j]) { TokensArePrefixFree(t.nums[i], t.nums[j], "", ""); }
    }
    forall i | 0 <= i < |t.nums| ensures !Contains(contents, Token(t.nums[i])) {
      assert FirstFree(contents, CounterAt(t.nums, i), t.nums[i]);
    }
  }

  /** Up to the last number in use, the numbers are exactly those whose tokens are not in the text. */
  lemma NumbersExactly(contents: string, m: nat)
    ensures var nums := TableOf(contents).nums;
      && (forall i, j :: 0 <= i < j < |nums| ==> nums[i] < nums[j])
      && (nums != [] && m <= nums[|nums| - 1] ==> (m in nums <==> !Contains(contents, Token(m))))
  {
    hide Token, Contains, TableOf, AllFree, FirstFree, Appearing, FindAll, Distinct;
    var t := TableOf(contents);
    TableOfIsTable(contents);
    TokensAreFresh(contents);
    if t.nums != [] && m <= t.nums[|t.nums| - 1] { NumbersUpTo(contents, t.nums, |t.nums|, m); }
  }

  lemma {:induction false} NumbersUpTo(contents: string, nums: seq<nat>, n: nat, m: nat)
    requires AllFree(contents, nums) && n <= |nums| && m < CounterAt(nums, n)
    ensures m in nums || Contains(contents, Token(m))
  {
    hide Token, Contains;
    assert FirstFree(contents, CounterAt(nums, n - 1), nums[n - 1]);
    if m < CounterAt(nums, n - 1) {
      NumbersUpTo(contents, nums, n - 1, m);
    } else if m == nums[n - 1] {
      assert nums[n - 1] in nums;
    }
  }

  lemma TableIsUsable(t: Table, contents: string)
    requires IsTable(t, contents)
    ensures var g := Symbols(t.names, contents, 0); Usable(t, g) && Show(t, g) == contents
  {
    hide FirstFree, FindAll, Symbols, Show;
    AppearingIsDistinct(FindAll(contents, 0));
    ShowSymbols(t, contents, 0);
    assert contents[0..] == contents;
    forall i | 0 <= i < |t.names| ensures '#' !in t.names[i] { assert OfNameChars(t.names[i]); }
  }

  /** The loop over the reverse dictionary. */
  method PutNamesBack(formatted: string, reverse: seq<(string, string)>, ghost t: Table) returns (contents: string)
    requires Reverses(t, reverse)
    ensures contents == Restore(t, |t.nums|, formatted)
  {
    hide Token, Quoted, Replace;
    contents := formatted;
    for k := 0 to |reverse|
      invariant contents == Restore(t, k, formatted)
    {
      TokenShape(t.nums[k]);
      contents := Replace(contents, reverse[k].0, reverse[k].1);
    }
  }

  /** With a formatter that changes nothing, the file comes back exactly when no literal segment contains a
      token, and always when no literal has two adjacent underscores. */
  method RoundTrip(contents: string) returns (result: string)
    ensures var t := TableOf(contents); var g := Symbols(t.names, contents, 0);
      && (result == contents <==> LiteralsClean(t, g))
      && (NoDoubleUnderscore(g) ==> result == contents)
  {
    hide *;
    var replaced, reverse := Substitute(contents);
    ghost var t := TableOf(contents);
    ghost var g := Symbols(t.names, contents, 0);
    result := PutNamesBack(replaced, reverse, t);
    TableOfIsTable(contents);
    TableIsUsable(t, contents);
    RoundTripExactly(t, g);
    StagesExactly(t, g);
    if NoDoubleUnderscore(g) { EveryStageIsGenuine(t, g); }
  }

  lemma EveryStageIsGenuine(t: Table, g: seq<Symbol>)
    requires NoDoubleUnderscore(g)
    ensures AllStagesGenuine(t, g)
  {
    forall i | 0 <= i < |t.nums| ensures OnlyGenuine(t, i, g) { NoDoubleUnderscoreSuffices(t, i, g); }
  }

  /** Some condition is needed: in this file the `##` that ends the second token and the literal
      behind it make up the first token. */
  lemma SomethingIsLost()
    ensures var s := "@a@@b@__0##"; var t := TableOf(s); Restore(t, |t.nums|, Expand(t, Symbols(t.names, s, 0))) != s
  {
    hide *;
    var s := "@a@@b@__0##";
    var t := TableOf(s);
    TableOfIsTable(s);
    LostSymbols(t, s);
    var g := Symbols(t.names, s, 0);
    TableIsUsable(t, s);
    RoundTripExactly(t, g);
    LostStage(t);
  }

  lemma {:induction false} ContainsStarts(s: string, t: string) returns (p: nat)
    requires t != [] && Contains(s, t)
    ensures p + |t| <= |s| && s[p] == t[0]
  {
    if t <= s {
      p := 0;
    } else {
      p := ContainsStarts(s[1..], t);
      p := p + 1;
    }
  }

  lemma ShortPlaceholder(s: string, i: nat)
    requires i + 3 <= |s| && s[i] == '@' && NameStart(s[i + 1]) && s[i + 2] == '@'
    ensures MatchLength(s[i..]) == 3
  {
    assert s[i..][1..][1..] == s[i + 2..];
  }

  lemma NoPlaceholder(names: seq<string>, s: string, i: nat)
    requires i <= |s| && '@' !in s[i..]
    ensures FindAll(s, i) == [] && Symbols(names, s, i) == Raws(s[i..])
    decreases |s| - i
  {
    if i < |s| {
      assert s[i] == s[i..][0] && s[i..][1..] == s[i + 1..];
      NoPlaceholder(names, s, i + 1);
    }
  }

  lemma LostSymbols(t: Table, s: string)
    requires IsTable(t, s) && s == "@a@@b@__0##"
    ensures |t.nums| > 0 && t.nums[0] == 0
    ensures Symbols(t.names, s, 0) == [Name(0), Name(1)] + Raws("__0##")
  {
    hide Symbols, FindAll, MatchLength, Contains, Token, Raws, IndexOf, Appearing;
    ShortPlaceholder(s, 0);
    ShortPlaceholder(s, 3);
    MatchAt(t.names, s, 0);
    MatchAt(t.names, s, 3);
    assert s[6..] == "__0##" && s[1..2] == "a" && s[4..5] == "b";
    NoPlaceholder(t.names, s, 6);
    LostNames(Match(0, 3, "a"), Match(3, 6, "b"));
    LostNumber(t, s);
  }

  lemma LostNames(m: Match, n: Match)
    requires m.name == "a" && n.name == "b"
    ensures Appearing([m] + ([n] + [])) == ["a", "b"]
    ensures IndexOf(["a", "b"], "a") == 0 && IndexOf(["a", "b"], "b") == 1
  {
    var ms := [m, n];
    assert [m] + ([n] + []) == ms && ms[..1] == [m] && ms[..1][..0] == [];
    assert Appearing([m]) == ["a"];
    assert ["a", "b"][1..] == ["b"] && "a"[0] != "b"[0];
  }

  lemma LostNumber(t: Table, s: string)
    requires TableFor(t, s) && |t.names| > 0 && s == "@a@@b@__0##"
    ensures t.nums[0] == 0
  {
    hide Contains, Token;
    assert FirstFree(s, CounterAt(t.nums, 0), t.nums[0]);
    if Contains(s, Token(0)) {
      TokenShape(0);
      var p := ContainsStarts(s, Token(0));
    }
  }

  lemma LostStage(t: Table)
    requires |t.nums| > 0 && t.nums[0] == 0
    ensures !AllStagesGenuine(t, [Name(0), Name(1)] + Raws("__0##"))
  {
    hide OnlyGenuine, Raws, Undo, Show, Token;
    var g, rest := [Name(0), Name(1)] + Raws("__0##"), Raws("__0##");
    assert g[1..] == [Name(1)] + rest && g[1..][1..] == rest;
    RawsAlone(t, 0, "__0##");
    TokenZero();
    assert "##" + "__0##" == "##__0##";
    NotGenuineHere(t, 0, g[1..]);
    NotGenuineLater(t, 0, g);
  }

  lemma TokenZero()
    ensures Token(0) == "##__0##"
  {}

  lemma NotGenuineHere(t: Table, i: nat, g: seq<Symbol>)
    requires g != [] && g[0].Name? && g[0].k > i && Token(NumOf(t, i)) <= "##" + StageText(t, i, g[1..])
    ensures !OnlyGenuine(t, i, g)
  {}

  lemma NotGenuineLater(t: Table, i: nat, g: seq<Symbol>)
    requires g != [] && !OnlyGenuine(t, i, g[1..])
    ensures !OnlyGenuine(t, i, g)
  {}
}
