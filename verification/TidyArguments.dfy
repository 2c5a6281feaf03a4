/** `get_index`, `remove_items` and `remove_items_plus_one` of cpp/scripts/run-clang-tidy.py, which delete
    options, or options with their arguments, from a command line in place. */
module TidyArguments {

  function Without(args: seq<string>, drop: string -> bool): seq<string> {
    if args == [] then []
    else if drop(args[0]) then Without(args[1..], drop)
    else [args[0]] + Without(args[1..], drop)
  }

  /** From right to left: an option takes the head of what is left behind it. */
  function Stripped(args: seq<string>, options: seq<string>): seq<string> {
    if args == [] then []
    else
      var rest := Stripped(args[1..], options);
      if args[0] !in options then [args[0]] + rest else if rest == [] then [] else rest[1..]
  }

  /** `s.startswith(item + "=")` for one of the options. */
  predicate HasValue(s: string, options: seq<string>) {
    exists k :: 0 <= k < |options| && options[k] + "=" <= s
  }

  // ---------------------------------------------------------------- compared with a parser

  /** From left to right: an option takes the next word, whatever it is. */
  function Parsed(args: seq<string>, options: seq<string>): seq<string> {
    if args == [] then []
    else if args[0] !in options then [args[0]] + Parsed(args[1..], options)
    else if |args| == 1 then []
    else Parsed(args[2..], options)
  }

  /** From the first place where the parser meets an option whose argument is itself an option, the parser
      keeps nothing. */
  predicate KeepsNothingAfterAPair(args: seq<string>, options: seq<string>) {
    if args == [] then true
    else if args[0] !in options then KeepsNothingAfterAPair(args[1..], options)
    else if |args| == 1 then true
    else if args[1] in options then Parsed(args, options) == []
    else KeepsNothingAfterAPair(args[2..], options)
  }

  lemma {:induction false} StripsAtLeastAsMuch(args: seq<string>, options: seq<string>)
    ensures |Stripped(args, options)| <= |Parsed(args, options)|
  {
    if args != [] {
      StripsAtLeastAsMuch(args[1..], options);
      if |args| > 1 {
        StripsAtLeastAsMuch(args[2..], options);
        assert args[1..][1..] == args[2..];
      }
    }
  }

  lemma {:induction false} AgreesExactly(args: seq<string>, options: seq<string>)
    ensures Stripped(args, options) == Parsed(args, options) <==> KeepsNothingAfterAPair(args, options)
  {
    if args != [] {
      if args[0] !in options {
        AgreesExactly(args[1..], options);
        var x, y := Stripped(args[1..], options), Parsed(args[1..], options);
        assert ([args[0]] + x)[1..] == x && ([args[0]] + y)[1..] == y;
      } else if |args| > 1 {
        AgreesExactly(args[2..], options);
        StripsAtLeastAsMuch(args[2..], options);
        assert args[1..][1..] == args[2..];
      }
    }
  }

  lemma {:induction false} AgreesWithoutAdjacentOptions(args: seq<string>, options: seq<string>)
    requires forall i :: 0 <= i < |args| - 1 ==> !(args[i] in options && args[i + 1] in options)
    ensures Stripped(args, options) == Parsed(args, options) && KeepsNothingAfterAPair(args, options)
  {
    if args != [] {
      AgreesWithoutAdjacentOptions(args[1..], options);
      if |args| > 1 {
        AgreesWithoutAdjacentOptions(args[2..], options);
        assert args[1..][1..] == args[2..];
        assert args[0] in options ==> args[0 + 1] !in options;
      }
    }
  }

  /** Two adjacent options take two words, where the parser takes the second option for the argument. */
  lemma AdjacentOptionsTakeMore()
    ensures Stripped(["-c", "-o", "a", "b", "d"], ["-c", "-o"]) == ["d"]
    ensures Parsed(["-c", "-o", "a", "b", "d"], ["-c", "-o"]) == ["a", "b", "d"]
  {
    var args, options := ["-c", "-o", "a", "b", "d"], ["-c", "-o"];
    assert args[1..] == ["-o", "a", "b", "d"] && args[1..][1..] == args[2..] == ["a", "b", "d"];
    assert "-c"[0] != "a"[0] && "-c"[0] != "b"[0] && "-c"[0] != "d"[0] && "-o"[0] == "-c"[0];
    assert "-c" == options[0] && "-o" == options[1];
    PlainWords(["a", "b", "d"], options);
  }

  lemma {:induction false} PlainWords(args: seq<string>, options: seq<string>)
    requires forall i :: 0 <= i < |args| ==> args[i] !in options
    ensures Stripped(args, options) == args && Parsed(args, options) == args
  {
    if args != [] {
      PlainWords(args[1..], options);
      assert args == [args[0]] + args[1..];
    }
  }

  // ---------------------------------------------------------------- positions

  ghost predicate Positions(indices: seq<nat>, args: seq<string>, found: string -> bool) {
    && (forall i, j :: 0 <= i < j < |indices| ==> indices[i] < indices[j])
    && (forall k :: 0 <= k < |indices| ==> indices[k] < |args| && found(args[indices[k]]))
    && (forall p :: 0 <= p < |args| && found(args[p]) ==> p in indices)
  }

  /** `get_index`, sorted. */
  method GetIndex(args: seq<string>, found: string -> bool) returns (indices: seq<nat>)
    ensures Positions(indices, args, found)
  {
    indices := [];
    for p := 0 to |args|
      invariant forall k :: 0 <= k < |indices| ==> indices[k] < p && found(args[indices[k]])
      invariant forall i, j :: 0 <= i < j < |indices| ==> indices[i] < indices[j]
      invariant forall q :: 0 <= q < p && found(args[q]) ==> q in indices
    {
      if found(args[p]) { indices := indices + [p]; }
    }
  }

  /** Between the k-th position and the next one, or the end, there is none. */
  ghost predicate NoneBetween(args: seq<string>, found: string -> bool, from: nat, to: nat) {
    from <= to <= |args| && forall p :: from <= p < to ==> !found(args[p])
  }

  /** The word at which the k-th position stands; past the last one, the end. */
  function At(indices: seq<nat>, args: seq<string>, k: nat): nat {
    if k < |indices| then indices[k] else |args|
  }

  lemma NextPosition(indices: seq<nat>, args: seq<string>, found: string -> bool, k: nat)
    requires Positions(indices, args, found) && k <= |indices|
    ensures NoneBetween(args, found, if k == 0 then 0 else indices[k - 1] + 1, At(indices, args, k))
    ensures k < |indices| ==> indices[k] < |args| && found(args[indices[k]])
  {
    var from, to := if k == 0 then 0 else indices[k - 1] + 1, At(indices, args, k);
    forall j | 0 <= j < |indices| ensures !(from <= indices[j] < to) {}
    assert forall p :: from <= p < to ==> p !in indices;
  }

  function Deleted(args: seq<string>, i: nat): seq<string>
    requires i < |args|
  {
    args[..i] + args[i + 1..]
  }

  lemma {:induction false} StrippedSkips(u: seq<string>, v: seq<string>, options: seq<string>)
    requires forall p :: 0 <= p < |u| ==> u[p] !in options
    ensures Stripped(u + v, options) == u + Stripped(v, options)
  {
    if u == [] {
      assert u + v == v;
    } else {
      StrippedSkips(u[1..], v, options);
      assert (u + v)[1..] == u[1..] + v && u == [u[0]] + u[1..];
    }
  }

  lemma {:induction false} WithoutSkips(u: seq<string>, v: seq<string>, drop: string -> bool)
    requires forall p :: 0 <= p < |u| ==> !drop(u[p])
    ensures Without(u + v, drop) == u + Without(v, drop)
  {
    if u == [] {
      assert u + v == v;
    } else {
      WithoutSkips(u[1..], v, drop);
      assert (u + v)[1..] == u[1..] + v && u == [u[0]] + u[1..];
    }
  }

  /** When everything from p on is done, deleting the word at i does everything from i on. */
  lemma DeletesOne(before: seq<string>, drop: string -> bool, i: nat, p: nat)
    requires i < |before| && drop(before[i]) && NoneBetween(before, drop, i + 1, p)
    ensures var args := before[..p] + Without(before[p..], drop);
      i < |args| && before[..i] + Without(before[i..], drop) == Deleted(args, i)
  {
    var x, w, y, z := before[..i], before[i], before[i + 1..p], Without(before[p..], drop);
    hide Deleted;
    WithoutSkips(y, before[p..], drop);
    Parts(before, i, p, z);
    DeletedAt(x, w, y + z);
    assert Without([w] + (y + before[p..]), drop) == y + z by {
      assert ([w] + (y + before[p..]))[1..] == y + before[p..];
    }
  }

  lemma Parts(before: seq<string>, i: nat, p: nat, z: seq<string>)
    requires i < p <= |before|
    ensures before[..p] + z == before[..i] + ([before[i]] + (before[i + 1..p] + z))
    ensures before[i..] == [before[i]] + (before[i + 1..p] + before[p..])
  {}

  lemma DeletedAt(x: seq<string>, w: string, y: seq<string>)
    ensures Deleted(x + ([w] + y), |x|) == x + y
  {}

  /** The deletions for one option at i. */
  function OptionDeleted(args: seq<string>, i: nat): seq<string>
    requires i < |args|
  {
    Deleted(if i < |args| - 1 then Deleted(args, i + 1) else args, i)
  }

  lemma DeletesOption(before: seq<string>, options: seq<string>, i: nat, p: nat)
    requires i < |before| && before[i] in options && NoneBetween(before, s => s in options, i + 1, p)
    ensures var args := before[..p] + Stripped(before[p..], options);
      i < |args| && before[..i] + Stripped(before[i..], options) == OptionDeleted(args, i)
  {
    var x, w, y, z := before[..i], before[i], before[i + 1..p], Stripped(before[p..], options);
    hide Deleted, OptionDeleted;
    StrippedSkips(y, before[p..], options);
    Parts(before, i, p, z);
    OptionDeletedAt(x, w, y + z);
    assert Stripped([w] + (y + before[p..]), options) == (if y + z == [] then [] else (y + z)[1..]) by {
      assert ([w] + (y + before[p..]))[1..] == y + before[p..];
    }
  }

  lemma OptionDeletedAt(x: seq<string>, w: string, y: seq<string>)
    ensures OptionDeleted(x + ([w] + y), |x|) == x + if y == [] then [] else y[1..]
  {
    var args := x + ([w] + y);
    if y != [] {
      assert Deleted(args, |x| + 1) == x + ([w] + y[1..]);
      DeletedAt(x, w, y[1..]);
    } else {
      DeletedAt(x, w, y);
    }
  }

  /** The words when everything from the k-th position on is done. */
  ghost function DoneFrom(indices: seq<nat>, before: seq<string>, drop: string -> bool, k: nat): seq<string> {
    var p := At(indices, before, k);
    if p <= |before| then before[..p] + Without(before[p..], drop) else []
  }

  ghost function StrippedFrom(indices: seq<nat>, before: seq<string>, options: seq<string>, k: nat): seq<string> {
    var p := At(indices, before, k);
    if p <= |before| then before[..p] + Stripped(before[p..], options) else []
  }

  lemma DeleteStep(indices: seq<nat>, before: seq<string>, drop: string -> bool, n: nat)
    requires Positions(indices, before, drop) && n < |indices|
    ensures var args := DoneFrom(indices, before, drop, n + 1);
      indices[n] < |args| && DoneFrom(indices, before, drop, n) == Deleted(args, indices[n])
  {
    hide Positions, Deleted, Without, NoneBetween;
    NextPosition(indices, before, drop, n);
    NextPosition(indices, before, drop, n + 1);
    DeletesOne(before, drop, indices[n], At(indices, before, n + 1));
    Bounds(before, drop, indices[n] + 1, At(indices, before, n + 1));
  }

  lemma StripStep(indices: seq<nat>, before: seq<string>, options: seq<string>, n: nat)
    requires Positions(indices, before, s => s in options) && n < |indices|
    ensures var args := StrippedFrom(indices, before, options, n + 1);
      indices[n] < |args| && StrippedFrom(indices, before, options, n) == OptionDeleted(args, indices[n])
  {
    hide Positions, OptionDeleted, Stripped, NoneBetween;
    NextPosition(indices, before, s => s in options, n);
    NextPosition(indices, before, s => s in options, n + 1);
    DeletesOption(before, options, indices[n], At(indices, before, n + 1));
    Bounds(before, s => s in options, indices[n] + 1, At(indices, before, n + 1));
  }

  lemma Bounds(args: seq<string>, found: string -> bool, from: nat, to: nat)
    requires NoneBetween(args, found, from, to)
    ensures from <= to <= |args|
  {}

  lemma Ends(indices: seq<nat>, before: seq<string>, drop: string -> bool, options: seq<string>)
    requires Positions(indices, before, drop)
    ensures DoneFrom(indices, before, drop, |indices|) == before
    ensures StrippedFrom(indices, before, options, |indices|) == before
    ensures DoneFrom(indices, before, drop, 0) == Without(before, drop)
    ensures (forall s :: drop(s) <==> s in options) ==>
      StrippedFrom(indices, before, options, 0) == Stripped(before, options)
  {
    NextPosition(indices, before, drop, 0);
    var p := At(indices, before, 0);
    assert before[..p] + before[p..] == before;
    WithoutSkips(before[..p], before[p..], drop);
    if forall s :: drop(s) <==> s in options { StrippedSkips(before[..p], before[p..], options); }
  }

  // ---------------------------------------------------------------- which words are left

  /** A word begins with an option and an equals sign, character by character. */
  lemma HasValueExactly(s: string, options: seq<string>)
    ensures HasValue(s, options) <==>
      exists k :: 0 <= k < |options| && |options[k]| < |s| && s[..|options[k]|] == options[k] && s[|options[k]|] == '='
  {
    forall k | 0 <= k < |options|
      ensures options[k] + "=" <= s <==> |options[k]| < |s| && s[..|options[k]|] == options[k] && s[|options[k]|] == '='
    {
      var o := options[k];
      if o + "=" <= s { assert s[..|o| + 1] == o + "=" && s[..|o| + 1][..|o|] == o && s[..|o| + 1][|o|] == '='; }
      if |o| < |s| && s[..|o|] == o && s[|o|] == '=' { assert s[..|o| + 1] == o + "="; }
    }
  }

  lemma {:induction false} WithoutSnoc(args: seq<string>, w: string, drop: string -> bool)
    ensures Without(args + [w], drop) == Without(args, drop) + if drop(w) then [] else [w]
  {
    if args == [] {
      assert args + [w] == [w] && [w][1..] == [];
    } else {
      WithoutSnoc(args[1..], w, drop);
      assert (args + [w])[1..] == args[1..] + [w];
    }
  }

  /** The words that are not dropped stay, in their order. */
  lemma {:induction false} WithoutExactly(args: seq<string>, drop: string -> bool) returns (kept: seq<nat>)
    ensures Positions(kept, args, s => !drop(s)) && |kept| == |Without(args, drop)|
    ensures forall k :: 0 <= k < |kept| ==> Without(args, drop)[k] == args[kept[k]]
  {
    hide Without;
    kept := [];
    if args == [] {
      assert Without(args, drop) == [] by { NothingLeft(args, drop); }
    } else {
      var n := |args| - 1;
      var before, w := args[..n], args[n];
      assert args == before + [w];
      WithoutSnoc(before, w, drop);
      kept := WithoutExactly(before, drop);
      if !drop(w) { kept := kept + [n]; }
    }
  }

  lemma NothingLeft(args: seq<string>, drop: string -> bool)
    requires args == []
    ensures Without(args, drop) == []
  {}

  lemma WordsLeft(args: seq<string>, drop: string -> bool)
    ensures forall s :: s in Without(args, drop) <==> s in args && !drop(s)
  {
    var kept := WithoutExactly(args, drop);
    forall s ensures s in Without(args, drop) <==> s in args && !drop(s) {
      if s in args && !drop(s) {
        var p :| 0 <= p < |args| && args[p] == s;
        assert p in kept;
      }
    }
  }

  /** An option goes with the word behind it, if there is one, when that word is no option. */
  lemma OptionTakesNext(u: seq<string>, o: string, w: string, v: seq<string>, options: seq<string>)
    requires (forall p :: 0 <= p < |u| ==> u[p] !in options) && o in options && w !in options
    ensures Stripped(u + [o, w] + v, options) == u + Stripped(v, options)
    ensures Stripped(u + [o], options) == u
  {
    var pair := [o, w] + v;
    assert u + [o, w] + v == u + pair && pair[1..] == [w] + v && pair[1..][1..] == v;
    StrippedSkips(u, pair, options);
    assert ([w] + Stripped(v, options))[1..] == Stripped(v, options);
    StrippedSkips(u, [o], options);
    assert [o][1..] == [] && u + [] == u;
  }

  // ---------------------------------------------------------------- the loops

  class CommandLine {
    var args: seq<string>

    constructor (words: seq<string>)
      ensures args == words
    {
      args := words;
    }

    /** `del arr[i]` */
    method Delete(i: nat)
      requires i < |args|
      modifies this
      ensures args == Deleted(old(args), i) && |args| == |old(args)| - 1
    {
      args := args[..i] + args[i + 1..];
    }

    /** `for i in sorted(indices, reverse=True): del arr[i]` */
    method DeleteAll(found: string -> bool)
      modifies this
      ensures args == Without(old(args), found)
    {
      hide Positions, Without, Deleted, DoneFrom, StrippedFrom;
      var indices := GetIndex(args, found);
      ghost var before := args;
      Ends(indices, before, found, []);
      for n := |indices| downto 0
        invariant args == DoneFrom(indices, before, found, n)
      {
        DeleteStep(indices, before, found, n);
        Delete(indices[n]);
      }
    }

    /** The first loop of `remove_items_plus_one`. Its indices were found before anything was deleted, but
        every deletion is behind the indices that are still to come. */
    method DeleteWithArguments(options: seq<string>)
      modifies this
      ensures args == Stripped(old(args), options)
    {
      hide Positions, Stripped, DoneFrom, StrippedFrom;
      var indices := GetIndex(args, s => s in options);
      ghost var before := args;
      Ends(indices, before, s => s in options, options);
      for n := |indices| downto 0
        invariant args == StrippedFrom(indices, before, options, n)
      {
        StripStep(indices, before, options, n);
        ghost var words := args;
        var i := indices[n];
        if i < |args| - 1 { Delete(i + 1); }
        Delete(i);
        assert args == OptionDeleted(words, i);
      }
    }

    method RemoveItems(options: seq<string>)
      modifies this
      ensures args == Without(old(args), s => s in options)
      ensures forall s :: s in args <==> s in old(args) && s !in options
    {
      DeleteAll(s => s in options);
      WordsLeft(old(args), s => s in options);
    }

    method RemoveItemsPlusOne(options: seq<string>)
      modifies this
      ensures args == Without(Stripped(old(args), options), s => HasValue(s, options))
      ensures KeepsNothingAfterAPair(old(args), options) ==>
        args == Without(Parsed(old(args), options), s => HasValue(s, options))
      ensures forall s :: s in args <==>
        && s in Stripped(old(args), options)
        && !exists k ::
          0 <= k < |options| && |options[k]| < |s| && s[..|options[k]|] == options[k] && s[|options[k]|] == '='
    {
      hide HasValue, Stripped, Parsed, KeepsNothingAfterAPair;
      DeleteWithArguments(options);
      AgreesExactly(old(args), options);
      DeleteAll(s => HasValue(s, options));
      WordsLeft(Stripped(old(args), options), s => HasValue(s, options));
      forall s ensures HasValue(s, options) <==>
        exists k ::
          0 <= k < |options| && |options[k]| < |s| && s[..|options[k]|] == options[k] && s[|options[k]|] == '='
      {
        HasValueExactly(s, options);
      }
    }
  }
}
