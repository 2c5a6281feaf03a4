/** The substitution that ci/checks/clang_format_with_cmake_placeholders.py makes around clang-format:
    every `@name@` is replaced by a fresh token `##__n##`, and afterwards every token by its name. */
module PlaceholderModel {
  // ---------------------------------------------------------------- the regular expression

  predicate NameStart(c: char) { 'a' <= c <= 'z' || 'A' <= c <= 'Z' || c == '_' }

  predicate NameChar(c: char) { NameStart(c) || '0' <= c <= '9' }

  function RunLength(s: string): (n: nat)
    ensures n <= |s| && (forall i :: 0 <= i < n ==> NameChar(s[i])) && (n < |s| ==> !NameChar(s[n]))
  {
    if s == [] || !NameChar(s[0]) then 0 else 1 + RunLength(s[1..])
  }

  /** The length of the placeholder that s starts with, or 0. */
  function MatchLength(s: string): (n: nat)
    ensures n > 0 ==> 3 <= n <= |s| && s[0] == '@' && s[n - 1] == '@' && forall i :: 1 <= i < n - 1 ==> NameChar(s[i])
  {
    if |s| < 3 || s[0] != '@' || !NameStart(s[1]) then 0
    else
      var n := RunLength(s[1..]);
      if 1 + n < |s| && s[1 + n] == '@' then n + 2 else 0
  }

  datatype Match = Match(start: nat, end: nat, name: string)

  /** `re.finditer`: the placeholders from position i on, leftmost first and without overlap. */
  function FindAll(s: string, i: nat): seq<Match>
    requires i <= |s|
    decreases |s| - i
  {
    if i == |s| then []
    else
      var n := MatchLength(s[i..]);
      if n == 0 then FindAll(s, i + 1) else [Match(i, i + n, s[i + 1..i + n - 1])] + FindAll(s, i + n)
  }

  // ---------------------------------------------------------------- tokens

  function Digit(n: nat): char
    requires n < 10
  {
    ['0', '1', '2', '3', '4', '5', '6', '7', '8', '9'][n]
  }

  function Digits(n: nat): string {
    if n < 10 then [Digit(n)] else Digits(n / 10) + [Digit(n % 10)]
  }

  function Token(n: nat): string { "##__" + Digits(n) + "##" }

  /** `contents.find(t) != -1` */
  predicate Contains(s: string, t: string) {
    t <= s || (s != [] && Contains(s[1..], t))
  }

  /** `s.replace(t, r)` */
  function Replace(s: string, t: string, r: string): string
    requires t != []
  {
    if s == [] then []
    else if t <= s then r + Replace(s[|t|..], t, r)
    else [s[0]] + Replace(s[1..], t, r)
  }

  predicate OfNameChars(name: string) { forall j :: 0 <= j < |name| ==> NameChar(name[j]) }

  function Quoted(name: string): string { "@" + name + "@" }

  // ---------------------------------------------------------------- the text as a sequence of symbols

  /** The names in the order of their first appearance, with the numbers of their tokens. */
  datatype Table = Table(names: seq<string>, nums: seq<nat>)

  /** A character of the text, or a placeholder given by its position in the table. */
  datatype Symbol = Raw(c: char) | Name(k: nat)

  function NameOf(t: Table, k: nat): string { if k < |t.names| then t.names[k] else "" }

  function NumOf(t: Table, k: nat): nat { if k < |t.nums| then t.nums[k] else 0 }

  ghost function ShowOne(t: Table, x: Symbol): string {
    match x case Raw(c) => [c] case Name(k) => Quoted(NameOf(t, k))
  }

  ghost function ExpandOne(t: Table, x: Symbol): string {
    match x case Raw(c) => [c] case Name(k) => Token(NumOf(t, k))
  }

  /** The text in which every placeholder is written as its name. */
  ghost function Show(t: Table, x: seq<Symbol>): string {
    if x == [] then [] else ShowOne(t, x[0]) + Show(t, x[1..])
  }

  /** The text in which every placeholder is written as its token. */
  ghost function Expand(t: Table, x: seq<Symbol>): string {
    if x == [] then [] else ExpandOne(t, x[0]) + Expand(t, x[1..])
  }

  /** What the table promises about the text that it was made for: distinct names, increasing numbers,
      and each number the first one after the previous whose token does not occur in the text. */
  ghost predicate TableFor(t: Table, contents: string) {
    && |t.names| == |t.nums|
    && Distinct(t.names)
    && (forall name :: name in t.names ==> OfNameChars(name))
    && Increasing(t.nums)
    && AllFree(contents, t.nums)
  }

  ghost predicate Distinct(names: seq<string>) {
    forall i, j :: 0 <= i < j < |names| ==> names[i] != names[j]
  }

  ghost predicate Increasing(nums: seq<nat>) {
    forall i, j :: 0 <= i < j < |nums| ==> nums[i] < nums[j]
  }

  ghost predicate AllFree(contents: string, nums: seq<nat>) {
    forall i :: 0 <= i < |nums| ==> FirstFree(contents, CounterAt(nums, i), nums[i])
  }

  /** The counter when name i is met first. */
  function CounterAt(nums: seq<nat>, i: nat): nat { if 0 < i <= |nums| then nums[i - 1] + 1 else 0 }

  ghost predicate FirstFree(contents: string, from: nat, n: nat) {
    from <= n && !Contains(contents, Token(n)) && forall m :: from <= m < n ==> Contains(contents, Token(m))
  }

  function IndexOf(names: seq<string>, name: string): (k: nat)
    ensures name in names ==> k < |names| && names[k] == name
  {
    if names == [] || names[0] == name then 0 else 1 + IndexOf(names[1..], name)
  }

  /** The names of some matches in the order of their first appearance. */
  function Appearing(ms: seq<Match>): seq<string> {
    if ms == [] then []
    else
      var before, name := Appearing(ms[..|ms| - 1]), ms[|ms| - 1].name;
      if name in before then before else before + [name]
  }

  /** The contents from position i on as symbols. */
  ghost function Symbols(names: seq<string>, s: string, i: nat): seq<Symbol>
    requires i <= |s|
    decreases |s| - i
  {
    if i == |s| then []
    else
      var n := MatchLength(s[i..]);
      if n == 0 then [Raw(s[i])] + Symbols(names, s, i + 1)
      else [Name(IndexOf(names, s[i + 1..i + n - 1]))] + Symbols(names, s, i + n)
  }
}
