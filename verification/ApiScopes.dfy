/** `infer_cpp_context` of fern/scripts/generate_api_reference.py over the tokens that its regular
    expression finds: the scopes that are still open at the end of a piece of C++ source. */
module ApiScopes {
  import opened Common

  datatype Token =
    | Namespace(name: string)
    | Compound(isClass: bool, name: string)
    | Access(access: string)
    | Open
    | Close

  function DefaultAccess(isClass: bool): string { if isClass then "private" else "public" }

  /** An entry of `scope_stack`; access is None for a namespace. */
  datatype Scope = Scope(isCompound: bool, name: string, depth: nat, access: Option<string>)

  /** A brace that is still open. */
  datatype Frame = Plain | Space(name: string) | Class(name: string, access: string)

  // ---------------------------------------------------------------- the open braces

  function Relabel(frames: seq<Frame>, mark: Option<string>): seq<Frame> {
    if frames == [] || mark.None? || !frames[|frames| - 1].Class? then frames
    else frames[..|frames| - 1] + [Class(frames[|frames| - 1].name, mark.value)]
  }

  function Drop(frames: seq<Frame>, n: nat): seq<Frame> { frames[..if n <= |frames| then |frames| - n else 0] }

  function Advance(frames: seq<Frame>, t: Token): seq<Frame> {
    match t
    case Namespace(name) => frames + [Space(name)]
    case Compound(isClass, name) => frames + [Class(name, DefaultAccess(isClass))]
    case Access(a) => Relabel(frames, Some(a))
    case Open => frames + [Plain]
    case Close => Drop(frames, 1)
  }

  function Run(frames: seq<Frame>, ts: seq<Token>): seq<Frame> {
    if ts == [] then frames else Advance(Run(frames, ts[..|ts| - 1]), ts[|ts| - 1])
  }

  /** The reference, read from the end of the source: `pending` closing braces are still unmatched, and
      `mark` is the last access label of the scope that the scan is directly in. */
  function Unclosed(ts: seq<Token>, pending: nat, mark: Option<string>): seq<Frame> {
    if ts == [] then []
    else
      var rest := ts[..|ts| - 1];
      match ts[|ts| - 1]
      case Close => Unclosed(rest, pending + 1, mark)
      case Access(a) => Unclosed(rest, pending, if pending == 0 && mark.None? then Some(a) else mark)
      case Open => if pending > 0 then Unclosed(rest, pending - 1, mark) else Unclosed(rest, 0, None) + [Plain]
      case Namespace(name) =>
        if pending > 0 then Unclosed(rest, pending - 1, mark) else Unclosed(rest, 0, None) + [Space(name)]
      case Compound(isClass, name) =>
        if pending > 0 then Unclosed(rest, pending - 1, mark)
        else Unclosed(rest, 0, None) + [Class(name, if mark.Some? then mark.value else DefaultAccess(isClass))]
  }

  lemma DropPushed(frames: seq<Frame>, f: Frame, n: nat)
    ensures n > 0 ==> Drop(frames + [f], n) == Drop(frames, n - 1)
    ensures Drop(frames, 0) == frames
  {}

  lemma DropTwice(frames: seq<Frame>, n: nat)
    ensures Drop(Drop(frames, 1), n) == Drop(frames, n + 1)
  {}

  lemma DropRelabelled(frames: seq<Frame>, mark: Option<string>, n: nat)
    requires n > 0
    ensures Drop(Relabel(frames, mark), n) == Drop(frames, n)
  {}

  lemma RelabelTwice(frames: seq<Frame>, a: string, b: Option<string>)
    ensures b.Some? ==> Relabel(Relabel(frames, Some(a)), b) == Relabel(frames, b)
    ensures Relabel(frames, None) == frames
  {}

  lemma {:induction false} UnclosedIsRun(ts: seq<Token>, pending: nat, mark: Option<string>)
    ensures Unclosed(ts, pending, mark) == Relabel(Drop(Run([], ts), pending), mark)
    decreases |ts|, 0
  {
    hide Drop, Relabel, Run;
    if ts == [] {
      assert Relabel(Drop(Run([], ts), pending), mark) == [] by { NothingRun(pending, mark); }
    } else {
      var rest, t := ts[..|ts| - 1], ts[|ts| - 1];
      var frames := Run([], rest);
      assert Run([], ts) == Advance(frames, t) by { LastToken([], ts); }
      match t
      case Close =>
        UnclosedIsRun(rest, pending + 1, mark);
        DropTwice(frames, pending);
      case Access(a) =>
        UnclosedIsRun(rest, pending, if pending == 0 && mark.None? then Some(a) else mark);
        RelabelTwice(frames, a, mark);
        RelabelTwice(Relabel(frames, Some(a)), a, None);
        if pending > 0 {
          DropRelabelled(frames, Some(a), pending);
        } else {
          DropNothing(frames);
          DropNothing(Relabel(frames, Some(a)));
        }
      case Open => Opened(rest, pending, mark, Plain);
      case Namespace(name) => Opened(rest, pending, mark, Space(name));
      case Compound(isClass, name) => Opened(rest, pending, mark, Class(name, DefaultAccess(isClass)));
    }
  }

  lemma NothingRun(pending: nat, mark: Option<string>)
    ensures Relabel(Drop(Run([], []), pending), mark) == []
  {}

  lemma LastToken(frames: seq<Frame>, ts: seq<Token>)
    requires ts != []
    ensures Run(frames, ts) == Advance(Run(frames, ts[..|ts| - 1]), ts[|ts| - 1])
  {}

  lemma DropNothing(frames: seq<Frame>)
    ensures Drop(frames, 0) == frames
  {}

  lemma Opened(rest: seq<Token>, pending: nat, mark: Option<string>, f: Frame)
    ensures pending > 0 ==> Unclosed(rest, pending - 1, mark) == Relabel(Drop(Run([], rest) + [f], pending), mark)
    ensures var last := if f.Class? && mark.Some? then Class(f.name, mark.value) else f;
      pending == 0 ==> Unclosed(rest, 0, None) + [last] == Relabel(Drop(Run([], rest) + [f], 0), mark)
    decreases |rest|, 1
  {
    hide Run, Unclosed;
    var frames := Run([], rest);
    if pending > 0 {
      UnclosedIsRun(rest, pending - 1, mark);
      DropPushed(frames, f, pending);
    } else {
      UnclosedIsRun(rest, 0, None);
    }
  }

  // ---------------------------------------------------------------- blocks

  lemma {:induction false} RunCat(frames: seq<Frame>, a: seq<Token>, b: seq<Token>)
    ensures Run(frames, a + b) == Run(Run(frames, a), b)
  {
    hide Advance;
    if b == [] {
      assert a + b == a;
    } else {
      RunCat(frames, a, b[..|b| - 1]);
      assert (a + b)[..|a + b| - 1] == a + b[..|b| - 1];
    }
  }

  /** The number of braces that ts leaves open, or None when it closes more than it opened. */
  function Balance(ts: seq<Token>): Option<nat> {
    if ts == [] then Some(0)
    else
      match Balance(ts[..|ts| - 1])
      case None => None
      case Some(n) =>
        match ts[|ts| - 1]
        case Close => if n == 0 then None else Some(n - 1)
        case Access(_) => Some(n)
        case _ => Some(n + 1)
  }

  /** Tokens that never close more than they opened leave the outer braces alone, except for the access of
      the innermost one. */
  lemma {:induction false} OuterStays(frames: seq<Frame>, ts: seq<Token>)
    requires frames != [] && Balance(ts).Some?
    ensures |Run(frames, ts)| == |frames| + Balance(ts).value
    ensures Run(frames, ts)[..|frames| - 1] == frames[..|frames| - 1]
  {
    if ts != [] { OuterStays(frames, ts[..|ts| - 1]); }
  }

  /** A complete block, with whatever scopes, braces and labels inside, changes nothing. */
  lemma BlockChangesNothing(frames: seq<Frame>, opener: Token, inner: seq<Token>)
    requires opener.Namespace? || opener.Compound? || opener.Open?
    requires Balance(inner) == Some(0)
    ensures Run(frames, [opener] + inner + [Close]) == frames
  {
    var inside := Advance(frames, opener);
    OuterStays(inside, inner);
    RunCat(frames, [opener] + inner, [Close]);
    RunCat(frames, [opener], inner);
    OneToken(frames, opener);
    OneToken(Run(inside, inner), Close);
    assert inside[..|inside| - 1] == frames;
  }

  lemma OneToken(frames: seq<Frame>, t: Token)
    ensures Run(frames, [t]) == Advance(frames, t)
  {
    assert [t][..0] == [];
  }

  /** So a complete block may be removed from anywhere in the source. */
  lemma BlocksMayBeRemoved(a: seq<Token>, opener: Token, inner: seq<Token>, b: seq<Token>)
    requires opener.Namespace? || opener.Compound? || opener.Open?
    requires Balance(inner) == Some(0)
    ensures Unclosed(a + ([opener] + inner + [Close]) + b, 0, None) == Unclosed(a + b, 0, None)
  {
    hide Run, Unclosed, Balance;
    var block := [opener] + inner + [Close];
    UnclosedIsRun(a + block + b, 0, None);
    UnclosedIsRun(a + b, 0, None);
    RunCat([], a + block, b);
    RunCat([], a, block);
    RunCat([], a, b);
    BlockChangesNothing(Run([], a), opener, inner);
  }

  // ---------------------------------------------------------------- the loop

  function Names(frames: seq<Frame>, classes: bool): seq<string> {
    if frames == [] then []
    else
      var f := frames[|frames| - 1];
      Names(frames[..|frames| - 1], classes) + if (classes && f.Class?) || (!classes && f.Space?) then [f.name] else []
  }

  function CurrentAccess(frames: seq<Frame>): Option<string> {
    if frames == [] then None
    else if frames[|frames| - 1].Class? then Some(frames[|frames| - 1].access)
    else CurrentAccess(frames[..|frames| - 1])
  }

  function Join(names: seq<string>): string {
    if names == [] then "" else if |names| == 1 then names[0]
    else Join(names[..|names| - 1]) + "::" + names[|names| - 1]
  }

  function ScopeOf(f: Frame, depth: nat): seq<Scope> {
    match f
    case Plain => []
    case Space(name) => [Scope(false, name, depth, None)]
    case Class(name, access) => [Scope(true, name, depth, Some(access))]
  }

  /** The stack of the loop: the frames that are scopes, with their positions. */
  function Stack(frames: seq<Frame>): (stack: seq<Scope>)
    ensures stack != [] ==> stack[|stack| - 1].depth <= |frames|
  {
    if frames == [] then [] else Stack(frames[..|frames| - 1]) + ScopeOf(frames[|frames| - 1], |frames|)
  }

  lemma Pushed(frames: seq<Frame>, f: Frame)
    ensures Stack(frames + [f]) == Stack(frames) + ScopeOf(f, |frames| + 1)
  {
    assert (frames + [f])[..|frames + [f]| - 1] == frames;
  }

  /** A label replaces the access of the top entry exactly when that entry is a compound at the current
      depth, that is, when the innermost open brace is the compound's own. */
  lemma Relabelled(frames: seq<Frame>, a: string)
    ensures var stack, after := Stack(frames), Stack(Relabel(frames, Some(a)));
      if stack == [] then after == stack
      else
        var top := stack[|stack| - 1];
        after ==
          if top.isCompound && top.depth == |frames| then stack[|stack| - 1 := top.(access := Some(a))] else stack
  {
    hide Stack, Relabel;
    TopRelabelled(frames, a);
    if frames == [] {
      assert Stack(frames) == [] by { Beginning([]); }
    } else {
      var rest, f := frames[..|frames| - 1], frames[|frames| - 1];
      assert frames == rest + [f];
      Pushed(rest, f);
      if f.Class? { Pushed(rest, Class(f.name, a)); }
    }
  }

  lemma TopRelabelled(frames: seq<Frame>, a: string)
    ensures frames == [] ==> Relabel(frames, Some(a)) == []
    ensures frames != [] ==> var top, rest := frames[|frames| - 1], frames[..|frames| - 1];
      Relabel(frames, Some(a)) == if top.Class? then rest + [Class(top.name, a)] else frames
  {}

  // ---------------------------------------------------------------- the context behind each kind of token

  lemma NextToken(before: seq<Token>, t: Token)
    ensures Unclosed(before + [t], 0, None) == Advance(Unclosed(before, 0, None), t)
  {
    hide Run, Unclosed, Advance;
    UnclosedIsRun(before, 0, None);
    UnclosedIsRun(before + [t], 0, None);
    NoRelabel(Run([], before));
    NoRelabel(Run([], before + [t]));
    RunCat([], before, [t]);
    OneToken(Run([], before), t);
  }

  /** A class that has just been opened is private and a struct public, inside the scopes open before it. */
  lemma OpenedCompound(before: seq<Token>, isClass: bool, name: string)
    ensures var open, ctx := Unclosed(before, 0, None), Unclosed(before + [Compound(isClass, name)], 0, None);
      && CurrentAccess(ctx) == (if isClass then Some("private") else Some("public"))
      && Names(ctx, true) == Names(open, true) + [name] && Names(ctx, false) == Names(open, false)
  {
    hide Unclosed;
    NextToken(before, Compound(isClass, name));
    var open := Unclosed(before, 0, None);
    assert (open + [Class(name, DefaultAccess(isClass))])[..|open|] == open;
    assert Names(open, false) + [] == Names(open, false);
  }

  /** A label that stands directly in a class or struct, behind complete blocks and other labels, decides about
      the access, and about nothing else. */
  lemma LabelDecides(before: seq<Token>, isClass: bool, name: string, inner: seq<Token>, a: string)
    requires Balance(inner) == Some(0)
    ensures var ts := before + [Compound(isClass, name)] + inner;
      var ctx := Unclosed(ts + [Access(a)], 0, None);
      && CurrentAccess(ctx) == Some(a)
      && Names(ctx, true) == Names(Unclosed(before, 0, None), true) + [name]
      && Names(ctx, false) == Names(Unclosed(before, 0, None), false)
  {
    hide Unclosed, Run, Balance;
    var opener := Compound(isClass, name);
    var open := Unclosed(before, 0, None);
    var ts := before + [opener] + inner;
    NextToken(before, opener);
    NextToken(ts, Access(a));
    UnclosedIsRun(before + [opener], 0, None);
    UnclosedIsRun(ts, 0, None);
    NoRelabel(Run([], before + [opener]));
    NoRelabel(Run([], ts));
    RunCat([], before + [opener], inner);
    var inside := open + [Class(name, DefaultAccess(isClass))];
    OuterStays(inside, inner);
    var frames := Run(inside, inner);
    assert frames[..|inside| - 1] == open;
    InnermostStays(inside, inner);
    assert Unclosed(ts + [Access(a)], 0, None) == open + [Class(name, a)];
    assert (open + [Class(name, a)])[..|open|] == open;
    assert Names(open, false) + [] == Names(open, false);
  }

  /** The innermost brace stays the one of the same class. */
  lemma {:induction false} InnermostStays(frames: seq<Frame>, ts: seq<Token>)
    requires frames != [] && frames[|frames| - 1].Class? && Balance(ts).Some?
    ensures |Run(frames, ts)| == |frames| + Balance(ts).value
    ensures var f := Run(frames, ts)[|frames| - 1]; f.Class? && f.name == frames[|frames| - 1].name
  {
    if ts != [] { InnermostStays(frames, ts[..|ts| - 1]); }
  }

  /** In a namespace or a plain brace labels are ignored, and the access is that of the class around it. */
  lemma LabelIgnored(before: seq<Token>, opener: Token, a: string)
    requires opener.Namespace? || opener.Open?
    ensures var open, ctx := Unclosed(before, 0, None), Unclosed(before + [opener] + [Access(a)], 0, None);
      && ctx == Unclosed(before + [opener], 0, None)
      && CurrentAccess(ctx) == CurrentAccess(open) && Names(ctx, true) == Names(open, true)
      && Names(ctx, false) == Names(open, false) + if opener.Namespace? then [opener.name] else []
  {
    hide Unclosed;
    NextToken(before, opener);
    NextToken(before + [opener], Access(a));
    var open := Unclosed(before, 0, None);
    var f := if opener.Namespace? then Space(opener.name) else Plain;
    assert (open + [f])[..|open|] == open;
    assert forall classes :: Names(open, classes) + [] == Names(open, classes);
  }

  /** The namespaces are written one after the other with `::` between them. */
  lemma JoinedNames(names: seq<string>, name: string)
    ensures Join([name]) == name && (names != [] ==> Join(names + [name]) == Join(names) + "::" + name)
  {
    assert (names + [name])[..|names|] == names;
  }

  method InferCppContext(tokens: seq<Token>) returns (namespace: string, classes: seq<string>, access: Option<string>)
    ensures var open := Unclosed(tokens, 0, None);
      namespace == Join(Names(open, false)) && classes == Names(open, true) && access == CurrentAccess(open)
  {
    hide Advance, Relabel, Stack, Run, ScopeOf;
    var scopeStack: seq<Scope>, depth: nat := [], 0;
    ghost var frames: seq<Frame> := [];
    assert Stack([]) == [] && Run([], tokens[..0]) == [] by { Beginning(tokens); }
    for k := 0 to |tokens|
      invariant frames == Run([], tokens[..k]) && depth == |frames| && scopeStack == Stack(frames)
    {
      Advanced(tokens, k);
      match tokens[k] {
        case Namespace(name) =>
          depth := depth + 1;
          scopeStack := scopeStack + [Scope(false, name, depth, None)];
          Pushed(frames, Space(name));
          Steps(frames, tokens[k]);
        case Compound(isClass, name) =>
          depth := depth + 1;
          scopeStack := scopeStack + [Scope(true, name, depth, Some(DefaultAccess(isClass)))];
          Pushed(frames, Class(name, DefaultAccess(isClass)));
          Steps(frames, tokens[k]);
        case Access(a) =>
          Relabelled(frames, a);
          Steps(frames, tokens[k]);
          if scopeStack != [] {
            var top := scopeStack[|scopeStack| - 1];
            if top.isCompound && top.depth == depth {
              scopeStack := scopeStack[|scopeStack| - 1 := top.(access := Some(a))];
            }
          }
        case Open =>
          depth := depth + 1;
          Pushed(frames, Plain);
          Steps(frames, tokens[k]);
        case Close =>
          Steps(frames, tokens[k]);
          depth := if depth == 0 then 0 else depth - 1;
          scopeStack := PopTo(scopeStack, depth, frames);
      }
      frames := Advance(frames, tokens[k]);
    }
    assert tokens[..|tokens|] == tokens;
    UnclosedIsRun(tokens, 0, None);
    assert Unclosed(tokens, 0, None) == frames by { NoRelabel(frames); }
    namespace, classes, access := Collect(scopeStack, frames);
  }

  lemma Beginning(tokens: seq<Token>)
    ensures Stack([]) == [] && Run([], tokens[..0]) == []
  {}

  lemma NoRelabel(frames: seq<Frame>)
    ensures Relabel(Drop(frames, 0), None) == frames
  {}

  lemma Advanced(tokens: seq<Token>, k: nat)
    requires k < |tokens|
    ensures Run([], tokens[..k + 1]) == Advance(Run([], tokens[..k]), tokens[k])
  {
    assert tokens[..k + 1][..k] == tokens[..k];
  }

  lemma Steps(frames: seq<Frame>, t: Token)
    ensures t.Namespace? ==> Advance(frames, t) == frames + [Space(t.name)]
    ensures t.Namespace? ==> ScopeOf(Space(t.name), |frames| + 1) == [Scope(false, t.name, |frames| + 1, None)]
    ensures t.Compound? ==> Advance(frames, t) == frames + [Class(t.name, DefaultAccess(t.isClass))]
    ensures t.Compound? ==> (
      var access := DefaultAccess(t.isClass);
      ScopeOf(Class(t.name, access), |frames| + 1) == [Scope(true, t.name, |frames| + 1, Some(access))])
    ensures t.Access? ==> Advance(frames, t) == Relabel(frames, Some(t.access)) && |Advance(frames, t)| == |frames|
    ensures t.Open? ==> Advance(frames, t) == frames + [Plain] && ScopeOf(Plain, |frames| + 1) == []
    ensures t.Close? ==> Advance(frames, t) == frames[..if |frames| == 0 then 0 else |frames| - 1]
  {}

  /** `while scope_stack and scope_stack[-1][2] > depth: scope_stack.pop()` */
  method PopTo(stack: seq<Scope>, depth: nat, ghost frames: seq<Frame>) returns (popped: seq<Scope>)
    requires stack == Stack(frames) && depth == if |frames| == 0 then 0 else |frames| - 1
    ensures popped == Stack(frames[..depth])
  {
    popped := stack;
    while popped != [] && popped[|popped| - 1].depth > depth
      invariant
        || popped == Stack(frames[..depth])
        || (popped == stack && frames != [] && stack == Stack(frames[..depth]) + ScopeOf(frames[depth], |frames|))
      decreases |popped|
    {
      popped := popped[..|popped| - 1];
    }
  }

  /** The three comprehensions at the end. */
  method Collect(stack: seq<Scope>, ghost frames: seq<Frame>)
    returns (namespace: string, classes: seq<string>, access: Option<string>)
    requires stack == Stack(frames)
    ensures namespace == Join(Names(frames, false)) && classes == Names(frames, true) && access == CurrentAccess(frames)
  {
    var namespaces: seq<string> := [];
    classes, access := [], None;
    hide Join, ScopeOf;
    for k := 0 to |stack|
      invariant namespaces == StackNames(stack[..k], false) && classes == StackNames(stack[..k], true)
      invariant access == StackAccess(stack[..k])
    {
      assert stack[..k + 1][..k] == stack[..k];
      if stack[k].isCompound {
        classes := classes + [stack[k].name];
        access := stack[k].access;
      } else {
        namespaces := namespaces + [stack[k].name];
      }
    }
    assert stack[..|stack|] == stack;
    StackKeepsNames(frames);
    namespace := Join(namespaces);
  }

  function StackNames(stack: seq<Scope>, classes: bool): seq<string> {
    if stack == [] then []
    else
      var top := stack[|stack| - 1];
      StackNames(stack[..|stack| - 1], classes) + if top.isCompound == classes then [top.name] else []
  }

  function StackAccess(stack: seq<Scope>): Option<string> {
    if stack == [] then None
    else if stack[|stack| - 1].isCompound then stack[|stack| - 1].access
    else StackAccess(stack[..|stack| - 1])
  }

  lemma ScopeNames(stack: seq<Scope>, f: Frame, depth: nat)
    ensures var more := stack + ScopeOf(f, depth);
      && StackNames(more, false) == StackNames(stack, false) + (if f.Space? then [f.name] else [])
      && StackNames(more, true) == StackNames(stack, true) + (if f.Class? then [f.name] else [])
      && StackAccess(more) == if f.Class? then Some(f.access) else StackAccess(stack)
  {
    if f.Plain? {
      assert stack + [] == stack;
    } else {
      var more := stack + ScopeOf(f, depth);
      assert more[..|more| - 1] == stack;
    }
  }

  lemma {:induction false} StackKeepsNames(frames: seq<Frame>)
    ensures StackNames(Stack(frames), false) == Names(frames, false)
    ensures StackNames(Stack(frames), true) == Names(frames, true)
    ensures StackAccess(Stack(frames)) == CurrentAccess(frames)
  {
    hide StackNames, StackAccess, ScopeOf;
    if frames == [] {
      NothingStacked();
    } else {
      StackKeepsNames(frames[..|frames| - 1]);
      ScopeNames(Stack(frames[..|frames| - 1]), frames[|frames| - 1], |frames|);
    }
  }

  lemma NothingStacked()
    ensures StackNames([], false) == [] && StackNames([], true) == [] && StackAccess([]) == None
  {}

  /** `is_public_cpp_member_context`: true for a position whose innermost open class or struct has the
      public label last, or has no label and is a struct, and for one outside all classes. */
  method IsPublicCppMemberContext(tokens: seq<Token>) returns (public: bool)
    ensures public <==> CurrentAccess(Unclosed(tokens, 0, None)) in {None, Some("public")}
  {
    var _, _, access := InferCppContext(tokens);
    public := access == None || access == Some("public");
  }
}
