/** `analyze_c_abi` of ci/check_c_abi/check_c_abi/abi.py: which symbols of an old interface a new one breaks. */
module AbiCheck {
  /** A parameter or member: a type and a name. */
  datatype Typed = Typed(ctype: string, name: string)
  datatype Function = Function(returnType: string, parameters: seq<Typed>)
  datatype Enum = Enum(name: string, values: seq<Entry<int>>)
  datatype Constant = Constant(value: int, enum: string)

  /** A named definition; lists may define a name more than once. */
  datatype Entry<V> = Entry(name: string, value: V)

  datatype Abi = Abi(functions: seq<Entry<Function>>, structs: seq<Entry<seq<Typed>>>, enums: seq<Enum>)

  datatype Change =
    | FunctionRemoved | ReturnTypeChanged | NewParameter | DeletedParameter | ParameterTypeChanged
    | StructRemoved | DeletedMember | MemberTypeChanged
    | ConstantRemoved | ConstantChanged

  /** An error; for an enum constant the symbol is the enum, and `subject` is the constant that the
      message names. */
  datatype AbiError = AbiError(change: Change, symbol: string, subject: string)

  // ---------------------------------------------------------------- dictionaries

  /** `{f.name: f for f in entries}`: the last definition of a name wins. */
  function Table<V>(entries: seq<Entry<V>>): map<string, V> {
    if entries == [] then map[]
    else Table(entries[..|entries| - 1])[entries[|entries| - 1].name := entries[|entries| - 1].value]
  }

  /** The keys of that dictionary in the order in which they were first inserted. */
  function Keys<V>(entries: seq<Entry<V>>): (names: seq<string>)
    ensures forall name :: name in names <==> name in Table(entries)
  {
    if entries == [] then []
    else
      var before, name := Keys(entries[..|entries| - 1]), entries[|entries| - 1].name;
      if name in before then before else before + [name]
  }

  /** The values of all enums in one list: in C they share one scope. */
  function Constants(enums: seq<Enum>): seq<Entry<Constant>> {
    if enums == [] then []
    else
      var last := enums[|enums| - 1];
      Constants(enums[..|enums| - 1]) + Labelled(last.values, last.name)
  }

  function Labelled(values: seq<Entry<int>>, enum: string): seq<Entry<Constant>> {
    if values == [] then []
    else [Entry(values[0].name, Constant(values[0].value, enum))] + Labelled(values[1..], enum)
  }

  // ---------------------------------------------------------------- compatibility

  function Types(ts: seq<Typed>): seq<string> { if ts == [] then [] else [ts[0].ctype] + Types(ts[1..]) }

  /** Callers of the old function can call the new one; parameter names do not matter. */
  predicate SameFunction(a: Function, b: Function) {
    a.returnType == b.returnType && Types(a.parameters) == Types(b.parameters)
  }

  /** The old members are where they were; further members may follow. */
  predicate ExtendsStruct(a: seq<Typed>, b: seq<Typed>) { Types(a) <= Types(b) }

  predicate FunctionKept(a: Abi, b: Abi, name: string)
    requires name in Table(a.functions)
  {
    name in Table(b.functions) && SameFunction(Table(a.functions)[name], Table(b.functions)[name])
  }

  predicate StructKept(a: Abi, b: Abi, name: string)
    requires name in Table(a.structs)
  {
    name in Table(b.structs) && ExtendsStruct(Table(a.structs)[name], Table(b.structs)[name])
  }

  predicate ConstantKept(a: Abi, b: Abi, name: string)
    requires name in Table(Constants(a.enums))
  {
    && name in Table(Constants(b.enums))
    && Table(Constants(a.enums))[name].value == Table(Constants(b.enums))[name].value
  }

  ghost predicate Compatible(a: Abi, b: Abi) {
    && (forall name :: name in Table(a.functions) ==> FunctionKept(a, b, name))
    && (forall name :: name in Table(a.structs) ==> StructKept(a, b, name))
    && (forall name :: name in Table(Constants(a.enums)) ==> ConstantKept(a, b, name))
  }

  lemma CompatibleIsReflexive(a: Abi)
    ensures Compatible(a, a)
  {}

  /** If no release breaks the one before it, the last one does not break the first. */
  lemma {:induction false} ReleasesCompose(releases: seq<Abi>)
    requires |releases| > 0
    requires forall k :: 0 <= k < |releases| - 1 ==> Compatible(releases[k], releases[k + 1])
    ensures Compatible(releases[0], releases[|releases| - 1])
  {
    var n := |releases|;
    if n == 1 {
      CompatibleIsReflexive(releases[0]);
    } else {
      ReleasesCompose(releases[..n - 1]);
      assert releases[n - 2] == releases[..n - 1][n - 2] && Compatible(releases[n - 2], releases[n - 2 + 1]);
      CompatibleIsTransitive(releases[0], releases[n - 2], releases[n - 1]);
    }
  }

  lemma CompatibleIsTransitive(a: Abi, b: Abi, c: Abi)
    requires Compatible(a, b) && Compatible(b, c)
    ensures Compatible(a, c)
  {
    hide Table, Constants, Types;
    forall name | name in Table(a.functions) ensures FunctionKept(a, c, name) {
      assert FunctionKept(a, b, name) && FunctionKept(b, c, name);
    }
    forall name | name in Table(a.structs) ensures StructKept(a, c, name) {
      assert StructKept(a, b, name) && StructKept(b, c, name);
    }
    forall name | name in Table(Constants(a.enums)) ensures ConstantKept(a, c, name) {
      assert ConstantKept(a, b, name) && ConstantKept(b, c, name);
    }
  }

  /** The documentation of the check says that renamed and reordered members are found. They are found
      only when a type changes its place: names are not compared. */
  lemma RenamingIsNotSeen(a: seq<Typed>, b: seq<Typed>)
    requires |a| == |b| && forall k :: 0 <= k < |a| ==> a[k].ctype == b[k].ctype
    ensures ExtendsStruct(a, b)
  {
    AllTypes(a);
    AllTypes(b);
  }

  // ---------------------------------------------------------------- definitions

  /** The last definition of the name has this value. */
  ghost predicate Defines<V>(entries: seq<Entry<V>>, name: string, v: V) {
    exists i :: LastAt(entries, name, v, i)
  }

  ghost predicate LastAt<V>(entries: seq<Entry<V>>, name: string, v: V, i: int) {
    && 0 <= i < |entries| && entries[i].name == name && entries[i].value == v
    && forall j :: i < j < |entries| ==> entries[j].name != name
  }

  lemma {:induction false} TableExactly<V>(entries: seq<Entry<V>>, name: string, v: V)
    ensures Defines(entries, name, v) <==> name in Table(entries) && Table(entries)[name] == v
  {
    if entries != [] {
      var before, last := entries[..|entries| - 1], entries[|entries| - 1];
      TableExactly(before, name, v);
      if i :| LastAt(before, name, v, i) && last.name != name { assert LastAt(entries, name, v, i); }
      if i :| LastAt(entries, name, v, i) && i < |before| { assert LastAt(before, name, v, i); }
      if last.name == name && last.value == v { assert LastAt(entries, name, v, |before|); }
    }
  }

  lemma {:induction false} LabelledAt(values: seq<Entry<int>>, enum: string)
    ensures |Labelled(values, enum)| == |values|
    ensures forall k :: 0 <= k < |values| ==>
      Labelled(values, enum)[k] == Entry(values[k].name, Constant(values[k].value, enum))
  {
    if values != [] { LabelledAt(values[1..], enum); }
  }

  /** Among all constants of all enums, in their order, the last one with this name has this value. */
  ghost predicate DefinesConstant(enums: seq<Enum>, name: string, v: int) {
    exists i, j :: LastConstantAt(enums, name, v, i, j)
  }

  ghost predicate LastConstantAt(enums: seq<Enum>, name: string, v: int, i: int, j: int) {
    && 0 <= i < |enums| && 0 <= j < |enums[i].values|
    && enums[i].values[j].name == name && enums[i].values[j].value == v
    && (forall l :: j < l < |enums[i].values| ==> enums[i].values[l].name != name)
    && forall k, l :: i < k < |enums| && 0 <= l < |enums[k].values| ==> enums[k].values[l].name != name
  }

  lemma {:induction false} TableCat<V>(a: seq<Entry<V>>, b: seq<Entry<V>>)
    ensures Table(a + b) == Table(a) + Table(b)
  {
    if b == [] {
      assert a + b == a;
    } else {
      TableCat(a, b[..|b| - 1]);
      assert (a + b)[..|a + b| - 1] == a + b[..|b| - 1];
    }
  }

  lemma {:induction false} InTable<V>(entries: seq<Entry<V>>, k: nat)
    requires k < |entries|
    ensures entries[k].name in Table(entries)
    decreases |entries|
  {
    if k < |entries| - 1 { InTable(entries[..|entries| - 1], k); }
  }

  /** The last enum decides about a name that it has. */
  lemma LastEnumHas(enums: seq<Enum>, name: string, v: int)
    requires enums != [] && name in Table(Labelled(enums[|enums| - 1].values, enums[|enums| - 1].name))
    ensures DefinesConstant(enums, name, v) <==>
      Table(Labelled(enums[|enums| - 1].values, enums[|enums| - 1].name))[name].value == v
  {
    hide Table;
    var n, last := |enums| - 1, enums[|enums| - 1];
    var labelled := Labelled(last.values, last.name);
    var c := Table(labelled)[name];
    LabelledAt(last.values, last.name);
    TableExactly(labelled, name, c);
    var j :| LastAt(labelled, name, c, j);
    forall l | j < l < |last.values| ensures last.values[l].name != name { assert labelled[l].name != name; }
    assert LastConstantAt(enums, name, c.value, n, j);
    if i, k :| LastConstantAt(enums, name, v, i, k) {
      assert enums[n].values[j].name == name;
      assert i == n;
      assert k == j;
    }
  }

  /** A name that the last enum does not have is decided before it. */
  lemma LastEnumLacks(enums: seq<Enum>, name: string, v: int)
    requires enums != [] && name !in Table(Labelled(enums[|enums| - 1].values, enums[|enums| - 1].name))
    ensures DefinesConstant(enums, name, v) <==> DefinesConstant(enums[..|enums| - 1], name, v)
  {
    hide Table;
    var before, last := enums[..|enums| - 1], enums[|enums| - 1];
    LabelledAt(last.values, last.name);
    forall l | 0 <= l < |last.values| ensures last.values[l].name != name {
      InTable(Labelled(last.values, last.name), l);
    }
    if i, j :| LastConstantAt(before, name, v, i, j) { assert LastConstantAt(enums, name, v, i, j); }
    if i, j :| LastConstantAt(enums, name, v, i, j) {
      forall k, l | i < k < |before| && 0 <= l < |before[k].values| ensures before[k].values[l].name != name {
        assert enums[k] == before[k];
      }
      assert LastConstantAt(before, name, v, i, j);
    }
  }

  lemma {:induction false} ConstantsExactly(enums: seq<Enum>, name: string, v: int)
    ensures DefinesConstant(enums, name, v) <==>
      name in Table(Constants(enums)) && Table(Constants(enums))[name].value == v
  {
    hide Table, DefinesConstant, Labelled;
    if enums == [] {
      NoConstants(enums, name, v);
    } else {
      var before, last := enums[..|enums| - 1], enums[|enums| - 1];
      ConstantsExactly(before, name, v);
      TableCat(Constants(before), Labelled(last.values, last.name));
      if name in Table(Labelled(last.values, last.name)) {
        LastEnumHas(enums, name, v);
      } else {
        LastEnumLacks(enums, name, v);
      }
    }
  }

  lemma NoConstants(enums: seq<Enum>, name: string, v: int)
    requires enums == []
    ensures !DefinesConstant(enums, name, v) && name !in Table(Constants(enums))
  {}

  // ---------------------------------------------------------------- compatibility, position by position

  lemma SameFunctionExactly(a: Function, b: Function)
    ensures SameFunction(a, b) <==>
      && a.returnType == b.returnType && |a.parameters| == |b.parameters|
      && forall k :: 0 <= k < |a.parameters| ==> a.parameters[k].ctype == b.parameters[k].ctype
  {
    AllTypes(a.parameters);
    AllTypes(b.parameters);
  }

  lemma ExtendsStructExactly(a: seq<Typed>, b: seq<Typed>)
    ensures ExtendsStruct(a, b) <==> |a| <= |b| && forall k :: 0 <= k < |a| ==> a[k].ctype == b[k].ctype
  {
    AllTypes(a);
    AllTypes(b);
  }

  lemma FunctionKeptExactly(a: Abi, b: Abi, name: string, f: Function)
    requires Defines(a.functions, name, f)
    ensures name in Table(a.functions)
    ensures FunctionKept(a, b, name) <==>
      exists g: Function :: Defines(b.functions, name, g)
        && f.returnType == g.returnType && |f.parameters| == |g.parameters|
        && forall k :: 0 <= k < |f.parameters| ==> f.parameters[k].ctype == g.parameters[k].ctype
  {
    hide Table, Defines, SameFunction;
    TableExactly(a.functions, name, f);
    forall g: Function ensures Defines(b.functions, name, g) <==>
      name in Table(b.functions) && Table(b.functions)[name] == g
    {
      TableExactly(b.functions, name, g);
    }
    if name in Table(b.functions) {
      var g := Table(b.functions)[name];
      SameFunctionExactly(f, g);
      assert Defines(b.functions, name, g);
    }
  }

  lemma StructKeptExactly(a: Abi, b: Abi, name: string, x: seq<Typed>)
    requires Defines(a.structs, name, x)
    ensures name in Table(a.structs)
    ensures StructKept(a, b, name) <==>
      exists y: seq<Typed> :: Defines(b.structs, name, y)
        && |x| <= |y| && forall k :: 0 <= k < |x| ==> x[k].ctype == y[k].ctype
  {
    hide Table, Defines, ExtendsStruct;
    TableExactly(a.structs, name, x);
    forall y: seq<Typed> ensures Defines(b.structs, name, y) <==>
      name in Table(b.structs) && Table(b.structs)[name] == y
    {
      TableExactly(b.structs, name, y);
    }
    if name in Table(b.structs) {
      var y := Table(b.structs)[name];
      ExtendsStructExactly(x, y);
      assert Defines(b.structs, name, y);
    }
  }

  lemma ConstantKeptExactly(a: Abi, b: Abi, name: string, v: int)
    requires DefinesConstant(a.enums, name, v)
    ensures name in Table(Constants(a.enums))
    ensures ConstantKept(a, b, name) <==> DefinesConstant(b.enums, name, v)
  {
    hide Table, Constants, DefinesConstant;
    ConstantsExactly(a.enums, name, v);
    ConstantsExactly(b.enums, name, v);
  }

  // ---------------------------------------------------------------- the loops

  /** Some error is about the name. */
  ghost predicate Reported(errors: seq<AbiError>, name: string) {
    exists k :: 0 <= k < |errors| && errors[k].subject == name
  }

  lemma ReportedMore(errors: seq<AbiError>, more: seq<AbiError>, name: string)
    ensures Reported(errors + more, name) <==> Reported(errors, name) || Reported(more, name)
  {
    var all := errors + more;
    if Reported(errors, name) {
      var k :| 0 <= k < |errors| && errors[k].subject == name;
      assert all[k].subject == name;
    }
    if Reported(more, name) {
      var k :| 0 <= k < |more| && more[k].subject == name;
      assert all[|errors| + k].subject == name;
    }
    if Reported(all, name) {
      var k :| 0 <= k < |all| && all[k].subject == name;
      assert if k < |errors| then errors[k].subject == name else more[k - |errors|].subject == name;
    }
  }

  lemma {:induction false} TypesAt(ts: seq<Typed>, k: nat)
    ensures |Types(ts)| == |ts| && (k < |ts| ==> Types(ts)[k] == ts[k].ctype)
  {
    if ts != [] { TypesAt(ts[1..], if k == 0 then 0 else k - 1); }
  }

  lemma AllTypes(ts: seq<Typed>)
    ensures |Types(ts)| == |ts| && forall k :: 0 <= k < |ts| ==> Types(ts)[k] == ts[k].ctype
  {
    TypesAt(ts, 0);
    forall k | 0 <= k < |ts| ensures Types(ts)[k] == ts[k].ctype { TypesAt(ts, k); }
  }

  /** The errors about one name, all with that name. */
  ghost predicate About(errors: seq<AbiError>, name: string) {
    forall k :: 0 <= k < |errors| ==> errors[k].subject == name
  }

  /** The first k positions agree; a missing old type is accepted when `mayGrow`. */
  ghost predicate AgreeUpTo(x: seq<string>, y: seq<string>, k: nat, mayGrow: bool) {
    k > 0 ==>
      && AgreeUpTo(x, y, k - 1, mayGrow)
      && if k - 1 < |x| then k - 1 < |y| && x[k - 1] == y[k - 1] else mayGrow
  }

  lemma {:induction false} AgreeMeans(x: seq<string>, y: seq<string>, k: nat, mayGrow: bool)
    requires k <= |x| || k <= |y|
    ensures AgreeUpTo(x, y, k, mayGrow) <==>
      if k <= |x| then k <= |y| && x[..k] == y[..k] else mayGrow && x <= y
  {
    if k > 0 {
      AgreeMeans(x, y, k - 1, mayGrow);
      if k <= |x| && k <= |y| {
        assert x[..k] == x[..k - 1] + [x[k - 1]] && y[..k] == y[..k - 1] + [y[k - 1]];
      } else if k == |x| + 1 {
        assert x[..|x|] == x;
      }
    }
  }

  lemma AgreeEverywhere(x: seq<string>, y: seq<string>, k: nat)
    requires k == if |x| < |y| then |y| else |x|
    ensures AgreeUpTo(x, y, k, false) <==> x == y
    ensures AgreeUpTo(x, y, k, true) <==> x <= y
  {
    AgreeMeans(x, y, k, false);
    AgreeMeans(x, y, k, true);
    if k == |x| { assert x[..k] == x; }
  }

  /** Some position before k has a type in both lists, and not the same one. */
  ghost predicate DiffersBelow(a: seq<Typed>, b: seq<Typed>, k: nat) {
    exists i :: 0 <= i < k && i < |a| && i < |b| && a[i].ctype != b[i].ctype
  }

  /** The return type and the `zip_longest` loop over the parameters. */
  method CompareFunctions(name: string, before: Function, after: Function) returns (errors: seq<AbiError>)
    ensures About(errors, name) && (errors == [] <==> SameFunction(before, after))
    ensures errors == [] <==>
      && before.returnType == after.returnType && |before.parameters| == |after.parameters|
      && forall k :: 0 <= k < |before.parameters| ==> before.parameters[k].ctype == after.parameters[k].ctype
    ensures forall e :: e in errors <==>
      || (e == AbiError(ReturnTypeChanged, name, name) && before.returnType != after.returnType)
      || (e == AbiError(NewParameter, name, name) && |before.parameters| < |after.parameters|)
      || (e == AbiError(DeletedParameter, name, name) && |before.parameters| > |after.parameters|)
      || (e == AbiError(ParameterTypeChanged, name, name) && DiffersBelow(before.parameters, after.parameters,
            |before.parameters|))
  {
    hide Types, SameFunction;
    SameFunctionExactly(before, after);
    AllTypes(before.parameters);
    AllTypes(after.parameters);
    ghost var x, y := Types(before.parameters), Types(after.parameters);
    errors := if before.returnType != after.returnType then [AbiError(ReturnTypeChanged, name, name)] else [];
    var m, n := |before.parameters|, |after.parameters|;
    var longest := if m < n then n else m;
    for k := 0 to longest
      invariant About(errors, name)
      invariant errors == [] <==> before.returnType == after.returnType && AgreeUpTo(x, y, k, false)
      invariant forall e :: e in errors <==>
        || (e == AbiError(ReturnTypeChanged, name, name) && before.returnType != after.returnType)
        || (e == AbiError(NewParameter, name, name) && m < k)
        || (e == AbiError(DeletedParameter, name, name) && n < k)
        || (e == AbiError(ParameterTypeChanged, name, name) && DiffersBelow(before.parameters, after.parameters, k))
    {
      if k >= m {
        errors := errors + [AbiError(NewParameter, name, name)];
      } else if k >= n {
        errors := errors + [AbiError(DeletedParameter, name, name)];
      } else if before.parameters[k].ctype != after.parameters[k].ctype {
        errors := errors + [AbiError(ParameterTypeChanged, name, name)];
      }
    }
    AgreeEverywhere(x, y, longest);
  }

  method CompareStructs(name: string, before: seq<Typed>, after: seq<Typed>) returns (errors: seq<AbiError>)
    ensures About(errors, name) && (errors == [] <==> ExtendsStruct(before, after))
    ensures errors == [] <==>
      |before| <= |after| && forall k :: 0 <= k < |before| ==> before[k].ctype == after[k].ctype
    ensures forall e :: e in errors <==>
      || (e == AbiError(DeletedMember, name, name) && |before| > |after|)
      || (e == AbiError(MemberTypeChanged, name, name) && DiffersBelow(before, after, |before|))
  {
    hide Types, ExtendsStruct;
    ExtendsStructExactly(before, after);
    AllTypes(before);
    AllTypes(after);
    ghost var x, y := Types(before), Types(after);
    errors := [];
    var m, n := |before|, |after|;
    var longest := if m < n then n else m;
    for k := 0 to longest
      invariant About(errors, name)
      invariant errors == [] <==> AgreeUpTo(x, y, k, true)
      invariant forall e :: e in errors <==>
        || (e == AbiError(DeletedMember, name, name) && n < k && n < m)
        || (e == AbiError(MemberTypeChanged, name, name) && DiffersBelow(before, after, k))
    {
      if k >= n {
        errors := errors + [AbiError(DeletedMember, name, name)];
      } else if k < m && before[k].ctype != after[k].ctype {
        errors := errors + [AbiError(MemberTypeChanged, name, name)];
      }
    }
    AgreeEverywhere(x, y, longest);
  }

  method AnalyzeFunctionAbi(a: Abi, b: Abi) returns (errors: seq<AbiError>)
    ensures forall name :: Reported(errors, name) <==> name in Table(a.functions) && !FunctionKept(a, b, name)
    ensures forall name, f :: Defines(a.functions, name, f) ==>
      (Reported(errors, name) <==> !exists g: Function ::
        && Defines(b.functions, name, g)
        && f.returnType == g.returnType && |f.parameters| == |g.parameters|
        && forall k :: 0 <= k < |f.parameters| ==> f.parameters[k].ctype == g.parameters[k].ctype)
    ensures forall name :: AbiError(FunctionRemoved, name, name) in errors <==>
      name in Table(a.functions) && name !in Table(b.functions)
  {
    hide Table, SameFunction, Reported, Defines;
    var names := Keys(a.functions);
    errors := [];
    NothingReported();
    for k := 0 to |names|
      invariant forall name :: Reported(errors, name) <==>
        name in names[..k] && name in Table(a.functions) && !FunctionKept(a, b, name)
      invariant forall name :: AbiError(FunctionRemoved, name, name) in errors <==>
        name in names[..k] && name !in Table(b.functions)
    {
      var name, found := names[k], [];
      assert names[..k + 1] == names[..k] + [name];
      if name !in Table(b.functions) {
        found := [AbiError(FunctionRemoved, name, name)];
      } else {
        found := CompareFunctions(name, Table(a.functions)[name], Table(b.functions)[name]);
      }
      Added(errors, found, name);
      errors := errors + found;
    }
    assert names[..|names|] == names;
    forall name, f | Defines(a.functions, name, f)
      ensures Reported(errors, name) <==> !exists g: Function ::
        && Defines(b.functions, name, g)
        && f.returnType == g.returnType && |f.parameters| == |g.parameters|
        && forall k :: 0 <= k < |f.parameters| ==> f.parameters[k].ctype == g.parameters[k].ctype
    {
      FunctionKeptExactly(a, b, name, f);
    }
  }

  method AnalyzeStructAbi(a: Abi, b: Abi) returns (errors: seq<AbiError>)
    ensures forall name :: Reported(errors, name) <==> name in Table(a.structs) && !StructKept(a, b, name)
    ensures forall name, x: seq<Typed> :: Defines(a.structs, name, x) ==>
      (Reported(errors, name) <==> !exists y: seq<Typed> ::
        && Defines(b.structs, name, y) && |x| <= |y| && forall k :: 0 <= k < |x| ==> x[k].ctype == y[k].ctype)
    ensures forall name :: AbiError(StructRemoved, name, name) in errors <==>
      name in Table(a.structs) && name !in Table(b.structs)
  {
    hide Table, ExtendsStruct, Reported, Defines;
    var names := Keys(a.structs);
    errors := [];
    NothingReported();
    for k := 0 to |names|
      invariant forall name :: Reported(errors, name) <==>
        name in names[..k] && name in Table(a.structs) && !StructKept(a, b, name)
      invariant forall name :: AbiError(StructRemoved, name, name) in errors <==>
        name in names[..k] && name !in Table(b.structs)
    {
      var name, found := names[k], [];
      assert names[..k + 1] == names[..k] + [name];
      if name !in Table(b.structs) {
        found := [AbiError(StructRemoved, name, name)];
      } else {
        found := CompareStructs(name, Table(a.structs)[name], Table(b.structs)[name]);
      }
      Added(errors, found, name);
      errors := errors + found;
    }
    assert names[..|names|] == names;
    forall name, x: seq<Typed> | Defines(a.structs, name, x)
      ensures Reported(errors, name) <==> !exists y: seq<Typed> ::
        && Defines(b.structs, name, y) && |x| <= |y| && forall k :: 0 <= k < |x| ==> x[k].ctype == y[k].ctype
    {
      StructKeptExactly(a, b, name, x);
    }
  }

  method AnalyzeEnumAbi(a: Abi, b: Abi) returns (errors: seq<AbiError>)
    ensures forall name :: Reported(errors, name) <==> name in Table(Constants(a.enums)) && !ConstantKept(a, b, name)
    ensures forall name, v :: DefinesConstant(a.enums, name, v) ==>
      (Reported(errors, name) <==> !DefinesConstant(b.enums, name, v))
    ensures forall name, enum :: AbiError(ConstantRemoved, enum, name) in errors <==>
      && name in Table(Constants(a.enums)) && Table(Constants(a.enums))[name].enum == enum
      && name !in Table(Constants(b.enums))
    ensures forall name, enum :: AbiError(ConstantChanged, enum, name) in errors <==>
      && name in Table(Constants(a.enums)) && Table(Constants(a.enums))[name].enum == enum
      && name in Table(Constants(b.enums))
      && Table(Constants(b.enums))[name].value != Table(Constants(a.enums))[name].value
  {
    hide Table, Constants, Reported, DefinesConstant;
    var names := Keys(Constants(a.enums));
    var oldValues, newValues := Table(Constants(a.enums)), Table(Constants(b.enums));
    errors := [];
    NothingReported();
    for k := 0 to |names|
      invariant forall name :: Reported(errors, name) <==>
        name in names[..k] && name in oldValues && !ConstantKept(a, b, name)
      invariant forall name, enum :: AbiError(ConstantRemoved, enum, name) in errors <==>
        name in names[..k] && name in oldValues && oldValues[name].enum == enum && name !in newValues
      invariant forall name, enum :: AbiError(ConstantChanged, enum, name) in errors <==>
        && name in names[..k] && name in oldValues && oldValues[name].enum == enum
        && name in newValues && newValues[name].value != oldValues[name].value
    {
      var name, found := names[k], [];
      assert names[..k + 1] == names[..k] + [name];
      if name !in newValues {
        found := [AbiError(ConstantRemoved, oldValues[name].enum, name)];
      } else if newValues[name].value != oldValues[name].value {
        found := [AbiError(ConstantChanged, oldValues[name].enum, name)];
      }
      Added(errors, found, name);
      errors := errors + found;
    }
    assert names[..|names|] == names;
    forall name, v | DefinesConstant(a.enums, name, v)
      ensures Reported(errors, name) <==> !DefinesConstant(b.enums, name, v)
    {
      ConstantKeptExactly(a, b, name, v);
    }
  }

  lemma NothingReported()
    ensures forall name :: !Reported([], name)
  {}

  lemma Added(errors: seq<AbiError>, found: seq<AbiError>, name: string)
    requires About(found, name)
    ensures forall other :: Reported(errors + found, other) <==>
      Reported(errors, other) || (other == name && found != [])
  {
    forall other
      ensures Reported(errors + found, other) <==> Reported(errors, other) || (other == name && found != [])
    {
      ReportedMore(errors, found, other);
      if found != [] { assert found[0].subject == name; }
    }
  }

  /** There is an error about exactly the functions, structs and constants that are not kept, so there is
      none if and only if the new interface is compatible with the old one. */
  method AnalyzeCAbi(a: Abi, b: Abi) returns (errors: seq<AbiError>)
    ensures errors == [] <==> Compatible(a, b)
    ensures forall name :: Reported(errors, name) <==>
      || (name in Table(a.functions) && !FunctionKept(a, b, name))
      || (name in Table(a.structs) && !StructKept(a, b, name))
      || (name in Table(Constants(a.enums)) && !ConstantKept(a, b, name))
  {
    hide Table, Constants, FunctionKept, StructKept, ConstantKept;
    var functions := AnalyzeFunctionAbi(a, b);
    var structs := AnalyzeStructAbi(a, b);
    var enums := AnalyzeEnumAbi(a, b);
    errors := functions + structs + enums;
    forall name
      ensures Reported(errors, name) <==> Reported(functions, name) || Reported(structs, name) || Reported(enums, name)
    {
      ReportedMore(functions + structs, enums, name);
      ReportedMore(functions, structs, name);
    }
    if errors != [] { assert Reported(errors, errors[0].subject); }
  }
}
