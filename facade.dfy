/** `TypeChecker.createChecker` and the `TypeChecker` instance built on it:
    find the named type, compile it into a fresh checker map, and validate
    inputs from the root path `[<ShortName>]`, turning a thrown error into a
    one-finding report. */
module Facade {
  import opened Common
  import opened Values
  import opened Shapes
  import opened Paths
  import opened Checks
  import opened Findings
  import opened Runtime
  import opened Compiler

  /** The function `createChecker` returns: the finished checker map, the
      root type's checker, and the root path it reports from. */
  datatype Checker = Checker(env: Env, code: Code, root: string)

  /** A checker whose map is finished and whose root checker calls only
      checkers of that map. */
  ghost predicate Ready(c: Checker)
  {
    Complete(c.env) && ChildrenIn(c.code, c.env.cache)
  }

  /** `findTypeFromProjectOrSource`: the declared type of the exported symbol
      with that name, or the "not found" error. */
  function FindType(names: map<string, nat>, typeName: string): (r: Result<nat, string>)
    ensures r.Success? <==> typeName in names
    ensures r.Success? ==> r.value == names[typeName]
    ensures r.Failure? ==> r.error == NotFound(typeName)
  {
    if typeName in names then Success(names[typeName]) else Failure(NotFound(typeName))
  }

  /** `TypeChecker.createChecker(source, strType)`: every checker gets a
      fresh map; the root type is compiled and then installed under its own
      key. An error raised while finding or compiling the type propagates. */
  method CreateChecker(arena: Arena, names: map<string, nat>, typeName: string) returns (r: Result<Checker, string>)
    requires ArenaClosed(arena)
    requires forall n | n in names :: names[n] in arena
    ensures typeName !in names ==> r == Failure(NotFound(typeName))
    ensures typeName in names
            && (arena[names[typeName]].kind.BigIntT? || arena[names[typeName]].kind.Unhandled?)
            ==> r == Failure(NotFabric(arena[names[typeName]].text))
    ensures r.Failure? && typeName in names ==> exists j :: FaultBelow(arena, names[typeName], j, r.error)
    ensures r.Success? ==>
              var k := names[typeName];
              typeName in names && Fabricable(arena[k])
              && r.value.env.arena == arena && k in r.value.env.cache
              && r.value.code == Build(arena, k) && r.value.env.cache[k] == Compiled(r.value.code)
              && r.value.root == RootPath(arena[k].shortName)
              && Sound(arena, r.value.env.cache) && Ready(r.value)
  {
    var found := FindType(names, typeName);
    if found.Failure? {
      return Failure(found.error);
    }
    var k := found.value;
    var root := RootPath(arena[k].shortName);
    var compiler := new TypeCompiler(arena);
    var check := compiler.Compile(k);
    if check.Failure? {
      return Failure(check.error);
    }
    InstallRoot(arena, compiler.cache, k, check.value);
    compiler.Install(k, check.value);
    r := Success(Checker(Env(arena, compiler.cache), check.value.code, root));
  }

  /** An object type `R` with one property of type `bigint`, beside an
      unrelated type `Foo` the oracle cannot compile either. */
  function FaultyArena(): Arena
  {
    map[0 := Node(Record([Prop("a", [1])]), "R", "R"),
        1 := Node(BigIntT, "bigint", "bigint"),
        2 := Node(Unhandled, "Foo", "Foo")]
  }

  /** Compiling from `R` visits `R` and `bigint` only. */
  lemma FaultyArenaReaches(j: nat)
    requires Reaches(FaultyArena(), 0, j)
    ensures j == 0 || j == 1
  {
    var arena := FaultyArena();
    var p :| IsPath(arena, p) && p[0] == 0 && p[|p| - 1] == j;
    var i := 0;
    while i < |p| - 1
      invariant 0 <= i < |p| && (p[i] == 0 || p[i] == 1)
    {
      assert PartOf(arena, p[i], p[i + 1]);
      i := i + 1;
    }
  }

  lemma FaultyArenaClosed()
    ensures ArenaClosed(FaultyArena())
  {
    var arena := FaultyArena();
    forall k | k in arena
      ensures RefersWithin(arena[k].kind, arena.Keys)
    {
    }
  }

  /** Once `R` is compiled, its property's entry can only be the reservation
      of `bigint`, so no sound map holding `R` is complete. */
  lemma FaultyArenaNotReady(c: Checker)
    requires Sound(FaultyArena(), c.env.cache) && 0 in c.env.cache && c.env.cache[0].Compiled?
    ensures !Complete(c.env)
  {
    var arena := FaultyArena();
    var cache := c.env.cache;
    assert EntryOk(arena, cache, 0);
    assert cache[0].code == RecordCheck([PropCheck("a", 1)], "R");
    assert ChildrenIn(cache[0].code, cache);
    assert cache[0].code.props[0].key in cache;
    assert EntryOk(arena, cache, 1);
    assert !Installed(c.env, 1);
  }

  /** The only fault compiling `R` reaches is the one of `bigint`. */
  lemma FaultyArenaFault(msg: string)
    requires exists j :: FaultBelow(FaultyArena(), 0, j, msg)
    ensures msg == NotFabric("bigint")
  {
    var arena := FaultyArena();
    var j :| FaultBelow(arena, 0, j, msg);
    FaultyArenaReaches(j);
  }

  /** The error `createChecker` raises is the one of the property's type,
      which compiling `R` reaches, and not the one of `Foo`, which it does not. */
  method FaultyArenaFails() returns (r: Result<Checker, string>)
    ensures r == Failure(NotFabric("bigint"))
  {
    FaultyArenaClosed();
    r := CreateChecker(FaultyArena(), map["R" := 0], "R");
    if r.Success? {
      FaultyArenaNotReady(r.value);
      assert false;
    }
    FaultyArenaFault(r.error);
  }

  /** What the checker returned by `createChecker` answers for `input` with
      `fuel` stack frames: the root checker's findings, or the message of
      the error it threw as the only finding. */
  function Validation(c: Checker, input: Value, fuel: nat): (r: Option<seq<string>>)
  {
    match Run(c.env, c.code, input, c.root, fuel)
    case Ok(findings) => findings
    case Thrown(message) => Some([message])
  }

  /** The closure `createChecker` returns: the root checker run from the
      root path, a thrown error becoming the one finding of its message. */
  method Validate(c: Checker, input: Value, fuel: nat) returns (r: Option<seq<string>>)
    ensures r == Validation(c, input, fuel)
  {
    var o := RunCode(c.env, c.code, input, c.root, fuel);
    match o
    case Ok(findings) => r := findings;
    case Thrown(message) => r := Some([message]);
  }

  /** A ready checker never answers with an empty list, and every finding
      it reports is located under its root path, unless the stack ran out. */
  lemma ValidationReports(c: Checker, input: Value, fuel: nat)
    requires Ready(c)
    ensures var r := Validation(c, input, fuel);
            r.Some? ==> |r.value| > 0 && (Rooted(r.value, c.root) || r.value == [StackOverflow])
  {
    RunRooted(c.env, c.code, input, c.root, fuel);
    RunOnlyOverflows(c.env, c.code, input, c.root, fuel);
  }

  /** `checkForWarn(input)`: the warnings (each also logged) and the input, unchanged. */
  datatype Warned = Warned(warns: Option<seq<string>>, input: Value)

  method CheckForWarn(c: Checker, input: Value, fuel: nat) returns (r: Warned)
    ensures r.input == input && r.warns == Validation(c, input, fuel)
  {
    var result := Validate(c, input, fuel);
    r := Warned(result, input);
  }
}
