/** `createCheckerToType` and `createChecker`: compiling a type of the arena
    into checkers held in a checker map, with a forwarding entry reserved
    for a type before its parts are compiled, and the facade that validates
    an input from the root path `[<ShortName>]`. */
module Compiler {
  import opened Common
  import opened Values
  import opened Shapes
  import opened Paths
  import opened Checks

  /** The compile-time errors (thrown `Error` messages). */
  function NotFabric(text: string): string
  {
    "TypeChecker: type [" + text + "] is not fabric"
  }

  function TooManyDeclarations(text: string, prop: string, count: nat): string
  {
    "TypeChecker: property [" + text + "." + prop + "] has " + NatToString(count)
    + " declarations, only one expected"
  }

  /** Asking the first declaration of a property that has none for its type
      reads a property of `undefined`. */
  const NoDeclaration: string := "Cannot read properties of undefined (reading 'getType')"

  function NotFound(typeName: string): string
  {
    "TypeChecker: type [" + typeName + "] not found"
  }

  /** The error compiling a property raises before its type is compiled, if any. */
  function PropFault(text: string, p: Prop): Option<string>
  {
    if |p.decls| > 1 then Some(TooManyDeclarations(text, p.name, |p.decls|))
    else if |p.decls| == 0 then Some(NoDeclaration)
    else None
  }

  /** `msg` is an error that compiling this node itself raises. */
  ghost predicate FaultOf(n: Node, msg: string)
  {
    ((n.kind.BigIntT? || n.kind.Unhandled?) && msg == NotFabric(n.text))
    || (n.kind.Record? && exists i :: 0 <= i < |n.kind.props| && PropFault(n.text, n.kind.props[i]) == Some(msg))
  }

  /** `b` is a part the compiler visits when it compiles the node at `a`:
      the element type, a member, or the first declaration of a property. */
  predicate PartOf(arena: Arena, a: nat, b: nat)
  {
    a in arena
    && match arena[a].kind
       case ArrayOf(e) => b == e
       case Intersection(ms) => b in ms
       case Union(ms) => b in ms
       case Record(ps) => exists i :: 0 <= i < |ps| && |ps[i].decls| > 0 && ps[i].decls[0] == b
       case _ => false
  }

  /** A chain of nodes, each a part of the one before. */
  ghost predicate IsPath(arena: Arena, p: seq<nat>)
  {
    |p| > 0 && forall i :: 0 <= i < |p| - 1 ==> PartOf(arena, p[i], p[i + 1])
  }

  /** Compiling `from` can lead to compiling `to`. */
  ghost predicate Reaches(arena: Arena, from: nat, to: nat)
  {
    exists p :: IsPath(arena, p) && p[0] == from && p[|p| - 1] == to
  }

  /** `msg` is the fault of a node that compiling `k` reaches. */
  ghost predicate FaultBelow(arena: Arena, k: nat, j: nat, msg: string)
  {
    j in arena && Reaches(arena, k, j) && FaultOf(arena[j], msg)
  }

  lemma ReachesSelf(arena: Arena, k: nat)
    ensures Reaches(arena, k, k)
  {
    assert IsPath(arena, [k]);
  }

  /** What a part of `k` reaches, `k` reaches too. */
  lemma ReachesThrough(arena: Arena, k: nat, child: nat, j: nat)
    requires PartOf(arena, k, child) && Reaches(arena, child, j)
    ensures Reaches(arena, k, j)
  {
    var p :| IsPath(arena, p) && p[0] == child && p[|p| - 1] == j;
    var q := [k] + p;
    assert forall i :: 0 < i < |q| - 1 ==> q[i] == p[i - 1] && q[i + 1] == p[i];
    assert IsPath(arena, q);
  }

  /** A node whose own compilation raises nothing: a handled kind, and
      exactly one declaration per property. */
  predicate Fabricable(n: Node)
  {
    !n.kind.BigIntT? && !n.kind.Unhandled?
    && (n.kind.Record? ==> forall i :: 0 <= i < |n.kind.props| ==> |n.kind.props[i].decls| == 1)
  }

  /** A primitive type `fabricCheck` has a test for: every primitive but `bigint`. */
  predicate IsFabric(k: Kind)
  {
    IsPrimitiveType(k) && !k.BigIntT?
  }

  /** `fabricCheck(predicate, nameTypeExpect)` for a primitive or literal type;
      a literal's expected name carries its value, unquoted. */
  function FabricCode(k: Kind): Code
    requires IsFabric(k)
  {
    match k
    case NullT => Fabric(IsNull, "null")
    case UndefinedT => Fabric(IsUndefined, "undefined")
    case StringT => Fabric(IsString, "string")
    case NumberT => Fabric(IsNumber, "number")
    case BooleanT => Fabric(IsBoolean, "boolean")
    case StringLit(s) => Fabric(IsStringLiteral(s), "(string) " + s)
    case NumberLit(n) => Fabric(IsNumberLiteral(n), "(number) " + IntToString(n))
    case BooleanLit(b) => Fabric(IsBooleanLiteral(b), "(boolean) " + BoolToString(b))
  }

  function MemberOf(arena: Arena, m: nat): Member
    requires m in arena
  {
    Member(m, IsPrimitiveType(arena[m].kind), GetName(arena[m]), IsObjectType(arena[m].kind))
  }

  /** `UoIname`: the member names joined by " | ". */
  function UnionName(arena: Arena, ms: seq<nat>): string
    requires forall i :: 0 <= i < |ms| ==> ms[i] in arena
  {
    Join(seq(|ms|, i requires 0 <= i < |ms| => GetName(arena[ms[i]])), " | ")
  }

  function UnionCode(arena: Arena, ms: seq<nat>): Code
    requires forall i :: 0 <= i < |ms| ==> ms[i] in arena
  {
    UnionCheck(seq(|ms|, i requires 0 <= i < |ms| => MemberOf(arena, ms[i])), UnionName(arena, ms))
  }

  function RecordCode(ps: seq<Prop>, name: string): Code
    requires forall i :: 0 <= i < |ps| ==> |ps[i].decls| == 1
  {
    RecordCheck(seq(|ps|, i requires 0 <= i < |ps| => PropCheck(ps[i].name, ps[i].decls[0])), name)
  }

  /** The checker `createCheckerToType` builds for the node at `k`. An
      intersection gets the union algorithm. */
  function Build(arena: Arena, k: nat): Code
    requires ArenaClosed(arena) && k in arena && Fabricable(arena[k])
  {
    var n := arena[k];
    assert RefersWithin(n.kind, arena.Keys);
    match n.kind
    case ArrayOf(e) => ArrayCheck(e)
    case Intersection(ms) =>
      assert forall i :: 0 <= i < |ms| ==> ms[i] in arena;
      UnionCode(arena, ms)
    case Union(ms) =>
      assert forall i :: 0 <= i < |ms| ==> ms[i] in arena;
      UnionCode(arena, ms)
    case Record(ps) => RecordCode(ps, n.shortName)
    case NullT => FabricCode(n.kind)
    case UndefinedT => FabricCode(n.kind)
    case StringT => FabricCode(n.kind)
    case NumberT => FabricCode(n.kind)
    case BooleanT => FabricCode(n.kind)
    case StringLit(_) => FabricCode(n.kind)
    case NumberLit(_) => FabricCode(n.kind)
    case BooleanLit(_) => FabricCode(n.kind)
  }

  /** The entry under `k`, if any, belongs to a node; a forwarding entry
      forwards to its own node, and an installed checker is the one built
      for its node and calls only checkers of the map. */
  ghost predicate EntryOk(arena: Arena, cache: Cache, k: nat)
    requires ArenaClosed(arena)
  {
    k in cache ==>
      k in arena
      && (cache[k].Forward? ==> cache[k].key == k)
      && (cache[k].Compiled? ==> Fabricable(arena[k]) && cache[k].code == Build(arena, k)
                                 && ChildrenIn(cache[k].code, cache))
  }

  /** The invariant of a checker map during compilation: every entry is as
      `EntryOk` says. */
  ghost predicate Sound(arena: Arena, cache: Cache)
  {
    ArenaClosed(arena) && forall k {:trigger EntryOk(arena, cache, k)} :: EntryOk(arena, cache, k)
  }

  /** Entries are never removed or replaced, except that the caller installs over a reservation. */
  ghost predicate Grows(before: Cache, after: Cache)
  {
    forall j {:trigger before[j]} | j in before :: j in after && after[j] == before[j]
  }

  /** Every entry added since `before`, other than `k`, is installed. */
  ghost predicate NewInstalled(before: Cache, after: Cache, k: nat)
  {
    forall j {:trigger after[j]} | j in after && j !in before && j != k :: after[j].Compiled?
  }

  lemma ChildrenInGrows(code: Code, a: Cache, b: Cache)
    requires ChildrenIn(code, a) && a.Keys <= b.Keys
    ensures ChildrenIn(code, b)
  {
  }

  /** Reserving a forwarding entry for a new key keeps the map sound. */
  lemma ReserveKeepsSound(arena: Arena, cache: Cache, k: nat)
    requires Sound(arena, cache) && k in arena && k !in cache
    ensures Sound(arena, cache[k := Forward(k)]) && Grows(cache, cache[k := Forward(k)])
  {
    var after := cache[k := Forward(k)];
    forall j
      ensures EntryOk(arena, after, j)
    {
      assert EntryOk(arena, cache, j);
      if j in cache && cache[j].Compiled? {
        ChildrenInGrows(cache[j].code, cache, after);
      }
    }
  }

  /** Installing what compiling `child` returned, after the map went
      through `c0` (before the loop), `c1` (before the call) and `c2`
      (after the call), keeps every invariant of the map. */
  lemma InstallChild(arena: Arena, c0: Cache, c1: Cache, c2: Cache, k: nat, child: nat, e: Entry)
    requires Sound(arena, c2) && child in arena
    requires Grows(c0, c1) && NewInstalled(c0, c1, k)
    requires Grows(c1, c2) && NewInstalled(c1, c2, child) && child in c2
    requires child in c1 ==> e == c1[child]
    requires child !in c1 ==>
               c2[child] == Forward(child) && Fabricable(arena[child])
               && e == Compiled(Build(arena, child)) && ChildrenIn(e.code, c2)
    ensures Sound(arena, c2[child := e]) && Grows(c0, c2[child := e]) && NewInstalled(c0, c2[child := e], k)
    ensures c2.Keys == c2[child := e].Keys
  {
    var c3 := c2[child := e];
    if child in c1 {
      assert c3 == c2;
    } else {
      forall j
        ensures EntryOk(arena, c3, j)
      {
        assert EntryOk(arena, c2, j);
        if j == child {
          ChildrenInGrows(e.code, c2, c3);
        } else if j in c2 && c2[j].Compiled? {
          ChildrenInGrows(c2[j].code, c2, c3);
        }
      }
    }
  }

  /** Storing the root type's checker in a fresh map
      leaves every entry installed: the map is finished. */
  lemma InstallRoot(arena: Arena, cache: Cache, k: nat, e: Entry)
    requires Sound(arena, cache) && k in arena && k in cache && NewInstalled(map[], cache, k)
    requires Fabricable(arena[k]) && e == Compiled(Build(arena, k)) && ChildrenIn(e.code, cache)
    ensures Sound(arena, cache[k := e]) && Complete(Env(arena, cache[k := e]))
  {
    var done := cache[k := e];
    forall j
      ensures EntryOk(arena, done, j) && Installed(Env(arena, done), j)
    {
      assert EntryOk(arena, cache, j);
      if j == k {
        ChildrenInGrows(e.code, cache, done);
      } else if j in cache {
        assert cache[j].Compiled?;
        ChildrenInGrows(cache[j].code, cache, done);
      }
    }
  }

  lemma NewInstalledTransitive(a: Cache, b: Cache, c: Cache, k: nat)
    requires Grows(a, b) && Grows(b, c) && NewInstalled(a, b, k) && NewInstalled(b, c, k)
    ensures NewInstalled(a, c, k)
  {
  }

  lemma GrowsTransitive(a: Cache, b: Cache, c: Cache)
    requires Grows(a, b) && Grows(b, c)
    ensures Grows(a, c)
  {
  }

  /** The compiler state: the arena the oracle answers from and `typeCheckMap`. */
  class TypeCompiler {
    const arena: Arena
    var cache: Cache

    ghost predicate Valid()
      reads this
    {
      Sound(arena, cache)
    }

    /** Every checker gets its own, empty map. */
    constructor (arena: Arena)
      requires ArenaClosed(arena)
      ensures this.arena == arena && cache == map[] && Valid()
    {
      this.arena := arena;
      cache := map[];
    }

    /** Storing an entry in the map under a type's key. */
    method Install(k: nat, e: Entry)
      modifies this
      ensures cache == old(cache)[k := e]
    {
      cache := cache[k := e];
    }

    /** `createCheckerToType(type, typeCheckMap)`: a cached entry is returned
        as it is; otherwise the node's forwarding entry is reserved first, so
        a reference back to the node compiles to that entry, and then the
        node's checker is built. Installing the result is the caller's job. */
    method Compile(k: nat) returns (r: Result<Entry, string>)
      requires Valid() && k in arena
      modifies this
      ensures Valid() && Grows(old(cache), cache)
      ensures r.Success? ==> k in cache && NewInstalled(old(cache), cache, k)
      ensures r.Success? && k in old(cache) ==> r.value == old(cache)[k]
      ensures r.Success? && k !in old(cache) ==>
                cache[k] == Forward(k) && Fabricable(arena[k])
                && r.value == Compiled(Build(arena, k)) && ChildrenIn(r.value.code, cache)
      ensures k !in old(cache) && (arena[k].kind.BigIntT? || arena[k].kind.Unhandled?)
              ==> r == Failure(NotFabric(arena[k].text))
      ensures r.Failure? ==>
                k !in old(cache)
                && exists j :: j in cache && j !in old(cache) && FaultBelow(arena, k, j, r.error)
      decreases arena.Keys - cache.Keys, 4
    {
      if k in cache {
        return Success(cache[k]);
      }
      ReserveKeepsSound(arena, cache, k);
      Install(k, Forward(k));
      assert arena.Keys - cache.Keys + {k} == arena.Keys - old(cache).Keys;
      var n := arena[k];
      if IsFabric(n.kind) {
        return Success(Compiled(FabricCode(n.kind)));
      }
      ghost var reserved := cache;
      match n.kind
      case ArrayOf(e) =>
        r := CompileArray(k, e);
        GrowsTransitive(old(cache), reserved, cache);
      case Intersection(ms) =>
        r := CompileUnion(k, ms);
        GrowsTransitive(old(cache), reserved, cache);
      case Union(ms) =>
        r := CompileUnion(k, ms);
        GrowsTransitive(old(cache), reserved, cache);
      case Record(ps) =>
        r := CompileRecord(k, ps);
        GrowsTransitive(old(cache), reserved, cache);
      case BigIntT =>
        ReachesSelf(arena, k);
        assert FaultBelow(arena, k, k, NotFabric(n.text));
        return Failure(NotFabric(n.text));
      case Unhandled =>
        ReachesSelf(arena, k);
        assert FaultBelow(arena, k, k, NotFabric(n.text));
        return Failure(NotFabric(n.text));
    }

    /** The array case: `arrayCheck` over the element type's checker. */
    method CompileArray(k: nat, e: nat) returns (r: Result<Entry, string>)
      requires Valid() && k in arena && k in cache && cache[k] == Forward(k) && arena[k].kind == ArrayOf(e)
      modifies this
      ensures Valid() && Grows(old(cache), cache)
      ensures r.Success? ==>
                NewInstalled(old(cache), cache, k) && Fabricable(arena[k])
                && r.value == Compiled(Build(arena, k)) && ChildrenIn(r.value.code, cache)
      ensures r.Failure? ==>
                exists j :: j in cache && (j == k || j !in old(cache)) && FaultBelow(arena, k, j, r.error)
      decreases arena.Keys - cache.Keys + {k}, 3
    {
      assert RefersWithin(arena[k].kind, arena.Keys);
      assert PartOf(arena, k, e);
      var c := CompileChild(k, e);
      if c.Failure? {
        return Failure(c.error);
      }
      r := Success(Compiled(ArrayCheck(e)));
    }

    /** The union and intersection case: `unionCheck` over the members' checkers. */
    method CompileUnion(k: nat, ms: seq<nat>) returns (r: Result<Entry, string>)
      requires Valid() && k in arena && k in cache && cache[k] == Forward(k)
      requires arena[k].kind == Union(ms) || arena[k].kind == Intersection(ms)
      modifies this
      ensures Valid() && Grows(old(cache), cache)
      ensures r.Success? ==>
                NewInstalled(old(cache), cache, k) && Fabricable(arena[k])
                && r.value == Compiled(Build(arena, k)) && ChildrenIn(r.value.code, cache)
      ensures r.Failure? ==>
                exists j :: j in cache && (j == k || j !in old(cache)) && FaultBelow(arena, k, j, r.error)
      decreases arena.Keys - cache.Keys + {k}, 3
    {
      assert RefersWithin(arena[k].kind, arena.Keys);
      var c := CompileMembers(k, ms);
      if c.Failure? {
        return Failure(c.error);
      }
      r := Success(Compiled(UnionCheck(c.value, UnionName(arena, ms))));
      assert r.value.code == UnionCode(arena, ms);
    }

    /** The object case: `objectCheck` over the properties' checkers. */
    method CompileRecord(k: nat, ps: seq<Prop>) returns (r: Result<Entry, string>)
      requires Valid() && k in arena && k in cache && cache[k] == Forward(k) && arena[k].kind == Record(ps)
      modifies this
      ensures Valid() && Grows(old(cache), cache)
      ensures r.Success? ==>
                NewInstalled(old(cache), cache, k) && Fabricable(arena[k])
                && r.value == Compiled(Build(arena, k)) && ChildrenIn(r.value.code, cache)
      ensures r.Failure? ==>
                exists j :: j in cache && (j == k || j !in old(cache)) && FaultBelow(arena, k, j, r.error)
      decreases arena.Keys - cache.Keys + {k}, 3
    {
      var c := CompileProps(k, ps);
      if c.Failure? {
        return Failure(c.error);
      }
      r := Success(Compiled(RecordCheck(c.value, arena[k].shortName)));
      assert r.value.code == RecordCode(ps, arena[k].shortName);
    }

    /** A part of the node at `k` is compiled against the shared map, and
        what comes back is stored in the map under the part's own key. */
    method CompileChild(k: nat, child: nat) returns (r: Result<Entry, string>)
      requires Valid() && k in arena && k in cache && child in arena && PartOf(arena, k, child)
      modifies this
      ensures Valid() && Grows(old(cache), cache)
      ensures r.Success? ==> NewInstalled(old(cache), cache, k) && child in cache && cache[child] == r.value
      ensures r.Failure? ==>
                exists j :: j in cache && (j == k || j !in old(cache)) && FaultBelow(arena, k, j, r.error)
      decreases arena.Keys - cache.Keys + {k}, 0
    {
      ghost var before := cache;
      r := Compile(child);
      if r.Success? {
        ghost var called := cache;
        InstallChild(arena, before, before, called, k, child, r.value);
        Install(child, r.value);
      } else {
        ghost var j :| j in cache && j !in before && FaultBelow(arena, child, j, r.error);
        ReachesThrough(arena, k, child, j);
        assert FaultBelow(arena, k, j, r.error);
      }
    }

    /** The union/intersection case's loop: compile and install each member in order. */
    method CompileMembers(k: nat, ms: seq<nat>) returns (r: Result<seq<Member>, string>)
      requires Valid() && k in arena && k in cache
      requires forall i :: 0 <= i < |ms| ==> ms[i] in arena
      requires arena[k].kind == Union(ms) || arena[k].kind == Intersection(ms)
      modifies this
      ensures Valid() && Grows(old(cache), cache)
      ensures r.Success? ==> NewInstalled(old(cache), cache, k)
      ensures r.Success? ==> |r.value| == |ms| && forall i :: 0 <= i < |ms| ==> r.value[i] == MemberOf(arena, ms[i])
      ensures r.Success? ==> forall i :: 0 <= i < |ms| ==> ms[i] in cache
      ensures r.Failure? ==>
                exists j :: j in cache && (j == k || j !in old(cache)) && FaultBelow(arena, k, j, r.error)
      decreases arena.Keys - cache.Keys + {k}, 2
    {
      var members: seq<Member> := [];
      for i := 0 to |ms|
        invariant Valid() && Grows(old(cache), cache) && NewInstalled(old(cache), cache, k)
        invariant old(cache).Keys <= cache.Keys
        invariant |members| == i
        invariant forall j :: 0 <= j < i ==> members[j] == MemberOf(arena, ms[j])
        invariant forall j :: 0 <= j < i ==> members[j].key in cache
      {
        ghost var before := cache;
        assert ms[i] in ms;
        var c := CompileChild(k, ms[i]);
        if c.Failure? {
          return Failure(c.error);
        }
        GrowsTransitive(old(cache), before, cache);
        NewInstalledTransitive(old(cache), before, cache, k);
        members := members + [MemberOf(arena, ms[i])];
        assert members[..i] == members[..|members| - 1];
      }
      r := Success(members);
    }

    /** The object case's loop: each property in order. */
    method CompileProps(k: nat, ps: seq<Prop>) returns (r: Result<seq<PropCheck>, string>)
      requires Valid() && k in arena && k in cache && arena[k].kind == Record(ps)
      modifies this
      ensures Valid() && Grows(old(cache), cache)
      ensures r.Success? ==> NewInstalled(old(cache), cache, k)
      ensures r.Success? ==> (forall i :: 0 <= i < |ps| ==> |ps[i].decls| == 1)
      ensures r.Success? ==> |r.value| == |ps| && forall i :: 0 <= i < |ps| ==> r.value[i] == PropCheck(ps[i].name, ps[i].decls[0])
      ensures r.Success? ==> forall i :: 0 <= i < |ps| ==> ps[i].decls[0] in cache
      ensures r.Failure? ==>
                exists j :: j in cache && (j == k || j !in old(cache)) && FaultBelow(arena, k, j, r.error)
      decreases arena.Keys - cache.Keys + {k}, 2
    {
      var props: seq<PropCheck> := [];
      for i := 0 to |ps|
        invariant Valid() && Grows(old(cache), cache) && NewInstalled(old(cache), cache, k)
        invariant old(cache).Keys <= cache.Keys
        invariant |props| == i
        invariant forall j :: 0 <= j < i ==> |ps[j].decls| == 1 && props[j] == PropCheck(ps[j].name, ps[j].decls[0])
        invariant forall j :: 0 <= j < i ==> props[j].key in cache
      {
        ghost var before := cache;
        var c := CompileProp(k, i);
        if c.Failure? {
          return Failure(c.error);
        }
        GrowsTransitive(old(cache), before, cache);
        NewInstalledTransitive(old(cache), before, cache, k);
        props := props + [c.value];
        assert props[..i] == props[..|props| - 1];
      }
      r := Success(props);
    }

    /** One property: more or fewer than one declaration is an error raised
        before anything is compiled; otherwise its type is compiled and installed. */
    method CompileProp(k: nat, i: nat) returns (r: Result<PropCheck, string>)
      requires Valid() && k in arena && k in cache && arena[k].kind.Record? && i < |arena[k].kind.props|
      modifies this
      ensures Valid() && Grows(old(cache), cache)
      ensures r.Success? ==>
                var p := arena[k].kind.props[i];
                NewInstalled(old(cache), cache, k) && |p.decls| == 1
                && r.value == PropCheck(p.name, p.decls[0]) && p.decls[0] in cache
      ensures var p := arena[k].kind.props[i];
              |p.decls| > 1 ==> r == Failure(TooManyDeclarations(arena[k].text, p.name, |p.decls|)) && cache == old(cache)
      ensures var p := arena[k].kind.props[i];
              |p.decls| == 0 ==> r == Failure(NoDeclaration) && cache == old(cache)
      ensures r.Failure? ==>
                exists j :: j in cache && (j == k || j !in old(cache)) && FaultBelow(arena, k, j, r.error)
      decreases arena.Keys - cache.Keys + {k}, 1
    {
      var n := arena[k];
      var p := n.kind.props[i];
      var fault := PropFault(n.text, p);
      if fault.Some? {
        assert FaultOf(n, fault.value);
        ReachesSelf(arena, k);
        assert FaultBelow(arena, k, k, fault.value);
        return Failure(fault.value);
      }
      assert RefersWithin(n.kind, arena.Keys);
      assert PartOf(arena, k, p.decls[0]);
      var c := CompileChild(k, p.decls[0]);
      if c.Failure? {
        return Failure(c.error);
      }
      r := Success(PropCheck(p.name, p.decls[0]));
    }
  }
}
