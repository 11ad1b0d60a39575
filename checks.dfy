/** What a compiled checker does with an input: the closures that
    `createCheckerToType` returns, as first-order code whose child checkers
    are named by their key in the checker map and looked up at call time. */
module Checks {
  import opened Common
  import opened Values
  import opened Shapes
  import opened Paths

  /** The predicate handed to `fabricCheck`, one per primitive or literal kind. */
  datatype Test =
    | IsNull
    | IsUndefined
    | IsString
    | IsNumber
    | IsBoolean
    | IsStringLiteral(s: string)
    | IsNumberLiteral(n: int)
    | IsBooleanLiteral(b: bool)

  /** One member of a union or intersection: its checker's key, and the
      `[check, isPrimitive, name, isObject]` tuple the source stores. */
  datatype Member = Member(key: nat, isPrimitive: bool, name: string, isObject: bool)

  /** One declared property of an object type and its checker's key. */
  datatype PropCheck = PropCheck(name: string, key: nat)

  /** The body of a generated checker. Union and intersection types share `UnionCheck`. */
  datatype Code =
    | Fabric(test: Test, expected: string)
    | ArrayCheck(elem: nat)
    | UnionCheck(members: seq<Member>, joined: string)
    | RecordCheck(props: seq<PropCheck>, name: string)

  /** A value of `typeCheckMap`: the forwarding `dumpCheck` of a type that
      is still being compiled, or a finished checker. */
  datatype Entry = Forward(key: nat) | Compiled(code: Code)

  type Cache = map<nat, Entry>

  /** What a checker sees when it runs: the types (for the runtime error
      message) and the checker map. */
  datatype Env = Env(arena: Arena, cache: Cache)

  /** A checker call either returns `ErrorTypes` (undefined or a list of
      findings) or throws an `Error` with a message. */
  datatype Outcome = Ok(findings: Option<seq<string>>) | Thrown(message: string)

  /** The state of a checker's loop over members, elements or properties:
      still collecting into `errStack`, or already left with an outcome. */
  datatype Walk = Going(stack: seq<string>) | Done(result: Outcome)

  /** The `RangeError` a JavaScript engine throws when the call stack is exhausted. */
  const StackOverflow: string := "Maximum call stack size exceeded"

  function NotGenerated(name: string): string
  {
    "TypeChecker runtime: for type [" + name + "] not generate check function"
  }

  function ShortNameOf(arena: Arena, key: nat): string
  {
    if key in arena then arena[key].shortName else ""
  }

  /** True when the input does NOT satisfy the test, as `fabricCheck`'s predicates return. */
  predicate Mismatch(t: Test, v: Value)
  {
    match t
    case IsNull => v != Null
    case IsUndefined => v != Undefined
    case IsString => TypeOf(v) != "string"
    case IsNumber => TypeOf(v) != "number"
    case IsBoolean => TypeOf(v) != "boolean"
    case IsStringLiteral(s) => TypeOf(v) != "string" || v != Str(s)
    case IsNumberLiteral(n) => TypeOf(v) != "number" || v != Num(n)
    case IsBooleanLiteral(b) => TypeOf(v) != "boolean" || v != Bool(b)
  }

  function Comes(v: Value): string
  {
    "'(" + TypeOf(v) + ") " + Render(v) + "'"
  }

  function MismatchMessage(root: string, expected: string, v: Value): string
  {
    root + (": Is not '" + expected + "', comes " + Comes(v))
  }

  function NotArrayMessage(root: string, v: Value): string
  {
    root + (": Is not 'Array', comes type '" + TypeOf(v) + "'")
  }

  function UnionMessage(root: string, joined: string, v: Value): string
  {
    root + (": Is not (" + joined + "), comes " + Comes(v))
  }

  function NotObjectMessage(root: string, name: string, v: Value): string
  {
    root + (": Is not 'Object' (" + name + "), comes " + Comes(v))
  }

  function ExtraMessage(root: string, key: string): string
  {
    root + ("." + key + ": Should not be defined")
  }

  /** `TypeChecker.isStack`: an empty list becomes undefined, so a checker
      never reports an empty list. */
  function IsStack(stack: seq<string>): (r: Option<seq<string>>)
    ensures r.None? <==> |stack| == 0
    ensures r.Some? ==> r.value == stack
  {
    if |stack| > 0 then Some(stack) else None
  }

  /** `TypeChecker.Array_Difference(a, b)`: the members of `a` not in `b`, in `a`'s order. */
  function Difference(a: seq<string>, b: seq<string>): (r: seq<string>)
    ensures |r| <= |a|
  {
    if |a| == 0 then []
    else (if a[0] in b then [] else [a[0]]) + Difference(a[1..], b)
  }

  function PropNames(ps: seq<PropCheck>): (names: seq<string>)
    ensures |names| == |ps|
  {
    seq(|ps|, i requires 0 <= i < |ps| => ps[i].name)
  }

  /** One "Should not be defined" finding per key, in order. */
  function Extras(root: string, keys: seq<string>): (r: seq<string>)
    ensures |r| == |keys|
  {
    seq(|keys|, i requires 0 <= i < |keys| => ExtraMessage(root, keys[i]))
  }

  /** The element findings of the element at `index`, with the index written in. */
  function Spliced(errs: seq<string>, root: string, index: nat): (r: seq<string>)
    ensures |r| == |errs|
  {
    seq(|errs|, i requires 0 <= i < |errs| => InsertIndex(errs[i], root, index))
  }

  /** Every checker a code calls is in the map. */
  predicate ChildrenIn(code: Code, cache: Cache)
  {
    match code
    case Fabric(_, _) => true
    case ArrayCheck(e) => e in cache
    case UnionCheck(ms, _) => forall i :: 0 <= i < |ms| ==> ms[i].key in cache
    case RecordCheck(ps, _) => forall i :: 0 <= i < |ps| ==> ps[i].key in cache
  }

  /** The entry under `k`, if any, is an installed checker that calls only checkers of the map. */
  predicate Installed(env: Env, k: nat)
  {
    k in env.cache ==> env.cache[k].Compiled? && ChildrenIn(env.cache[k].code, env.cache)
  }

  /** A finished checker map: every entry is installed. */
  ghost predicate Complete(env: Env)
  {
    forall k {:trigger Installed(env, k)} :: Installed(env, k)
  }

  /** Calling the checker stored under `key` with `fuel` stack frames left.
      A checker never reports an empty list of findings. */
  function Eval(env: Env, key: nat, input: Value, root: string, fuel: nat): (r: Outcome)
    ensures r.Ok? && r.findings.Some? ==> |r.findings.value| > 0
    decreases fuel, 0, 0
  {
    if fuel == 0 then Thrown(StackOverflow)
    else if key !in env.cache then Thrown(NotGenerated(ShortNameOf(env.arena, key)))
    else match env.cache[key]
      case Forward(k) => Eval(env, k, input, root, fuel - 1)
      case Compiled(code) => Run(env, code, input, root, fuel - 1)
  }

  /** Running one generated checker body on `input` at path `root`. */
  function Run(env: Env, code: Code, input: Value, root: string, fuel: nat): (r: Outcome)
    ensures r.Ok? && r.findings.Some? ==> |r.findings.value| > 0
    decreases fuel, 3, 0
  {
    match code
    case Fabric(t, expected) => CheckFabric(t, expected, input, root)
    case ArrayCheck(e) => CheckArray(env, e, input, root, fuel)
    case UnionCheck(ms, joined) => CheckUnion(env, ms, joined, input, root, fuel)
    case RecordCheck(ps, name) => CheckRecord(env, ps, name, input, root, fuel)
  }

  /** `fabricCheck(predicate, nameTypeExpect)`: one finding when the test fails. */
  function CheckFabric(t: Test, expected: string, input: Value, root: string): (r: Outcome)
    ensures r.Ok? && (r.findings.None? <==> !Mismatch(t, input))
    ensures r.Ok? && r.findings.Some? ==> r.findings.value == [MismatchMessage(root, expected, input)]
  {
    if Mismatch(t, input) then Ok(Some([MismatchMessage(root, expected, input)])) else Ok(None)
  }

  /** The array checker: one finding for a non-array, else the element findings. */
  function CheckArray(env: Env, e: nat, input: Value, root: string, fuel: nat): (r: Outcome)
    ensures r.Ok? && r.findings.Some? ==> |r.findings.value| > 0
    decreases fuel, 2, 0
  {
    if !input.Arr? then Ok(Some([NotArrayMessage(root, input)]))
    else match Elems(env, e, input.items, root, |input.items|, fuel)
      case Done(o) => o
      case Going(stack) => Ok(IsStack(stack))
  }

  /** The union (and intersection) checker: the members in order until one
      passes; when none does, one finding for a primitive input, else the
      findings of the non-primitive members. */
  function CheckUnion(env: Env, ms: seq<Member>, joined: string, input: Value, root: string, fuel: nat): (r: Outcome)
    ensures r.Ok? && r.findings.Some? ==> |r.findings.value| > 0
    decreases fuel, 2, 0
  {
    match Members(env, ms, input, root, |ms|, fuel)
    case Done(o) =>
      MembersLeaveEarly(env, ms, input, root, |ms|, fuel);
      o
    case Going(stack) =>
      if IsPrimitive(input) then Ok(Some([UnionMessage(root, joined, input)]))
      else Ok(IsStack(stack))
  }

  /** The object checker: one finding for a non-object, else the findings of
      the declared properties followed by one per undeclared own key. */
  function CheckRecord(env: Env, ps: seq<PropCheck>, name: string, input: Value, root: string, fuel: nat): (r: Outcome)
    ensures r.Ok? && r.findings.Some? ==> |r.findings.value| > 0
    decreases fuel, 2, 0
  {
    if !IsObjectInstance(input) then Ok(Some([NotObjectMessage(root, name, input)]))
    else match Props(env, ps, input, root, |ps|, fuel)
      case Done(o) => o
      case Going(stack) => Ok(IsStack(stack + Extras(root, Difference(OwnKeys(input), PropNames(ps)))))
  }

  /** The array checker's loop after its first `n` elements. */
  function Elems(env: Env, elem: nat, items: seq<Value>, root: string, n: nat, fuel: nat): (w: Walk)
    requires n <= |items|
    ensures w.Done? ==> w.result.Thrown?
    decreases fuel, 1, n
  {
    if n == 0 then Going([])
    else match Elems(env, elem, items, root, n - 1, fuel)
      case Done(o) => Done(o)
      case Going(stack) =>
        match Eval(env, elem, items[n - 1], RootMerge(root, "[]", false, false), fuel)
        case Thrown(m) => Done(Thrown(m))
        case Ok(None) => Going(stack)
        case Ok(Some(errs)) => Going(stack + Spliced(errs, root, n - 1))
  }

  /** The path a union member is checked at: its name, bracketed when it is
      an object type, inside braces. */
  function MemberPath(root: string, m: Member): string
  {
    RootMerge(root, m.name, true, m.isObject)
  }

  /** The union checker's loop after its first `n` members. */
  function Members(env: Env, ms: seq<Member>, input: Value, root: string, n: nat, fuel: nat): (w: Walk)
    requires n <= |ms|
    decreases fuel, 1, n
  {
    if n == 0 then Going([])
    else match Members(env, ms, input, root, n - 1, fuel)
      case Done(o) => Done(o)
      case Going(stack) =>
        var m := ms[n - 1];
        match Eval(env, m.key, input, MemberPath(root, m), fuel)
        case Thrown(x) => Done(Thrown(x))
        case Ok(None) => Done(Ok(None))
        case Ok(Some(errs)) => Going(if m.isPrimitive then stack else stack + errs)
  }

  /** The union loop leaves early only on a member that passes or throws. */
  lemma {:induction false} MembersLeaveEarly(env: Env, ms: seq<Member>, input: Value, root: string, n: nat, fuel: nat)
    requires n <= |ms|
    ensures var w := Members(env, ms, input, root, n, fuel);
            w.Done? ==> w.result.Thrown? || w.result == Ok(None)
    decreases fuel, 1, n + 1
  {
    if n > 0 {
      MembersLeaveEarly(env, ms, input, root, n - 1, fuel);
    }
  }

  /** The object checker's loop after its first `n` declared properties. */
  function Props(env: Env, ps: seq<PropCheck>, input: Value, root: string, n: nat, fuel: nat): (w: Walk)
    requires n <= |ps|
    ensures w.Done? ==> w.result.Thrown?
    decreases fuel, 1, n
  {
    if n == 0 then Going([])
    else match Props(env, ps, input, root, n - 1, fuel)
      case Done(o) => Done(o)
      case Going(stack) =>
        var p := ps[n - 1];
        var path := RootMerge(root, p.name, false, false);
        match Eval(env, p.key, Get(input, p.name), path, fuel)
        case Thrown(m) => Done(Thrown(m))
        case Ok(None) => Going(stack)
        case Ok(Some(errs)) => Going(stack + errs)
  }
}
