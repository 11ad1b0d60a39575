/** What the generated checkers accept and report, stated against
    definitions independent of how the checkers compute it. */
module Behaviour {
  import opened Common
  import opened Values
  import opened Shapes
  import opened Paths
  import opened Checks
  import opened Findings
  import opened Runtime
  import opened Compiler

  // ----- Primitive and literal types -----

  /** The values of a primitive or literal type. */
  predicate Inhabits(k: Kind, v: Value)
    requires IsFabric(k)
  {
    match k
    case NullT => v.Null?
    case UndefinedT => v.Undefined?
    case StringT => v.Str?
    case NumberT => v.Num?
    case BooleanT => v.Bool?
    case StringLit(s) => v == Str(s)
    case NumberLit(n) => v == Num(n)
    case BooleanLit(b) => v == Bool(b)
  }

  /** A primitive or literal checker reports nothing for a value of its
      type and exactly one finding otherwise; a literal needs both the
      runtime type and the value to match. */
  lemma FabricChecksType(k: Kind, input: Value, root: string)
    requires IsFabric(k)
    ensures var code := FabricCode(k);
            CheckFabric(code.test, code.expected, input, root)
            == if Inhabits(k, input) then Ok(None)
               else Ok(Some([MismatchMessage(root, code.expected, input)]))
  {
    var code := FabricCode(k);
    assert Mismatch(code.test, input) <==> !Inhabits(k, input) by {
      match input
      case Null =>
      case Undefined =>
      case Bool(_) =>
      case Num(_) =>
      case BigInt(_) =>
      case Str(_) =>
      case Arr(_) =>
      case Obj(_) =>
    }
  }

  // ----- Arrays -----

  /** The element checker passes the element at `i`. */
  predicate ElemPasses(env: Env, elem: nat, items: seq<Value>, root: string, i: nat, fuel: nat)
    requires i < |items|
  {
    Eval(env, elem, items[i], RootMerge(root, "[]", false, false), fuel) == Ok(None)
  }

  lemma {:induction false} ElemsPassIff(env: Env, elem: nat, items: seq<Value>, root: string, n: nat, fuel: nat)
    requires n <= |items|
    ensures Elems(env, elem, items, root, n, fuel) == Going([])
            <==> forall i :: 0 <= i < n ==> ElemPasses(env, elem, items, root, i, fuel)
    decreases n
  {
    if n > 0 {
      ElemsPassIff(env, elem, items, root, n - 1, fuel);
      ElemsStep(env, elem, items, root, n - 1, fuel);
      var w := Elems(env, elem, items, root, n - 1, fuel);
      var r := Eval(env, elem, items[n - 1], RootMerge(root, "[]", false, false), fuel);
      assert ElemPasses(env, elem, items, root, n - 1, fuel) <==> r == Ok(None);
      if w != Going([]) {
        assert !forall i :: 0 <= i < n - 1 ==> ElemPasses(env, elem, items, root, i, fuel);
      }
      if w.Going? && r.Ok? && r.findings.Some? {
        assert |w.stack + Spliced(r.findings.value, root, n - 1)| > 0;
      }
    }
  }

  /** A non-array gets one finding; an array passes exactly when every
      element passes, so the empty array always passes. */
  lemma ArrayPassIff(env: Env, elem: nat, input: Value, root: string, fuel: nat)
    ensures !input.Arr? ==> CheckArray(env, elem, input, root, fuel) == Ok(Some([NotArrayMessage(root, input)]))
    ensures CheckArray(env, elem, input, root, fuel) == Ok(None)
            <==> input.Arr? && forall i :: 0 <= i < |input.items| ==> ElemPasses(env, elem, input.items, root, i, fuel)
  {
    if input.Arr? {
      ElemsPassIff(env, elem, input.items, root, |input.items|, fuel);
    }
  }

  /** Every element finding names the element: it starts with `root.[k]`
      for the index `k` of an element. */
  predicate Indexed(fs: seq<string>, root: string, n: nat)
  {
    forall f <- fs :: exists k :: 0 <= k < n && IndexPath(root, k) <= f
  }

  lemma SplicedIndexed(errs: seq<string>, root: string, index: nat, n: nat)
    requires index < n
    requires Rooted(errs, RootMerge(root, "[]", false, false))
    ensures Indexed(Spliced(errs, root, index), root, n)
  {
    forall f <- Spliced(errs, root, index)
      ensures exists k :: 0 <= k < n && IndexPath(root, k) <= f
    {
      var i :| 0 <= i < |errs| && Spliced(errs, root, index)[i] == f;
      assert errs[i] in errs;
      InsertIndexPath(errs[i], root, index);
    }
  }

  lemma {:induction false} ElemsSomeIndex(env: Env, elem: nat, items: seq<Value>, root: string, n: nat, fuel: nat)
    requires n <= |items|
    ensures var w := Elems(env, elem, items, root, n, fuel);
            w.Going? ==> Indexed(w.stack, root, n)
    decreases n
  {
    if n > 0 {
      ElemsSomeIndex(env, elem, items, root, n - 1, fuel);
      var w := Elems(env, elem, items, root, n - 1, fuel);
      var path := RootMerge(root, "[]", false, false);
      var r := Eval(env, elem, items[n - 1], path, fuel);
      if w.Going? && r.Ok? && r.findings.Some? {
        EvalRooted(env, elem, items[n - 1], path, fuel);
        SplicedIndexed(r.findings.value, root, n - 1, n);
        var s := w.stack + Spliced(r.findings.value, root, n - 1);
        forall f <- s
          ensures exists k :: 0 <= k < n && IndexPath(root, k) <= f
        {
          if f in w.stack {
            var k :| 0 <= k < n - 1 && IndexPath(root, k) <= f;
          }
        }
      }
    }
  }

  /** Element `k`'s block of findings: the loop is still going before and
      after the element, the stack only grows, and every finding the element
      adds starts with `root.[k]`. */
  predicate ElemBlock(env: Env, elem: nat, items: seq<Value>, root: string, k: nat, fuel: nat)
    requires k < |items|
  {
    var before := Elems(env, elem, items, root, k, fuel);
    var after := Elems(env, elem, items, root, k + 1, fuel);
    before.Going? && after.Going? && before.stack <= after.stack
    && forall j :: |before.stack| <= j < |after.stack| ==> IndexPath(root, k) <= after.stack[j]
  }

  /** Each element's findings sit in their own block, in index order: the
      findings element `k` adds all carry `k`, and the blocks of elements
      `0..k` are a prefix of the whole list. Every finding also carries the
      index of some element visited. */
  lemma ElemsIndexed(env: Env, elem: nat, items: seq<Value>, root: string, n: nat, fuel: nat)
    requires n <= |items|
    ensures var w := Elems(env, elem, items, root, n, fuel);
            w.Going? ==> forall k :: 0 <= k < n ==>
                           ElemBlock(env, elem, items, root, k, fuel)
                           && Elems(env, elem, items, root, k + 1, fuel).stack <= w.stack
    ensures var w := Elems(env, elem, items, root, n, fuel);
            w.Going? ==> Indexed(w.stack, root, n)
  {
    ElemsSomeIndex(env, elem, items, root, n, fuel);
    var w := Elems(env, elem, items, root, n, fuel);
    if w.Going? {
      forall k | 0 <= k < n
        ensures ElemBlock(env, elem, items, root, k, fuel)
                && Elems(env, elem, items, root, k + 1, fuel).stack <= w.stack
      {
        ElemsGrow(env, elem, items, root, k + 1, n, fuel);
        ElemBlockHolds(env, elem, items, root, k, fuel);
      }
    }
  }

  /** While the loop keeps going, every earlier stack is a prefix of the later one. */
  lemma {:induction false} ElemsGrow(env: Env, elem: nat, items: seq<Value>, root: string, i: nat, n: nat, fuel: nat)
    requires i <= n <= |items| && Elems(env, elem, items, root, n, fuel).Going?
    ensures Elems(env, elem, items, root, i, fuel).Going?
    ensures Elems(env, elem, items, root, i, fuel).stack <= Elems(env, elem, items, root, n, fuel).stack
    decreases n - i
  {
    if i < n {
      ElemsStep(env, elem, items, root, n - 1, fuel);
      ElemsGrow(env, elem, items, root, i, n - 1, fuel);
      var a := Elems(env, elem, items, root, i, fuel).stack;
      var b := Elems(env, elem, items, root, n - 1, fuel).stack;
      var c := Elems(env, elem, items, root, n, fuel).stack;
      assert c[..|b|] == b;
      assert c[..|a|] == b[..|a|];
    }
  }

  /** One element appends exactly its own block. */
  lemma ElemBlockHolds(env: Env, elem: nat, items: seq<Value>, root: string, k: nat, fuel: nat)
    requires k < |items| && Elems(env, elem, items, root, k + 1, fuel).Going?
    ensures ElemBlock(env, elem, items, root, k, fuel)
  {
    ElemsStep(env, elem, items, root, k, fuel);
    var w := Elems(env, elem, items, root, k, fuel);
    var path := RootMerge(root, "[]", false, false);
    var r := Eval(env, elem, items[k], path, fuel);
    if r.Ok? && r.findings.Some? {
      var errs := r.findings.value;
      EvalRooted(env, elem, items[k], path, fuel);
      var after := w.stack + Spliced(errs, root, k);
      forall j | |w.stack| <= j < |after|
        ensures IndexPath(root, k) <= after[j]
      {
        var i := j - |w.stack|;
        assert after[j] == InsertIndex(errs[i], root, k);
        assert errs[i] in errs;
        InsertIndexPath(errs[i], root, k);
        PrefixOfAppend(IndexPath(root, k), errs[i][|root| + 3..]);
      }
    }
  }

  /** The array checker's findings, other than its own "Is not 'Array'" and
      a thrown error, come in per-element blocks in index order, each finding
      of element `k`'s block starting with `root.[k]`. */
  lemma ArrayFindingsIndexed(env: Env, elem: nat, items: seq<Value>, root: string, fuel: nat)
    ensures var r := CheckArray(env, elem, Arr(items), root, fuel);
            r.Ok? && r.findings.Some? ==>
              r.findings.value == Elems(env, elem, items, root, |items|, fuel).stack
              && (forall k :: 0 <= k < |items| ==>
                    ElemBlock(env, elem, items, root, k, fuel)
                    && Elems(env, elem, items, root, k + 1, fuel).stack <= r.findings.value)
              && Indexed(r.findings.value, root, |items|)
  {
    ElemsIndexed(env, elem, items, root, |items|, fuel);
  }

  // ----- Objects -----

  /** The checker of declared property `i` passes the value read for it. */
  predicate PropPasses(env: Env, ps: seq<PropCheck>, input: Value, root: string, i: nat, fuel: nat)
    requires i < |ps|
  {
    Eval(env, ps[i].key, Get(input, ps[i].name), RootMerge(root, ps[i].name, false, false), fuel) == Ok(None)
  }

  lemma PropsPassIff(env: Env, ps: seq<PropCheck>, input: Value, root: string, n: nat, fuel: nat)
    requires n <= |ps|
    ensures Props(env, ps, input, root, n, fuel) == Going([])
            <==> forall i :: 0 <= i < n ==> PropPasses(env, ps, input, root, i, fuel)
  {
    if Props(env, ps, input, root, n, fuel) == Going([]) {
      forall i | 0 <= i < n
        ensures PropPasses(env, ps, input, root, i, fuel)
      {
        PropsEmptyPasses(env, ps, input, root, n, i, fuel);
      }
    } else if forall i :: 0 <= i < n ==> PropPasses(env, ps, input, root, i, fuel) {
      PropsAllPass(env, ps, input, root, n, fuel);
    }
  }

  /** A loop that has collected nothing passed every property so far. */
  lemma PropsEmptyPasses(env: Env, ps: seq<PropCheck>, input: Value, root: string, n: nat, i: nat, fuel: nat)
    requires i < n <= |ps| && Props(env, ps, input, root, n, fuel) == Going([])
    ensures PropPasses(env, ps, input, root, i, fuel)
  {
    PropsEmptyBefore(env, ps, input, root, i + 1, n, fuel);
    PropsStepPasses(env, ps, input, root, i, fuel);
  }

  /** A loop that has collected nothing had collected nothing earlier either. */
  lemma {:induction false} PropsEmptyBefore(env: Env, ps: seq<PropCheck>, input: Value, root: string, i: nat, n: nat, fuel: nat)
    requires i <= n <= |ps| && Props(env, ps, input, root, n, fuel) == Going([])
    ensures Props(env, ps, input, root, i, fuel) == Going([])
    decreases n - i
  {
    if i < n {
      PropsStepPasses(env, ps, input, root, n - 1, fuel);
      PropsEmptyBefore(env, ps, input, root, i, n - 1, fuel);
    }
  }

  /** When every property so far passed, the loop has collected nothing. */
  lemma {:induction false} PropsAllPass(env: Env, ps: seq<PropCheck>, input: Value, root: string, n: nat, fuel: nat)
    requires n <= |ps| && forall i :: 0 <= i < n ==> PropPasses(env, ps, input, root, i, fuel)
    ensures Props(env, ps, input, root, n, fuel) == Going([])
    decreases n
  {
    if n > 0 {
      PropsAllPass(env, ps, input, root, n - 1, fuel);
      assert PropPasses(env, ps, input, root, n - 1, fuel);
      PropsStepPasses(env, ps, input, root, n - 1, fuel);
    }
  }

  /** One more property keeps the loop empty exactly when it passes. */
  lemma PropsStepPasses(env: Env, ps: seq<PropCheck>, input: Value, root: string, i: nat, fuel: nat)
    requires i < |ps|
    ensures Props(env, ps, input, root, i + 1, fuel) == Going([])
            <==> Props(env, ps, input, root, i, fuel) == Going([]) && PropPasses(env, ps, input, root, i, fuel)
  {
    PropsStep(env, ps, input, root, i, fuel);
    var w := Props(env, ps, input, root, i, fuel);
    var p := ps[i];
    var r := Eval(env, p.key, Get(input, p.name), RootMerge(root, p.name, false, false), fuel);
    if w.Going? && r.Ok? && r.findings.Some? {
      assert |w.stack + r.findings.value| > 0;
    }
  }

  /** A primitive, null or undefined gets one finding. An object checker
      passes exactly when the input is an object (an array counts), every
      declared property passes, and every own key of the input is declared. */
  lemma RecordPassIff(env: Env, ps: seq<PropCheck>, name: string, input: Value, root: string, fuel: nat)
    ensures !IsObjectInstance(input) ==> CheckRecord(env, ps, name, input, root, fuel) == Ok(Some([NotObjectMessage(root, name, input)]))
    ensures CheckRecord(env, ps, name, input, root, fuel) == Ok(None)
            <==> IsObjectInstance(input)
                 && (forall i :: 0 <= i < |ps| ==> PropPasses(env, ps, input, root, i, fuel))
                 && (forall key <- OwnKeys(input) :: key in PropNames(ps))
  {
    if IsObjectInstance(input) {
      PropsPassIff(env, ps, input, root, |ps|, fuel);
      var extra := Difference(OwnKeys(input), PropNames(ps));
      DifferenceMembers(OwnKeys(input), PropNames(ps));
      if |extra| > 0 {
        assert extra[0] in extra;
      }
    }
  }

  /** Once the declared properties pass, the findings are exactly one
      "Should not be defined" per undeclared own key, in key order. */
  lemma RecordExtrasOnly(env: Env, ps: seq<PropCheck>, name: string, input: Value, root: string, fuel: nat)
    requires IsObjectInstance(input)
    requires forall i :: 0 <= i < |ps| ==> PropPasses(env, ps, input, root, i, fuel)
    ensures CheckRecord(env, ps, name, input, root, fuel)
            == Ok(IsStack(Extras(root, Difference(OwnKeys(input), PropNames(ps)))))
  {
    PropsPassIff(env, ps, input, root, |ps|, fuel);
    var extras := Extras(root, Difference(OwnKeys(input), PropNames(ps)));
    assert [] + extras == extras;
  }

  /** `Array_Difference(a, b)` holds exactly the members of `a` that are not in `b`. */
  lemma {:induction false} DifferenceMembers(a: seq<string>, b: seq<string>)
    ensures forall x :: x in Difference(a, b) <==> x in a && x !in b
    decreases |a|
  {
    if |a| > 0 {
      DifferenceMembers(a[1..], b);
      assert a == [a[0]] + a[1..];
    }
  }

  /** `Array_Difference` keeps the order of its first argument. */
  lemma {:induction false} DifferenceAppend(a: seq<string>, c: seq<string>, b: seq<string>)
    ensures Difference(a + c, b) == Difference(a, b) + Difference(c, b)
    decreases |a|
  {
    if |a| > 0 {
      var head := if a[0] in b then [] else [a[0]];
      DifferenceAppend(a[1..], c, b);
      assert Difference(a + c, b) == head + Difference(a[1..] + c, b) by {
        assert (a + c)[0] == a[0];
        assert (a + c)[1..] == a[1..] + c;
      }
      assert head + (Difference(a[1..], b) + Difference(c, b)) == (head + Difference(a[1..], b)) + Difference(c, b);
    } else {
      assert a + c == c;
    }
  }

  // ----- Unions and intersections -----

  predicate MemberPasses(env: Env, ms: seq<Member>, input: Value, root: string, i: nat, fuel: nat)
    requires i < |ms|
  {
    Eval(env, ms[i].key, input, MemberPath(root, ms[i]), fuel) == Ok(None)
  }

  predicate MemberFails(env: Env, ms: seq<Member>, input: Value, root: string, i: nat, fuel: nat)
    requires i < |ms|
  {
    var r := Eval(env, ms[i].key, input, MemberPath(root, ms[i]), fuel);
    r.Ok? && r.findings.Some?
  }

  /** What member `i` contributes to a failing union's report on an object
      or array: its own findings when it is not primitive, else nothing. */
  function MemberReport(env: Env, ms: seq<Member>, input: Value, root: string, i: nat, fuel: nat): seq<string>
    requires i < |ms|
  {
    var r := Eval(env, ms[i].key, input, MemberPath(root, ms[i]), fuel);
    if ms[i].isPrimitive || r.Thrown? || r.findings.None? then [] else r.findings.value
  }

  /** The reports of the first `n` members, laid end to end in member order. */
  function MemberReports(env: Env, ms: seq<Member>, input: Value, root: string, n: nat, fuel: nat): seq<string>
    requires n <= |ms|
  {
    Concat(seq(n, i requires 0 <= i < n => MemberReport(env, ms, input, root, i, fuel)))
  }

  /** The parts laid end to end, first to last. */
  function Concat(parts: seq<seq<string>>): seq<string>
  {
    if |parts| == 0 then [] else Concat(parts[..|parts| - 1]) + parts[|parts| - 1]
  }

  lemma MemberReportsStep(env: Env, ms: seq<Member>, input: Value, root: string, n: nat, fuel: nat)
    requires 0 < n <= |ms|
    ensures MemberReports(env, ms, input, root, n, fuel)
            == MemberReports(env, ms, input, root, n - 1, fuel) + MemberReport(env, ms, input, root, n - 1, fuel)
  {
    var parts := seq(n, i requires 0 <= i < n => MemberReport(env, ms, input, root, i, fuel));
    assert parts[..n - 1] == seq(n - 1, i requires 0 <= i < n - 1 => MemberReport(env, ms, input, root, i, fuel));
  }

  lemma {:induction false} MembersFirstPass(env: Env, ms: seq<Member>, input: Value, root: string, i: nat, n: nat, fuel: nat)
    requires i < n <= |ms|
    requires forall j :: 0 <= j < i ==> MemberFails(env, ms, input, root, j, fuel)
    requires MemberPasses(env, ms, input, root, i, fuel)
    ensures Members(env, ms, input, root, n, fuel) == Done(Ok(None))
    decreases n
  {
    if n - 1 > i {
      MembersFirstPass(env, ms, input, root, i, n - 1, fuel);
    } else {
      MembersAllFail(env, ms, input, root, i, fuel);
    }
  }

  lemma {:induction false} MembersAllFail(env: Env, ms: seq<Member>, input: Value, root: string, n: nat, fuel: nat)
    requires n <= |ms|
    requires forall j :: 0 <= j < n ==> MemberFails(env, ms, input, root, j, fuel)
    ensures Members(env, ms, input, root, n, fuel).Going?
    ensures |Members(env, ms, input, root, n, fuel).stack| == 0
            <==> forall j :: 0 <= j < n ==> ms[j].isPrimitive
    ensures Members(env, ms, input, root, n, fuel).stack == MemberReports(env, ms, input, root, n, fuel)
    decreases n
  {
    if n > 0 {
      MembersAllFail(env, ms, input, root, n - 1, fuel);
      MemberReportsStep(env, ms, input, root, n, fuel);
      assert MemberFails(env, ms, input, root, n - 1, fuel);
      var w := Members(env, ms, input, root, n - 1, fuel);
      var r := Eval(env, ms[n - 1].key, input, MemberPath(root, ms[n - 1]), fuel);
      assert |r.findings.value| > 0;
      if !ms[n - 1].isPrimitive {
        assert |w.stack + r.findings.value| > 0;
      }
    }
  }

  /** Members are tried in order, and the first one that passes makes the
      whole union pass. */
  lemma UnionFirstPassWins(env: Env, ms: seq<Member>, joined: string, input: Value, root: string, i: nat, fuel: nat)
    requires i < |ms|
    requires forall j :: 0 <= j < i ==> MemberFails(env, ms, input, root, j, fuel)
    requires MemberPasses(env, ms, input, root, i, fuel)
    ensures CheckUnion(env, ms, joined, input, root, fuel) == Ok(None)
  {
    MembersFirstPass(env, ms, input, root, i, |ms|, fuel);
  }

  /** When every member fails on a primitive input, the union reports one
      finding naming all its members. */
  lemma UnionFailsOnPrimitive(env: Env, ms: seq<Member>, joined: string, input: Value, root: string, fuel: nat)
    requires IsPrimitive(input)
    requires forall j :: 0 <= j < |ms| ==> MemberFails(env, ms, input, root, j, fuel)
    ensures CheckUnion(env, ms, joined, input, root, fuel)
            == Ok(Some([UnionMessage(root, joined, input)]))
  {
    MembersAllFail(env, ms, input, root, |ms|, fuel);
  }

  /** When every member fails on an object or array, the union reports the
      findings of its non-primitive members, member by member in order, so a
      union of primitive members alone lets every object and array through. */
  lemma UnionFailsOnObject(env: Env, ms: seq<Member>, joined: string, input: Value, root: string, fuel: nat)
    requires !IsPrimitive(input)
    requires forall j :: 0 <= j < |ms| ==> MemberFails(env, ms, input, root, j, fuel)
    ensures var reports := MemberReports(env, ms, input, root, |ms|, fuel);
            CheckUnion(env, ms, joined, input, root, fuel) == if |reports| == 0 then Ok(None) else Ok(Some(reports))
    ensures CheckUnion(env, ms, joined, input, root, fuel) == Ok(None)
            <==> forall j :: 0 <= j < |ms| ==> ms[j].isPrimitive
  {
    MembersAllFail(env, ms, input, root, |ms|, fuel);
  }

  /** An intersection is compiled exactly as the union of the same members. */
  lemma IntersectionIsUnion(arena: Arena, k: nat, j: nat, ms: seq<nat>)
    requires ArenaClosed(arena) && k in arena && j in arena
    requires arena[k].kind == Intersection(ms) && arena[j].kind == Union(ms)
    ensures Fabricable(arena[k]) && Fabricable(arena[j])
    ensures Build(arena, k) == Build(arena, j) == UnionCode(arena, ms)
  {
  }
}
