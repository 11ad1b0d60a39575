/** The generated checkers as the source runs them: loops that push into a
    fresh `errStack` and leave early on a passing union member or a thrown
    error. Each method is proved to compute the corresponding function of
    module Checks. */
module Runtime {
  import opened Common
  import opened Values
  import opened Paths
  import opened Checks

  /** Once a loop has left early, later iterations do not change its outcome. */
  lemma {:induction false} ElemsStaysDone(env: Env, elem: nat, items: seq<Value>, root: string, i: nat, n: nat, fuel: nat)
    requires i <= n <= |items|
    requires Elems(env, elem, items, root, i, fuel).Done?
    ensures Elems(env, elem, items, root, n, fuel) == Elems(env, elem, items, root, i, fuel)
    decreases n - i
  {
    if i < n {
      ElemsStaysDone(env, elem, items, root, i, n - 1, fuel);
    }
  }

  lemma {:induction false} MembersStaysDone(env: Env, ms: seq<Member>, input: Value, root: string, i: nat, n: nat, fuel: nat)
    requires i <= n <= |ms|
    requires Members(env, ms, input, root, i, fuel).Done?
    ensures Members(env, ms, input, root, n, fuel) == Members(env, ms, input, root, i, fuel)
    decreases n - i
  {
    if i < n {
      MembersStaysDone(env, ms, input, root, i, n - 1, fuel);
    }
  }

  lemma {:induction false} PropsStaysDone(env: Env, ps: seq<PropCheck>, input: Value, root: string, i: nat, n: nat, fuel: nat)
    requires i <= n <= |ps|
    requires Props(env, ps, input, root, i, fuel).Done?
    ensures Props(env, ps, input, root, n, fuel) == Props(env, ps, input, root, i, fuel)
    decreases n - i
  {
    if i < n {
      PropsStaysDone(env, ps, input, root, i, n - 1, fuel);
    }
  }

  /** Calling the checker stored under `key`: `dumpCheck` looks the map up
      at call time and throws when nothing is installed. */
  method Check(env: Env, key: nat, input: Value, root: string, fuel: nat) returns (r: Outcome)
    ensures r == Eval(env, key, input, root, fuel)
    decreases fuel, 0
  {
    if fuel == 0 {
      return Thrown(StackOverflow);
    }
    if key !in env.cache {
      return Thrown(NotGenerated(ShortNameOf(env.arena, key)));
    }
    match env.cache[key]
    case Forward(k) =>
      r := Check(env, k, input, root, fuel - 1);
    case Compiled(code) =>
      r := RunCode(env, code, input, root, fuel - 1);
  }

  /** One generated checker body. */
  method RunCode(env: Env, code: Code, input: Value, root: string, fuel: nat) returns (r: Outcome)
    ensures r == Run(env, code, input, root, fuel)
    decreases fuel, 4
  {
    match code
    case Fabric(t, expected) =>
      if Mismatch(t, input) {
        r := Ok(Some([MismatchMessage(root, expected, input)]));
      } else {
        r := Ok(None);
      }
    case ArrayCheck(e) =>
      r := RunArray(env, e, input, root, fuel);
    case UnionCheck(ms, joined) =>
      r := RunUnion(env, ms, joined, input, root, fuel);
    case RecordCheck(ps, name) =>
      r := RunRecord(env, ps, name, input, root, fuel);
  }

  /** The array checker: each element at path `root.[]`, its findings
      rewritten to carry the element's index. */
  method RunArray(env: Env, elem: nat, input: Value, root: string, fuel: nat) returns (r: Outcome)
    ensures r == CheckArray(env, elem, input, root, fuel)
    decreases fuel, 3
  {
    if !input.Arr? {
      return Ok(Some([NotArrayMessage(root, input)]));
    }
    var items := input.items;
    var errStack: seq<string> := [];
    var key := 0;
    while key < |items|
      invariant 0 <= key <= |items|
      invariant Elems(env, elem, items, root, key, fuel) == Going(errStack)
    {
      var err := Check(env, elem, items[key], RootMerge(root, "[]", false, false), fuel);
      if err.Thrown? {
        ElemsStaysDone(env, elem, items, root, key + 1, |items|, fuel);
        return err;
      }
      if err.findings.Some? {
        errStack := PushSpliced(errStack, err.findings.value, root, key);
      }
      key := key + 1;
    }
    r := Ok(IsStack(errStack));
  }

  /** The array checker's inner loop: each element finding with the index
      written after the first `|root| + 2` characters, in order. */
  method PushSpliced(errStack: seq<string>, errs: seq<string>, root: string, key: nat) returns (r: seq<string>)
    ensures r == errStack + Spliced(errs, root, key)
  {
    r := errStack;
    var j := 0;
    while j < |errs|
      invariant 0 <= j <= |errs|
      invariant r == errStack + Spliced(errs, root, key)[..j]
    {
      var e := errs[j];
      var p1 := Take(e, |root| + 2);
      var p2 := Drop(e, |root| + 2);
      r := r + [p1 + NatToString(key) + p2];
      assert Spliced(errs, root, key)[..j + 1] == Spliced(errs, root, key)[..j] + [Spliced(errs, root, key)[j]];
      j := j + 1;
    }
    assert Spliced(errs, root, key)[..|errs|] == Spliced(errs, root, key);
  }

  /** The union (and intersection) checker: members in order, the first
      one that passes ends the check. */
  method RunUnion(env: Env, ms: seq<Member>, joined: string, input: Value, root: string, fuel: nat) returns (r: Outcome)
    ensures r == CheckUnion(env, ms, joined, input, root, fuel)
    decreases fuel, 3
  {
    var w := WalkMembers(env, ms, input, root, fuel);
    if w.Done? {
      r := w.result;
    } else if IsPrimitive(input) {
      r := Ok(Some([UnionMessage(root, joined, input)]));
    } else {
      r := Ok(IsStack(w.stack));
    }
  }

  /** The union checker's loop over its members: a member that passes or
      throws ends it; the findings of a non-primitive member are kept. */
  method WalkMembers(env: Env, ms: seq<Member>, input: Value, root: string, fuel: nat) returns (w: Walk)
    ensures w == Members(env, ms, input, root, |ms|, fuel)
    decreases fuel, 2
  {
    var errStack: seq<string> := [];
    for i := 0 to |ms|
      invariant Members(env, ms, input, root, i, fuel) == Going(errStack)
    {
      var next := VisitMember(env, ms, input, root, i, fuel, errStack);
      if next.Done? {
        MembersStaysDone(env, ms, input, root, i + 1, |ms|, fuel);
        return next;
      }
      errStack := next.stack;
    }
    w := Going(errStack);
  }

  /** One pass of the union loop: call the member's checker at its path. */
  method VisitMember(env: Env, ms: seq<Member>, input: Value, root: string, i: nat, fuel: nat, errStack: seq<string>)
    returns (next: Walk)
    requires i < |ms| && Members(env, ms, input, root, i, fuel) == Going(errStack)
    ensures next == Members(env, ms, input, root, i + 1, fuel)
    decreases fuel, 1
  {
    var m := ms[i];
    var err := Check(env, m.key, input, MemberPath(root, m), fuel);
    MembersStep(env, ms, input, root, i, fuel, errStack);
    if err.Thrown? || err.findings.None? {
      return Done(err);
    }
    next := Going(if m.isPrimitive then errStack else errStack + err.findings.value);
  }

  /** One more member: a throw or a pass leaves the loop, a failure keeps
      the member's findings unless the member is primitive. */
  lemma MembersStep(env: Env, ms: seq<Member>, input: Value, root: string, i: nat, fuel: nat, stack: seq<string>)
    requires i < |ms| && Members(env, ms, input, root, i, fuel) == Going(stack)
    ensures var m := ms[i];
            var err := Eval(env, m.key, input, MemberPath(root, m), fuel);
            Members(env, ms, input, root, i + 1, fuel)
            == if err.Thrown? then Done(err)
               else if err.findings.None? then Done(Ok(None))
               else Going(if m.isPrimitive then stack else stack + err.findings.value)
  {
  }

  /** One more property: a throw leaves the loop, findings are appended. */
  lemma PropsStep(env: Env, ps: seq<PropCheck>, input: Value, root: string, i: nat, fuel: nat)
    requires i < |ps|
    ensures var w := Props(env, ps, input, root, i, fuel);
            var p := ps[i];
            var err := Eval(env, p.key, Get(input, p.name), RootMerge(root, p.name, false, false), fuel);
            Props(env, ps, input, root, i + 1, fuel)
            == if w.Done? then w
               else if err.Thrown? then Done(err)
               else if err.findings.None? then w
               else Going(w.stack + err.findings.value)
  {
  }

  /** One more element: a throw leaves the loop, findings are appended with the index written in. */
  lemma ElemsStep(env: Env, elem: nat, items: seq<Value>, root: string, i: nat, fuel: nat)
    requires i < |items|
    ensures var w := Elems(env, elem, items, root, i, fuel);
            var err := Eval(env, elem, items[i], RootMerge(root, "[]", false, false), fuel);
            Elems(env, elem, items, root, i + 1, fuel)
            == if w.Done? then w
               else if err.Thrown? then Done(err)
               else if err.findings.None? then w
               else Going(w.stack + Spliced(err.findings.value, root, i))
  {
  }

  /** The object checker: declared properties in order, then one finding
      per own key that is not declared. */
  method RunRecord(env: Env, ps: seq<PropCheck>, name: string, input: Value, root: string, fuel: nat) returns (r: Outcome)
    ensures r == CheckRecord(env, ps, name, input, root, fuel)
    decreases fuel, 3
  {
    if !IsObjectInstance(input) {
      return Ok(Some([NotObjectMessage(root, name, input)]));
    }
    var errStack: seq<string> := [];
    for i := 0 to |ps|
      invariant Props(env, ps, input, root, i, fuel) == Going(errStack)
    {
      var p := ps[i];
      var err := Check(env, p.key, Get(input, p.name), RootMerge(root, p.name, false, false), fuel);
      if err.Thrown? {
        PropsStaysDone(env, ps, input, root, i + 1, |ps|, fuel);
        return err;
      }
      if err.findings.Some? {
        errStack := errStack + err.findings.value;
      }
    }
    var extra := Difference(OwnKeys(input), PropNames(ps));
    errStack := PushExtras(errStack, root, extra);
    r := Ok(IsStack(errStack));
  }

  /** The object checker's last loop: one finding per undeclared key, in order. */
  method PushExtras(errStack: seq<string>, root: string, extra: seq<string>) returns (r: seq<string>)
    ensures r == errStack + Extras(root, extra)
  {
    r := errStack;
    for j := 0 to |extra|
      invariant r == errStack + Extras(root, extra[..j])
    {
      r := r + [ExtraMessage(root, extra[j])];
      assert extra[..j + 1] == extra[..j] + [extra[j]];
    }
    assert extra[..|extra|] == extra;
  }
}
