/** What every generated checker guarantees about its findings, proved by
    induction over the calls a check makes: each finding starts with the
    path the checker was called with, and over a finished checker map the
    only error a check can throw is the stack overflow. */
module Findings {
  import opened Common
  import opened Values
  import opened Paths
  import opened Checks

  /** Every finding in `fs` starts with `root`. */
  predicate Rooted(fs: seq<string>, root: string)
  {
    forall f <- fs :: root <= f
  }

  /** What a checker call reports, if it reports findings, is rooted at `root`. */
  predicate OutcomeRooted(r: Outcome, root: string)
  {
    r.Ok? && r.findings.Some? ==> Rooted(r.findings.value, root)
  }

  /** A loop still collecting has collected only findings rooted at `root`. */
  predicate WalkRooted(w: Walk, root: string)
  {
    w.Going? ==> Rooted(w.stack, root)
  }

  /** The call threw nothing but the stack overflow, if it threw at all. */
  predicate OnlyOverflow(r: Outcome)
  {
    r.Thrown? ==> r.message == StackOverflow
  }

  /** A loop that left early threw nothing but the stack overflow. */
  predicate WalkOnlyOverflow(w: Walk)
  {
    w.Done? ==> OnlyOverflow(w.result)
  }

  lemma RootedAppend(a: seq<string>, b: seq<string>, root: string)
    requires Rooted(a, root) && Rooted(b, root)
    ensures Rooted(a + b, root)
  {
    forall f <- a + b ensures root <= f {
      assert f in a || f in b;
    }
  }

  lemma PrefixTransitive(root: string, path: string, errs: seq<string>)
    requires root <= path && Rooted(errs, path)
    ensures Rooted(errs, root)
  {
    forall f <- errs ensures root <= f {
      assert f[..|root|] == path[..|root|];
    }
  }

  lemma SplicedKeepsRoot(errs: seq<string>, root: string, index: nat)
    requires Rooted(errs, RootMerge(root, "[]", false, false))
    ensures Rooted(Spliced(errs, root, index), root)
  {
    forall i | 0 <= i < |errs| ensures root <= Spliced(errs, root, index)[i] {
      assert errs[i] in errs;
      InsertIndexPath(errs[i], root, index);
    }
  }

  lemma ExtrasRooted(root: string, keys: seq<string>)
    ensures Rooted(Extras(root, keys), root)
  {
    forall i | 0 <= i < |keys| ensures root <= Extras(root, keys)[i] {
      PrefixOfAppend(root, "." + keys[i] + ": Should not be defined");
    }
  }

  lemma PrefixOfAppend(a: string, b: string)
    ensures a <= a + b
  {
    assert (a + b)[..|a|] == a;
  }

  /** The one-finding reports of the checkers start with the root path. */
  lemma MessagesRooted(root: string, expected: string, joined: string, name: string, v: Value)
    ensures root <= MismatchMessage(root, expected, v)
    ensures root <= NotArrayMessage(root, v)
    ensures root <= UnionMessage(root, joined, v)
    ensures root <= NotObjectMessage(root, name, v)
  {
    PrefixOfAppend(root, ": Is not '" + expected + "', comes " + Comes(v));
    PrefixOfAppend(root, ": Is not 'Array', comes type '" + TypeOf(v) + "'");
    PrefixOfAppend(root, ": Is not (" + joined + "), comes " + Comes(v));
    PrefixOfAppend(root, ": Is not 'Object' (" + name + "), comes " + Comes(v));
  }

  /** Whatever a checker reports is located under the path it was called with. */
  lemma {:induction false} EvalRooted(env: Env, key: nat, input: Value, root: string, fuel: nat)
    ensures OutcomeRooted(Eval(env, key, input, root, fuel), root)
    decreases fuel, 0, 0
  {
    if fuel > 0 && key in env.cache {
      match env.cache[key]
      case Forward(k) => EvalRooted(env, k, input, root, fuel - 1);
      case Compiled(code) => RunRooted(env, code, input, root, fuel - 1);
    }
  }

  lemma {:induction false} RunRooted(env: Env, code: Code, input: Value, root: string, fuel: nat)
    ensures OutcomeRooted(Run(env, code, input, root, fuel), root)
    decreases fuel, 3, 0
  {
    match code
    case Fabric(t, expected) =>
      FabricRooted(t, expected, input, root);
    case ArrayCheck(e) =>
      ArrayRooted(env, e, input, root, fuel);
    case UnionCheck(ms, joined) =>
      UnionRooted(env, ms, joined, input, root, fuel);
    case RecordCheck(ps, name) =>
      RecordRooted(env, ps, name, input, root, fuel);
  }

  lemma FabricRooted(t: Test, expected: string, input: Value, root: string)
    ensures OutcomeRooted(CheckFabric(t, expected, input, root), root)
  {
    MessagesRooted(root, expected, "", "", input);
  }

  lemma {:induction false} ArrayRooted(env: Env, e: nat, input: Value, root: string, fuel: nat)
    ensures OutcomeRooted(CheckArray(env, e, input, root, fuel), root)
    decreases fuel, 2, 0
  {
    if input.Arr? {
      ElemsRooted(env, e, input.items, root, |input.items|, fuel);
    } else {
      MessagesRooted(root, "", "", "", input);
    }
  }

  lemma {:induction false} UnionRooted(env: Env, ms: seq<Member>, joined: string, input: Value, root: string, fuel: nat)
    ensures OutcomeRooted(CheckUnion(env, ms, joined, input, root, fuel), root)
    decreases fuel, 2, 0
  {
    MembersRooted(env, ms, input, root, |ms|, fuel);
    MembersLeaveEarly(env, ms, input, root, |ms|, fuel);
    MessagesRooted(root, "", joined, "", input);
  }

  lemma {:induction false} RecordRooted(env: Env, ps: seq<PropCheck>, name: string, input: Value, root: string, fuel: nat)
    ensures OutcomeRooted(CheckRecord(env, ps, name, input, root, fuel), root)
    decreases fuel, 2, 0
  {
    if IsObjectInstance(input) {
      PropsRooted(env, ps, input, root, |ps|, fuel);
      var w := Props(env, ps, input, root, |ps|, fuel);
      if w.Going? {
        var extras := Extras(root, Difference(OwnKeys(input), PropNames(ps)));
        ExtrasRooted(root, Difference(OwnKeys(input), PropNames(ps)));
        RootedAppend(w.stack, extras, root);
      }
    } else {
      MessagesRooted(root, "", "", name, input);
    }
  }

  lemma {:induction false} ElemsRooted(env: Env, elem: nat, items: seq<Value>, root: string, n: nat, fuel: nat)
    requires n <= |items|
    ensures WalkRooted(Elems(env, elem, items, root, n, fuel), root)
    decreases fuel, 1, n
  {
    if n > 0 {
      ElemsRooted(env, elem, items, root, n - 1, fuel);
      var path := RootMerge(root, "[]", false, false);
      EvalRooted(env, elem, items[n - 1], path, fuel);
      var r := Eval(env, elem, items[n - 1], path, fuel);
      if r.Ok? && r.findings.Some? {
        SplicedKeepsRoot(r.findings.value, root, n - 1);
      }
    }
  }

  lemma {:induction false} MembersRooted(env: Env, ms: seq<Member>, input: Value, root: string, n: nat, fuel: nat)
    requires n <= |ms|
    ensures WalkRooted(Members(env, ms, input, root, n, fuel), root)
    decreases fuel, 1, n
  {
    if n > 0 {
      MembersRooted(env, ms, input, root, n - 1, fuel);
      var m := ms[n - 1];
      var path := MemberPath(root, m);
      EvalRooted(env, m.key, input, path, fuel);
      var r := Eval(env, m.key, input, path, fuel);
      if r.Ok? && r.findings.Some? {
        PrefixTransitive(root, path, r.findings.value);
      }
    }
  }

  lemma {:induction false} PropsRooted(env: Env, ps: seq<PropCheck>, input: Value, root: string, n: nat, fuel: nat)
    requires n <= |ps|
    ensures WalkRooted(Props(env, ps, input, root, n, fuel), root)
    decreases fuel, 1, n
  {
    if n > 0 {
      PropsRooted(env, ps, input, root, n - 1, fuel);
      var p := ps[n - 1];
      var path := RootMerge(root, p.name, false, false);
      EvalRooted(env, p.key, Get(input, p.name), path, fuel);
      var r := Eval(env, p.key, Get(input, p.name), path, fuel);
      if r.Ok? && r.findings.Some? {
        PrefixTransitive(root, path, r.findings.value);
      }
    }
  }

  /** Over a finished checker map, a check can throw only when it runs out of stack. */
  lemma {:induction false} EvalOnlyOverflows(env: Env, key: nat, input: Value, root: string, fuel: nat)
    requires Complete(env) && key in env.cache
    ensures OnlyOverflow(Eval(env, key, input, root, fuel))
    decreases fuel, 0, 0
  {
    if fuel > 0 {
      assert Installed(env, key);
      RunOnlyOverflows(env, env.cache[key].code, input, root, fuel - 1);
    }
  }

  lemma {:induction false} RunOnlyOverflows(env: Env, code: Code, input: Value, root: string, fuel: nat)
    requires Complete(env) && ChildrenIn(code, env.cache)
    ensures OnlyOverflow(Run(env, code, input, root, fuel))
    decreases fuel, 3, 0
  {
    match code
    case Fabric(_, _) =>
    case ArrayCheck(e) =>
      if input.Arr? {
        ElemsOnlyOverflow(env, e, input.items, root, |input.items|, fuel);
      }
    case UnionCheck(ms, _) =>
      MembersOnlyOverflow(env, ms, input, root, |ms|, fuel);
    case RecordCheck(ps, _) =>
      if IsObjectInstance(input) {
        PropsOnlyOverflow(env, ps, input, root, |ps|, fuel);
      }
  }

  lemma {:induction false} ElemsOnlyOverflow(env: Env, elem: nat, items: seq<Value>, root: string, n: nat, fuel: nat)
    requires Complete(env) && elem in env.cache && n <= |items|
    ensures WalkOnlyOverflow(Elems(env, elem, items, root, n, fuel))
    decreases fuel, 1, n
  {
    if n > 0 {
      ElemsOnlyOverflow(env, elem, items, root, n - 1, fuel);
      EvalOnlyOverflows(env, elem, items[n - 1], RootMerge(root, "[]", false, false), fuel);
    }
  }

  lemma {:induction false} MembersOnlyOverflow(env: Env, ms: seq<Member>, input: Value, root: string, n: nat, fuel: nat)
    requires Complete(env) && n <= |ms|
    requires forall i :: 0 <= i < |ms| ==> ms[i].key in env.cache
    ensures WalkOnlyOverflow(Members(env, ms, input, root, n, fuel))
    decreases fuel, 1, n
  {
    if n > 0 {
      MembersOnlyOverflow(env, ms, input, root, n - 1, fuel);
      var m := ms[n - 1];
      EvalOnlyOverflows(env, m.key, input, MemberPath(root, m), fuel);
    }
  }

  lemma {:induction false} PropsOnlyOverflow(env: Env, ps: seq<PropCheck>, input: Value, root: string, n: nat, fuel: nat)
    requires Complete(env) && n <= |ps|
    requires forall i :: 0 <= i < |ps| ==> ps[i].key in env.cache
    ensures WalkOnlyOverflow(Props(env, ps, input, root, n, fuel))
    decreases fuel, 1, n
  {
    if n > 0 {
      PropsOnlyOverflow(env, ps, input, root, n - 1, fuel);
      var p := ps[n - 1];
      EvalOnlyOverflows(env, p.key, Get(input, p.name), RootMerge(root, p.name, false, false), fuel);
    }
  }
}
