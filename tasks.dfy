/** The task reorder rule of the `/:task/move/:toIdx` handler: find the
    task's row, move it to the requested position with two `splice` calls
    on a copy of the rows, then renumber the ids 1..n in the new order.
    Rows are values, so the caller's rows are never changed. */
module Tasks {
  import opened Common
  import opened Values

  /** The start index `splice` derives from its first argument: a negative
      index counts from the end, and anything out of range is clamped. */
  function RelativeIndex(start: int, len: nat): (r: nat)
    ensures r <= len
    ensures 0 <= start <= len ==> r == start
    ensures start < 0 <= len + start ==> r == len + start
    ensures len + start < 0 ==> r == 0
    ensures start > len ==> r == len
  {
    if start < 0 then (if len + start < 0 then 0 else len + start)
    else if start > len then len
    else start
  }

  /** What an array's `splice` leaves in the array and returns, given a
      start, a delete count and the items to insert there. */
  datatype Cut = Cut(rest: seq<Value>, removed: seq<Value>)

  function Splice(xs: seq<Value>, start: int, deleteCount: int, items: seq<Value>): (r: Cut)
    ensures var s := RelativeIndex(start, |xs|);
            s + |r.removed| <= |xs| && r.removed == xs[s..s + |r.removed|]
            && r.rest == xs[..s] + items + xs[s + |r.removed|..]
    ensures deleteCount <= 0 ==> r.removed == []
    ensures 0 <= deleteCount <= |xs| - RelativeIndex(start, |xs|) ==> |r.removed| == deleteCount
  {
    var s := RelativeIndex(start, |xs|);
    var count := if deleteCount < 0 then 0 else if deleteCount > |xs| - s then |xs| - s else deleteCount;
    Cut(xs[..s] + items + xs[s + count..], xs[s..s + count])
  }

  /** `splice` loses nothing: what stays and what it returns together hold
      exactly the old elements and the inserted items. */
  lemma SpliceConserves(xs: seq<Value>, start: int, deleteCount: int, items: seq<Value>)
    ensures var r := Splice(xs, start, deleteCount, items);
            |r.rest| == |xs| - |r.removed| + |items|
            && multiset(r.rest) + multiset(r.removed) == multiset(xs) + multiset(items)
  {
    var r := Splice(xs, start, deleteCount, items);
    var s := RelativeIndex(start, |xs|);
    var a, c := xs[..s], xs[s + |r.removed|..];
    SplitAround(xs, s, s + |r.removed|);
    ExchangeMiddle(a, r.removed, c, items);
  }

  /** Splicing the removed run back in where the inserted items now are
      restores the array. */
  lemma SpliceUndo(xs: seq<Value>, start: int, deleteCount: int, items: seq<Value>)
    requires 0 <= start <= |xs|
    ensures var r := Splice(xs, start, deleteCount, items);
            Splice(r.rest, start, |items|, r.removed).rest == xs
  {
    var r := Splice(xs, start, deleteCount, items);
    var e := start + |r.removed|;
    var a, c := xs[..start], xs[e..];
    SplitAround(xs, start, e);
    ExchangeMiddle(a, r.removed, c, items);
  }

  lemma SplitAround(xs: seq<Value>, s: nat, e: nat)
    requires s <= e <= |xs|
    ensures xs == xs[..s] + xs[s..e] + xs[e..]
  {
  }

  /** Replacing the middle part `b` of `a + b + c` by `items`, and back. */
  lemma ExchangeMiddle(a: seq<Value>, b: seq<Value>, c: seq<Value>, items: seq<Value>)
    ensures var t := a + items + c;
            |t| == |a + b + c| - |b| + |items|
            && multiset(t) + multiset(b) == multiset(a + b + c) + multiset(items)
            && t[..|a|] == a && t[|a| + |items|..] == c
  {
    var t := a + items + c;
    assert t[..|a|] == a;
    assert t[|a| + |items|..] == c;
  }

  /** The first removed row: undefined when `splice` removed nothing. */
  function First(removed: seq<Value>): Value
  {
    if |removed| > 0 then removed[0] else Undefined
  }

  /** `r` is `xs` with the element at `s` moved to position `t`: it sits
      there, and taking it out again gives `xs` without it. */
  ghost predicate Moved(xs: seq<Value>, s: nat, t: nat, r: seq<Value>)
  {
    s < |xs| && t < |r| == |xs| && r[t] == xs[s]
    && r[..t] + r[t + 1..] == xs[..s] + xs[s + 1..]
    && multiset(r) == multiset(xs)
  }

  /** `reorderArray(array, sourceIndex, targetIndex)`. When a row is
      removed, the result holds it at the target and keeps every other row
      in order; when none is (an empty array, or a source past the end),
      undefined is inserted instead. */
  method ReorderArray(items: seq<Value>, sourceIndex: int, targetIndex: int) returns (newArray: seq<Value>)
    ensures RelativeIndex(sourceIndex, |items|) < |items|
            ==> Moved(items, RelativeIndex(sourceIndex, |items|), RelativeIndex(targetIndex, |items| - 1), newArray)
    ensures RelativeIndex(sourceIndex, |items|) == |items|
            ==> newArray == items[..RelativeIndex(targetIndex, |items|)] + [Undefined] + items[RelativeIndex(targetIndex, |items|)..]
    ensures 0 <= sourceIndex < |items| && 0 <= targetIndex < |items| ==> Moved(items, sourceIndex, targetIndex, newArray)
    ensures sourceIndex == -1 && 0 <= targetIndex < |items| ==> Moved(items, |items| - 1, targetIndex, newArray)
  {
    newArray := items;
    var cut := Splice(newArray, sourceIndex, 1, []);
    newArray := cut.rest;
    var element := First(cut.removed);
    var t := RelativeIndex(targetIndex, |newArray|);
    newArray := Splice(newArray, targetIndex, 0, [element]).rest;
    var s := RelativeIndex(sourceIndex, |items|);
    if s < |items| {
      assert cut.removed == [items[s]];
      MoveBySplices(items, s, t, cut.rest, newArray);
      assert t == RelativeIndex(targetIndex, |items| - 1);
    } else {
      assert cut.rest == items;
    }
  }

  /** Removing the element at `s` and inserting it at `t` moves it. */
  lemma MoveBySplices(xs: seq<Value>, s: nat, t: nat, rest: seq<Value>, r: seq<Value>)
    requires s < |xs| && rest == xs[..s] + xs[s + 1..] && t <= |rest|
    requires r == rest[..t] + [xs[s]] + rest[t..]
    ensures Moved(xs, s, t, r)
  {
    RemoveAt(xs, s);
    InsertAt(rest, t, xs[s]);
  }

  lemma RemoveAt(xs: seq<Value>, s: nat)
    requires s < |xs|
    ensures multiset(xs[..s] + xs[s + 1..]) + multiset{xs[s]} == multiset(xs)
  {
    assert xs == xs[..s] + [xs[s]] + xs[s + 1..];
  }

  lemma InsertAt(rest: seq<Value>, t: nat, e: Value)
    requires t <= |rest|
    ensures var r := rest[..t] + [e] + rest[t..];
            |r| == |rest| + 1 && r[t] == e && r[..t] + r[t + 1..] == rest
            && multiset(r) == multiset(rest) + multiset{e}
  {
    var r := rest[..t] + [e] + rest[t..];
    assert r[..t] == rest[..t];
    assert r[t + 1..] == rest[t..];
    assert rest == rest[..t] + rest[t..];
  }

  // ----- Renumbering -----

  /** The own fields an object spread copies: an object's fields, nothing for undefined. */
  function Spread(v: Value): seq<Field>
  {
    if v.Obj? then v.fields else []
  }

  /** A spread with one field set: an existing field keeps its place and takes
      the new value, a missing one is added at the end. */
  function SetField(fields: seq<Field>, key: string, v: Value): (r: seq<Field>)
    ensures Lookup(r, key) == v
    ensures forall k :: k != key ==> Lookup(r, k) == Lookup(fields, k)
    ensures |r| == |fields| || |r| == |fields| + 1
    decreases |fields|
  {
    if |fields| == 0 then [Field(key, v)]
    else if fields[0].key == key then [Field(key, v)] + fields[1..]
    else
      var tail := SetField(fields[1..], key, v);
      assert ([fields[0]] + tail)[1..] == tail;
      [fields[0]] + tail
  }

  /** The rows numbered afresh: the row at position `i` gets id `i + 1` and
      keeps every other field. */
  function Renumber(rows: seq<Value>): (r: seq<Value>)
    ensures |r| == |rows|
    ensures forall i :: 0 <= i < |r| ==> Get(r[i], "id") == Num(i + 1)
    ensures forall i, k :: 0 <= i < |r| && k != "id" ==> Get(r[i], k) == Lookup(Spread(rows[i]), k)
  {
    seq(|rows|, i requires 0 <= i < |rows| => Obj(SetField(Spread(rows[i]), "id", Num(i + 1))))
  }

  // ----- The move handler -----

  /** The row's id is strictly equal to the requested id, the `:task` route parameter
      read as an integer; `None` stands for a parameter that is not one. */
  predicate HasId(v: Value, id: Option<int>)
  {
    id.Some? && Get(v, "id") == Num(id.value)
  }

  /** The position of the first row with the requested id, or -1 when no row has it. */
  function FindIndex(rows: seq<Value>, id: Option<int>): (r: int)
    ensures -1 <= r < |rows|
    ensures r >= 0 ==> HasId(rows[r], id) && forall j :: 0 <= j < r ==> !HasId(rows[j], id)
    ensures r == -1 <==> forall j :: 0 <= j < |rows| ==> !HasId(rows[j], id)
  {
    FindFrom(rows, id, 0)
  }

  function FindFrom(rows: seq<Value>, id: Option<int>, i: nat): (r: int)
    requires i <= |rows|
    ensures r == -1 || i <= r < |rows|
    ensures r >= 0 ==> HasId(rows[r], id) && forall j :: i <= j < r ==> !HasId(rows[j], id)
    ensures r == -1 <==> forall j :: i <= j < |rows| ==> !HasId(rows[j], id)
    decreases |rows| - i
  {
    if i == |rows| then -1
    else if HasId(rows[i], id) then i
    else FindFrom(rows, id, i + 1)
  }

  /** The target position read as an integer, as `splice` takes it: a
      parameter that is not a number (here `None`) counts as 0. */
  function ToInteger(n: Option<int>): int
  {
    if n.Some? then n.value else 0
  }

  /** The `/:task/move/:toIdx` handler without its database: the rows in
      their new order, renumbered. An unknown task moves the last row, and
      an empty table gains a row holding only `id: 1`. */
  method MoveTask(rows: seq<Value>, task: Option<int>, toIdx: Option<int>) returns (output: seq<Value>)
    ensures forall i :: 0 <= i < |output| ==> Get(output[i], "id") == Num(i + 1)
    ensures FindIndex(rows, task) >= 0 ==>
              exists moved :: Moved(rows, FindIndex(rows, task), RelativeIndex(ToInteger(toIdx), |rows| - 1), moved)
                              && output == Renumber(moved)
    ensures FindIndex(rows, task) == -1 && |rows| > 0 ==>
              exists moved :: Moved(rows, |rows| - 1, RelativeIndex(ToInteger(toIdx), |rows| - 1), moved)
                              && output == Renumber(moved)
    ensures |rows| == 0 ==> output == [Obj([Field("id", Num(1))])]
  {
    var taskIdx := FindIndex(rows, task);
    var toIdxNum := ToInteger(toIdx);
    var moved := ReorderArray(rows, taskIdx, toIdxNum);
    output := Renumber(moved);
  }

  /** The handler as evidently intended: an unknown task is refused and the
      rows stay as they are. */
  method MoveExisting(rows: seq<Value>, task: Option<int>, toIdx: Option<int>) returns (r: Option<seq<Value>>)
    ensures r.None? <==> forall j :: 0 <= j < |rows| ==> !HasId(rows[j], task)
    ensures r.Some? ==> |r.value| == |rows|
    ensures r.Some? ==> forall i :: 0 <= i < |r.value| ==> Get(r.value[i], "id") == Num(i + 1)
    ensures r.Some? ==>
              exists moved :: Moved(rows, FindIndex(rows, task), RelativeIndex(ToInteger(toIdx), |rows| - 1), moved)
                              && r.value == Renumber(moved)
  {
    var taskIdx := FindIndex(rows, task);
    if taskIdx == -1 {
      return None;
    }
    var output := MoveTask(rows, task, toIdx);
    r := Some(output);
  }
}
