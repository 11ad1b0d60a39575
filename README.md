# TypeChecker runtime validator and task reorder rule, in Dafny

This project models the core of a small Express/SQLite task-list service.

- **The runtime validator `TypeChecker`.** It looks up a TypeScript type by
  name, compiles it into a tree of JavaScript checker closures that share a
  `typeCheckMap`, and validates untyped input (request bodies) against the
  type. The result is a list of findings such as
  `[Task].name: Is not 'string', comes '(number) 3'`, or `undefined` when
  the input conforms.
- **The task move rule of the `/:task/move/:toIdx` handler.** It moves one
  row to a new position with two `splice` calls on a copy of the rows, then
  renumbers the ids 1..n.

The type oracle (ts-morph) is a given arena of shapes addressed by keys,
plus a map from exported names to keys. A self-referencing type is a node
whose parts refer back to its own key.

Modules:

- `Common`, `Values`: JavaScript values (`null`, `undefined`, booleans,
  integers, bigints, strings, arrays, plain objects) with `typeof`,
  template-literal rendering, property reads and `Object.keys`.
- `Shapes`: the arena of type nodes, `isPrimitiveType` and the union member
  name.
- `Paths`: `rootMerge` and the array checker's index splice.
- `Checks`: the generated checkers as first-order code. Each child is named
  by its key in the checker map. `Eval`/`Run` are the specification of what
  a checker call returns; the number of stack frames left (`fuel`) stands
  for the JavaScript call stack.
- `Runtime`: the checker bodies as the source runs them, with loops that
  push into `errStack`. Each is proved equal to its specification.
- `Compiler`: `createCheckerToType` as a class whose field `cache` is the
  `typeCheckMap`. It reserves a forwarding entry (the `dumpCheck`
  placeholder) before compiling a node's parts, and callers install the
  result afterwards. The invariant `Sound` is kept throughout.
- `Facade`: `createChecker` (fresh map, root path `[<ShortName>]`, a thrown
  error becomes a one-finding report) and `checkForWarn`.
- `Findings`: every finding is located under the path its checker was
  called with. Over a finished map, the only error a check can throw is the
  stack overflow.
- `Behaviour`: what each kind of checker accepts and reports, against
  independent definitions.
- `Tasks`: JavaScript `splice`, `reorderArray`, the renumbering `map`, and
  the handler's logic without its database.

## Model

| member | source | states |
|---|---|---|
| Paths.RootMergeReadBack | src/TypeChecker.js:120-123 | the path extends `root + "."`, and the segment (bare, `{v}` or `{[v]}`) can be read back from it |
| Paths.RootMergeInjective | src/TypeChecker.js:120-123 | under one root and the same flags, two values give the same path iff they are equal |
| Paths.InsertIndexPath | src/TypeChecker.js:243-247 | splicing index `k` after the first `|root|+2` characters of a finding for `root.[]` gives `root.[k]` followed by the rest of the finding |
| Values.IsPrimitive | src/TypeChecker.js:143-145 | `isPrimitive` holds exactly for the values that are not `instanceof Object` |
| Values.TypeOf | src/TypeChecker.js:214 | `typeof` is "object" exactly for null, arrays and objects |
| Values.Lookup | src/TypeChecker.js:334 | reading a field the object does not have gives `undefined` |
| Checks.Difference | src/TypeChecker.js:162-166 | `Array_Difference(a, b)` is never longer than `a` |
| Behaviour.DifferenceMembers | src/TypeChecker.js:162-166 | `Array_Difference(a, b)` holds exactly the members of `a` that are not in `b` |
| Behaviour.DifferenceAppend | src/TypeChecker.js:162-166 | `Array_Difference` keeps `a`'s order: it distributes over concatenation |
| Behaviour.FabricChecksType | src/TypeChecker.js:209-227 | a primitive or literal checker passes exactly the values of its type (for a literal, both the runtime type and the value must match); otherwise it reports one finding |
| Checks.Eval | src/TypeChecker.js:177-195 | a checker called through the map never returns an empty list |
| Checks.Run | src/TypeChecker.js:212-346 | a generated checker body never returns an empty list |
| Behaviour.ArrayPassIff | src/TypeChecker.js:235-254 | a non-array gets exactly one `Is not 'Array'` finding; an array passes iff every element passes at `root.[]`, so `[]` passes |
| Behaviour.ElemsPassIff | src/TypeChecker.js:239-252 | the element loop has collected nothing iff every element so far passed |
| Behaviour.ArrayFindingsIndexed | src/TypeChecker.js:239-254 | an array checker's findings are the element loop's: one block per element in index order, every finding in element `k`'s block starting with `root.[k]` |
| Behaviour.ElemsIndexed | src/TypeChecker.js:239-252 | while the element loop goes on, element `k`'s findings form a block after those of elements `0..k-1`, each starting with `root.[k]`; every finding carries the index of an element already visited |
| Behaviour.ElemBlockHolds | src/TypeChecker.js:240-247 | one element appends only findings that start with `root.[k]`, its own index |
| Behaviour.ElemsGrow | src/TypeChecker.js:239-252 | while the element loop goes on, each earlier stack is a prefix of the later one |
| Behaviour.RecordPassIff | src/TypeChecker.js:329-345 | a primitive, null or undefined gets exactly one `Is not 'Object'` finding; an object (or array) passes iff every declared property passes on `input[prop]` at `root.prop` and every own key is declared |
| Behaviour.PropsPassIff | src/TypeChecker.js:333-339 | the property loop has collected nothing iff every declared property so far passed |
| Behaviour.PropsEmptyPasses | src/TypeChecker.js:333-339 | a property loop that has collected nothing passed each property so far |
| Behaviour.PropsEmptyBefore | src/TypeChecker.js:333-339 | a property loop that has collected nothing had collected nothing at any earlier point |
| Behaviour.PropsAllPass | src/TypeChecker.js:333-339 | when each property so far passed, the loop has collected nothing |
| Behaviour.PropsStepPasses | src/TypeChecker.js:334-337 | one more property keeps the loop empty exactly when that property passes |
| Behaviour.RecordExtrasOnly | src/TypeChecker.js:341-345 | once the declared properties pass, the findings are exactly one `<root>.<key>: Should not be defined` per undeclared own key, in key order |
| Behaviour.UnionFirstPassWins | src/TypeChecker.js:292-296 | members are tried in order, and the first that passes makes the union pass whatever the later members say |
| Behaviour.MembersFirstPass | src/TypeChecker.js:292-300 | the member loop stops with `undefined` at the first passing member |
| Behaviour.MembersAllFail | src/TypeChecker.js:292-300 | when every member fails, the loop finishes holding the findings of the non-primitive members laid end to end in member order, so nothing iff every member is primitive |
| Behaviour.MemberReportsStep | src/TypeChecker.js:292-300 | the reports of `n` members are those of the first `n-1` followed by the last member's |
| Behaviour.UnionFailsOnPrimitive | src/TypeChecker.js:302-303 | when every member fails on a primitive input, exactly one `Is not (<A \| B>)` finding |
| Behaviour.UnionFailsOnObject | src/TypeChecker.js:298-305 | when every member fails on an object, the union reports the non-primitive members' findings in member order, or passes when there are none, which happens iff every member is primitive |
| Behaviour.IntersectionIsUnion | src/TypeChecker.js:258-306 | an intersection compiles to exactly the checker of the union of the same members |
| Findings.MessagesRooted | src/TypeChecker.js:214-331 | the one-finding reports for a primitive mismatch (line 214), a non-array (237), a failed union on a primitive input (303) and a non-object (331) start with the root path |
| Findings.EvalRooted | src/TypeChecker.js:177-195 | every finding of a checker call starts with the path it was called with |
| Findings.RunRooted | src/TypeChecker.js:212-346 | every finding of a checker body starts with its root path |
| Findings.FabricRooted | src/TypeChecker.js:212-215 | the primitive finding starts with the root path |
| Findings.ArrayRooted | src/TypeChecker.js:235-254 | array findings, index written in, start with the root path |
| Findings.UnionRooted | src/TypeChecker.js:291-306 | union findings start with the root path |
| Findings.RecordRooted | src/TypeChecker.js:329-345 | object findings, including the undeclared-key ones, start with the root path |
| Findings.ElemsRooted | src/TypeChecker.js:239-252 | the element loop collects only findings under the root path |
| Findings.MembersRooted | src/TypeChecker.js:292-300 | the member loop collects only findings under the root path |
| Findings.PropsRooted | src/TypeChecker.js:333-339 | the property loop collects only findings under the root path |
| Findings.SplicedKeepsRoot | src/TypeChecker.js:243-247 | writing the index into element findings keeps them under the root path |
| Findings.ExtrasRooted | src/TypeChecker.js:341-343 | undeclared-key findings start with the root path |
| Findings.EvalOnlyOverflows | src/TypeChecker.js:188-189 | over a finished map the `not generate check function` error cannot happen: a check throws only when the stack runs out |
| Findings.RunOnlyOverflows | src/TypeChecker.js:212-346 | a checker body over a finished map throws only the stack overflow |
| Findings.ElemsOnlyOverflow | src/TypeChecker.js:239-252 | the element loop leaves early only on the stack overflow |
| Findings.MembersOnlyOverflow | src/TypeChecker.js:292-300 | the member loop throws only the stack overflow |
| Findings.PropsOnlyOverflow | src/TypeChecker.js:333-339 | the property loop throws only the stack overflow |
| Runtime.Check | src/TypeChecker.js:177-195 | `dumpCheck`: looks the map up at call time, throws `not generate check function` when nothing is there, and returns what the checker returns, as `Eval` says |
| Runtime.RunCode | src/TypeChecker.js:212-346 | running a checker body computes `Run` |
| Runtime.RunArray | src/TypeChecker.js:235-255 | the array loop with its index splice computes the array checker's specification |
| Runtime.RunUnion | src/TypeChecker.js:291-306 | the union body computes the union checker's specification |
| Runtime.WalkMembers | src/TypeChecker.js:292-300 | the member loop, with its early returns, computes the member walk |
| Runtime.VisitMember | src/TypeChecker.js:293-299 | one pass of the member loop: call the member's checker at its union path; a pass or throw ends the walk, a failure keeps the findings unless the member is primitive |
| Checks.MembersLeaveEarly | src/TypeChecker.js:292-300 | the member loop leaves early only with a pass (`undefined`) or a thrown error, never with findings |
| Runtime.RunRecord | src/TypeChecker.js:329-346 | the object body computes the object checker's specification |
| Runtime.PushSpliced | src/TypeChecker.js:243-248 | the inner loop of the array checker appends each element finding with the index written in, in order |
| Runtime.PushExtras | src/TypeChecker.js:341-343 | the undeclared-key loop appends one finding per key, in order |
| Runtime.ElemsStaysDone | src/TypeChecker.js:239-252 | a throw leaves the element loop for good |
| Runtime.MembersStaysDone | src/TypeChecker.js:292-300 | a return or throw leaves the member loop for good |
| Runtime.PropsStaysDone | src/TypeChecker.js:333-339 | a throw leaves the property loop for good |
| Compiler.TypeCompiler.Compile | src/TypeChecker.js:176-201 | a cached entry is returned unchanged; otherwise a forwarding entry is reserved under the node and then the node's checker is built, with every new part installed; an uncached `bigint` or unhandled node fails with `is not fabric`; a failure is the error of a node first visited by this call and reachable from the node through its parts; the map only grows and stays `Sound` |
| Compiler.TypeCompiler.CompileArray | src/TypeChecker.js:229-234 | the element type is compiled and installed before the array checker is returned |
| Compiler.TypeCompiler.CompileUnion | src/TypeChecker.js:258-288 | every member is compiled and installed in order; the checker holds each member's key, primitiveness, name and object flag, and the names joined by " \| " |
| Compiler.TypeCompiler.CompileMembers | src/TypeChecker.js:278-286 | the member loop yields exactly `MemberOf` of each member, each installed |
| Compiler.TypeCompiler.CompileRecord | src/TypeChecker.js:309-327 | every property's type is compiled and installed in order, under the short name of the type |
| Compiler.TypeCompiler.CompileProps | src/TypeChecker.js:313-325 | the property loop succeeds only if every property has exactly one declaration, and yields one checker per property in order |
| Compiler.TypeCompiler.CompileProp | src/TypeChecker.js:314-324 | more than one declaration raises `has N declarations, only one expected`, none raises the read of `undefined`, otherwise the declared type is compiled and installed |
| Compiler.TypeCompiler.CompileChild | src/TypeChecker.js:231-233 | a part is compiled and installed under its own key; a failure is the error of a node reachable from the part |
| Compiler.ReachesThrough | src/TypeChecker.js:229-327 | a node reachable from a part of `k` is reachable from `k` |
| Compiler.ReachesSelf | src/TypeChecker.js:176-201 | every node reaches itself |
| Compiler.TypeCompiler.Install | src/TypeChecker.js:200 | `typeCheckMap.set` replaces exactly one entry |
| Compiler.ReserveKeepsSound | src/TypeChecker.js:197-201 | reserving the placeholder keeps the map sound |
| Compiler.InstallChild | src/TypeChecker.js:233 | installing a compiled part over its reservation keeps the map sound and growing |
| Compiler.InstallRoot | src/TypeChecker.js:368-370 | installing the root checker finishes the map: every entry is an installed checker calling only checkers of the map |
| Compiler.ChildrenInGrows | src/TypeChecker.js:197-201 | a checker's children stay in the map as it grows |
| Compiler.GrowsTransitive | src/TypeChecker.js:197-201 | entries are never removed, across any number of compile steps |
| Compiler.NewInstalledTransitive | src/TypeChecker.js:197-201 | entries added by successive steps stay installed |
| Facade.CreateChecker | src/TypeChecker.js:364-371 | an unknown name fails with `not found`; a `bigint` or unhandled root fails with its own `is not fabric`; any other failure is the error of a node reachable from the root; on success the root type's checker is installed in a finished, sound map, and its root path is `[<ShortName>]` |
| Facade.FaultyArenaFails | src/TypeChecker.js:352-357 | for an object type `R` whose property is a `bigint`, beside an unrelated unhandled type, `createChecker` fails with the `bigint` node's `is not fabric` error and not the other's |
| Facade.FaultyArenaNotReady | src/TypeChecker.js:364-371 | a sound map holding `R`'s checker holds only a reservation for `bigint`, so it is never finished |
| Facade.FaultyArenaFault | src/TypeChecker.js:176-201 | the only error reachable from `R` is the one of `bigint` |
| Facade.Validate | src/TypeChecker.js:372-386 | the returned closure answers the root checker's findings, or the message of a thrown error as the only finding |
| Facade.ValidationReports | src/TypeChecker.js:372-386 | a created checker never answers with an empty list, and every finding is under its root path, unless the only finding is the stack overflow |
| Facade.CheckForWarn | src/TypeChecker.js:61-71 | `checkForWarn` returns the input unchanged alongside the checker's answer |
| Tasks.SpliceConserves | src/api/task.js:136-137 | `splice` loses nothing: the length changes by the inserted minus the removed count, and the remaining and returned elements together are the old ones plus the inserted items |
| Tasks.SpliceUndo | src/api/task.js:136-137 | splicing the returned run back in at the same start, over the inserted items, restores the array |
| Tasks.ReorderArray | src/api/task.js:134-139 | when a row is removed, the result is a permutation with the same length that holds it at the target, and taking it out again gives the other rows in their old order. For `0 <= source, target < n` this holds as given; for source `-1` the last row moves; when nothing is removed, `undefined` is inserted at the target |
| Tasks.MoveBySplices | src/api/task.js:136-137 | removing the element at `s` and inserting it at `t` moves it |
| Tasks.InsertAt | src/api/task.js:137 | inserting at `t` puts the element there and adds it to the multiset |
| Tasks.RemoveAt | src/api/task.js:136 | removing at `s` takes exactly that element out of the multiset |
| Tasks.SetField | src/api/task.js:150 | `{...e, id}` reads back the new id and every other field unchanged |
| Tasks.Renumber | src/api/task.js:150 | the row at position `i` has id `i + 1` and keeps every other field of the original row |
| Tasks.FindIndex | src/api/task.js:143 | the first row whose id is `parseInt(task)`, or -1 exactly when there is none |
| Tasks.MoveTask | src/api/task.js:141-150 | ids become 1..n in the new order; a found task is moved to the (clamped) target with the others in order; an unknown task moves the last row; an empty table yields `[{id: 1}]` |
| Tasks.MoveExisting | src/api/task.js:143-150 | an unknown task is refused; otherwise the found task is moved and ids become 1..n |

## Left out

- The ts-morph project and symbol resolution, and source loading
  (src/TypeChecker.js:17-41, 77-114, 390-399). They are a foreign library.
  Types are a given arena, and `findTypeFromProjectOrSource` is a name map.
  The value of `resolveName` at line 98 is discarded in the source and is
  not modelled.
- `getShortName`'s handling of printer text (src/TypeChecker.js:130-140):
  each node carries its short name as a given string.
- Boolean literal types: ts-morph's `getLiteralValue` and `isLiteral` on
  them are library behaviour. The model takes the literal's value from the
  node and treats `true` and `false` as literals. If `getLiteralValue()`
  gives `undefined` for them, `fabricCheck` (src/TypeChecker.js:209, 227)
  compares every boolean input with `undefined`. Then every boolean-literal
  check fails, including the members `true` and `false` of an optional
  `boolean`, while the model lets a matching boolean pass. Which one holds
  is up to the library.
- Rendering of floating-point numbers and of objects with their own
  `toString`: numbers are integers, and objects render as
  `[object Object]`.
- Inherited properties: `input[prop]` (src/TypeChecker.js:334) also finds
  members of the prototype chain such as `toString` or `constructor`.
  `Values.Get` reads own fields only, and anything else is `undefined`.
- Object well-formedness: `Values.Obj` does not rule out duplicate keys.
  The model assumes its fields are unique and listed in `Object.keys`
  order (integer-like keys first, ascending, then insertion order), as
  every JavaScript object lists them.
- Console output (src/TypeChecker.js:65-67, 350-354, 376), and the
  rethrow of a thrown value that is neither an `Error` nor a string
  (line 384). Every error the model throws is an `Error`.
- De-duplication by `Map` keys: two union members that are the same
  type, and two properties with the same name. Members and properties are
  kept as listed.
- The exact number of stack frames a call uses: every checker call
  through the map costs one unit of `fuel`, whatever frames the engine
  adds.
- `parseInt` of the URL parameters: the model takes the parsed integer,
  or `None` for `NaN`.
- Spreading a string or array row: rows are objects (or `undefined`
  after an empty splice).
- All Express routing, SQLite access and the handler's insert loop in
  src/api/task.js, and src/api/list.js, src/api/_main.js, src/main.js,
  src/config.js and src/utils.js. They are I/O and persistence.

## Findings

| source | as written | input that shows it | evidently intended | confidence | as-written member | corrected member |
|---|---|---|---|---|---|---|
| src/api/task.js:143-150 | `findIndex` returns -1 for an unknown task, and `splice(-1, 1)` then removes the last row, which is moved to the target and renumbered. On an empty table the `undefined` element is inserted and becomes a row `{id: 1}` | rows with ids 1, 2, 3, task `9`, toIdx `0`: the row with id 3 is moved to the front; or no rows, any task: one row `{id: 1}` | an unknown task leaves the rows as they are (or is refused) | medium, not executed | Tasks.MoveTask | Tasks.MoveExisting |
