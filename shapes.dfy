/** The type oracle's view of declared TypeScript types: an arena of shape
    nodes addressed by stable keys, so that distinct declarations stay
    distinct and a type may refer back to itself. */
module Shapes {

  /** The kinds `createCheckerToType` tells apart, in the order of its
      `switch (true)`. `BigIntT` and `Unhandled` reach its default case. */
  datatype Kind =
    | NullT
    | UndefinedT
    | StringT
    | NumberT
    | BooleanT
    | StringLit(s: string)
    | NumberLit(n: int)
    | BooleanLit(b: bool)
    | ArrayOf(elem: nat)
    | Intersection(members: seq<nat>)
    | Union(members: seq<nat>)
    | Record(props: seq<Prop>)
    | BigIntT
    | Unhandled

  /** A property of an object type with the declarations the oracle found for it. */
  datatype Prop = Prop(name: string, decls: seq<nat>)

  /** A type: its kind, its printed text (`getText()`) and its short name
      (`getShortName`). */
  datatype Node = Node(kind: Kind, text: string, shortName: string)

  type Arena = map<nat, Node>

  /** Every node a kind refers to is one of `keys`. */
  predicate RefersWithin(k: Kind, keys: set<nat>)
  {
    match k
    case ArrayOf(e) => e in keys
    case Intersection(ms) => forall i :: 0 <= i < |ms| ==> ms[i] in keys
    case Union(ms) => forall i :: 0 <= i < |ms| ==> ms[i] in keys
    case Record(ps) => forall i, j :: 0 <= i < |ps| && 0 <= j < |ps[i].decls| ==> ps[i].decls[j] in keys
    case _ => true
  }

  /** Every node the oracle hands out resolves to a node of the arena. */
  predicate ArenaClosed(arena: Arena)
  {
    forall k {:trigger arena[k]} | k in arena :: RefersWithin(arena[k].kind, arena.Keys)
  }

  /** `TypeChecker.isPrimitiveType`: string, number, bigint, boolean,
      undefined, null or a literal type. */
  predicate IsPrimitiveType(k: Kind)
  {
    k.NullT? || k.UndefinedT? || k.StringT? || k.NumberT? || k.BooleanT? || k.BigIntT?
    || k.StringLit? || k.NumberLit? || k.BooleanLit?
  }

  /** ts-morph's `isObject()`: object types, which include array types
      but not unions, intersections, primitives or literals. */
  predicate IsObjectType(k: Kind)
  {
    k.ArrayOf? || k.Record?
  }

  /** `getName` inside the union case: the short name of an object type,
      the printed text of anything else. */
  function GetName(n: Node): string
  {
    if IsObjectType(n.kind) then n.shortName else n.text
  }
}
