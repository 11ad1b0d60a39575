/** The JavaScript values a checker receives: what `JSON.parse` of a request
    body can produce, with numbers restricted to integers, plus `undefined`
    (an absent property) and bigint. */
module Values {
  import opened Common

  datatype Value =
    | Null
    | Undefined
    | Bool(b: bool)
    | Num(n: int)
    | BigInt(i: int)
    | Str(s: string)
    | Arr(items: seq<Value>)
    | Obj(fields: seq<Field>)

  /** An own enumerable property. The fields of an `Obj` are listed in the
      order in which `Object.keys` enumerates them. */
  datatype Field = Field(key: string, val: Value)

  /** The `typeof` operator. */
  function TypeOf(v: Value): (t: string)
    ensures t == "object" <==> v.Null? || v.Arr? || v.Obj?
  {
    match v
    case Null => "object"
    case Undefined => "undefined"
    case Bool(_) => "boolean"
    case Num(_) => "number"
    case BigInt(_) => "bigint"
    case Str(_) => "string"
    case Arr(_) => "object"
    case Obj(_) => "object"
  }

  /** `input instanceof Object`: true of arrays and plain objects only. */
  predicate IsObjectInstance(v: Value)
  {
    v.Arr? || v.Obj?
  }

  /** `TypeChecker.isPrimitive`: string, number, bigint, boolean, undefined or null.
      Over this value domain it is exactly the complement of `instanceof Object`. */
  function IsPrimitive(v: Value): (r: bool)
    ensures r <==> !IsObjectInstance(v)
  {
    TypeOf(v) == "string" || TypeOf(v) == "number" || TypeOf(v) == "bigint"
    || TypeOf(v) == "boolean" || TypeOf(v) == "undefined" || v == Null
  }

  /** The template-literal rendering `${v}`. An array renders as its
      elements joined by ',', with null and undefined elements empty. */
  function Render(v: Value): string
  {
    match v
    case Null => "null"
    case Undefined => "undefined"
    case Bool(b) => BoolToString(b)
    case Num(n) => IntToString(n)
    case BigInt(i) => IntToString(i)
    case Str(s) => s
    case Obj(_) => "[object Object]"
    case Arr(items) =>
      Join(seq(|items|, k requires 0 <= k < |items| =>
             if items[k].Null? || items[k].Undefined? then "" else Render(items[k])), ",")
  }

  /** The value of the first field named `key`, or undefined. */
  function Lookup(fields: seq<Field>, key: string): (r: Value)
    ensures (forall k :: 0 <= k < |fields| ==> fields[k].key != key) ==> r == Undefined
  {
    if |fields| == 0 then Undefined
    else if fields[0].key == key then fields[0].val
    else Lookup(fields[1..], key)
  }

  /** The position `i < n` whose decimal rendering is `key`, if any. */
  function ArrayIndex(key: string, i: nat, n: nat): (r: Option<nat>)
    ensures r.Some? ==> i <= r.value < n && NatToString(r.value) == key
    decreases n - i
  {
    if i >= n then None
    else if NatToString(i) == key then Some(i)
    else ArrayIndex(key, i + 1, n)
  }

  /** The property read `v[key]` on an object or array (own properties
      and an array's `length`). */
  function Get(v: Value, key: string): Value
  {
    match v
    case Obj(fields) => Lookup(fields, key)
    case Arr(items) =>
      if key == "length" then Num(|items|)
      else (match ArrayIndex(key, 0, |items|)
            case Some(k) => items[k]
            case None => Undefined)
    case _ => Undefined
  }

  /** `Object.keys(v)` for an object or array. */
  function OwnKeys(v: Value): (keys: seq<string>)
    ensures v.Obj? ==> |keys| == |v.fields|
    ensures v.Arr? ==> |keys| == |v.items|
  {
    match v
    case Obj(fields) => seq(|fields|, k requires 0 <= k < |fields| => fields[k].key)
    case Arr(items) => seq(|items|, k requires 0 <= k < |items| => NatToString(k))
    case _ => []
  }
}
