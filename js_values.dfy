/** The JavaScript values the directive meets: its bound value, the previous
    bound value, the class declarations of the virtual nodes and the component's
    reactive state. Only the kinds the directive can tell apart are kept. */
module JsValues {
  import opened Options

  /** A JavaScript value. An `Obj` is a plain object whose own enumerable
      properties are listed in `Object.keys` order. Numbers are reals (no NaN,
      no infinities). Every `Arr` and `Obj` stands for an object of its own. */
  datatype Json =
    | Undefined
    | Null
    | Bool(b: bool)
    | Num(n: real)
    | Str(s: string)
    | Arr(items: seq<Json>)
    | Obj(entries: seq<(string, Json)>)

  /** The answers of the `typeof` operator for the values above. */
  datatype JsType = TypeUndefined | TypeObject | TypeBoolean | TypeNumber | TypeString

  function TypeOf(v: Json): JsType {
    match v
    case Undefined => TypeUndefined
    case Null => TypeObject
    case Bool(_) => TypeBoolean
    case Num(_) => TypeNumber
    case Str(_) => TypeString
    case Arr(_) => TypeObject
    case Obj(_) => TypeObject
  }

  /** The value counts as true in an `if`, `&&` or `!`. */
  predicate Truthy(v: Json) {
    match v
    case Undefined => false
    case Null => false
    case Bool(b) => b
    case Num(n) => n != 0.0
    case Str(s) => s != ""
    case Arr(_) => true
    case Obj(_) => true
  }

  /** `v === undefined || v === null` */
  predicate IsNullish(v: Json) {
    v.Undefined? || v.Null?
  }

  predicate IsPrimitive(v: Json) {
    !v.Arr? && !v.Obj?
  }

  /** `a === b`: primitives compare by value; two arrays or objects are never
      the same object, because each one the model describes is allocated anew. */
  predicate StrictEquals(a: Json, b: Json) {
    IsPrimitive(a) && a == b
  }

  /** `Object.keys` of a plain object. */
  function Keys(entries: seq<(string, Json)>): (ks: seq<string>)
    ensures |ks| == |entries|
    ensures forall i :: 0 <= i < |entries| ==> ks[i] == entries[i].0
  {
    if entries == [] then [] else [entries[0].0] + Keys(entries[1..])
  }

  /** `obj[key]` for an own property of a plain object; undefined when absent. */
  function Lookup(entries: seq<(string, Json)>, key: string): (v: Json)
    ensures key !in Keys(entries) ==> v == Undefined
    ensures key in Keys(entries) ==> (key, v) in entries
  {
    if entries == [] then Undefined
    else if entries[0].0 == key then entries[0].1
    else Lookup(entries[1..], key)
  }

  /** An ASCII decimal digit: what `\d` matches. */
  predicate IsDigit(c: char) {
    '0' <= c <= '9'
  }

  predicate AllDigits(s: string) {
    forall i :: 0 <= i < |s| ==> IsDigit(s[i])
  }

  /** The number written in decimal by `s`. */
  function DigitsValue(s: string): nat
    requires AllDigits(s)
  {
    if s == [] then 0
    else DigitsValue(s[..|s| - 1]) * 10 + (s[|s| - 1] as int - '0' as int)
  }

  /** 2^32 - 1: array indices are below it. */
  const MaxArrayLength: nat := 4294967295

  /** The array index a property key denotes: a decimal numeral without
      leading zeros whose value is below 2^32 - 1. */
  function ArrayIndex(key: string): (r: Option<nat>)
    ensures r.Some? ==> r.value < MaxArrayLength && key != [] && AllDigits(key)
  {
    if key != [] && AllDigits(key) && (key[0] != '0' || |key| == 1) && DigitsValue(key) < MaxArrayLength
    then Some(DigitsValue(key))
    else None
  }

  /** `v[key]` for a value that is neither undefined nor null (JavaScript
      throws on those). Only own properties are modelled: arrays and strings
      answer `length` and their indices, plain objects their entries. */
  function Get(v: Json, key: string): Json
    requires !IsNullish(v)
  {
    match v
    case Obj(entries) => Lookup(entries, key)
    case Arr(items) =>
      if key == "length" then Num(|items| as real)
      else (match ArrayIndex(key)
            case Some(i) => if i < |items| then items[i] else Undefined
            case None => Undefined)
    case Str(s) =>
      if key == "length" then Num(|s| as real)
      else (match ArrayIndex(key)
            case Some(i) => if i < |s| then Str([s[i]]) else Undefined
            case None => Undefined)
    case _ => Undefined
  }

  /** `key` is among `Object.keys(v)`. */
  predicate HasOwnKey(v: Json, key: string) {
    match v
    case Obj(entries) => key in Keys(entries)
    case Arr(items) => ArrayIndex(key).Some? && ArrayIndex(key).value < |items|
    case Str(s) => ArrayIndex(key).Some? && ArrayIndex(key).value < |s|
    case _ => false
  }

  /** `Object.keys(v).length` */
  function OwnKeyCount(v: Json): nat {
    match v
    case Obj(entries) => |entries|
    case Arr(items) => |items|
    case Str(s) => |s|
    case _ => 0
  }

  /** On an object, the generic accessors are those of its entries. */
  lemma ObjectAccessors(v: Json)
    requires v.Obj?
    ensures OwnKeyCount(v) == |v.entries|
    ensures forall k :: HasOwnKey(v, k) <==> k in Keys(v.entries)
    ensures forall k :: Get(v, k) == Lookup(v.entries, k)
  {
  }
}
