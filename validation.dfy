/** The two ways the directive checks its value before using it: by hand
    (src/index.js) and through a JSON schema (index.js). */
module Validation {
  import opened Options
  import opened JsValues

  /** Why the hand-written checks reject a value; each one has its own message. */
  datatype ValueError = NullOrUndefined | NotStringArrayOrObject | NonStringItem | NonBooleanEntry

  predicate AllStrings(items: seq<Json>) {
    forall i :: 0 <= i < |items| ==> items[i].Str?
  }

  /** `Object.keys(value).every(key => typeof value[key] === 'boolean')` */
  predicate AllBooleans(entries: seq<(string, Json)>) {
    forall k :: k in Keys(entries) ==> Lookup(entries, k).Bool?
  }

  /** The hand-written checks, in their order: absent value, wrong type,
      array with a non-string item, object with a non-boolean value. */
  function CheckValue(v: Json): (e: Option<ValueError>)
    ensures e.None? <==> v.Str? || (v.Arr? && AllStrings(v.items)) || (v.Obj? && AllBooleans(v.entries))
    ensures e == Some(NullOrUndefined) <==> IsNullish(v)
    ensures e == Some(NotStringArrayOrObject) <==> v.Bool? || v.Num?
  {
    if IsNullish(v) then Some(NullOrUndefined)
    else if TypeOf(v) != TypeString && TypeOf(v) != TypeObject then Some(NotStringArrayOrObject)
    else if v.Arr? && !AllStrings(v.items) then Some(NonStringItem)
    else if v.Obj? && !AllBooleans(v.entries) then Some(NonBooleanEntry)
    else None
  }

  predicate IsLineTerminator(c: char) {
    c == '\n' || c == '\r' || c == '\U{2028}' || c == '\U{2029}'
  }

  /** The key matches the pattern `.`: it holds a character that is not a
      line terminator. The empty key and keys made of line terminators do not. */
  predicate MatchesAnyChar(key: string) {
    exists i :: 0 <= i < |key| && !IsLineTerminator(key[i])
  }

  /** The schema: a string, an array, or an object (not null); array items
      are strings; object values under keys matching `.` are booleans. */
  predicate SchemaAccepts(v: Json)
    // `type: ['string', 'array', 'object']` admits neither undefined nor null
    ensures SchemaAccepts(v) ==> !IsNullish(v) && (TypeOf(v) == TypeString || TypeOf(v) == TypeObject)
    ensures v.Str? ==> SchemaAccepts(v)
    // only keys matched by `.` are constrained
    ensures v.Obj? && AllBooleans(v.entries) ==> SchemaAccepts(v)
  {
    match v
    case Str(_) => true
    case Arr(items) => AllStrings(items)
    case Obj(entries) => forall k :: k in Keys(entries) && MatchesAnyChar(k) ==> Lookup(entries, k).Bool?
    case _ => false
  }

  /** The hand-written checks accept exactly what the schema accepts, except
      that they also constrain the keys the pattern `.` misses. */
  lemma {:induction false} CheckValueVersusSchema(v: Json)
    ensures CheckValue(v).None? ==> SchemaAccepts(v)
    ensures CheckValue(v).None? <==>
            SchemaAccepts(v) && (v.Obj? ==> forall k :: k in Keys(v.entries) && !MatchesAnyChar(k) ==> Lookup(v.entries, k).Bool?)
  {
  }

  /** An object with a non-boolean value under the empty key or a newline key
      passes the schema and fails the hand-written checks. */
  lemma SchemaLetsUnmatchedKeysThrough()
    ensures SchemaAccepts(Obj([("", Num(1.0))]))
    ensures CheckValue(Obj([("", Num(1.0))])) == Some(NonBooleanEntry)
    ensures SchemaAccepts(Obj([("\n", Str("x"))]))
    ensures CheckValue(Obj([("\n", Str("x"))])) == Some(NonBooleanEntry)
  {
    assert Keys([("", Num(1.0))]) == [""];
    assert Lookup([("", Num(1.0))], "") == Num(1.0);
    assert Keys([("\n", Str("x"))]) == ["\n"];
    assert Lookup([("\n", Str("x"))], "\n") == Str("x");
  }
}
