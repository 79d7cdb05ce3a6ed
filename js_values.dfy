/**
 * JavaScript values as `JSON.parse` produces them, and the two JavaScript
 * conversions the snapshot endpoint applies to them: `Boolean(v)` (truthiness)
 * and `Number(v)`.  Property access yields `None` for `undefined`.
 */
module JsValues {
  import opened Wrappers

  /** A value `JSON.parse` can return.  Numbers are kept as reals (no IEEE rounding). */
  datatype Json =
    | JNull
    | JBool(b: bool)
    | JNumber(n: real)
    | JString(s: string)
    | JArray(items: seq<Json>)
    | JObject(members: map<string, Json>)

  /** The outcome of `JSON.parse(line)`: the parser is not modelled, so a line arrives
      either already parsed or as a parse failure (the exception of the `catch` branch). */
  datatype ParseResult = ParseError | Parsed(value: Json)

  /** The value of `Number(v)`.  `FromString(t)` is `Number` applied to the text `t`:
      JavaScript's string-to-number grammar is not part of the model.  `Throws` is the
      `TypeError` raised when the conversion finds no callable method to turn an object
      into a primitive. */
  datatype JsNumber = Finite(r: real) | NaN | FromString(text: string) | Throws

  /** `typeof v === "object"`: true of `null`, arrays and objects. */
  predicate TypeofIsObject(v: Json) {
    v.JNull? || v.JArray? || v.JObject?
  }

  /** `key in v` for the non-index keys the model asks about: only an object's own members
      (an array's keys are its indices and `length`). */
  predicate HasProperty(v: Json, key: string)
    requires TypeofIsObject(v) && v != JNull
  {
    v.JObject? && key in v.members
  }

  /** `v[key]`, with `None` for `undefined`. */
  function GetProperty(v: Json, key: string): (r: Option<Json>)
    ensures r.Some? <==> v.JObject? && key in v.members
    ensures r.Some? ==> r.value == v.members[key]
  {
    if v.JObject? && key in v.members then Some(v.members[key]) else None
  }

  /** On a parsed object or array, `key in v` and `v[key] !== undefined` agree. */
  lemma InAgreesWithGet(v: Json, key: string)
    requires TypeofIsObject(v) && v != JNull
    ensures HasProperty(v, key) <==> GetProperty(v, key).Some?
  {
  }

  /** JavaScript truthiness, `Boolean(v)`, of a parsed JSON value. */
  predicate Truthy(v: Json) {
    match v
    case JNull => false
    case JBool(b) => b
    case JNumber(n) => n != 0.0
    case JString(s) => s != ""
    case JArray(_) => true
    case JObject(_) => true
  }

  /** `Boolean(x)` where `x` may be `undefined` (`None`). */
  predicate BooleanOf(x: Option<Json>) {
    x.Some? && Truthy(x.value)
  }

  /** Converting `v` to a primitive raises a `TypeError`.  A parsed object has no callable
      own members, so an own `toString` member hides `Object.prototype.toString` and leaves
      only the inherited `valueOf`, which returns the object itself.  An array converts by
      joining the string forms of all its elements, so it throws when any element does. */
  predicate ConversionThrows(v: Json)
    decreases v
  {
    match v
    case JObject(m) => "toString" in m
    case JArray(items) => exists i :: 0 <= i < |items| && ConversionThrows(items[i])
    case _ => false
  }

  /** `Number(v)`.  An object without an own `toString` member reads as
      `"[object Object]"`, which is NaN.  An array converts through its string form: the
      empty array gives 0, a one-element array converts like the text of its element, and
      two or more elements join with a comma, which never reads as a number. */
  function ToNumber(v: Json): JsNumber {
    match v
    case JNull => Finite(0.0)
    case JBool(b) => Finite(if b then 1.0 else 0.0)
    case JNumber(n) => Finite(n)
    case JString(s) => FromString(s)
    case JObject(m) => if "toString" in m then Throws else NaN
    case JArray(items) =>
      if ConversionThrows(v) then Throws
      else if |items| == 0 then Finite(0.0)
      else if |items| >= 2 then NaN
      else match items[0]
        case JNull => Finite(0.0)
        case JBool(_) => NaN
        case JNumber(n) => Finite(n)
        case JString(s) => FromString(s)
        case JObject(_) => NaN
        case JArray(_) => ToNumber(items[0])
  }

  /** `Number(v)` throws exactly when converting `v` to a primitive does. */
  lemma {:induction false} NumberThrowsExactly(v: Json)
    ensures ToNumber(v).Throws? <==> ConversionThrows(v)
    decreases v
  {
    match v
    case JArray(items) =>
      if !ConversionThrows(v) && |items| == 1 && items[0].JArray? {
        assert !ConversionThrows(items[0]);
        NumberThrowsExactly(items[0]);
      }
    case _ =>
  }

  /** The only JSON values `Boolean` maps to false are `null`, `false`, zero and the empty string. */
  lemma FalsyValues(v: Json)
    ensures !Truthy(v) <==> v == JNull || v == JBool(false) || v == JNumber(0.0) || v == JString("")
  {
  }

  /** `Number` never yields NaN for a scalar other than a string. */
  lemma ScalarsConvertExactly(v: Json)
    requires v.JNull? || v.JBool? || v.JNumber?
    ensures ToNumber(v).Finite?
    ensures v.JNumber? ==> ToNumber(v) == Finite(v.n)
  {
  }
}
