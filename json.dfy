/** JSON as the services see it after Gson has parsed a message: an object
    is a map from member names to values. Only the accessors the core uses
    are modelled, with Gson's conversions. */
module Json {

  import opened Base
  import Decimal

  /** A JSON value. Numbers are integral literals. Nested objects are not
      looked into by the core and stay opaque; arrays keep their elements,
      since Gson reads a one-element array as its element. */
  datatype JsonValue =
    | JString(s: string)
    | JNumber(n: int)
    | JBool(b: bool)
    | JNull
    | JObject
    | JArray(elems: seq<JsonValue>)

  type JsonObject = map<string, JsonValue>

  /** An inbound text message: either it parsed to a JSON object, or Gson
      threw (bad syntax, or a top-level value that is not an object). */
  datatype Inbound = Malformed | Parsed(fields: JsonObject)

  /** `getAsString()`: strings as they are, numbers and booleans as their
      literal text, a one-element array as its element; a null, an object or
      an array of any other length throws. */
  function AsString(v: JsonValue): (r: Option<string>)
    ensures v.JString? ==> r == Some(v.s)
    ensures v.JNumber? || v.JBool? ==> r.Some?
    ensures v.JNull? || v.JObject? ==> r.None?
    ensures v.JArray? && |v.elems| != 1 ==> r.None?
    ensures v.JArray? && |v.elems| == 1 ==> r == AsString(v.elems[0])
  {
    match v
    case JString(s) => Some(s)
    case JNumber(n) => Some(Decimal.IntToString(n))
    case JBool(b) => Some(if b then "true" else "false")
    case JNull => None
    case JObject => None
    case JArray(elems) => if |elems| == 1 then AsString(elems[0]) else None
  }

  /** `getAsInt()`: a number is narrowed to 32 bits (Gson falls back to the
      long or BigDecimal value and keeps its low 32 bits); a string goes
      through `Integer.parseInt`, which throws outside the `int` range; a
      one-element array answers for its element; every other value throws. */
  function AsInt(v: JsonValue): (r: Option<Int32>)
    ensures v.JNumber? ==> r == Some(WrapInt32(v.n))
    ensures v.JString? ==> (r.Some? <==> Decimal.ParseInt(v.s).Some? && INT32_MIN <= Decimal.ParseInt(v.s).value <= INT32_MAX)
    ensures v.JString? && r.Some? ==> Decimal.ParseInt(v.s) == Some(r.value as int)
    ensures v.JNull? || v.JObject? || v.JBool? ==> r.None?
    ensures v.JArray? && |v.elems| != 1 ==> r.None?
    ensures v.JArray? && |v.elems| == 1 ==> r == AsInt(v.elems[0])
  {
    match v
    case JNumber(n) => Some(WrapInt32(n))
    case JString(s) =>
      (match Decimal.ParseInt(s)
       case Some(n) => if INT32_MIN <= n <= INT32_MAX then Some(n) else None
       case None => None)
    case JArray(elems) => if |elems| == 1 then AsInt(elems[0]) else None
    case _ => None
  }

  /** Wrapping a value in any number of one-element arrays changes neither
      conversion. */
  lemma {:induction false} SingletonArrays(v: JsonValue, depth: nat)
    ensures AsString(Nest(v, depth)) == AsString(v)
    ensures AsInt(Nest(v, depth)) == AsInt(v)
  {
    if depth > 0 {
      SingletonArrays(v, depth - 1);
    }
  }

  /** `v` inside `depth` one-element arrays. */
  function Nest(v: JsonValue, depth: nat): JsonValue {
    if depth == 0 then v else JArray([Nest(v, depth - 1)])
  }

  /** `json.get(key).getAsString()`: a missing member is a null, and the
      call on it throws. */
  function GetString(o: JsonObject, key: string): (r: Option<string>)
    ensures r.Some? ==> key in o
    ensures key in o && o[key].JString? ==> r == Some(o[key].s)
  {
    if key in o then AsString(o[key]) else None
  }

  /** `json.get(key).getAsInt()`. */
  function GetInt(o: JsonObject, key: string): (r: Option<Int32>)
    ensures r.Some? ==> key in o
    ensures key in o && o[key].JNumber? && INT32_MIN <= o[key].n <= INT32_MAX ==> r == Some(o[key].n)
  {
    if key in o then AsInt(o[key]) else None
  }
}
