/**
 * JSON values as Python's json module hands them over (None, bool, int, float,
 * str, list, dict), with the Python conversions the pipeline applies to them.
 */
module Json {
  import opened Wrappers
  import opened Numerals

  /** A float is kept as its real value; NaN and the infinities are not modelled. */
  datatype JsonValue =
    | JNull
    | JBool(b: bool)
    | JInt(i: int)
    | JFloat(f: real)
    | JString(s: string)
    | JArray(items: seq<JsonValue>)
    | JObject(fields: map<string, JsonValue>)

  /** Python truthiness: None, False, 0, 0.0, "", [] and {} are falsy. */
  predicate Truthy(v: JsonValue) {
    match v
    case JNull => false
    case JBool(b) => b
    case JInt(i) => i != 0
    case JFloat(f) => f != 0.0
    case JString(s) => s != ""
    case JArray(items) => items != []
    case JObject(fields) => fields != map[]
  }

  /** dict.get(key, default). */
  function Get(m: map<string, JsonValue>, key: string, default: JsonValue): (v: JsonValue)
    ensures key in m ==> v == m[key]
    ensures key !in m ==> v == default
  {
    if key in m then m[key] else default
  }

  /**
   * int(str(v)). Only an int, or a str holding an integer literal, survives:
   * str() of None, a bool, a float, a list or a dict gives "None", "True",
   * "2.0", "[...]" or "{...}", none of which int() accepts (None is the ValueError).
   */
  function IntOfStr(v: JsonValue): (r: Option<int>)
    ensures v.JInt? ==> r == Some(v.i)
    ensures v.JNull? || v.JBool? || v.JFloat? || v.JArray? || v.JObject? ==> r == None
  {
    match v
    case JInt(i) =>
      ParseIntRoundTrip(i);
      ParseIntLiteral(IntToString(i))
    case JString(s) => ParseIntLiteral(s)
    case _ => None
  }

  /** int(x) for a real x: truncation toward zero. */
  function Truncate(x: real): (n: int)
    ensures x >= 0.0 ==> n as real <= x < n as real + 1.0
    ensures x < 0.0 ==> n as real - 1.0 < x <= n as real
  {
    if x >= 0.0 then x.Floor else -((-x).Floor)
  }

  /**
   * int(v) applied directly: ints pass, bools give 0 or 1, floats truncate, a str
   * must hold an integer literal; None, lists and dicts raise (None here).
   */
  function IntOf(v: JsonValue): (r: Option<int>)
    ensures v.JInt? ==> r == Some(v.i)
    ensures v.JNull? || v.JArray? || v.JObject? ==> r == None
  {
    match v
    case JInt(i) => Some(i)
    case JBool(b) => Some(if b then 1 else 0)
    case JFloat(f) => Some(Truncate(f))
    case JString(s) => ParseIntLiteral(s)
    case _ => None
  }
}
