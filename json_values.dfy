/**
  The JSON values the location log is made of, as org.json holds them.

  JSONObject is hash-based, so an object is a map from key to value and key order
  carries no meaning. Numbers are opaque: the log stores latitudes and longitudes
  and never computes with them, so a number only records whether it is a finite
  double (org.json refuses NaN and the infinities) and otherwise which one it is.
*/
module JsonValues {
  import opened Wrappers

  /** A Java double, kept opaque apart from its finiteness. */
  datatype Double = Finite(bits: int) | NaN | Infinity(negative: bool)

  datatype Json =
    | JNull
    | JBool(b: bool)
    | JNumber(n: Double)
    | JString(s: string)
    | JArray(items: seq<Json>)
    | JObject(fields: map<string, Json>)

  /**
    A value org.json can hold and write out: every number in it is finite.
  */
  predicate Encodable(j: Json)
  {
    match j
    case JNumber(n) => n.Finite?
    case JArray(items) => forall i | 0 <= i < |items| :: Encodable(items[i])
    case JObject(fields) => forall k | k in fields :: Encodable(fields[k])
    case _ => true
  }

  predicate EncodableFields(fields: map<string, Json>)
  {
    Encodable(JObject(fields))
  }

  /**
    The JSON library as the log sees it: `parse` stands for `new JSONObject(text)`
    (None where it throws) and `render` for `toString(2)`. Both are library code
    whose workings this model does not describe.
  */
  datatype Codec = Codec(parse: string -> Option<Json>, render: Json -> string)

  /** The object `new JSONObject(text)` builds, or None when it throws: the text must hold an object. */
  function ParseObject(codec: Codec, text: string): (r: Option<map<string, Json>>)
    ensures r.Some? <==> codec.parse(text).Some? && codec.parse(text).value.JObject?
    ensures r.Some? ==> codec.parse(text) == Some(JObject(r.value))
  {
    match codec.parse(text)
    case Some(JObject(fields)) => Some(fields)
    case _ => None
  }
}
