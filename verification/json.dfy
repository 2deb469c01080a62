/** An abstract JSON value: what Jackson renders a response object into,
    before pretty-printing.  Objects are unordered, like the `Map.of`
    maps the tool layer hands to Jackson. */
module JsonValue {

  import opened Wrappers

  datatype Json =
    | JNull
    | JBool(b: bool)
    | JNumber(n: int)
    | JString(s: string)
    | JArray(items: seq<Json>)
    | JObject(fields: map<string, Json>)

  /** The JSON form of a nullable Java string. */
  function NullableString(s: Option<string>): Json {
    match s
    case None => JNull
    case Some(v) => JString(v)
  }

  /** The JSON form of a `Map<String, String>`. */
  function StringMap(m: map<string, string>): (r: Json)
    ensures r.JObject? && r.fields.Keys == m.Keys
    ensures forall k :: k in m ==> r.fields[k] == JString(m[k])
  {
    JObject(map k | k in m :: JString(m[k]))
  }

  /** The JSON array of a `List<Integer>`. */
  function IntArray(xs: seq<int>): (r: Json)
    ensures r.JArray? && |r.items| == |xs|
    ensures forall i :: 0 <= i < |xs| ==> r.items[i] == JNumber(xs[i])
  {
    JArray(seq(|xs|, i requires 0 <= i < |xs| => JNumber(xs[i])))
  }

  /** The JSON array of a `List<String>`. */
  function StringArray(xs: seq<string>): (r: Json)
    ensures r.JArray? && |r.items| == |xs|
    ensures forall i :: 0 <= i < |xs| ==> r.items[i] == JString(xs[i])
  {
    JArray(seq(|xs|, i requires 0 <= i < |xs| => JString(xs[i])))
  }
}
