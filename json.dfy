/**
 * Parsed JSON values as Python's `json.load` returns them, and the few
 * operations the harness applies to them: `dict.get`, truthiness, and the
 * `isinstance(v, (int, float))` test (which `bool` values pass as well).
 */
module Json {
  import opened Wrappers

  /**
   * A JSON value. An object is the list of its members in document order; the
   * model takes the keys of one object to be distinct, as in a Python `dict`.
   */
  datatype Json =
    | JNull
    | JBool(b: bool)
    | JInt(i: int)
    | JFloat(r: real)
    | JString(s: string)
    | JArray(items: seq<Json>)
    | JObject(members: seq<(string, Json)>)

  /** `d.get(key)` on the members of an object: the value of the first member named `key`. */
  function Get(members: seq<(string, Json)>, key: string): (r: Option<Json>)
    ensures r.Some? <==> exists k :: 0 <= k < |members| && members[k].0 == key
    ensures r.Some? ==> exists k :: 0 <= k < |members| && members[k] == (key, r.value)
  {
    if members == [] then None
    else if members[0].0 == key then
      assert members[0] == (key, members[0].1);
      Some(members[0].1)
    else
      var r := Get(members[1..], key);
      assert forall k :: 0 < k < |members| ==> members[k] == members[1..][k - 1];
      r
  }

  /** Python truthiness of a value that may be missing (`None`). */
  predicate Truthy(v: Option<Json>) {
    match v
    case None => false
    case Some(JNull) => false
    case Some(JBool(b)) => b
    case Some(JInt(i)) => i != 0
    case Some(JFloat(r)) => r != 0.0
    case Some(JString(s)) => s != ""
    case Some(JArray(items)) => items != []
    case Some(JObject(members)) => members != []
  }

  /** `float(v)` when `isinstance(v, (int, float))`, which holds for `bool` too; `None` otherwise. */
  function AsNumber(v: Option<Json>): (r: Option<real>)
    ensures r.Some? <==> v.Some? && (v.value.JInt? || v.value.JFloat? || v.value.JBool?)
  {
    match v
    case Some(JInt(i)) => Some(i as real)
    case Some(JFloat(x)) => Some(x)
    case Some(JBool(b)) => Some(if b then 1.0 else 0.0)
    case _ => None
  }
}
