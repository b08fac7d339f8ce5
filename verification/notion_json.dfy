/**
 * The JSON values the Notion API returns, and the handful of Python dict operations the
 * parsers apply to them: `.get` with and without a default, truthiness, iteration of a list
 * and `"".join` over rich-text fragments.
 */
module NotionJson {
  import opened Wrappers

  datatype Json =
    | JNull
    | JBool(b: bool)
    | JNum(n: int)
    | JStr(s: string)
    | JArr(items: seq<Json>)
    | JObj(fields: map<string, Json>)

  /** Python truthiness: None, False, 0, "", [] and {} are false. */
  predicate Truthy(j: Json)
  {
    match j
    case JNull => false
    case JBool(b) => b
    case JNum(n) => n != 0
    case JStr(s) => s != ""
    case JArr(items) => items != []
    case JObj(fields) => fields != map[]
  }

  /** `j.get(key, default)`: the value under `key` of an object, else `default`. */
  function GetOr(j: Json, key: string, default: Json): Json
  {
    if j.JObj? && key in j.fields then j.fields[key] else default
  }

  /** `j.get(key)`, with None read as JNull. */
  function Get(j: Json, key: string): Json
  {
    GetOr(j, key, JNull)
  }

  /** `j.get(key)` is truthy. */
  predicate Has(j: Json, key: string)
  {
    Truthy(Get(j, key))
  }

  /** `j.get("type") == t`. */
  predicate IsType(j: Json, t: string)
  {
    Get(j, "type") == JStr(t)
  }

  /** Iterating a list value (anything else is read as the empty list). */
  function Items(j: Json): seq<Json>
  {
    if j.JArr? then j.items else []
  }

  /** A value used as a string: `x or ""` for a string or None. */
  function Text(j: Json): string
  {
    if j.JStr? then j.s else ""
  }

  /** `t.get("plain_text", "")` of one rich-text fragment. */
  function PlainText(t: Json): string
  {
    Text(GetOr(t, "plain_text", JStr("")))
  }

  /** `"".join(t.get("plain_text", "") for t in ts)`: the fragments' text, in order. */
  function JoinPlain(ts: seq<Json>): (r: string)
    ensures ts == [] ==> r == ""
    ensures |ts| == 1 ==> r == PlainText(ts[0])
  {
    if ts == [] then "" else PlainText(ts[0]) + JoinPlain(ts[1..])
  }

  /** The joined text is empty exactly when every fragment is. */
  lemma {:induction false} JoinPlainEmpty(ts: seq<Json>)
    ensures JoinPlain(ts) == "" <==> forall i :: 0 <= i < |ts| ==> PlainText(ts[i]) == ""
  {
    if ts != [] {
      JoinPlainEmpty(ts[1..]);
      assert forall i :: 1 <= i < |ts| ==> ts[1..][i - 1] == ts[i];
    }
  }

  /** `x or None` on a string: the empty string becomes None. */
  function OrNone(s: string): (r: Option<string>)
    ensures r.None? <==> s == ""
    ensures r.Some? ==> r.value == s
  {
    if s == "" then None else Some(s)
  }
}
