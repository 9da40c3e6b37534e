/** JSON values as the server and the client see them after `JSON.parse`
    or `res.json()`, with the JavaScript operations the core applies to
    them: truthiness, property reads and conversion to text. */
module Json {
  import opened Wrappers
  import opened Strings

  /** A JSON value. Numbers are integers in this model: fractions, exponents
      and JavaScript number formatting are not represented. */
  datatype Json =
    | JNull
    | JBool(b: bool)
    | JNum(n: int)
    | JStr(s: string)
    | JArr(items: seq<Json>)
    | JObj(fields: map<string, Json>)

  /** JavaScript truthiness: `null`, `false`, `0` and `""` are falsy. */
  predicate Truthy(v: Json) {
    match v
    case JNull => false
    case JBool(b) => b
    case JNum(n) => n != 0
    case JStr(s) => s != ""
    case _ => true
  }

  /** `typeof v === "object"` (which holds for `null` and arrays too). */
  predicate IsObjectType(v: Json) {
    v.JNull? || v.JArr? || v.JObj?
  }

  /** The property read `v[key]` for a named key; `None` is `undefined`.
      Only objects carry named data properties. */
  function Get(v: Json, key: string): (r: Option<Json>)
    ensures r.Some? <==> v.JObj? && key in v.fields
  {
    if v.JObj? && key in v.fields then Some(v.fields[key]) else None
  }

  /** `v[key]` when `typeof v[key] === "string"`. */
  function GetString(v: Json, key: string): (r: Option<string>)
    ensures r.Some? <==> (Get(v, key).Some? && Get(v, key).value.JStr?)
  {
    match Get(v, key)
    case Some(JStr(s)) => Some(s)
    case _ => None
  }

  /** `v[key]` when `Array.isArray(v[key])`. */
  function GetArray(v: Json, key: string): (r: Option<seq<Json>>)
    ensures r.Some? <==> (Get(v, key).Some? && Get(v, key).value.JArr?)
  {
    match Get(v, key)
    case Some(JArr(xs)) => Some(xs)
    case _ => None
  }

  /** `String(v)`, as a template literal `${v}` converts a value: arrays are
      joined with "," (a `null` element giving ""), objects become
      "[object Object]". */
  function ToText(v: Json): string
    decreases v, 1
  {
    match v
    case JNull => "null"
    case JBool(b) => if b then "true" else "false"
    case JNum(n) => IntToString(n)
    case JStr(s) => s
    case JArr(xs) => JoinElements(v, xs, 0)
    case JObj(_) => "[object Object]"
  }

  /** `xs.slice(i).join(",")` for the elements of the array `whole`. */
  function JoinElements(whole: Json, xs: seq<Json>, i: nat): string
    requires whole.JArr? && xs == whole.items && i <= |xs|
    decreases whole, 0, |xs| - i
  {
    if i == |xs| then ""
    else
      var part := if xs[i].JNull? then "" else ToText(xs[i]);
      if i == |xs| - 1 then part else part + "," + JoinElements(whole, xs, i + 1)
  }
}
