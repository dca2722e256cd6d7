/**
 * JSON values as `JSON.parse` produces them, with the JavaScript operations
 * the client applies to them: property access, truthiness and conversion to
 * a string inside a template literal. Numbers are integers in this model.
 * `JSON.parse` itself is never defined here: every operation that parses
 * takes the parser as a parameter `parse: string -> Option<Json>`, `None`
 * standing for a thrown `SyntaxError`.
 */
module Json {
  import opened Wrappers
  import JsText

  datatype Json =
    | JNull
    | JBool(b: bool)
    | JNum(n: int)
    | JStr(s: string)
    | JArr(elems: seq<Json>)
    | JObj(fields: map<string, Json>)

  /** `v?.key`: `None` is `undefined`. Only objects have own properties here. */
  function Member(v: Option<Json>, key: string): (r: Option<Json>)
    ensures r.Some? <==> v.Some? && v.value.JObj? && key in v.value.fields
    ensures r.Some? ==> r.value == v.value.fields[key]
  {
    if v.Some? && v.value.JObj? && key in v.value.fields then Some(v.value.fields[key]) else None
  }

  /** JavaScript truthiness; `None` is `undefined`. */
  predicate Truthy(v: Option<Json>) {
    match v
    case None => false
    case Some(JNull) => false
    case Some(JBool(b)) => b
    case Some(JNum(n)) => n != 0
    case Some(JStr(s)) => s != ""
    case Some(JArr(_)) => true
    case Some(JObj(_)) => true
  }

  /** `Array.isArray(v)`. */
  predicate IsArray(v: Option<Json>) {
    v.Some? && v.value.JArr?
  }

  /** `${v}`: the string a template literal substitutes for `v`. */
  function Display(v: Option<Json>): string {
    match v
    case None => "undefined"
    case Some(j) => DisplayValue(j)
  }

  function DisplayValue(j: Json): string
    decreases j, 1
  {
    match j
    case JNull => "null"
    case JBool(b) => if b then "true" else "false"
    case JNum(n) => JsText.IntToString(n)
    case JStr(s) => s
    case JArr(es) => DisplayElements(j, 0)
    case JObj(_) => "[object Object]"
  }

  /** `Array.prototype.toString` from index `i` on: elements joined by ",", null as "". */
  function DisplayElements(arr: Json, i: nat): string
    requires arr.JArr? && i <= |arr.elems|
    decreases arr, 0, |arr.elems| - i
  {
    if i == |arr.elems| then ""
    else
      var e := arr.elems[i];
      var shown := if e.JNull? then "" else DisplayValue(e);
      if i + 1 == |arr.elems| then shown else shown + "," + DisplayElements(arr, i + 1)
  }
}
