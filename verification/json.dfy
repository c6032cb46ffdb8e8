/**
 * Parsed JSON documents as Python's `json` module returns them, together
 * with the few Python operations the validators apply to them: truthiness,
 * `dict.get`, `isinstance(x, int)` and the `(x or "")` idiom for text fields.
 */
module Json {
  import opened Wrappers

  /** A JSON value. Objects are maps from key to value; arrays keep order. */
  datatype Json =
    | JNull
    | JBool(b: bool)
    | JInt(i: int)
    | JFloat(f: real)
    | JStr(s: string)
    | JArr(items: seq<Json>)
    | JObj(fields: map<string, Json>)

  /** Python truthiness: None, False, 0, 0.0, "", [] and {} are false. */
  predicate Truthy(j: Json) {
    match j
    case JNull => false
    case JBool(b) => b
    case JInt(i) => i != 0
    case JFloat(f) => f != 0.0
    case JStr(s) => s != ""
    case JArr(items) => items != []
    case JObj(fields) => fields != map[]
  }

  /** `key in obj`; false for anything that is not an object. */
  predicate Has(j: Json, key: string) {
    j.JObj? && key in j.fields
  }

  /** `obj.get(key)`: the stored value, or None (JNull) when absent. */
  function Get(j: Json, key: string): (r: Json)
    ensures Has(j, key) ==> r == j.fields[key]
    ensures !Has(j, key) ==> r == JNull
  {
    if j.JObj? && key in j.fields then j.fields[key] else JNull
  }

  /** `a or b`: the first operand when truthy, otherwise the second. */
  function Or(a: Json, b: Json): (r: Json)
    ensures Truthy(a) ==> r == a
    ensures !Truthy(a) ==> r == b
  {
    if Truthy(a) then a else b
  }

  /**
   * `isinstance(x, int)` followed by use of the integer. Python's `bool` is a
   * subclass of `int`, so `true` and `false` pass as 1 and 0.
   */
  function AsInt(j: Json): (r: Option<int>)
    ensures r.Some? <==> (j.JInt? || j.JBool?)
    ensures j.JInt? ==> r == Some(j.i)
    ensures j == JBool(true) ==> r == Some(1)
    ensures j == JBool(false) ==> r == Some(0)
  {
    match j
    case JInt(i) => Some(i)
    case JBool(b) => Some(if b then 1 else 0)
    case _ => None
  }

  /**
   * `(x or "")` for a field the source then treats as text. A falsy value of
   * any type gives "" as in the source; a truthy non-string, on which the
   * source raises a TypeError or AttributeError, is also read as "".
   */
  function Text(j: Json): (r: string)
    ensures j.JStr? ==> r == j.s
    ensures !j.JStr? ==> r == ""
    ensures r != "" ==> Truthy(j)
  {
    if j.JStr? then j.s else ""
  }

  /** `data if isinstance(data, list) else [data]`. */
  function Items(j: Json): (r: seq<Json>)
    ensures j.JArr? ==> r == j.items
    ensures !j.JArr? ==> r == [j]
  {
    if j.JArr? then j.items else [j]
  }

  /** A file's text as the JSON decoder sees it. */
  datatype Source = Unparsable(reason: string) | Parsed(doc: Json)

  /**
   * `load_json`: the decoded document, or on a decoding failure an object
   * whose only key is "__load_error__", holding the failure's description.
   */
  function LoadJson(src: Source): (r: Json)
    ensures src.Parsed? ==> r == src.doc
    ensures src.Unparsable? ==> IsLoadError(r) && Get(r, "__load_error__") == JStr(src.reason)
  {
    match src
    case Parsed(doc) => doc
    case Unparsable(reason) => JObj(map["__load_error__" := JStr(reason)])
  }

  /**
   * `isinstance(data, dict) and "__load_error__" in data`: how the validators
   * recognise a failed load. A well-formed document that happens to carry
   * this key is taken for a failed load as well.
   */
  predicate IsLoadError(data: Json) {
    Has(data, "__load_error__")
  }
}
