/** Parsed JSON values as `json.loads` produces them, with the Python
    operations the listing extractor applies to them: truthiness,
    `dict.get` with a default, `isinstance(x, dict)` and `str(x)`. */
module Json {

  datatype Option<T> = None | Some(value: T)

  /** A decoded JSON value. Objects keep the last binding of a repeated
      key, as `json.loads` does; numbers are idealised as reals. */
  datatype Json =
    | JNull
    | JBool(b: bool)
    | JNum(r: real)
    | JStr(s: string)
    | JArr(items: seq<Json>)
    | JObj(fields: map<string, Json>)

  /** Python truthiness of the decoded value. */
  predicate Truthy(j: Json)
  {
    match j
    case JNull => false
    case JBool(b) => b
    case JNum(r) => r != 0.0
    case JStr(s) => s != ""
    case JArr(xs) => xs != []
    case JObj(m) => m != map[]
  }

  /** `d.get(key, default)` on an object. */
  function Get(fields: map<string, Json>, key: string, default: Json): (r: Json)
    ensures key in fields ==> r == fields[key]
    ensures key !in fields ==> r == default
  {
    if key in fields then fields[key] else default
  }

  /** `str(x)`: the text of a string is itself and the scalars print as
      Python prints them; how lists, objects and numbers are printed is
      left to `render`. */
  function Str(render: Json -> string, j: Json): (r: string)
    ensures j.JStr? ==> r == j.s
  {
    match j
    case JNull => "None"
    case JBool(b) => if b then "True" else "False"
    case JStr(s) => s
    case _ => render(j)
  }
}
