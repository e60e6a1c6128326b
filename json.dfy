/** The JSON values `json.load` can return, as far as the scripts look at them. */
module Json {

  /** Objects are maps: key order in the file does not matter to the scripts. */
  datatype Json =
    | JNull
    | JBool(b: bool)
    | JNum(n: int)
    | JStr(s: string)
    | JArr(items: seq<Json>)
    | JObj(fields: map<string, Json>)

  /** Python truthiness of the value a JSON document decodes to. */
  predicate Truthy(v: Json)
  {
    match v
    case JNull => false
    case JBool(b) => b
    case JNum(n) => n != 0
    case JStr(s) => s != []
    case JArr(items) => items != []
    case JObj(fields) => fields != map[]
  }

  /** The document shape of `config/bridges.json`: one key, `bridges`. */
  function BridgesDocument(v: Json): Json
  {
    JObj(map["bridges" := v])
  }

  /** A list of strings as a JSON array. */
  function StringArray(xs: seq<string>): Json
  {
    JArr(seq(|xs|, k requires 0 <= k < |xs| => JStr(xs[k])))
  }
}
