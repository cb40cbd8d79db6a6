/**
 * The value `json.loads` produces, abstractly: the parser itself is a library
 * call and is not modelled, only the shape of what it returns. JSON numbers
 * (integers and floats alike) are reals; an object keeps, per key, the value
 * the parser retained.
 */
module Json {

  datatype Value =
    | JNull
    | JBool(b: bool)
    | JNumber(x: real)
    | JString(s: string)
    | JArray(items: seq<Value>)
    | JObject(members: map<string, Value>)

  /** `dict.get(key, default)`: the stored value when the key is present. */
  function Get(members: map<string, Value>, key: string, default: Value): Value
  {
    if key in members then members[key] else default
  }
}
