/** The parsed form of a JSON text: what `JSON.parse` yields and what `JSON.stringify`
    consumes. Numbers are integers only; the sheet never stores fractions. */
module Json {
  datatype Value =
    | Null
    | Bool(b: bool)
    | Number(n: int)
    | Str(s: string)
    | Array(items: seq<Value>)
    | Object(fields: map<string, Value>)
}
