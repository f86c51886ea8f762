/**
 * The JSON document the editor holds (`serde_json::Value`). Numbers keep the
 * text serde_json prints for them; an object is the sequence of its entries
 * in the order the map iterates them.
 */
module Json {

  datatype Value =
    | Null
    | Bool(b: bool)
    | Number(repr: string)
    | String(s: string)
    | Array(items: seq<Value>)
    | Object(entries: seq<Entry>)
  {
    /** String, number, bool or null: a value rendered on a single line. */
    predicate IsScalar() {
      !Array? && !Object?
    }
  }

  datatype Entry = Entry(key: string, value: Value)
}
