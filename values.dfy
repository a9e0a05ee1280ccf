/** The decoded YAML document: the generic tree that go-yaml yields when it decodes into `interface{}`. */
module Values {
  import opened Wrappers

  datatype Value =
    | Null
    | Bool(b: bool)
    | Str(s: string)
    | Int(i: int)
    /** A float64, carried as the text `%v` gives it (float formatting is not modelled). */
    | Float(shown: string)
    | Map(entries: map<string, Value>)
    | List(items: seq<Value>)
    /** Any other Go value: the text `%v` gives it and its JSON encoding, when json.Marshal succeeds. */
    | Other(shown: string, json: Option<string>)
}
