/** A JSON value as `json.load` hands it to the config code: objects become dicts with string
    keys, arrays become lists, and everything else is a scalar that cannot be indexed. */
module Json {

  datatype Value =
    | Null
    | Bool(b: bool)
    | Num(n: int)
    | Str(s: string)
    | Arr(items: seq<Value>)
    | Obj(members: map<string, Value>)
}
