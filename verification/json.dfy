/** The values `json.loads` produces. */
module Json {
  import Dicts

  /** A decoded JSON document: `None`, `bool`, `int`, `float`, `str`, `list` or `dict`.
      Floats are kept as exact reals (see README). An object that `json.loads` returns
      never repeats a key: a key written twice in the text keeps its last value. The type
      does not enforce this; objects built here only grow through `Dicts.Put`, which keeps
      keys distinct, and lookups read the first pair with the key. */
  datatype Value =
    | Null
    | Bool(b: bool)
    | Int(i: int)
    | Float(f: real)
    | Str(s: string)
    | Array(items: seq<Value>)
    | Object(fields: Dicts.Dict<Value>)
}
