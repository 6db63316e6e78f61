/** Values shared by every module: optional results and the JSON documents the controller moves around. */
module Options {
  datatype Option<+T> = None | Some(value: T)
}

module Json {
  /**
   * A document as the controller sees it after decoding: `Int` is a Go int64, `Float` a finite float64,
   * `Null` an untyped nil.
   */
  datatype JSON =
    | Null
    | Bool(b: bool)
    | Int(i: int)
    | Float(r: real)
    | Str(s: string)
    | Arr(items: seq<JSON>)
    | Obj(fields: map<string, JSON>)

  /** Go's `fmt.Sprintf("%v", x)`: any fixed, deterministic rendering. */
  type Printer = JSON -> string

  type Path = seq<string>
}
