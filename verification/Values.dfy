/** Dynamic values and the small wrapper types shared by the other modules. */
module Values {

  datatype Option<+T> = None | Some(value: T)

  /** A JavaScript value as the workflow code sees it; functions and symbols never reach it. */
  datatype Value =
    | Undefined
    | Null
    | Bool(b: bool)
    | Number(n: real)
    | Text(s: string)
    | List(items: seq<Value>)
    | Record(fields: map<string, Value>)

  type Fields = map<string, Value>
}
