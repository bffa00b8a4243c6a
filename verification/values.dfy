/** Values of the configuration language and the operators the evaluator treats as given. */
module Values {

  datatype Option<+T> = None | Some(value: T)

  /** How a config entry combines with an entry already under the same key. */
  datatype EntryOp = Union | Override | Insert

  datatype Entry = Entry(key: string, value: Value)

  /**
   * A runtime value. A dictionary keeps its entries in insertion order and, beside them,
   * the operation and the optional list index each entry was written with.
   */
  datatype Value =
    | Undefined
    | Nil
    | Bool(b: bool)
    | Int(i: int)
    | Float(f: real)
    | Str(s: string)
    | List(items: seq<Value>)
    | Dict(entries: seq<Entry>, ops: map<string, EntryOp>, indexes: map<string, int>)
  {
    predicate Empty() { Undefined? || Nil? }
    predicate Scalar() { Bool? || Int? || Float? || Str? }
  }
}
