/** The already-parsed metadata payload: a JSON document as nested values.
    Reading a field or an item mirrors Python's `d[key]` and `xs[i]`. */
module Payload {
  import opened Wrappers
  import opened Errors

  datatype Value =
    | Null
    | Bool(b: bool)
    | Int(i: int)
    | Real(r: real)
    | Str(s: string)
    | List(items: seq<Value>)
    | Obj(fields: map<string, Value>)

  /** `v[key]`: a KeyError when the key is absent, a TypeError when `v` is not an object. */
  function Field(v: Value, key: string): Result<Value, Error> {
    if !v.Obj? then Failure(WrongType(key))
    else if key !in v.fields then Failure(MissingField(key))
    else Success(v.fields[key])
  }

  /** `v[i]` on a list; `what` names the list in the error. */
  function Item(v: Value, i: nat, what: string): Result<Value, Error> {
    if !v.List? then Failure(WrongType(what))
    else if i >= |v.items| then Failure(MissingField(what))
    else Success(v.items[i])
  }

  /** A JSON number (integer or not) read as a real. */
  function Number(v: Value, key: string): Result<real, Error> {
    match v
    case Int(i) => Success(i as real)
    case Real(r) => Success(r)
    case _ => Failure(WrongType(key))
  }

  /** A JSON integer. */
  function Integer(v: Value, key: string): Result<int, Error> {
    if v.Int? then Success(v.i) else Failure(WrongType(key))
  }
}
