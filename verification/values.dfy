/** The Python values that flow through the field-specification pipeline. */
module Values {

  type Byte = x: int | 0 <= x < 256

  /** A Python value as far as the pipeline distinguishes them. `List` and
      `Tuple` are kept apart because the option normalisers treat only a
      `list` positionally. A `Dict` stands for any `Mapping`; its keys are
      strings, as keyword arguments and widget attributes are. A `Callable`
      is an opaque reference to a user-supplied function. */
  datatype Value =
    | None
    | Bool(b: bool)
    | Int(i: int)
    | Str(s: string)
    | Bytes(data: seq<Byte>)
    | List(items: seq<Value>)
    | Tuple(elems: seq<Value>)
    | Dict(entries: map<string, Value>)
    | Callable(id: nat)

  /** A widget specification: the keyword dictionary sent to the renderer. */
  type Spec = map<string, Value>

  /** Whether Python can use the value as a dictionary key. */
  predicate Hashable(v: Value) {
    match v
    case List(_) => false
    case Dict(_) => false
    case Tuple(es) => forall i | 0 <= i < |es| :: Hashable(es[i])
    case _ => true
  }

  /** A sequence of specifications as the Python list of dictionaries. */
  function AsDicts(ms: seq<Spec>): (r: seq<Value>)
    ensures |r| == |ms|
    ensures forall i | 0 <= i < |ms| :: r[i] == Dict(ms[i])
  {
    seq(|ms|, i requires 0 <= i < |ms| => Dict(ms[i]))
  }
}
