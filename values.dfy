/** The tree a Jason document holds: PHP arrays nested inside each other, with
    scalars at the leaves. A PHP array is an ordered map whose keys are either
    integers or strings; PHP turns a canonical decimal string key such as "1"
    into the integer 1, so a list and a map are the same thing once every key is
    written as its canonical string. That is how keys are represented here. */
module Values {

  datatype Option<+T> = None | Some(value: T) {
    /** The value if there is one, the fallback otherwise. */
    function GetOr(fallback: T): T {
      match this
      case Some(v) => v
      case None => fallback
    }
  }

  /** The scalar values a decoded JSON document can hold. */
  datatype Scalar = Null | Bool(b: bool) | Int(i: int) | Str(s: string)

  /** A node of the document tree: a PHP array, or a scalar. */
  datatype Value = Node(entries: map<string, Value>) | Leaf(scalar: Scalar)

  /** PHP's `null`, the value `get` falls back to when no default is given. */
  const NullValue: Value := Leaf(Null)

  /** `d` is `v` itself or is stored somewhere below it. */
  predicate Within(d: Value, v: Value) {
    d == v || (v.Node? && exists k :: k in v.entries && Within(d, v.entries[k]))
  }
}
