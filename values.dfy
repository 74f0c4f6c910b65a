/**
 * The PHP values a selection tree, an option map or an array prototype is
 * made of. Integers and floats are held by their text, like strings.
 */
module Values {
  import opened OrderedMap

  datatype Value =
    | Null
    | B(b: bool)
    | Scalar(s: string)
    | M(entries: seq<(string, Value)>)

  /** The pairs of a PHP array, in iteration order. */
  type Entries = seq<(string, Value)>

  /** PHP's truth value: null, false, "", "0" and the empty array are false. */
  predicate Truthy(v: Value) {
    match v
    case Null => false
    case B(b) => b
    case Scalar(s) => s != "" && s != "0"
    case M(es) => es != []
  }

  /** Every array in the value has distinct keys, as PHP arrays do. */
  ghost predicate WellFormed(v: Value) {
    match v
    case M(es) => UniqueKeys(es) && forall i :: 0 <= i < |es| ==> WellFormed(es[i].1)
    case _ => true
  }
}
