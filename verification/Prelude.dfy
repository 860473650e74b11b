/** Shared value types. */
module Prelude {

  datatype Option<+T> = None | Some(value: T)

  /** The outcome of a check that may also raise. */
  datatype Check = Passes | Fails | Raises

  /** A decimal.Decimal, or the failure to read one. */
  datatype Decimal = Undecimal | NaN | Infinite(positive: bool) | Finite(value: real)

  /** x >= d; comparing with NaN raises, so callers have excluded it. */
  predicate AtLeast(x: real, d: Decimal) {
    match d
    case Finite(value) => x >= value
    case Infinite(positive) => !positive
    case _ => false
  }

  /** A point in time read from a text; some texts only fail when converted to UTC. */
  datatype Moment = NotATime | OutOfRange | At(time: real)

  type Byte = b: int | 0 <= b < 256 witness 0
  type Bytes = seq<Byte>

  /** No element occurs twice. */
  ghost predicate Distinct<T>(s: seq<T>) {
    forall i, j :: 0 <= i < j < |s| ==> s[i] != s[j]
  }

  /** The set of elements of a sequence. */
  function Elements<T(==)>(s: seq<T>): set<T> {
    set x | x in s
  }
}
