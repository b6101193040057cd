/**
 * Absence of a quote, and the Python truthiness the dashboard's guards rely on.
 *
 * A quote field read from the market-data feed may be missing (`None`), a value
 * that `float()` refuses, a non-finite float (NaN is how the feed reports "no
 * quote yet"), or a finite number. `nn` collapses the first three into absence.
 */
module Absence {

  datatype Option<+T> = None | Some(value: T)

  /** A raw field of a live quote, before `nn`. */
  datatype Quote = Missing | Unparsable | NonFinite | Finite(x: real)

  /** `nn(v)`: the value if it is a finite number, else absent. */
  function Nn(q: Quote): (r: Option<real>)
    ensures r.Some? <==> q.Finite?
    ensures r.Some? ==> r.value == q.x
  {
    match q
    case Finite(x) => Some(x)
    case _ => None
  }

  /** Python truthiness of an optional float: `None` and `0.0` are false. */
  predicate Truthy(o: Option<real>) {
    o.Some? && o.value != 0.0
  }

  /** Python's `a or b`: the first operand if it is truthy, else the second. */
  function Or(a: Option<real>, b: Option<real>): (r: Option<real>)
    ensures Truthy(a) ==> r == a
    ensures !Truthy(a) ==> r == b
    ensures Truthy(r) <==> Truthy(a) || Truthy(b)
  {
    if Truthy(a) then a else b
  }

  /** Python's `x or 0` for an optional float, as a plain number. */
  function OrZero(o: Option<real>): (r: real)
    ensures Truthy(o) ==> r == o.value
    ensures !Truthy(o) ==> r == 0.0
  {
    if Truthy(o) then o.value else 0.0
  }

  /** `a op b if (a and b) else None`: a binary operation that needs both operands truthy. */
  predicate BothTruthy(a: Option<real>, b: Option<real>) {
    Truthy(a) && Truthy(b)
  }
}
