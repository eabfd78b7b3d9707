/** Integer rounding as the source performs it on elapsed seconds. Dafny's
    `/` on `int` is Euclidean; Ruby's `Float#ceil` and `Float#to_i` are
    written out here. */
module Numeric {

  /** `(a.to_f / b).ceil` for a positive divisor: the least integer not below a/b. */
  function CeilDiv(a: int, b: int): (q: int)
    requires b > 0
    ensures (q - 1) * b < a <= q * b
  {
    -((-a) / b)
  }

  /** `(a.to_f / b).to_i` for a positive divisor: a/b rounded toward zero. */
  function TruncDiv(a: int, b: int): (q: int)
    requires b > 0
    ensures a >= 0 ==> q * b <= a < (q + 1) * b
    ensures a < 0 ==> (q - 1) * b < a <= q * b
    ensures a >= 0 ==> q >= 0
  {
    if a >= 0 then a / b else -((-a) / b)
  }
}
