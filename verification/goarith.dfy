/** Go's integer `/` and `%` round the quotient toward zero, so the remainder
    takes the sign of the dividend; Dafny's operators are Euclidean.  These two
    functions write Go's out for a positive divisor. */
module GoArith {

  /** Go's integer division for a positive divisor. */
  function GoDiv(a: int, b: int): (q: int)
    requires b > 0
    ensures a >= 0 ==> q == a / b
    ensures a < 0 ==> q == -((-a) / b)
  {
    if a >= 0 then a / b else -((-a) / b)
  }

  /** Go's remainder for a positive divisor. */
  function GoMod(a: int, b: int): (r: int)
    requires b > 0
    ensures a == b * GoDiv(a, b) + r
    ensures -b < r < b
    ensures a >= 0 ==> r == a % b
  {
    a - b * GoDiv(a, b)
  }
}
