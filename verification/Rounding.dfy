/** Rounding a real to an integer, as `Decimal.quantize` and Python's `round` do it in exact arithmetic. */
module Rounding {

  /** ROUND_HALF_UP: ties go away from zero. */
  function HalfUp(x: real): (n: int)
    ensures -0.5 <= n as real - x <= 0.5
  {
    if x >= 0.0 then (x + 0.5).Floor else -(0.5 - x).Floor
  }

  /** `round`: ties go to the even neighbour. */
  function HalfEven(x: real): (n: int)
    ensures -0.5 <= n as real - x <= 0.5
  {
    var n := x.Floor;
    var above := x - n as real;
    if above < 0.5 || (above == 0.5 && n % 2 == 0) then n else n + 1
  }

  lemma HalfUpIsMonotone(x: real, y: real)
    requires x <= y
    ensures HalfUp(x) <= HalfUp(y)
  {
  }

  lemma HalfEvenIsMonotone(x: real, y: real)
    requires x <= y
    ensures HalfEven(x) <= HalfEven(y)
  {
  }

  lemma WholeIsFixed(n: int)
    ensures HalfUp(n as real) == n && HalfEven(n as real) == n
  {
  }

  /** Halves: away from zero by the one, to the even neighbour by the other. */
  lemma HalvesAreTied(n: int)
    ensures HalfUp(n as real + 0.5) == if n >= 0 then n + 1 else n
    ensures HalfEven(n as real + 0.5) == if n % 2 == 0 then n else n + 1
  {
  }
}
