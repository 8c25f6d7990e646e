/** Conversions of floating-point numbers, taken as real numbers, to integers. */
module Rounding {

  /** A cast: towards zero. */
  function Truncate(x: real): (y: int)
    ensures x >= 0.0 ==> y >= 0 && y as real <= x < y as real + 1.0
    ensures x < 0.0 ==> y <= 0 && y as real - 1.0 < x <= y as real
  {
    if x >= 0.0 then x.Floor else -((-x).Floor)
  }

  /** lrintf: to the nearest integer, halves to the even one. */
  function Round(x: real): (y: int)
    ensures -0.5 <= y as real - x <= 0.5
    ensures y as real - x == 0.5 || y as real - x == -0.5 ==> y % 2 == 0
  {
    var f := x.Floor;
    var d := x - f as real;
    if d < 0.5 || (d == 0.5 && f % 2 == 0) then f else f + 1
  }
}
