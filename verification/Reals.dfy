// The size of a real number and its restriction to -1 .. 1.
module Reals {
  function Abs(x: real): (r: real)
    ensures r >= 0.0 && (r == x || r == -x)
  { if x < 0.0 then -x else x }

  function Clamp(x: real): (r: real)
    ensures -1.0 <= r <= 1.0 && (-1.0 <= x <= 1.0 ==> r == x)
  { if x > 1.0 then 1.0 else if x < -1.0 then -1.0 else x }
}
