/** Elementary functions on exact reals. */
module Reals {

  function Abs(x: real): real { if x < 0.0 then -x else x }

  function Max(x: real, y: real): real { if x < y then y else x }

  function Square(x: real): real { x * x }
}
