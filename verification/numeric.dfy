/** Small numeric helpers shared by the engine. */
module Numeric {

  function Max(a: int, b: int): int { if a < b then b else a }

  function MinReal(a: real, b: real): real { if a < b then a else b }

  function Abs(x: real): real { if x < 0.0 then -x else x }
}
