/** Present-value discounting by an integer power of the growth factor. */
module Discount {

  /** `b ** n` for a non-negative integer exponent. */
  function Pow(b: real, n: nat): (r: real)
    ensures b != 0.0 ==> r != 0.0
    ensures b > 0.0 ==> r > 0.0
    ensures b >= 1.0 ==> r >= 1.0
  {
    if n == 0 then 1.0 else b * Pow(b, n - 1)
  }

  /** Dividing by a positive discount factor keeps the order of cash flows. */
  lemma DivideMonotone(a: real, b: real, d: real)
    requires a <= b && d > 0.0
    ensures a / d <= b / d
  {
    assert b / d - a / d == (b - a) / d;
  }

  /** Dividing a non-negative cash flow by a positive factor keeps it non-negative. */
  lemma DivideNonNegative(a: real, d: real)
    requires a >= 0.0 && d > 0.0
    ensures a / d >= 0.0
  {
  }

  /** Scaling a discounted amount scales the amount before discounting. */
  lemma ScaleDivide(k: real, a: real, d: real)
    requires d != 0.0
    ensures k * (a / d) == (k * a) / d
  {
  }

  /** Discounting distributes over a difference of cash flows. */
  lemma SubtractDivide(a: real, b: real, d: real)
    requires d != 0.0
    ensures a / d - b / d == (a - b) / d
  {
  }
}
