/** The protection-utility score shown next to each policy's NPV: the cover,
    weighted by the number of people who depend on it, shrunk by how far the
    NPV is from zero. */
module Utility {
  import opened Numeric

  /** Dependents weight the cover; a household with nobody dependent still
      counts as one. */
  function DependentWeight(dependents: int): (w: int)
    ensures w >= 1
    ensures dependents >= 1 ==> w == dependents
  {
    Max(dependents, 1)
  }

  /** The full protection value: what the score is when the NPV is exactly zero. */
  function Protection(cover: real, dependents: int): real {
    cover * DependentWeight(dependents) as real
  }

  /** `cover * max(dependents, 1) / (|npv| + 1)`. The divisor is at least 1, so
      the score exists for every NPV; multiplying it back by the divisor gives
      the full protection value, and for a non-negative cover it lies between
      0 and that value, reaching it exactly at a zero NPV. */
  function Score(cover: real, dependents: int, npv: real): (u: real)
    ensures u * (Abs(npv) + 1.0) == Protection(cover, dependents)
    ensures cover >= 0.0 ==> 0.0 <= u <= Protection(cover, dependents)
    ensures npv == 0.0 ==> u == Protection(cover, dependents)
  {
    var full := Protection(cover, dependents);
    var divisor := Abs(npv) + 1.0;
    assert cover >= 0.0 ==> 0.0 <= full / divisor <= full by {
      if cover >= 0.0 {
        ShrinkByDivisor(full, divisor);
      }
    }
    full / divisor
  }

  lemma ShrinkByDivisor(x: real, d: real)
    requires x >= 0.0 && d >= 1.0
    ensures 0.0 <= x / d <= x
  {
    assert x / d * d == x;
    assert x - x / d == (x / d) * (d - 1.0);
  }

  /** Dividing a non-negative amount by a larger divisor gives less. */
  lemma LargerDivisorShrinks(x: real, d1: real, d2: real)
    requires x >= 0.0 && 1.0 <= d1 <= d2
    ensures x / d2 <= x / d1
  {
    assert x / d1 - x / d2 == x * (d2 - d1) / (d1 * d2);
  }

  /** The score only sees the size of the NPV, not its sign: a gain and a loss
      of the same size score the same. */
  lemma ScoreIgnoresSign(cover: real, dependents: int, npv: real)
    ensures Score(cover, dependents, -npv) == Score(cover, dependents, npv)
  {
  }

  /** For a non-negative cover, the further the NPV is from zero, the lower the
      score. */
  lemma ScoreNonIncreasingInDistance(cover: real, dependents: int, npv1: real, npv2: real)
    requires cover >= 0.0 && Abs(npv1) <= Abs(npv2)
    ensures Score(cover, dependents, npv2) <= Score(cover, dependents, npv1)
  {
    var full := Protection(cover, dependents);
    assert full >= 0.0;
    LargerDivisorShrinks(full, Abs(npv1) + 1.0, Abs(npv2) + 1.0);
  }

  /** Having no dependents scores the same as having exactly one. */
  lemma NoDependentsCountAsOne(cover: real, dependents: int, npv: real)
    requires dependents <= 1
    ensures Score(cover, dependents, npv) == Score(cover, 1, npv)
  {
  }
}
