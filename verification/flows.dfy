/** Sums of yearly cash-flow sequences, the shape of both running sums of
    the NPV loop. */
module Flows {

  /** Running sum of a sequence of cash flows, accumulated from the first year on. */
  function Accumulate(flows: seq<real>): real {
    if |flows| == 0 then 0.0 else Accumulate(flows[..|flows| - 1]) + flows[|flows| - 1]
  }

  /** Sum of a sequence of cash flows; the discounted benefits and the
      discounted premiums of the NPV are each such a total. */
  function Total(flows: seq<real>): real {
    Accumulate(flows)
  }

  /** Appending one year's cash flow adds it to the sum. */
  lemma TotalAppend(flows: seq<real>, x: real)
    ensures Total(flows + [x]) == Total(flows) + x
  {
    assert (flows + [x])[..|flows|] == flows;
  }

  lemma ScaledSum(k: real, a: real, b: real, scaledA: real, scaledB: real)
    requires scaledA == k * a && scaledB == k * b
    ensures scaledA + scaledB == k * (a + b)
  {
  }

  /** Each cash flow of `flows` is `k` times the one of `unitFlows` in the same year. */
  predicate ScaledBy(flows: seq<real>, unitFlows: seq<real>, k: real) {
    && |flows| == |unitFlows|
    && forall i :: 0 <= i < |flows| ==> flows[i] == k * unitFlows[i]
  }

  /** Scaling every cash flow by `k` scales their sum by `k`. */
  lemma {:induction false} TotalScales(flows: seq<real>, unitFlows: seq<real>, k: real)
    requires ScaledBy(flows, unitFlows, k)
    ensures Total(flows) == k * Total(unitFlows)
  {
    if |flows| > 0 {
      var m := |flows| - 1;
      assert ScaledBy(flows[..m], unitFlows[..m], k) by {
        forall i | 0 <= i < m
          ensures flows[..m][i] == k * unitFlows[..m][i]
        {
          assert flows[..m][i] == flows[i] && unitFlows[..m][i] == unitFlows[i];
        }
      }
      TotalScales(flows[..m], unitFlows[..m], k);
      ScaledSum(k, Total(unitFlows[..m]), unitFlows[m], Total(flows[..m]), flows[m]);
    }
  }

  /** A year-by-year smaller sequence of cash flows has a smaller sum. */
  lemma {:induction false} TotalMonotone(smaller: seq<real>, larger: seq<real>)
    requires |smaller| == |larger|
    requires forall i :: 0 <= i < |smaller| ==> smaller[i] <= larger[i]
    ensures Total(smaller) <= Total(larger)
  {
    if |smaller| > 0 {
      var m := |smaller| - 1;
      TotalMonotone(smaller[..m], larger[..m]);
    }
  }

  /** Non-negative cash flows have a non-negative sum. */
  lemma {:induction false} TotalNonNegative(flows: seq<real>)
    requires forall i :: 0 <= i < |flows| ==> flows[i] >= 0.0
    ensures Total(flows) >= 0.0
  {
    if |flows| > 0 {
      TotalNonNegative(flows[..|flows| - 1]);
    }
  }
}
