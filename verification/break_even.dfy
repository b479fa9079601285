/** The break-even finder of the comparison charts: the sampled point whose
    NPV is closest to zero, the first one on ties. */
module BreakEven {
  import opened Numeric

  /** `i` is the first position of a value of least magnitude in `ys`. */
  ghost predicate IsFirstClosestToZero(ys: seq<real>, i: int) {
    && 0 <= i < |ys|
    && (forall j :: 0 <= j < |ys| ==> Abs(ys[i]) <= Abs(ys[j]))
    && (forall j :: 0 <= j < i ==> Abs(ys[i]) < Abs(ys[j]))
  }

  /** There is only one first position of least magnitude. */
  lemma FirstClosestIsUnique(ys: seq<real>, i: int, k: int)
    requires IsFirstClosestToZero(ys, i) && IsFirstClosestToZero(ys, k)
    ensures i == k
  {
    assert Abs(ys[i]) == Abs(ys[k]);
  }

  /** The index of the first value of least magnitude, built up one value at a
      time: a later value replaces the best so far only when strictly smaller. */
  function ClosestIndex(ys: seq<real>): (i: nat)
    requires |ys| > 0
    ensures IsFirstClosestToZero(ys, i)
  {
    if |ys| == 1 then 0
    else
      var prefix := ys[..|ys| - 1];
      var best := ClosestIndex(prefix);
      assert forall j :: 0 <= j < |prefix| ==> prefix[j] == ys[j];
      if Abs(ys[|ys| - 1]) < Abs(ys[best]) then |ys| - 1 else best
  }

  /** The scan over `|y|` that picks the first smallest entry, as a loop. */
  method ArgMinAbs(ys: seq<real>) returns (idx: nat)
    requires |ys| > 0
    ensures IsFirstClosestToZero(ys, idx)
  {
    idx := 0;
    var j := 1;
    while j < |ys|
      invariant 1 <= j <= |ys|
      invariant idx < j
      invariant forall k :: 0 <= k < j ==> Abs(ys[idx]) <= Abs(ys[k])
      invariant forall k :: 0 <= k < idx ==> Abs(ys[idx]) < Abs(ys[k])
    {
      if Abs(ys[j]) < Abs(ys[idx]) {
        idx := j;
      }
      j := j + 1;
    }
  }

  /** The point of a sweep closest to break-even: the sampled input and its
      NPV at the first index of least |NPV|. The inputs must reach that index;
      an empty sweep has no such index. */
  function FindBreakEven<X>(xs: seq<X>, ys: seq<real>): (r: (X, real))
    requires |ys| > 0 && ClosestIndex(ys) < |xs|
    ensures exists i :: IsFirstClosestToZero(ys, i) && i < |xs| && r == (xs[i], ys[i])
    ensures r.0 in xs && r.1 in ys
    ensures forall j :: 0 <= j < |ys| ==> Abs(r.1) <= Abs(ys[j])
  {
    var i := ClosestIndex(ys);
    (xs[i], ys[i])
  }

  /** When a sampled NPV is exactly zero, the break-even point is the first
      such sample. */
  lemma ExactZeroIsFound<X>(xs: seq<X>, ys: seq<real>, k: nat)
    requires |ys| > 0 && ClosestIndex(ys) < |xs|
    requires k < |ys| && ys[k] == 0.0
    requires forall j :: 0 <= j < k ==> ys[j] != 0.0
    ensures k < |xs| && FindBreakEven(xs, ys) == (xs[k], 0.0)
  {
    var i := ClosestIndex(ys);
    assert Abs(ys[i]) <= Abs(ys[k]);
    assert ys[i] == 0.0;
    assert IsFirstClosestToZero(ys, k);
    FirstClosestIsUnique(ys, i, k);
  }

  /** When every NPV of the sweep is the same, the break-even point is the
      first sample. */
  lemma FlatSweepPicksFirst<X>(xs: seq<X>, ys: seq<real>)
    requires |ys| > 0 && |xs| > 0
    requires forall j :: 0 <= j < |ys| ==> ys[j] == ys[0]
    ensures ClosestIndex(ys) == 0
    ensures FindBreakEven(xs, ys) == (xs[0], ys[0])
  {
    assert IsFirstClosestToZero(ys, 0);
    FirstClosestIsUnique(ys, ClosestIndex(ys), 0);
  }
}
