/** The three comparison charts: the NPV of one policy recomputed over a range
    of terms, of premiums or of discount rates, with the point of the range
    closest to break-even. The ranges are given as sampled sequences. */
module Sweeps {
  import opened Numeric
  import opened Npv
  import opened NpvProperties
  import opened BreakEven

  /** One chart: the sampled inputs and the NPV at each. */
  datatype Sweep<X> = Sweep(inputs: seq<X>, npvs: seq<real>)

  /** The point of a chart marked as break-even: the first sampled input of
      least |NPV|, with that NPV. */
  function BreakEvenPoint<X>(s: Sweep<X>): (r: (X, real))
    requires 0 < |s.npvs| == |s.inputs|
    ensures exists i :: IsFirstClosestToZero(s.npvs, i) && r == (s.inputs[i], s.npvs[i])
  {
    FindBreakEven(s.inputs, s.npvs)
  }

  /** NPV against the policy term, every other input held fixed. */
  function TermSweep(profile: Profile, policy: Policy, discountRate: real, terms: seq<int>): (s: Sweep<int>)
    requires ValidRate(discountRate)
    ensures s.inputs == terms && |s.npvs| == |terms|
    ensures forall i :: 0 <= i < |terms| ==>
              s.npvs[i] == NetPresentValue(profile, policy.(term := terms[i]), discountRate)
  {
    var npvs := seq(|terms|, i requires 0 <= i < |terms| => NetPresentValue(profile, policy.(term := terms[i]), discountRate));
    Sweep(terms, npvs)
  }

  /** NPV against the annual premium, every other input held fixed. */
  function PremiumSweep(profile: Profile, policy: Policy, discountRate: real, premiums: seq<real>): (s: Sweep<real>)
    requires ValidRate(discountRate)
    ensures s.inputs == premiums && |s.npvs| == |premiums|
    ensures forall i :: 0 <= i < |premiums| ==>
              s.npvs[i] == NetPresentValue(profile, policy.(premium := premiums[i]), discountRate)
  {
    var npvs := seq(|premiums|, i requires 0 <= i < |premiums| => NetPresentValue(profile, policy.(premium := premiums[i]), discountRate));
    Sweep(premiums, npvs)
  }

  /** NPV against the discount rate, every other input held fixed. */
  function RateSweep(profile: Profile, policy: Policy, rates: seq<real>): (s: Sweep<real>)
    requires forall i :: 0 <= i < |rates| ==> ValidRate(rates[i])
    ensures s.inputs == rates && |s.npvs| == |rates|
    ensures forall i :: 0 <= i < |rates| ==> s.npvs[i] == NetPresentValue(profile, policy, rates[i])
  {
    var npvs := seq(|rates|, i requires 0 <= i < |rates| => NetPresentValue(profile, policy, rates[i]));
    Sweep(rates, npvs)
  }

  /** Along an ascending premium range (discount rate above -100%) the NPV
      never rises. */
  lemma PremiumSweepDescends(profile: Profile, policy: Policy, discountRate: real, premiums: seq<real>)
    requires discountRate > -100.0
    requires forall i, j :: 0 <= i < j < |premiums| ==> premiums[i] <= premiums[j]
    ensures var s := PremiumSweep(profile, policy, discountRate, premiums);
            forall i, j :: 0 <= i < j < |premiums| ==> s.npvs[j] <= s.npvs[i]
  {
    var s := PremiumSweep(profile, policy, discountRate, premiums);
    forall i, j | 0 <= i < j < |premiums|
      ensures s.npvs[j] <= s.npvs[i]
    {
      NpvNonIncreasingInPremium(profile, policy, discountRate, premiums[i], premiums[j]);
    }
  }

  /** Every point of a premium chart lies on one line: the zero-premium NPV
      less the premium times an annuity factor shared by the whole chart. */
  lemma PremiumSweepIsLinear(profile: Profile, policy: Policy, discountRate: real, premiums: seq<real>)
    requires ValidRate(discountRate)
    ensures var s := PremiumSweep(profile, policy, discountRate, premiums);
            forall i :: 0 <= i < |premiums| ==>
              s.npvs[i] == NetPresentValue(profile, policy.(premium := 0.0), discountRate)
                           - premiums[i] * PremiumAnnuity(profile, policy, discountRate)
  {
    var s := PremiumSweep(profile, policy, discountRate, premiums);
    forall i | 0 <= i < |premiums|
      ensures s.npvs[i] == NetPresentValue(profile, policy.(premium := 0.0), discountRate)
                           - premiums[i] * PremiumAnnuity(profile, policy, discountRate)
    {
      PointOnPremiumLine(profile, policy, discountRate, premiums[i]);
    }
  }

  lemma PointOnPremiumLine(profile: Profile, policy: Policy, discountRate: real, premium: real)
    requires ValidRate(discountRate)
    ensures NetPresentValue(profile, policy.(premium := premium), discountRate)
            == NetPresentValue(profile, policy.(premium := 0.0), discountRate)
               - premium * PremiumAnnuity(profile, policy, discountRate)
  {
    var p := policy.(premium := premium);
    NpvAffineInPremium(profile, p, discountRate);
    assert p.(premium := 0.0) == policy.(premium := 0.0);
    assert p.(premium := 1.0) == policy.(premium := 1.0);
  }

  /** A Whole Life policy ignores the term, so its term chart is flat and its
      break-even point is the first sampled term. */
  lemma WholeLifeTermSweepIsFlat(profile: Profile, policy: Policy, discountRate: real, terms: seq<int>)
    requires ValidRate(discountRate) && policy.kind == WholeLife && |terms| > 0
    ensures var s := TermSweep(profile, policy, discountRate, terms);
            (forall i :: 0 <= i < |terms| ==> s.npvs[i] == NetPresentValue(profile, policy, discountRate))
            && BreakEvenPoint(s) == (terms[0], NetPresentValue(profile, policy, discountRate))
  {
    var s := TermSweep(profile, policy, discountRate, terms);
    forall i | 0 <= i < |terms|
      ensures s.npvs[i] == NetPresentValue(profile, policy, discountRate)
    {
      WholeLifeIgnoresTerm(profile, policy, discountRate, terms[i]);
    }
    FlatSweepPicksFirst(terms, s.npvs);
  }

  /** On a Term policy, two neighbouring sampled terms one year apart differ by
      exactly the extra year's discounted expected benefit less its discounted
      premium. */
  lemma TermSweepStep(profile: Profile, policy: Policy, discountRate: real, terms: seq<int>, i: nat)
    requires ValidRate(discountRate) && policy.kind == TermInsurance
    requires i + 1 < |terms| && terms[i] >= 0 && terms[i + 1] == terms[i] + 1
    ensures DiscountFactor(discountRate, terms[i + 1]) != 0.0
    ensures var s := TermSweep(profile, policy, discountRate, terms);
            s.npvs[i + 1] == s.npvs[i]
              + (ExpectedPayout(profile, policy, SurvivalTo(profile, terms[i]), DeathProbability(profile, terms[i + 1]), terms[i + 1])
                 - EffectivePremium(profile, policy, terms[i + 1])) / DiscountFactor(discountRate, terms[i + 1])
  {
    TermExtensionAddsOneYear(profile, policy, discountRate, terms[i]);
  }

  /** A free policy with non-negative cover is worth at least zero at every
      sampled rate above -100%, so its break-even NPV is non-negative too. */
  lemma FreePolicyRateSweepNonNegative(profile: Profile, policy: Policy, rates: seq<real>)
    requires |rates| > 0 && forall i :: 0 <= i < |rates| ==> rates[i] > -100.0
    requires policy.cover >= 0.0 && policy.premium == 0.0
    ensures var s := RateSweep(profile, policy, rates);
            (forall i :: 0 <= i < |rates| ==> s.npvs[i] >= 0.0) && BreakEvenPoint(s).1 >= 0.0
  {
    var s := RateSweep(profile, policy, rates);
    forall i | 0 <= i < |rates|
      ensures s.npvs[i] >= 0.0
    {
      FreePolicyNonNegative(profile, policy, rates[i]);
    }
  }
}
