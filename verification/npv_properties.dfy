/** What the NPV engine promises: invariants of the yearly fold, how the NPV
    responds to the premium, the riders and the policy horizon. */
module NpvProperties {
  import opened Mortality
  import opened Discount
  import opened Npv
  import opened Flows

  // ---------------------------------------------------------------------
  // Reference definitions: each component of the fold on its own
  // ---------------------------------------------------------------------

  /** Probability of being alive at the start of year `n + 1`: the product of
      `1 - p` over years 1 to `n`. It reads the insured person only. */
  function SurvivalTo(profile: Profile, n: nat): real {
    if n == 0 then 1.0 else Survive(SurvivalTo(profile, n - 1), DeathProbability(profile, n))
  }

  /** The discounted expected benefit of year `t`. */
  function BenefitStep(profile: Profile, policy: Policy, discountRate: real, t: nat): real
    requires ValidRate(discountRate) && t >= 1
  {
    ExpectedPayout(profile, policy, SurvivalTo(profile, t - 1), DeathProbability(profile, t), t)
    / DiscountFactor(discountRate, t)
  }

  /** The discounted premium of year `t`, zero outside the premium-paying period. */
  function PremiumStep(profile: Profile, policy: Policy, discountRate: real, t: nat): real
    requires ValidRate(discountRate)
  {
    if PremiumDue(policy, t) then EffectivePremium(profile, policy, t) / DiscountFactor(discountRate, t)
    else 0.0
  }

  /** The discounted expected benefits of years 1 to `n`, in order. */
  function BenefitFlows(profile: Profile, policy: Policy, discountRate: real, n: nat): (flows: seq<real>)
    requires ValidRate(discountRate)
    ensures |flows| == n
    ensures forall i :: 0 <= i < n ==> flows[i] == BenefitStep(profile, policy, discountRate, i + 1)
  {
    seq(n, i requires 0 <= i < n => BenefitStep(profile, policy, discountRate, i + 1))
  }

  /** The discounted premiums of years 1 to `n`, in order. */
  function PremiumFlows(profile: Profile, policy: Policy, discountRate: real, n: nat): (flows: seq<real>)
    requires ValidRate(discountRate)
    ensures |flows| == n
    ensures forall i :: 0 <= i < n ==> flows[i] == PremiumStep(profile, policy, discountRate, i + 1)
  {
    seq(n, i requires 0 <= i < n => PremiumStep(profile, policy, discountRate, i + 1))
  }

  /** Sum over years 1 to `n` of the discounted expected benefit. */
  function BenefitSum(profile: Profile, policy: Policy, discountRate: real, n: nat): real
    requires ValidRate(discountRate)
  {
    Total(BenefitFlows(profile, policy, discountRate, n))
  }

  /** Sum over the premium-paying years among 1 to `n` of the discounted
      premium after the waiver. */
  function PremiumSum(profile: Profile, policy: Policy, discountRate: real, n: nat): real
    requires ValidRate(discountRate)
  {
    Total(PremiumFlows(profile, policy, discountRate, n))
  }

  /** One more year appends one cash flow to each sequence. */
  lemma FlowsExtend(profile: Profile, policy: Policy, discountRate: real, n: nat)
    requires ValidRate(discountRate) && n >= 1
    ensures BenefitSum(profile, policy, discountRate, n)
            == BenefitSum(profile, policy, discountRate, n - 1) + BenefitStep(profile, policy, discountRate, n)
    ensures PremiumSum(profile, policy, discountRate, n)
            == PremiumSum(profile, policy, discountRate, n - 1) + PremiumStep(profile, policy, discountRate, n)
  {
    assert BenefitFlows(profile, policy, discountRate, n)
           == BenefitFlows(profile, policy, discountRate, n - 1) + [BenefitStep(profile, policy, discountRate, n)];
    assert PremiumFlows(profile, policy, discountRate, n)
           == PremiumFlows(profile, policy, discountRate, n - 1) + [PremiumStep(profile, policy, discountRate, n)];
    TotalAppend(BenefitFlows(profile, policy, discountRate, n - 1), BenefitStep(profile, policy, discountRate, n));
    TotalAppend(PremiumFlows(profile, policy, discountRate, n - 1), PremiumStep(profile, policy, discountRate, n));
  }

  /** The fold computes exactly the three reference quantities. */
  lemma {:induction false} ProjectIsSums(profile: Profile, policy: Policy, discountRate: real, n: nat)
    requires ValidRate(discountRate)
    ensures Project(profile, policy, discountRate, n)
            == YearState(SurvivalTo(profile, n),
                         BenefitSum(profile, policy, discountRate, n),
                         PremiumSum(profile, policy, discountRate, n))
  {
    if n > 0 {
      ProjectIsSums(profile, policy, discountRate, n - 1);
      FlowsExtend(profile, policy, discountRate, n);
    }
  }

  /** The NPV is the benefit sum less the premium sum over the horizon. */
  lemma NpvIsSums(profile: Profile, policy: Policy, discountRate: real)
    requires ValidRate(discountRate)
    ensures NetPresentValue(profile, policy, discountRate)
            == BenefitSum(profile, policy, discountRate, Horizon(policy))
               - PremiumSum(profile, policy, discountRate, Horizon(policy))
  {
    ProjectIsSums(profile, policy, discountRate, Horizon(policy));
  }

  // ---------------------------------------------------------------------
  // The survival probability
  // ---------------------------------------------------------------------

  lemma {:induction false} SurvivalToBounds(profile: Profile, n: nat)
    ensures 0.0 < SurvivalTo(profile, n) <= 1.0
  {
    if n > 0 {
      SurvivalToBounds(profile, n - 1);
      SurvivalFactorBounds(SurvivalTo(profile, n - 1), DeathProbability(profile, n));
    }
  }

  /** The survival probability starts at 1 and never increases from one
      simulated year to a later one. */
  lemma {:induction false} SurvivalNonIncreasing(profile: Profile, policy: Policy, discountRate: real,
                                                 m: nat, n: nat)
    requires ValidRate(discountRate) && m <= n
    ensures Project(profile, policy, discountRate, 0).survival == 1.0
    ensures Project(profile, policy, discountRate, n).survival
            <= Project(profile, policy, discountRate, m).survival
  {
    if m < n {
      SurvivalNonIncreasing(profile, policy, discountRate, m, n - 1);
    }
  }

  // ---------------------------------------------------------------------
  // One year's expected benefit
  // ---------------------------------------------------------------------

  lemma ProductNonNegative(a: real, b: real, c: real)
    requires a >= 0.0 && b >= 0.0 && c >= 0.0
    ensures a * b * c >= 0.0
  {
    assert a * b >= 0.0;
  }

  lemma ProductMonotone(a: real, b: real, c1: real, c2: real)
    requires a >= 0.0 && b >= 0.0 && c1 <= c2
    ensures a * b * c1 <= a * b * c2
  {
    assert a * b >= 0.0;
    assert a * b * c2 - a * b * c1 == a * b * (c2 - c1);
  }

  /** A year's expected benefit reads only the cover and the three benefit
      riders: the premium, the term, the policy type and the waiver do not
      enter it. */
  lemma ExpectedPayoutReadsBenefitTerms(profile: Profile, pa: Policy, pb: Policy, survival: real, pDeath: real, t: int)
    requires pa.cover == pb.cover
    requires pa.riders.accidental == pb.riders.accidental
    requires pa.riders.criticalIllness == pb.riders.criticalIllness
    requires pa.riders.disability == pb.riders.disability
    ensures ExpectedPayout(profile, pa, survival, pDeath, t) == ExpectedPayout(profile, pb, survival, pDeath, t)
  {
    assert Payout(pa) == Payout(pb);
  }

  /** A year's expected benefit is non-negative for a non-negative cover. */
  lemma ExpectedPayoutNonNegative(profile: Profile, policy: Policy, survival: real, pDeath: real, t: int)
    requires survival >= 0.0 && pDeath >= 0.0 && policy.cover >= 0.0
    ensures ExpectedPayout(profile, policy, survival, pDeath, t) >= 0.0
  {
    ProductNonNegative(survival, pDeath, Payout(policy));
    ProductNonNegative(survival, 0.10 * 0.3, policy.cover);
    ProductNonNegative(survival, 0.05 * 0.2, policy.cover);
  }

  /** `b` has every benefit rider of `a`, and the same waiver choice. */
  predicate RidersIncluded(a: Riders, b: Riders) {
    && (a.accidental ==> b.accidental)
    && (a.criticalIllness ==> b.criticalIllness)
    && (a.disability ==> b.disability)
    && a.waiver == b.waiver
  }

  /** Adding benefit riders never lowers a year's expected benefit. */
  lemma ExpectedPayoutMonotoneInRiders(profile: Profile, policy: Policy, a: Riders, b: Riders,
                                       survival: real, pDeath: real, t: int)
    requires RidersIncluded(a, b) && survival >= 0.0 && pDeath >= 0.0 && policy.cover >= 0.0
    ensures ExpectedPayout(profile, policy.(riders := a), survival, pDeath, t)
            <= ExpectedPayout(profile, policy.(riders := b), survival, pDeath, t)
  {
    var pa := policy.(riders := a);
    var pb := policy.(riders := b);
    ProductMonotone(survival, pDeath, Payout(pa), Payout(pb));
    ProductNonNegative(survival, 0.10 * 0.3, policy.cover);
    ProductNonNegative(survival, 0.05 * 0.2, policy.cover);
  }

  /** The disability rider adds 1% of the cover, weighted by survival, to a
      year's expected benefit while the attained age is below 60, and nothing
      from then on. */
  lemma DisabilityYearBenefit(profile: Profile, policy: Policy, survival: real, pDeath: real, t: int)
    ensures ExpectedPayout(profile, policy.(riders := policy.riders.(disability := true)), survival, pDeath, t)
            - ExpectedPayout(profile, policy.(riders := policy.riders.(disability := false)), survival, pDeath, t)
            == (if profile.age + t < 60 then survival * 0.01 * policy.cover else 0.0)
  {
  }

  /** The accidental rider raises the death benefit of every year by exactly
      half of what it is without the rider. */
  lemma AccidentalPaysHalfMore(policy: Policy)
    ensures Payout(policy.(riders := policy.riders.(accidental := true)))
            == 1.5 * Payout(policy.(riders := policy.riders.(accidental := false)))
  {
  }

  /** The critical-illness rider adds 3% of the cover (a 10% chance of a 30%
      payment), weighted by survival, to the expected benefit of every year,
      whatever the attained age. */
  lemma CriticalIllnessYearBenefit(profile: Profile, policy: Policy, survival: real, pDeath: real, t: int)
    ensures ExpectedPayout(profile, policy.(riders := policy.riders.(criticalIllness := true)), survival, pDeath, t)
            - ExpectedPayout(profile, policy.(riders := policy.riders.(criticalIllness := false)), survival, pDeath, t)
            == survival * 0.03 * policy.cover
  {
  }

  // ---------------------------------------------------------------------
  // The benefit sum
  // ---------------------------------------------------------------------

  /** Two policies whose years agree on the expected benefit have the same
      benefit sum. */
  lemma BenefitSumsAgree(profile: Profile, pa: Policy, pb: Policy, discountRate: real, n: nat)
    requires ValidRate(discountRate)
    requires forall survival: real, pDeath: real, t :: 1 <= t <= n ==>
               ExpectedPayout(profile, pa, survival, pDeath, t) == ExpectedPayout(profile, pb, survival, pDeath, t)
    ensures BenefitSum(profile, pa, discountRate, n) == BenefitSum(profile, pb, discountRate, n)
  {
    assert BenefitFlows(profile, pa, discountRate, n) == BenefitFlows(profile, pb, discountRate, n);
  }

  /** Policies with the same cover and benefit riders have the same benefit sum. */
  lemma BenefitSumReadsBenefitTerms(profile: Profile, pa: Policy, pb: Policy, discountRate: real, n: nat)
    requires ValidRate(discountRate)
    requires pa.cover == pb.cover
    requires pa.riders.accidental == pb.riders.accidental
    requires pa.riders.criticalIllness == pb.riders.criticalIllness
    requires pa.riders.disability == pb.riders.disability
    ensures BenefitSum(profile, pa, discountRate, n) == BenefitSum(profile, pb, discountRate, n)
  {
    forall survival: real, pDeath: real, t | 1 <= t <= n
      ensures ExpectedPayout(profile, pa, survival, pDeath, t) == ExpectedPayout(profile, pb, survival, pDeath, t)
    {
      ExpectedPayoutReadsBenefitTerms(profile, pa, pb, survival, pDeath, t);
    }
    BenefitSumsAgree(profile, pa, pb, discountRate, n);
  }

  /** If no year of `pa` expects more benefit than the same year of `pb`,
      neither does the discounted sum. */
  lemma BenefitSumDominated(profile: Profile, pa: Policy, pb: Policy, discountRate: real, n: nat)
    requires discountRate > -100.0
    requires forall survival: real, pDeath: real, t :: 1 <= t <= n && 0.0 <= survival && 0.0 <= pDeath ==>
               ExpectedPayout(profile, pa, survival, pDeath, t) <= ExpectedPayout(profile, pb, survival, pDeath, t)
    ensures BenefitSum(profile, pa, discountRate, n) <= BenefitSum(profile, pb, discountRate, n)
  {
    var fa := BenefitFlows(profile, pa, discountRate, n);
    var fb := BenefitFlows(profile, pb, discountRate, n);
    forall i | 0 <= i < n
      ensures fa[i] <= fb[i]
    {
      var s := SurvivalTo(profile, i);
      var p := DeathProbability(profile, i + 1);
      SurvivalToBounds(profile, i);
      DivideMonotone(ExpectedPayout(profile, pa, s, p, i + 1), ExpectedPayout(profile, pb, s, p, i + 1),
                     DiscountFactor(discountRate, i + 1));
    }
    TotalMonotone(fa, fb);
  }

  /** A non-negative cover gives a non-negative discounted benefit sum. */
  lemma BenefitSumNonNegative(profile: Profile, policy: Policy, discountRate: real, n: nat)
    requires discountRate > -100.0 && policy.cover >= 0.0
    ensures BenefitSum(profile, policy, discountRate, n) >= 0.0
  {
    var flows := BenefitFlows(profile, policy, discountRate, n);
    forall i | 0 <= i < n
      ensures flows[i] >= 0.0
    {
      var s := SurvivalTo(profile, i);
      var p := DeathProbability(profile, i + 1);
      SurvivalToBounds(profile, i);
      ExpectedPayoutNonNegative(profile, policy, s, p, i + 1);
      DivideNonNegative(ExpectedPayout(profile, policy, s, p, i + 1), DiscountFactor(discountRate, i + 1));
    }
    TotalNonNegative(flows);
  }

  // ---------------------------------------------------------------------
  // The premium sum
  // ---------------------------------------------------------------------

  /** Two policies whose years agree on the premium and on whether it is due
      have the same premium sum. */
  lemma PremiumSumsAgree(profile: Profile, pa: Policy, pb: Policy, discountRate: real, n: nat)
    requires ValidRate(discountRate)
    requires forall t :: 1 <= t <= n ==> PremiumDue(pa, t) == PremiumDue(pb, t)
    requires forall t :: 1 <= t <= n ==> EffectivePremium(profile, pa, t) == EffectivePremium(profile, pb, t)
    ensures PremiumSum(profile, pa, discountRate, n) == PremiumSum(profile, pb, discountRate, n)
  {
    assert PremiumFlows(profile, pa, discountRate, n) == PremiumFlows(profile, pb, discountRate, n);
  }

  /** If no year of `pb` charges more premium than the same year of `pa`,
      neither does the discounted sum. */
  lemma PremiumSumDominated(profile: Profile, pa: Policy, pb: Policy, discountRate: real, n: nat)
    requires discountRate > -100.0
    requires forall t :: 1 <= t <= n ==> PremiumDue(pa, t) == PremiumDue(pb, t)
    requires forall t :: 1 <= t <= n ==> EffectivePremium(profile, pb, t) <= EffectivePremium(profile, pa, t)
    ensures PremiumSum(profile, pb, discountRate, n) <= PremiumSum(profile, pa, discountRate, n)
  {
    var fa := PremiumFlows(profile, pa, discountRate, n);
    var fb := PremiumFlows(profile, pb, discountRate, n);
    forall i | 0 <= i < n
      ensures fb[i] <= fa[i]
    {
      assert PremiumDue(pa, i + 1) == PremiumDue(pb, i + 1);
      DivideMonotone(EffectivePremium(profile, pb, i + 1), EffectivePremium(profile, pa, i + 1),
                     DiscountFactor(discountRate, i + 1));
    }
    TotalMonotone(fb, fa);
  }

  lemma EffectivePremiumScales(profile: Profile, policy: Policy, t: int)
    ensures EffectivePremium(profile, policy, t)
            == policy.premium * EffectivePremium(profile, policy.(premium := 1.0), t)
  {
  }

  lemma PremiumStepScales(profile: Profile, policy: Policy, discountRate: real, t: nat)
    requires ValidRate(discountRate)
    ensures PremiumStep(profile, policy, discountRate, t)
            == policy.premium * PremiumStep(profile, policy.(premium := 1.0), discountRate, t)
  {
    EffectivePremiumScales(profile, policy, t);
    ScaleDivide(policy.premium, EffectivePremium(profile, policy.(premium := 1.0), t), DiscountFactor(discountRate, t));
  }

  /** The premium enters the premium sum linearly: the sum is the premium
      times the sum for a premium of 1. */
  lemma PremiumSumScales(profile: Profile, policy: Policy, discountRate: real, n: nat)
    requires ValidRate(discountRate)
    ensures PremiumSum(profile, policy, discountRate, n)
            == policy.premium * PremiumSum(profile, policy.(premium := 1.0), discountRate, n)
  {
    PremiumFlowsScale(profile, policy, discountRate, n);
    TotalScales(PremiumFlows(profile, policy, discountRate, n),
                PremiumFlows(profile, policy.(premium := 1.0), discountRate, n), policy.premium);
  }

  lemma PremiumFlowsScale(profile: Profile, policy: Policy, discountRate: real, n: nat)
    requires ValidRate(discountRate)
    ensures ScaledBy(PremiumFlows(profile, policy, discountRate, n),
                     PremiumFlows(profile, policy.(premium := 1.0), discountRate, n), policy.premium)
  {
    forall i | 0 <= i < n
      ensures PremiumFlows(profile, policy, discountRate, n)[i]
              == policy.premium * PremiumFlows(profile, policy.(premium := 1.0), discountRate, n)[i]
    {
      PremiumStepScales(profile, policy, discountRate, i + 1);
    }
  }

  /** A non-negative premium gives a non-negative discounted premium sum. */
  lemma PremiumSumNonNegative(profile: Profile, policy: Policy, discountRate: real, n: nat)
    requires discountRate > -100.0 && policy.premium >= 0.0
    ensures PremiumSum(profile, policy, discountRate, n) >= 0.0
  {
    var flows := PremiumFlows(profile, policy, discountRate, n);
    forall i | 0 <= i < n
      ensures flows[i] >= 0.0
    {
      DivideNonNegative(EffectivePremium(profile, policy, i + 1), DiscountFactor(discountRate, i + 1));
    }
    TotalNonNegative(flows);
  }

  // ---------------------------------------------------------------------
  // The NPV and the premium
  // ---------------------------------------------------------------------

  /** Present value of paying 1 a year over the premium period, after the waiver. */
  function PremiumAnnuity(profile: Profile, policy: Policy, discountRate: real): real
    requires ValidRate(discountRate)
  {
    PremiumSum(profile, policy.(premium := 1.0), discountRate, Horizon(policy))
  }

  /** Over the horizon, the discounted premiums are the premium times the annuity. */
  lemma PremiumSumIsAnnuity(profile: Profile, policy: Policy, discountRate: real)
    requires ValidRate(discountRate)
    ensures PremiumSum(profile, policy, discountRate, Horizon(policy))
            == policy.premium * PremiumAnnuity(profile, policy, discountRate)
  {
    PremiumSumScales(profile, policy, discountRate, Horizon(policy));
  }

  /** The annuity factor is non-negative whenever the discount rate is above -100%. */
  lemma PremiumAnnuityNonNegative(profile: Profile, policy: Policy, discountRate: real)
    requires discountRate > -100.0
    ensures PremiumAnnuity(profile, policy, discountRate) >= 0.0
  {
    PremiumSumNonNegative(profile, policy.(premium := 1.0), discountRate, Horizon(policy));
  }

  /** The NPV of the same policy without premium is its benefit sum alone. */
  lemma FreeNpvIsBenefitSum(profile: Profile, policy: Policy, discountRate: real)
    requires ValidRate(discountRate)
    ensures NetPresentValue(profile, policy.(premium := 0.0), discountRate)
            == BenefitSum(profile, policy, discountRate, Horizon(policy))
  {
    var free := policy.(premium := 0.0);
    assert Horizon(free) == Horizon(policy);
    NpvIsSums(profile, free, discountRate);
    BenefitSumReadsBenefitTerms(profile, policy, free, discountRate, Horizon(policy));
    PremiumSumScales(profile, free, discountRate, Horizon(policy));
  }

  /** The NPV is the benefit sum less the premium times the annuity. */
  lemma NpvIsBenefitsLessAnnuity(profile: Profile, policy: Policy, discountRate: real)
    requires ValidRate(discountRate)
    ensures NetPresentValue(profile, policy, discountRate)
            == BenefitSum(profile, policy, discountRate, Horizon(policy))
               - policy.premium * PremiumAnnuity(profile, policy, discountRate)
  {
    NpvIsSums(profile, policy, discountRate);
    PremiumSumIsAnnuity(profile, policy, discountRate);
  }

  /** The NPV is an affine function of the premium: the zero-premium NPV less
      the premium times an annuity factor, which is non-negative whenever the
      discount rate is above -100%. */
  lemma NpvAffineInPremium(profile: Profile, policy: Policy, discountRate: real)
    requires ValidRate(discountRate)
    ensures NetPresentValue(profile, policy, discountRate)
            == NetPresentValue(profile, policy.(premium := 0.0), discountRate)
               - policy.premium * PremiumAnnuity(profile, policy, discountRate)
    ensures discountRate > -100.0 ==> PremiumAnnuity(profile, policy, discountRate) >= 0.0
  {
    FreeNpvIsBenefitSum(profile, policy, discountRate);
    NpvIsBenefitsLessAnnuity(profile, policy, discountRate);
    if discountRate > -100.0 {
      PremiumAnnuityNonNegative(profile, policy, discountRate);
    }
  }

  /** With a discount rate above -100%, raising the premium never raises the NPV. */
  lemma NpvNonIncreasingInPremium(profile: Profile, policy: Policy, discountRate: real, p1: real, p2: real)
    requires discountRate > -100.0 && p1 <= p2
    ensures NetPresentValue(profile, policy.(premium := p2), discountRate)
            <= NetPresentValue(profile, policy.(premium := p1), discountRate)
  {
    NpvIsBenefitsLessAnnuity(profile, policy.(premium := p1), discountRate);
    NpvIsBenefitsLessAnnuity(profile, policy.(premium := p2), discountRate);
    PremiumLineDescends(profile, policy, discountRate, p1, p2);
  }

  /** The benefit sum less the premium times the annuity is smaller for the
      larger premium; both sides are written for the re-priced policies in
      the form `NpvIsBenefitsLessAnnuity` gives them. */
  lemma PremiumLineDescends(profile: Profile, policy: Policy, discountRate: real, p1: real, p2: real)
    requires discountRate > -100.0 && p1 <= p2
    ensures BenefitSum(profile, policy.(premium := p2), discountRate, Horizon(policy.(premium := p2)))
            - policy.(premium := p2).premium * PremiumAnnuity(profile, policy.(premium := p2), discountRate)
            <= BenefitSum(profile, policy.(premium := p1), discountRate, Horizon(policy.(premium := p1)))
               - policy.(premium := p1).premium * PremiumAnnuity(profile, policy.(premium := p1), discountRate)
  {
    var q1, q2 := policy.(premium := p1), policy.(premium := p2);
    var n := Horizon(policy);
    assert Horizon(q1) == n && Horizon(q2) == n;
    BenefitSumReadsBenefitTerms(profile, q2, q1, discountRate, n);
    AnnuityIgnoresPremium(profile, policy, discountRate, p1);
    AnnuityIgnoresPremium(profile, policy, discountRate, p2);
    PremiumAnnuityNonNegative(profile, policy, discountRate);
    AffineOrder(BenefitSum(profile, q1, discountRate, n) - p1 * PremiumAnnuity(profile, policy, discountRate),
                BenefitSum(profile, q2, discountRate, n) - p2 * PremiumAnnuity(profile, policy, discountRate),
                BenefitSum(profile, q1, discountRate, n), PremiumAnnuity(profile, policy, discountRate), p1, p2);
  }

  /** Two points of one line with a non-negative slope of descent. */
  lemma AffineOrder(v1: real, v2: real, free: real, a: real, p1: real, p2: real)
    requires v1 == free - p1 * a && v2 == free - p2 * a && 0.0 <= a && p1 <= p2
    ensures v2 <= v1
  {
    assert p1 * a <= p2 * a;
  }

  /** The annuity factor reads everything but the premium. */
  lemma AnnuityIgnoresPremium(profile: Profile, policy: Policy, discountRate: real, p: real)
    requires ValidRate(discountRate)
    ensures PremiumAnnuity(profile, policy.(premium := p), discountRate)
            == PremiumAnnuity(profile, policy, discountRate)
  {
    assert policy.(premium := p).(premium := 1.0) == policy.(premium := 1.0);
  }

  /** A free policy with non-negative cover has a non-negative NPV. */
  lemma FreePolicyNonNegative(profile: Profile, policy: Policy, discountRate: real)
    requires discountRate > -100.0 && policy.cover >= 0.0 && policy.premium == 0.0
    ensures NetPresentValue(profile, policy, discountRate) >= 0.0
  {
    var n := Horizon(policy);
    NpvIsSums(profile, policy, discountRate);
    BenefitSumNonNegative(profile, policy, discountRate, n);
    PremiumSumScales(profile, policy, discountRate, n);
  }

  // ---------------------------------------------------------------------
  // Riders
  // ---------------------------------------------------------------------

  /** With a non-negative cover, adding the accidental, critical-illness or
      disability rider never lowers the NPV. */
  lemma RidersNeverLowerNpv(profile: Profile, policy: Policy, a: Riders, b: Riders, discountRate: real)
    requires discountRate > -100.0 && policy.cover >= 0.0 && RidersIncluded(a, b)
    ensures NetPresentValue(profile, policy.(riders := a), discountRate)
            <= NetPresentValue(profile, policy.(riders := b), discountRate)
  {
    var pa := policy.(riders := a);
    var pb := policy.(riders := b);
    var n := Horizon(policy);
    forall survival: real, pDeath: real, t | 1 <= t <= n && 0.0 <= survival && 0.0 <= pDeath
      ensures ExpectedPayout(profile, pa, survival, pDeath, t) <= ExpectedPayout(profile, pb, survival, pDeath, t)
    {
      ExpectedPayoutMonotoneInRiders(profile, policy, a, b, survival, pDeath, t);
    }
    BenefitSumDominated(profile, pa, pb, discountRate, n);
    PremiumSumsAgree(profile, pa, pb, discountRate, n);
    NpvIsSums(profile, pa, discountRate);
    NpvIsSums(profile, pb, discountRate);
  }

  /** From age 59 the disability rider never pays (every simulated year has
      attained age at least 60), so it leaves the NPV unchanged. */
  lemma DisabilityInertFromAge59(profile: Profile, policy: Policy, discountRate: real)
    requires ValidRate(discountRate) && profile.age >= 59
    ensures NetPresentValue(profile, policy.(riders := policy.riders.(disability := true)), discountRate)
            == NetPresentValue(profile, policy.(riders := policy.riders.(disability := false)), discountRate)
  {
    var pa := policy.(riders := policy.riders.(disability := true));
    var pb := policy.(riders := policy.riders.(disability := false));
    var n := Horizon(policy);
    BenefitSumsAgree(profile, pa, pb, discountRate, n);
    PremiumSumsAgree(profile, pa, pb, discountRate, n);
    NpvIsSums(profile, pa, discountRate);
    NpvIsSums(profile, pb, discountRate);
  }

  // ---------------------------------------------------------------------
  // Waiver of premium
  // ---------------------------------------------------------------------

  /** The waiver changes a year's premium exactly in the years after the
      10-year vesting period in which the insured is younger than 55, and
      only when the premium is not already zero; without it every year pays
      the nominal premium. */
  lemma WaiverChangesOnlyVestedYoungYears(profile: Profile, policy: Policy, t: int)
    ensures EffectivePremium(profile, policy.(riders := policy.riders.(waiver := true)), t)
            != EffectivePremium(profile, policy.(riders := policy.riders.(waiver := false)), t)
            <==> t > 10 && profile.age + t < 55 && policy.premium != 0.0
    ensures EffectivePremium(profile, policy.(riders := policy.riders.(waiver := false)), t) == policy.premium
  {
  }

  /** With a non-negative premium and a discount rate above -100%, taking the
      waiver rider never lowers the NPV. */
  lemma WaiverNeverLowersNpv(profile: Profile, policy: Policy, discountRate: real)
    requires discountRate > -100.0 && policy.premium >= 0.0
    ensures NetPresentValue(profile, policy.(riders := policy.riders.(waiver := false)), discountRate)
            <= NetPresentValue(profile, policy.(riders := policy.riders.(waiver := true)), discountRate)
  {
    var pa := policy.(riders := policy.riders.(waiver := false));
    var pb := policy.(riders := policy.riders.(waiver := true));
    var n := Horizon(policy);
    BenefitSumReadsBenefitTerms(profile, pa, pb, discountRate, n);
    PremiumSumDominated(profile, pa, pb, discountRate, n);
    NpvIsSums(profile, pa, discountRate);
    NpvIsSums(profile, pb, discountRate);
  }

  /** From age 44 the waiver never applies (after 10 years the insured is at
      least 55), so it leaves the NPV unchanged. */
  lemma WaiverInertFromAge44(profile: Profile, policy: Policy, discountRate: real)
    requires ValidRate(discountRate) && profile.age >= 44
    ensures NetPresentValue(profile, policy.(riders := policy.riders.(waiver := true)), discountRate)
            == NetPresentValue(profile, policy.(riders := policy.riders.(waiver := false)), discountRate)
  {
    var pa := policy.(riders := policy.riders.(waiver := true));
    var pb := policy.(riders := policy.riders.(waiver := false));
    var n := Horizon(policy);
    BenefitSumReadsBenefitTerms(profile, pa, pb, discountRate, n);
    PremiumSumsAgree(profile, pa, pb, discountRate, n);
    NpvIsSums(profile, pa, discountRate);
    NpvIsSums(profile, pb, discountRate);
  }

  // ---------------------------------------------------------------------
  // The horizon and the premium-paying period
  // ---------------------------------------------------------------------

  /** Whole Life premiums stop after year 60: later years add benefits only. */
  lemma {:induction false} WholeLifePremiumsStopAfterSixty(profile: Profile, policy: Policy, discountRate: real, n: nat)
    requires ValidRate(discountRate) && policy.kind == WholeLife && 60 <= n
    ensures Project(profile, policy, discountRate, n).pvPremium
            == Project(profile, policy, discountRate, 60).pvPremium
  {
    if n > 60 {
      WholeLifePremiumsStopAfterSixty(profile, policy, discountRate, n - 1);
      ProjectIsSums(profile, policy, discountRate, n);
      ProjectIsSums(profile, policy, discountRate, n - 1);
      FlowsExtend(profile, policy, discountRate, n);
    }
  }

  /** The term has no effect on a Whole Life policy: it always runs the same
      100 years with the same 60 premium years. */
  lemma WholeLifeIgnoresTerm(profile: Profile, policy: Policy, discountRate: real, term: int)
    requires ValidRate(discountRate) && policy.kind == WholeLife
    ensures NetPresentValue(profile, policy.(term := term), discountRate)
            == NetPresentValue(profile, policy, discountRate)
  {
    var other := policy.(term := term);
    BenefitSumReadsBenefitTerms(profile, other, policy, discountRate, WholeLifeHorizon);
    PremiumSumsAgree(profile, other, policy, discountRate, WholeLifeHorizon);
    NpvIsSums(profile, other, discountRate);
    NpvIsSums(profile, policy, discountRate);
  }

  /** Lengthening a Term policy by one year runs exactly one more year of the
      loop, and that year pays a premium: the NPV grows by the year's
      discounted expected benefit less its discounted premium. */
  lemma TermExtensionAddsOneYear(profile: Profile, policy: Policy, discountRate: real, term: nat)
    requires ValidRate(discountRate) && policy.kind == TermInsurance
    ensures DiscountFactor(discountRate, term + 1) != 0.0
    ensures NetPresentValue(profile, policy.(term := term + 1), discountRate)
            == NetPresentValue(profile, policy.(term := term), discountRate)
               + (ExpectedPayout(profile, policy, SurvivalTo(profile, term), DeathProbability(profile, term + 1), term + 1)
                  - EffectivePremium(profile, policy, term + 1)) / DiscountFactor(discountRate, term + 1)
  {
    NpvIsSums(profile, policy.(term := term + 1), discountRate);
    NpvIsSums(profile, policy.(term := term), discountRate);
    LongerTermSums(profile, policy, discountRate, term);
    LastYearOfLongerTerm(profile, policy, discountRate, term);
  }

  /** Over the first `term` years a Term policy one year longer has the same
      cash flows, and its sums gain one more year. */
  lemma LongerTermSums(profile: Profile, policy: Policy, discountRate: real, term: nat)
    requires ValidRate(discountRate) && policy.kind == TermInsurance
    ensures BenefitSum(profile, policy.(term := term + 1), discountRate, term + 1)
            == BenefitSum(profile, policy.(term := term), discountRate, term)
               + BenefitStep(profile, policy.(term := term + 1), discountRate, term + 1)
    ensures PremiumSum(profile, policy.(term := term + 1), discountRate, term + 1)
            == PremiumSum(profile, policy.(term := term), discountRate, term)
               + PremiumStep(profile, policy.(term := term + 1), discountRate, term + 1)
  {
    var short := policy.(term := term);
    var long := policy.(term := term + 1);
    BenefitSumReadsBenefitTerms(profile, long, short, discountRate, term);
    PremiumSumsAgree(profile, long, short, discountRate, term);
    FlowsExtend(profile, long, discountRate, term + 1);
  }

  /** The extra year of the longer Term policy pays its expected benefit and
      collects its premium, both discounted. */
  lemma LastYearOfLongerTerm(profile: Profile, policy: Policy, discountRate: real, term: nat)
    requires ValidRate(discountRate) && policy.kind == TermInsurance
    ensures DiscountFactor(discountRate, term + 1) != 0.0
    ensures BenefitStep(profile, policy.(term := term + 1), discountRate, term + 1)
            - PremiumStep(profile, policy.(term := term + 1), discountRate, term + 1)
            == (ExpectedPayout(profile, policy, SurvivalTo(profile, term), DeathProbability(profile, term + 1), term + 1)
                - EffectivePremium(profile, policy, term + 1)) / DiscountFactor(discountRate, term + 1)
  {
    var long := policy.(term := term + 1);
    var d := DiscountFactor(discountRate, term + 1);
    var e := ExpectedPayout(profile, policy, SurvivalTo(profile, term), DeathProbability(profile, term + 1), term + 1);
    ExpectedPayoutReadsBenefitTerms(profile, long, policy, SurvivalTo(profile, term), DeathProbability(profile, term + 1), term + 1);
    assert PremiumDue(long, term + 1);
    assert EffectivePremium(profile, long, term + 1) == EffectivePremium(profile, policy, term + 1);
    SubtractDivide(e, EffectivePremium(profile, policy, term + 1), d);
  }
}
