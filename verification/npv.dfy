/** The NPV engine: a year-by-year fold that carries the survival probability
    and the discounted expected-benefit and premium sums of one policy. */
module Npv {
  import opened Mortality
  import opened Discount

  datatype PolicyType = TermInsurance | WholeLife

  /** The four optional riders of a policy. */
  datatype Riders = Riders(accidental: bool, criticalIllness: bool, disability: bool, waiver: bool)

  /** The insured person; `dependents` only feeds the utility score. */
  datatype Profile = Profile(age: int, gender: Gender, smoker: bool, health: Health, dependents: int)

  datatype Policy = Policy(kind: PolicyType, term: int, cover: real, premium: real, riders: Riders)

  /** The loop state after some number of simulated years. */
  datatype YearState = YearState(survival: real, pvBenefit: real, pvPremium: real)

  const WholeLifeHorizon: nat := 100
  const WholeLifePremiumYears: nat := 60

  /** The only discount rate the engine cannot handle: it makes `1 + r` zero. */
  predicate ValidRate(discountRate: real) {
    discountRate != -100.0
  }

  /** The discount factor `(1 + r) ** t` of year `t` for a percentage
      discount rate `r`; it is non-zero for every rate the engine accepts. */
  function DiscountFactor(discountRate: real, t: nat): (d: real)
    ensures ValidRate(discountRate) ==> d != 0.0
    ensures discountRate > -100.0 ==> d > 0.0
  {
    Pow(1.0 + discountRate / 100.0, t)
  }

  /** The effective death probability of projection year `t`: the clamped base
      hazard times the risk multiplier, so it can exceed the 0.25 clamp. */
  function DeathProbability(profile: Profile, t: int): (p: real)
    ensures 0.0015 <= p <= 0.675
  {
    var base := BaseMortality(profile.age, t, profile.gender);
    var mult := RiskMultiplier(profile.smoker, profile.health);
    assert base * mult <= 0.25 * mult;
    assert base * mult >= 0.0015 * mult;
    base * mult
  }

  /** Inside the dashboard's input domain (age at most 65, at most 100
      simulated years) the effective death probability is at most 0.096525
      even with the largest risk multiplier, far below the 0.25 clamp. */
  lemma DeathProbabilityInDomain(profile: Profile, t: int)
    requires profile.age <= 65 && t <= 100
    ensures DeathProbability(profile, t) <= 0.096525
  {
    var base := BaseMortality(profile.age, t, profile.gender);
    var mult := RiskMultiplier(profile.smoker, profile.health);
    ClampUnreachableInDomain(profile.age, t, profile.gender);
    assert base * mult <= 0.03575 * mult;
  }

  /** Number of simulated years: the term for Term Insurance (an empty loop for
      a non-positive term), a fixed 100 for Whole Life. */
  function Horizon(policy: Policy): (h: nat)
    ensures policy.kind == WholeLife ==> h == WholeLifeHorizon
    ensures policy.kind == TermInsurance ==> (h == 0 <==> policy.term <= 0)
    ensures policy.kind == TermInsurance && policy.term > 0 ==> h == policy.term
  {
    if policy.kind == TermInsurance then
      (if policy.term > 0 then policy.term else 0)
    else WholeLifeHorizon
  }

  /** The death benefit; the accidental rider raises it by half for every death. */
  function Payout(policy: Policy): (r: real)
    ensures 0.0 <= policy.cover ==> policy.cover <= r <= 1.5 * policy.cover
    ensures r == policy.cover <==> !policy.riders.accidental || policy.cover == 0.0
  {
    if policy.riders.accidental then policy.cover * 1.5 else policy.cover
  }

  /** Expected benefit of year `t` for someone alive at its start with
      probability `survival` and dying in it with probability `pDeath`. */
  function ExpectedPayout(profile: Profile, policy: Policy, survival: real, pDeath: real, t: int): (r: real)
    ensures 0.0 <= survival && 0.0 <= pDeath && 0.0 <= policy.cover ==>
      0.0 <= survival * pDeath * policy.cover <= r <= survival * (1.5 * pDeath + 0.04) * policy.cover
  {
    var expected := survival * pDeath * Payout(policy);
    PayoutTermBounds(survival, pDeath, policy);
    RiderTermBounds(survival, policy.cover);
    var withCritical :=
      if policy.riders.criticalIllness then expected + survival * 0.10 * 0.3 * policy.cover
      else expected;
    if policy.riders.disability && profile.age + t < 60 then
      withCritical + survival * 0.05 * 0.2 * policy.cover
    else withCritical
  }

  /** The death-benefit term of a year lies between the bare cover and the
      cover raised by half, weighted by survival and death probability. */
  lemma PayoutTermBounds(survival: real, pDeath: real, policy: Policy)
    ensures 0.0 <= survival && 0.0 <= pDeath && 0.0 <= policy.cover ==>
      0.0 <= survival * pDeath * policy.cover <= survival * pDeath * Payout(policy) <= 1.5 * (survival * pDeath * policy.cover)
    ensures survival * (1.5 * pDeath + 0.04) * policy.cover
            == 1.5 * (survival * pDeath * policy.cover) + 0.04 * (survival * policy.cover)
  {
    if 0.0 <= survival && 0.0 <= pDeath && 0.0 <= policy.cover {
      var k := survival * pDeath;
      assert 0.0 <= k;
      assert k * policy.cover <= k * Payout(policy) <= k * (1.5 * policy.cover);
    }
  }

  /** The critical-illness and disability terms are fixed shares of the
      cover weighted by survival. */
  lemma RiderTermBounds(survival: real, cover: real)
    ensures survival * 0.10 * 0.3 * cover == 0.03 * (survival * cover)
    ensures survival * 0.05 * 0.2 * cover == 0.01 * (survival * cover)
    ensures 0.0 <= survival && 0.0 <= cover ==> 0.0 <= survival * cover
  {
  }

  /** The premium of year `t` after the waiver rider: waived once the policy is
      more than 10 years old and while the insured is younger than 55. */
  function EffectivePremium(profile: Profile, policy: Policy, t: int): (r: real)
    ensures r == policy.premium || r == 0.0
    ensures r != policy.premium ==> policy.riders.waiver && 10 < t && profile.age + t < 55
  {
    if policy.riders.waiver && profile.age + t < 55 && t > 10 then 0.0 else policy.premium
  }

  /** Whether year `t` is inside the premium-paying period: every simulated
      Term year, and only the first 60 of the 100 Whole Life years. */
  predicate PremiumDue(policy: Policy, t: int): (due: bool)
    ensures 1 <= t <= Horizon(policy) ==> (due <==> policy.kind == TermInsurance || t <= WholeLifePremiumYears)
  {
    if policy.kind == TermInsurance then t <= policy.term else t <= WholeLifePremiumYears
  }

  /** One iteration of the yearly loop. The survival probability shrinks by
      the year's death probability; for a non-negative cover and premium
      and a rate above -100% neither discounted sum goes down. */
  function Step(profile: Profile, policy: Policy, discountRate: real, s: YearState, t: nat): (r: YearState)
    requires ValidRate(discountRate)
    ensures 0.0 < s.survival <= 1.0 ==> 0.0 < r.survival <= s.survival
    ensures 0.0 <= s.survival && 0.0 <= policy.cover && discountRate > -100.0 ==> s.pvBenefit <= r.pvBenefit
    ensures 0.0 <= policy.premium && discountRate > -100.0 ==> s.pvPremium <= r.pvPremium
  {
    var factor := DiscountFactor(discountRate, t);
    var pDeath := DeathProbability(profile, t);
    SurvivalFactorBounds(s.survival, pDeath);
    var benefit := s.pvBenefit + ExpectedPayout(profile, policy, s.survival, pDeath, t) / factor;
    var premium :=
      if PremiumDue(policy, t) then s.pvPremium + EffectivePremium(profile, policy, t) / factor
      else s.pvPremium;
    YearState(Survive(s.survival, pDeath), benefit, premium)
  }

  /** The loop state after the first `n` years; the survival probability is
      that of reaching the start of year `n + 1`, so it is positive and at
      most 1. No year runs when `n` is 0, so any rate is accepted then. */
  function Project(profile: Profile, policy: Policy, discountRate: real, n: nat): (s: YearState)
    requires ValidRate(discountRate) || n == 0
    ensures 0.0 < s.survival <= 1.0
  {
    if n == 0 then YearState(1.0, 0.0, 0.0)
    else Step(profile, policy, discountRate, Project(profile, policy, discountRate, n - 1), n)
  }

  /** Probability of surviving one more year with death probability `p`. */
  function Survive(survival: real, p: real): real {
    survival * (1.0 - p)
  }

  lemma SurvivalFactorBounds(s: real, p: real)
    ensures 0.0 < s <= 1.0 && 0.0 < p < 1.0 ==> 0.0 < Survive(s, p) <= s
  {
    if 0.0 < s <= 1.0 && 0.0 < p < 1.0 {
      assert s * (1.0 - p) == s - s * p;
      assert s * p > 0.0;
      assert s * p < s;
    }
  }

  /** Net present value: discounted expected benefits less discounted premiums
      over the whole horizon. A policy that simulates no year (a Term policy
      with a non-positive term) is worth exactly 0 at any rate. */
  function NetPresentValue(profile: Profile, policy: Policy, discountRate: real): (v: real)
    requires ValidRate(discountRate) || Horizon(policy) == 0
    ensures Horizon(policy) == 0 ==> v == 0.0
  {
    var s := Project(profile, policy, discountRate, Horizon(policy));
    s.pvBenefit - s.pvPremium
  }

  /** The body of the yearly loop between the death probability and the
      premium test: the expected benefit and the premium after the waiver,
      computed statement by statement. */
  method YearCashFlows(profile: Profile, policy: Policy, survival: real, pDeath: real, t: int)
    returns (expectedPayout: real, effectivePremium: real)
    ensures expectedPayout == ExpectedPayout(profile, policy, survival, pDeath, t)
    ensures effectivePremium == EffectivePremium(profile, policy, t)
  {
    var payout := policy.cover;
    if policy.riders.accidental {
      payout := payout * 1.5;
    }
    expectedPayout := survival * pDeath * payout;
    if policy.riders.criticalIllness {
      expectedPayout := expectedPayout + survival * 0.10 * 0.3 * policy.cover;
    }
    if policy.riders.disability && profile.age + t < 60 {
      expectedPayout := expectedPayout + survival * 0.05 * 0.2 * policy.cover;
    }
    effectivePremium := policy.premium;
    if policy.riders.waiver && profile.age + t < 55 && t > 10 {
      effectivePremium := 0.0;
    }
  }

  /** One pass of the yearly loop body: the death probability of year `t`,
      its cash flows, the premium test and the survival update. */
  method AdvanceYear(profile: Profile, policy: Policy, discountRate: real, mult: real, before: YearState, t: nat)
    returns (after: YearState)
    requires ValidRate(discountRate) && mult == RiskMultiplier(profile.smoker, profile.health)
    ensures after == Step(profile, policy, discountRate, before, t)
  {
    var r := discountRate / 100.0;
    var pDeath := BaseMortality(profile.age, t, profile.gender) * mult;
    assert pDeath == DeathProbability(profile, t);
    var expectedPayout, effectivePremium := YearCashFlows(profile, policy, before.survival, pDeath, t);
    var discount := Pow(1.0 + r, t);
    assert discount == DiscountFactor(discountRate, t);
    var pvBenefit := before.pvBenefit + expectedPayout / discount;
    var pvPremium := before.pvPremium;
    if policy.kind == TermInsurance && t <= policy.term {
      pvPremium := pvPremium + effectivePremium / discount;
    } else if policy.kind == WholeLife && t <= 60 {
      pvPremium := pvPremium + effectivePremium / discount;
    }
    after := YearState(Survive(before.survival, pDeath), pvBenefit, pvPremium);
  }

  /** The engine as an imperative loop over `t = 1 .. effective term`, computing
      the same value as the fold. */
  method InsuranceNpv(profile: Profile, policy: Policy, discountRate: real) returns (npv: real)
    requires ValidRate(discountRate) || Horizon(policy) == 0
    ensures npv == NetPresentValue(profile, policy, discountRate)
  {
    var state := YearState(1.0, 0.0, 0.0);
    var mult := RiskMultiplier(profile.smoker, profile.health);
    var effectiveTerm := if policy.kind == TermInsurance then policy.term else 100;
    var t := 1;
    while t <= effectiveTerm
      invariant 1 <= t <= Horizon(policy) + 1
      invariant state == Project(profile, policy, discountRate, t - 1)
    {
      state := AdvanceYear(profile, policy, discountRate, mult, state, t);
      t := t + 1;
    }
    npv := state.pvBenefit - state.pvPremium;
  }
}
