/** The two numbers the dashboard shows for each policy: its NPV and its
    protection-utility score, computed from that NPV. */
module Dashboard {
  import opened Numeric
  import opened Npv
  import opened NpvProperties
  import opened Utility

  datatype Assessment = Assessment(npv: real, utility: real)

  /** Scores one policy for one insured person at one discount rate. */
  function Assess(profile: Profile, policy: Policy, discountRate: real): (a: Assessment)
    requires ValidRate(discountRate)
    ensures a.npv == NetPresentValue(profile, policy, discountRate)
    ensures a.utility * (Abs(a.npv) + 1.0) == Protection(policy.cover, profile.dependents)
    ensures policy.cover >= 0.0 ==> 0.0 <= a.utility <= Protection(policy.cover, profile.dependents)
  {
    var npv := NetPresentValue(profile, policy, discountRate);
    Assessment(npv, Score(policy.cover, profile.dependents, npv))
  }

  /** A Whole Life policy scores the same whatever term is entered for it. */
  lemma WholeLifeAssessmentIgnoresTerm(profile: Profile, policy: Policy, discountRate: real, term: int)
    requires ValidRate(discountRate) && policy.kind == WholeLife
    ensures Assess(profile, policy.(term := term), discountRate) == Assess(profile, policy, discountRate)
  {
    WholeLifeIgnoresTerm(profile, policy, discountRate, term);
  }
}
