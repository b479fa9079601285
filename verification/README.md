# LiFin Insurance Lab — the NPV engine in Dafny

LiFin Insurance Lab is a teaching dashboard. It compares two insurance
policies by their expected net present value (NPV) and a "protection
utility" score. It then sweeps one input at a time (term, premium, discount
rate) and marks the sampled point whose NPV is closest to zero.

This project models the calculation engine of `app.py` in Dafny:

- the mortality model (`base_mortality`, `risk_multiplier`);
- the yearly projection loop of `insurance_npv`;
- the utility score;
- the break-even finder `find_break_even`;
- the three comparison sweeps.

Amounts and probabilities are exact reals. The model proves what the engine
promises about these values.

Modules, one per part of the engine:

- `Numeric`: `max`, `min` and `abs`.
- `Mortality`: `base_mortality` and `risk_multiplier`.
- `Discount`: the power `(1 + r) ** t` and facts about dividing by it.
- `Npv`: the policy and profile records and the per-year cash flows.
  - `Project` is the yearly loop written as a fold.
  - `InsuranceNpv` is the same loop as an imperative method, proved equal to the fold.
- `Flows`: sums of yearly cash-flow sequences.
- `NpvProperties`: reference definitions of each part of the loop state.
  - The survival probability is a product; the two present values are sums of per-year terms.
  - `ProjectIsSums` proves the fold equals them.
  - On that basis it proves how the NPV responds to the premium, the riders, the waiver and the term.
- `Utility`: the score `cover * max(dependents, 1) / (|npv| + 1)`.
- `BreakEven`: `find_break_even`, the first index of least `|y|`, as a recursive function and as a loop.
- `Sweeps`: the term, premium and discount-rate charts.
- `Dashboard`: the NPV and utility pair shown for each policy.

The engine's only precondition is a discount rate other than -100%, and only
when at least one year is simulated. Then `1 + r` is zero, `(1 + r) ** t` is
zero, and Python raises `ZeroDivisionError` at the first division
(app.py:147). A Term policy with a non-positive term runs no year and
returns 0 at any rate, so `Npv.NetPresentValue` and `Npv.InsuranceNpv`
accept -100% in that case. Properties that need positive discount factors
require a rate above -100%. They state that requirement themselves.

`base_mortality` applies `min(p, 0.25)` to the base hazard (app.py:104).
Only then does the engine multiply it by the risk multiplier (app.py:131).
So the effective probability can reach 0.25 × 2.7 = 0.675, and
`Npv.DeathProbability` is bounded by that. Inside the dashboard's slider
ranges (age ≤ 65, at most 100 years) the clamp never binds, and the
effective probability is at most 0.096525
(`Mortality.ClampUnreachableInDomain`, `Npv.DeathProbabilityInDomain`).

## Model

| member | source | states |
|---|---|---|
| Mortality.BaseMortality | app.py:99-104 | the hazard lies in [0.0015, 0.25], and is at least 0.002 for a man |
| Mortality.RiskMultiplier | app.py:106-114 | the multiplier lies in [1, 2.7]; it is 1 exactly for a non-smoker in good health, and 2.7 exactly for a smoker in poor health |
| Mortality.RiskFactorsCompose | app.py:106-114 | smoking scales the multiplier of every health class by 1.5, and good < average < poor health for smokers and non-smokers alike |
| Mortality.BaseMortalityMonotone | app.py:100-104 | the hazard never decreases as the projection year advances |
| Mortality.BaseMortalityMonotoneInAge | app.py:100-104 | an older insured never has a lower hazard for the same projection year |
| Mortality.FemaleNotAboveMale | app.py:101-104 | the female hazard never exceeds the male one; below the clamp it is exactly 0.0005 lower |
| Mortality.ClampUnreachableInDomain | app.py:99-104 | for age ≤ 65 and year ≤ 100 the hazard is at most 0.03575, so the 0.25 clamp never binds |
| Discount.Pow | app.py:147 | `(1 + r) ** t` is non-zero when `1 + r` is, positive when it is positive, and at least 1 when `1 + r` ≥ 1 |
| Npv.DiscountFactor | app.py:122-147 | the year-`t` discount factor `(1 + r) ** t` is non-zero for every rate except -100%, and positive above -100% |
| Npv.DeathProbability | app.py:126-131 | the effective death probability of a year lies in [0.0015, 0.675], since the clamp comes before the multiplier |
| Npv.DeathProbabilityInDomain | app.py:126-131 | for age ≤ 65 and at most 100 years, the effective death probability is at most 0.096525 |
| Npv.Horizon | app.py:128-130 | the number of simulated years: 100 for Whole Life whatever the term; for Term it is the term, and 0 exactly when the term is ≤ 0 (the `range` is empty); `InsuranceNpv`'s loop bound and `WholeLifeIgnoresTerm` rest on it |
| Npv.Payout | app.py:133-135 | with a non-negative cover the death benefit lies between the cover and 1.5 × cover, and equals the cover exactly when there is no accidental rider or the cover is 0; `AccidentalPaysHalfMore` gives the exact factor 1.5 |
| Npv.ExpectedPayout | app.py:137-145 | for non-negative survival, death probability and cover, a year's expected benefit is at least `survival * p_death * cover` and at most `survival * (1.5 p_death + 0.04) * cover`; `AccidentalPaysHalfMore`, `CriticalIllnessYearBenefit` and `DisabilityYearBenefit` give each rider's exact contribution |
| Npv.EffectivePremium | app.py:149-152 | a year's premium is either the nominal premium or 0, and differs from the nominal premium only with the waiver rider, after year 10, while `age + t < 55`; `WaiverChangesOnlyVestedYoungYears` gives the converse |
| Npv.PremiumDue | app.py:154-157 | within the simulated years, a premium is due in every Term year and in Whole Life years 1..60 only; `WholeLifePremiumsStopAfterSixty` lifts this to the premium sum |
| Npv.Step | app.py:131-159 | one year's update keeps the survival probability positive and never raises it; with non-negative cover and premium and a rate above -100% neither discounted sum decreases; `FlowsExtend` and `ProjectIsSums` give its exact increments |
| Npv.Project | app.py:125-159 | after any number of years, the carried survival probability stays in (0, 1] |
| Npv.NetPresentValue | app.py:119-161 | the engine's return value; a policy that simulates no year is worth exactly 0 at any rate, including -100%; `NpvIsSums` states it as discounted benefits less discounted premiums and `InsuranceNpv` computes it by the loop |
| Npv.YearCashFlows | app.py:133-152 | the statement-by-statement payout, rider additions and waiver give the year's expected benefit and effective premium |
| Npv.AdvanceYear | app.py:131-159 | one pass of the loop body gives the next state of the fold from the current one |
| Npv.InsuranceNpv | app.py:119-161 | the loop over `t = 1 .. effective_term` returns the fold's `pv_benefit - pv_premium` (Whole Life runs 100 years; a non-positive Term term runs none, at any rate) |
| NpvProperties.ProjectIsSums | app.py:130-159 | the loop state after `n` years is: survival = product of `1 - p_death` over years 1..n; pv_benefit = sum of discounted expected benefits; pv_premium = sum of discounted effective premiums over the premium-paying years |
| NpvProperties.NpvIsSums | app.py:119-161 | the NPV is the benefit sum less the premium sum over the policy horizon |
| NpvProperties.FlowsExtend | app.py:147-157 | each year adds exactly its discounted benefit, and its discounted premium when due |
| NpvProperties.SurvivalToBounds | app.py:125-159 | the probability of surviving `n` years lies in (0, 1] |
| NpvProperties.SurvivalNonIncreasing | app.py:125-159 | survival starts at 1 and never increases from one year to a later one |
| NpvProperties.ExpectedPayoutReadsBenefitTerms | app.py:133-145 | a year's expected benefit depends only on the cover and the accidental, critical-illness and disability riders |
| NpvProperties.ExpectedPayoutNonNegative | app.py:133-145 | with a non-negative cover, survival and death probability, a year's expected benefit is non-negative |
| NpvProperties.ExpectedPayoutMonotoneInRiders | app.py:133-145 | with non-negative cover, survival and death probability, adding benefit riders never lowers a year's expected benefit (a negative cover, which the cover input accepts, reverses this) |
| NpvProperties.AccidentalPaysHalfMore | app.py:133-135 | the accidental rider makes the death benefit exactly 1.5 times what it is without the rider |
| NpvProperties.CriticalIllnessYearBenefit | app.py:139-141 | the critical-illness rider adds exactly `survival * 0.10 * 0.3 * cover` = `survival * 0.03 * cover` to every year's expected benefit, at any age |
| NpvProperties.DisabilityYearBenefit | app.py:143-145 | the disability rider adds `survival * 0.01 * cover` while `age + t < 60`, and nothing afterwards |
| NpvProperties.BenefitSumsAgree | app.py:147 | policies with equal per-year expected benefits have equal benefit sums |
| NpvProperties.BenefitSumReadsBenefitTerms | app.py:133-147 | the benefit sum ignores the premium, the term, the policy type and the waiver |
| NpvProperties.BenefitSumDominated | app.py:147 | per-year domination of expected benefits carries over to the discounted sum (rate above -100%) |
| NpvProperties.BenefitSumNonNegative | app.py:133-147 | a non-negative cover gives a non-negative benefit sum (rate above -100%) |
| NpvProperties.PremiumSumsAgree | app.py:150-157 | policies with equal premium-due years and equal effective premiums have equal premium sums |
| NpvProperties.PremiumSumDominated | app.py:150-157 | per-year smaller effective premiums give a smaller discounted premium sum (rate above -100%) |
| NpvProperties.EffectivePremiumScales | app.py:150-152 | the effective premium is the nominal premium times the effective premium of a unit premium |
| NpvProperties.PremiumStepScales | app.py:150-157 | a year's discounted premium is linear in the nominal premium |
| NpvProperties.PremiumSumScales | app.py:150-157 | the premium sum is the nominal premium times the premium sum of a unit premium |
| NpvProperties.PremiumFlowsScale | app.py:150-157 | each year's discounted premium is the nominal premium times that year's discounted unit premium |
| NpvProperties.PremiumSumNonNegative | app.py:150-157 | a non-negative premium gives a non-negative premium sum (rate above -100%) |
| NpvProperties.PremiumSumIsAnnuity | app.py:150-157 | over the horizon, the premium sum is the premium times the annuity factor |
| NpvProperties.PremiumAnnuityNonNegative | app.py:150-157 | the annuity factor is non-negative for a rate above -100% |
| NpvProperties.FreeNpvIsBenefitSum | app.py:119-161 | the zero-premium NPV is the benefit sum alone |
| NpvProperties.NpvIsBenefitsLessAnnuity | app.py:119-161 | the NPV is the benefit sum less the premium times the annuity factor |
| NpvProperties.NpvAffineInPremium | app.py:119-161 | NPV = zero-premium NPV − premium × annuity, with the annuity non-negative above -100% |
| NpvProperties.NpvNonIncreasingInPremium | app.py:150-161 | a higher premium never gives a higher NPV (rate above -100%) |
| NpvProperties.FreePolicyNonNegative | app.py:119-161 | a zero-premium policy with non-negative cover has NPV ≥ 0 (rate above -100%) |
| NpvProperties.RidersNeverLowerNpv | app.py:133-161 | with non-negative cover, adding accidental, critical-illness or disability riders never lowers the NPV |
| NpvProperties.DisabilityInertFromAge59 | app.py:143-145 | from age 59 every simulated year has `age + t ≥ 60`, so the disability rider leaves the NPV unchanged |
| NpvProperties.WaiverChangesOnlyVestedYoungYears | app.py:149-152 | the waiver changes a year's premium exactly when `t > 10`, `age + t < 55` and the premium is non-zero; without the waiver the full premium is paid |
| NpvProperties.WaiverNeverLowersNpv | app.py:149-161 | with a non-negative premium, the waiver never lowers the NPV (rate above -100%) |
| NpvProperties.WaiverInertFromAge44 | app.py:149-152 | from age 44 the waiver never applies, so the NPV is unchanged |
| NpvProperties.WholeLifePremiumsStopAfterSixty | app.py:156-157 | a Whole Life policy's premium sum does not grow after year 60 |
| NpvProperties.WholeLifeIgnoresTerm | app.py:128-157 | the term has no effect on a Whole Life policy's NPV |
| NpvProperties.TermExtensionAddsOneYear | app.py:128-159 | a Term policy one year longer has an NPV larger by that year's discounted expected benefit less its discounted premium |
| NpvProperties.LongerTermSums | app.py:128-157 | a Term policy one year longer has the same first `term` years and one more year in each sum |
| NpvProperties.LastYearOfLongerTerm | app.py:137-157 | the added year contributes its discounted expected benefit minus its discounted premium |
| Utility.DependentWeight | app.py:169 | the dependents weight is at least 1, and equals the number of dependents when there is at least one |
| Utility.Score | app.py:169-170 | the score times `abs(npv) + 1` is the weighted cover; for cover ≥ 0 it lies between 0 and the weighted cover, and equals it at NPV 0 |
| Utility.ScoreIgnoresSign | app.py:169-170 | a gain and a loss of the same size score the same |
| Utility.ScoreNonIncreasingInDistance | app.py:169-170 | with cover ≥ 0, an NPV further from zero never scores higher |
| Utility.NoDependentsCountAsOne | app.py:169-170 | zero or negative dependents score the same as one |
| Dashboard.Assess | app.py:166-170 | each policy's pair is its engine NPV and the utility of that NPV, with the utility bounds |
| Dashboard.WholeLifeAssessmentIgnoresTerm | app.py:166-170 | a Whole Life policy's NPV and utility do not depend on the term entered |
| BreakEven.FirstClosestIsUnique | app.py:26 | there is only one first index of least magnitude |
| BreakEven.ClosestIndex | app.py:26 | the returned index is that of a least `abs(y)`, and no earlier index ties it (`np.argmin` takes the first) |
| BreakEven.ArgMinAbs | app.py:26 | the scan loop returns the same first index of least `abs(y)` |
| BreakEven.FindBreakEven | app.py:24-27 | the result is `(x[i], y[i])` for the first argmin `i` of `abs(y)`; its x is a sampled input, and no sample is closer to zero |
| BreakEven.ExactZeroIsFound | app.py:24-27 | when some sample is exactly zero, the first such sample is returned |
| BreakEven.FlatSweepPicksFirst | app.py:24-27 | when all NPVs are equal, the first sample is returned |
| Sweeps.BreakEvenPoint | app.py:238-239 | a chart's marked point is a sampled input with its NPV, at the first least `abs(NPV)` |
| Sweeps.TermSweep | app.py:234-236 | one NPV per sampled term, each the engine NPV with only the term changed |
| Sweeps.PremiumSweep | app.py:265-269 | one NPV per sampled premium, each the engine NPV with only the premium changed |
| Sweeps.RateSweep | app.py:298-301 | one NPV per sampled rate, each the engine NPV at that rate |
| Sweeps.PremiumSweepDescends | app.py:265-269 | along an ascending premium range the NPVs never rise (rate above -100%) |
| Sweeps.PremiumSweepIsLinear | app.py:265-269 | every premium-chart point lies on one line: zero-premium NPV − premium × annuity |
| Sweeps.PointOnPremiumLine | app.py:268 | a single premium sample lies on that line |
| Sweeps.WholeLifeTermSweepIsFlat | app.py:234-238 | a Whole Life term chart is flat, and its break-even point is the first sampled term |
| Sweeps.TermSweepStep | app.py:234-236 | on a Term policy, consecutive sampled terms differ in NPV by the extra year's discounted benefit less its premium |
| Sweeps.FreePolicyRateSweepNonNegative | app.py:298-303 | a free policy with cover ≥ 0 has every rate-chart NPV, and the break-even NPV, at or above zero |

## Left out

- Widgets and page layout (app.py:1-23, 29-94, 175-232 and the chart sections). Slider ranges (age 18–65, term 5–80, rate 1–20%, dependents 0–6) are not preconditions of the engine. Lemmas that need a bound state it.
- Plotting and chart shading (app.py:241-253, 274-286, 306-318): presentation only.
- `np.arange(5, 81)` and the two `np.linspace` ranges (app.py:234, 265-266, 298): the sweeps take their sampled inputs as a given sequence.
- The two policies A and B: each sweep and assessment models one policy, applied once per policy as the dashboard does.
- The assignment submission form and file (app.py:327-361), which only read `npvA` and `npvB`, and the clock it stamps: I/O outside the engine.
- Floating point: all arithmetic is exact over the reals. So the model has no rounding and no NaN ordering in `np.argmin`.
- `(1 + r) ** t` outside the double range: for rates far outside the dashboard's 1–20% it raises `OverflowError` (for instance a rate of 10⁶% from year 78 on), or underflows to 0 for a rate just above -100% so that the division raises `ZeroDivisionError`. The model computes the exact factor, which is never 0 for a valid rate.
- A discount rate of exactly -100% with at least one simulated year makes Python raise `ZeroDivisionError`. The model requires another rate in that case instead of modelling the exception. The sweeps, the assessment and the lemmas require a valid rate throughout, even for an empty Term horizon.
- `find_break_even` on an empty NPV list (`np.argmin` raises), or with fewer inputs than NPVs at the argmin (`IndexError`): both are excluded by `BreakEven.FindBreakEven`'s precondition.
- The NPVs of the default scenario at 8% are not evaluated: the model proves properties for all inputs rather than computing concrete values.
- Number formatting of the metrics and the summary table (app.py:191-219).
