/** The teaching mortality model: a per-year death probability built from a
    linear age hazard, clamped, and then scaled by a lifestyle risk multiplier. */
module Mortality {
  import opened Numeric

  datatype Gender = Male | Female
  datatype Health = Good | Average | Poor

  /** Probability of dying in year `year` of the projection for someone who is
      `age` today: a gender base rate plus 0.00025 per year of attained age
      beyond 30, clamped to at most 0.25. */
  function BaseMortality(age: int, year: int, gender: Gender): (p: real)
    ensures 0.0015 <= p <= 0.25
    ensures gender == Male ==> 0.002 <= p
  {
    var currentAge := age + year;
    var base := if gender == Female then 0.0015 else 0.002;
    var slope := 0.00025;
    MinReal(base + slope * Max(currentAge - 30, 0) as real, 0.25)
  }

  /** Lifestyle multiplier: smoking and health compose multiplicatively. */
  function RiskMultiplier(smoker: bool, health: Health): (m: real)
    ensures 1.0 <= m <= 2.7
    ensures m == 1.0 <==> !smoker && health == Good
    ensures m == 2.7 <==> smoker && health == Poor
  {
    var m := if smoker then 1.5 else 1.0;
    match health
    case Average => m * 1.3
    case Poor => m * 1.8
    case Good => m
  }

  /** The two risk factors compose by multiplication: smoking scales every
      health class by 1.5, and worse health never lowers the multiplier. */
  lemma RiskFactorsCompose(smoker: bool, health: Health)
    ensures RiskMultiplier(true, health) == 1.5 * RiskMultiplier(false, health)
    ensures RiskMultiplier(smoker, Good) < RiskMultiplier(smoker, Average) < RiskMultiplier(smoker, Poor)
  {
  }

  /** The hazard only grows as the projection advances. */
  lemma BaseMortalityMonotone(age: int, y1: int, y2: int, gender: Gender)
    requires y1 <= y2
    ensures BaseMortality(age, y1, gender) <= BaseMortality(age, y2, gender)
  {
  }

  /** Being older today never lowers the hazard of a given projection year. */
  lemma BaseMortalityMonotoneInAge(a1: int, a2: int, year: int, gender: Gender)
    requires a1 <= a2
    ensures BaseMortality(a1, year, gender) <= BaseMortality(a2, year, gender)
  {
  }

  /** Women carry a lower hazard than men of the same attained age, except
      where both sit on the 0.25 clamp. */
  lemma FemaleNotAboveMale(age: int, year: int)
    ensures BaseMortality(age, year, Female) <= BaseMortality(age, year, Male)
    ensures BaseMortality(age, year, Male) < 0.25 ==>
              BaseMortality(age, year, Female) == BaseMortality(age, year, Male) - 0.0005
  {
  }

  /** Inside the dashboard's input domain (age at most 65, at most the
      100-year whole-life horizon) the 0.25 clamp is never reached: the
      hazard stays at or below 0.03575. */
  lemma ClampUnreachableInDomain(age: int, year: int, gender: Gender)
    requires age <= 65 && year <= 100
    ensures BaseMortality(age, year, gender) <= 0.03575
  {
  }
}
