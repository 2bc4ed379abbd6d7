/** The two-hypothesis Bayesian estimate that an illness is zoonotic (Z)
    rather than human-to-human, from the animal hazard experienced and the
    number of secondary cases. `exp` and the Poisson probability mass function
    are parameters, constrained only by the facts the proofs need. */
module Probability {
  import opened Types

  const PRIOR_PROBABILITY_ZOONOTIC: real := 0.01
  const EXPECTED_SECONDARY_CASES_ZOONOTIC: real := 0.1
  const EXPECTED_SECONDARY_CASES_NON_ZOONOTIC: real := 2.0

  /** What is used of the exponential function: it is positive, exp(0) = 1,
      and it is non-decreasing. */
  ghost predicate IsExp(exp: real -> real)
  {
    && exp(0.0) == 1.0
    && (forall x :: exp(x) > 0.0)
    && (forall x, y :: x <= y ==> exp(x) <= exp(y))
  }

  /** What is used of the Poisson pmf: for k >= 0 and a positive rate the
      mass lies in (0, 1]. */
  ghost predicate IsPoissonPmf(pmf: (int, real) -> real)
  {
    forall k, lambda :: k >= 0 && lambda > 0.0 ==> 0.0 < pmf(k, lambda) <= 1.0
  }

  /** f(E) = 1 - exp(-E): the probability of the observed hazard under Z. */
  function PHazardGivenZoonotic(exp: real -> real, hazardExperienced: real): (r: real)
    requires IsExp(exp)
    ensures r < 1.0
    ensures hazardExperienced == 0.0 ==> r == 0.0
    ensures hazardExperienced >= 0.0 ==> 0.0 <= r
  {
    1.0 - exp(-hazardExperienced)
  }

  lemma PHazardMonotone(exp: real -> real, h1: real, h2: real)
    requires IsExp(exp)
    requires h1 <= h2
    ensures PHazardGivenZoonotic(exp, h1) <= PHazardGivenZoonotic(exp, h2)
  {
    assert exp(-h2) <= exp(-h1);
  }

  /** g(k) = Poisson(k; 0.1). */
  function PSecondaryCasesGivenZoonotic(pmf: (int, real) -> real, k: int): (r: real)
    requires IsPoissonPmf(pmf)
    ensures k >= 0 ==> 0.0 < r <= 1.0
  {
    pmf(k, EXPECTED_SECONDARY_CASES_ZOONOTIC)
  }

  /** h(k) = Poisson(k; 2.0). */
  function PSecondaryCasesGivenNonZoonotic(pmf: (int, real) -> real, k: int): (r: real)
    requires IsPoissonPmf(pmf)
    ensures k >= 0 ==> 0.0 < r <= 1.0
  {
    pmf(k, EXPECTED_SECONDARY_CASES_NON_ZOONOTIC)
  }

  /** The weight of hypothesis Z and of its negation in Bayes' rule. */
  function WeightZ(fE: real, gK: real): real { fE * gK * PRIOR_PROBABILITY_ZOONOTIC }
  function WeightNotZ(fE: real, hK: real): real { (1.0 - fE) * hK * (1.0 - PRIOR_PROBABILITY_ZOONOTIC) }

  /** Bayes' rule for two hypotheses. The division fails exactly when the
      total weight is zero; for evidence in [0, 1] and positive likelihoods
      it never is, and the result is a probability. */
  function Posterior(fE: real, gK: real, hK: real): (r: Result<real>)
    ensures r.Err? <==> WeightZ(fE, gK) + WeightNotZ(fE, hK) == 0.0
    ensures r.Ok? ==> r.value * (WeightZ(fE, gK) + WeightNotZ(fE, hK)) == WeightZ(fE, gK)
    ensures 0.0 <= fE <= 1.0 && gK > 0.0 && hK > 0.0 ==> r.Ok? && 0.0 <= r.value <= 1.0
  {
    var z := WeightZ(fE, gK);
    var total := z + WeightNotZ(fE, hK);
    if 0.0 <= fE <= 1.0 && gK > 0.0 && hK > 0.0 then
      PosteriorBounds(fE, gK, hK);
      RatioInUnit(z, WeightNotZ(fE, hK));
      Ok(z / total)
    else if total == 0.0 then Err(ZeroDivision)
    else Ok(z / total)
  }

  lemma RatioInUnit(z: real, w: real)
    requires z >= 0.0 && w >= 0.0 && z + w > 0.0
    ensures 0.0 <= z / (z + w) <= 1.0
  {
    var q := z / (z + w);
    assert q * (z + w) == z;
  }

  lemma PosteriorBounds(fE: real, gK: real, hK: real)
    requires 0.0 <= fE <= 1.0 && gK > 0.0 && hK > 0.0
    ensures WeightZ(fE, gK) >= 0.0 && WeightNotZ(fE, hK) >= 0.0
    ensures WeightZ(fE, gK) + WeightNotZ(fE, hK) > 0.0
  {
    assert fE * gK >= 0.0;
    assert (1.0 - fE) * hK >= 0.0;
    if fE == 0.0 {
      assert WeightNotZ(fE, hK) == hK * 0.99;
    } else {
      assert fE * gK > 0.0;
    }
  }

  /** Zero evidence under Z gives posterior 0; certain evidence gives 1. */
  lemma PosteriorExtremes(gK: real, hK: real)
    requires gK > 0.0 && hK > 0.0
    ensures Posterior(0.0, gK, hK) == Ok(0.0)
    ensures Posterior(1.0, gK, hK) == Ok(1.0)
  {
    assert WeightZ(0.0, gK) == 0.0;
    assert WeightNotZ(1.0, hK) == 0.0;
    var z := WeightZ(1.0, gK);
    assert z > 0.0;
    assert z / (z + 0.0) == 1.0;
  }

  /** For fixed likelihoods the posterior does not decrease with the evidence. */
  lemma PosteriorMonotone(f1: real, f2: real, gK: real, hK: real)
    requires 0.0 <= f1 <= f2 <= 1.0 && gK > 0.0 && hK > 0.0
    ensures Posterior(f1, gK, hK).Ok? && Posterior(f2, gK, hK).Ok?
    ensures Posterior(f1, gK, hK).value <= Posterior(f2, gK, hK).value
  {
    PosteriorBounds(f1, gK, hK);
    PosteriorBounds(f2, gK, hK);
    var a := gK * PRIOR_PROBABILITY_ZOONOTIC;
    var b := hK * (1.0 - PRIOR_PROBABILITY_ZOONOTIC);
    WeightsFactor(f1, gK, hK);
    WeightsFactor(f2, gK, hK);
    RatioMonotone(f1, f2, a, b);
  }

  lemma WeightsFactor(f: real, gK: real, hK: real)
    ensures WeightZ(f, gK) == f * (gK * PRIOR_PROBABILITY_ZOONOTIC)
    ensures WeightNotZ(f, hK) == (1.0 - f) * (hK * (1.0 - PRIOR_PROBABILITY_ZOONOTIC))
  {
  }

  /** f*a / (f*a + (1-f)*b) is non-decreasing in f on [0, 1] for positive a, b. */
  lemma RatioMonotone(f1: real, f2: real, a: real, b: real)
    requires 0.0 <= f1 <= f2 <= 1.0 && a > 0.0 && b > 0.0
    ensures f1 * a + (1.0 - f1) * b > 0.0 && f2 * a + (1.0 - f2) * b > 0.0
    ensures f1 * a / (f1 * a + (1.0 - f1) * b) <= f2 * a / (f2 * a + (1.0 - f2) * b)
  {
    var t1 := f1 * a + (1.0 - f1) * b;
    var t2 := f2 * a + (1.0 - f2) * b;
    WeightedPositive(f1, a, b);
    WeightedPositive(f2, a, b);
    var x1, x2 := f1 * a, f2 * a;
    // x2 * t1 - x1 * t2 = a * b * (f2 - f1)
    assert x2 * t1 == x2 * x1 + x2 * (1.0 - f1) * b;
    assert x1 * t2 == x1 * x2 + x1 * (1.0 - f2) * b;
    assert x2 * (1.0 - f1) * b - x1 * (1.0 - f2) * b == (f2 - f1) * (a * b);
    MulNonNegative(f2 - f1, a * b);
    DivideCrossed(x1, t1, x2, t2);
  }

  /** A weighting of two positive numbers is positive. */
  lemma WeightedPositive(f: real, a: real, b: real)
    requires 0.0 <= f <= 1.0 && a > 0.0 && b > 0.0
    ensures f * a + (1.0 - f) * b > 0.0
  {
    MulNonNegative(1.0 - f, b);
    if f > 0.0 {
      MulPositive(f, a);
    } else {
      assert f * a + (1.0 - f) * b == b;
    }
  }

  lemma MulPositive(x: real, y: real)
    requires x > 0.0 && y > 0.0
    ensures x * y > 0.0
  {
  }

  lemma MulNonNegative(x: real, y: real)
    requires x >= 0.0 && y >= 0.0
    ensures x * y >= 0.0
  {
  }

  lemma DivideCrossed(n1: real, d1: real, n2: real, d2: real)
    requires d1 > 0.0 && d2 > 0.0
    requires n1 * d2 <= n2 * d1
    ensures n1 / d1 <= n2 / d2
  {
    var q1, q2 := n1 / d1, n2 / d2;
    assert n1 == q1 * d1;
    assert n2 == q2 * d2;
    assert q1 * (d1 * d2) <= q2 * (d1 * d2);
  }

  /** P(Z | E, k) as the source computes it. */
  function BayesianPZoonotic(exp: real -> real, pmf: (int, real) -> real,
                             hazardExperienced: real, secondaryCases: int): (r: Result<real>)
    requires IsExp(exp) && IsPoissonPmf(pmf)
    ensures hazardExperienced >= 0.0 && secondaryCases >= 0 ==> r.Ok? && 0.0 <= r.value <= 1.0
    ensures hazardExperienced == 0.0 && secondaryCases >= 0 ==> r == Ok(0.0)
  {
    var fE := PHazardGivenZoonotic(exp, hazardExperienced);
    var gK := PSecondaryCasesGivenZoonotic(pmf, secondaryCases);
    var hK := PSecondaryCasesGivenNonZoonotic(pmf, secondaryCases);
    if hazardExperienced == 0.0 && secondaryCases >= 0 then PosteriorExtremes(gK, hK); Posterior(fE, gK, hK)
    else Posterior(fE, gK, hK)
  }

  /** For a fixed number of secondary cases, more animal hazard never lowers
      the posterior. */
  lemma BayesianPZoonoticMonotone(exp: real -> real, pmf: (int, real) -> real,
                                  h1: real, h2: real, k: int)
    requires IsExp(exp) && IsPoissonPmf(pmf)
    requires 0.0 <= h1 <= h2 && k >= 0
    ensures BayesianPZoonotic(exp, pmf, h1, k).Ok? && BayesianPZoonotic(exp, pmf, h2, k).Ok?
    ensures BayesianPZoonotic(exp, pmf, h1, k).value <= BayesianPZoonotic(exp, pmf, h2, k).value
  {
    PHazardMonotone(exp, h1, h2);
    PosteriorMonotone(PHazardGivenZoonotic(exp, h1), PHazardGivenZoonotic(exp, h2),
                      PSecondaryCasesGivenZoonotic(pmf, k), PSecondaryCasesGivenNonZoonotic(pmf, k));
  }
}
