/** The simpler transmission filter: a running hazard total, the probability
    of animal transmission it implies, and a one-step Bayesian update of the
    probability of sickness being animal-borne. */
module Filters {
  import opened Types
  import Probability

  const P_SICK_GIVEN_NO_ANIMAL_TRANSMISSION: real := 0.01
  const P_SICK_GIVEN_ANIMAL_TRANSMISSION: real := 1.0

  class TransmissionModel {
    var hazardExperienced: real

    /** Starts from `hazardExperienced`, no hazard by default. */
    constructor (hazardExperienced: real := 0.0)
      ensures this.hazardExperienced == hazardExperienced
    {
      this.hazardExperienced := hazardExperienced;
    }

    /** Adds `hazardRate` for `duration` ticks (one tick by default). */
    method AddHazard(hazardRate: real, duration: int := 1)
      modifies this
      ensures hazardExperienced == old(hazardExperienced) + hazardRate * duration as real
    {
      hazardExperienced := hazardExperienced + hazardRate * duration as real;
    }

    /** 1 - exp(-hazard): zero without hazard, below 1 always, and a
        probability once the hazard is non-negative. */
    function GetPAnimalTransmission(exp: real -> real): (r: real)
      reads this
      requires Probability.IsExp(exp)
      ensures r < 1.0
      ensures hazardExperienced == 0.0 ==> r == 0.0
      ensures hazardExperienced >= 0.0 ==> 0.0 <= r
    {
      Probability.PHazardGivenZoonotic(exp, hazardExperienced)
    }
  }

  /** Posterior of animal transmission given sickness, from its prior `p`.
      The divisor 0.99 * p + 0.01 is zero only at p = -1/99. */
  function BayesianUpdate(pAnimalTransmission: real): (r: Result<real>)
    ensures r.Err? <==> pAnimalTransmission == -1.0 / 99.0
    ensures 0.0 <= pAnimalTransmission <= 1.0 ==>
              r.Ok? && pAnimalTransmission <= r.value <= 1.0
    ensures pAnimalTransmission == 0.0 ==> r == Ok(0.0)
    ensures pAnimalTransmission == 1.0 ==> r == Ok(1.0)
  {
    var p := pAnimalTransmission;
    var num := p * P_SICK_GIVEN_ANIMAL_TRANSMISSION;
    var den := num + (1.0 - p) * P_SICK_GIVEN_NO_ANIMAL_TRANSMISSION;
    if den == 0.0 then Err(ZeroDivision)
    else
      UpdateBounds(p);
      Ok(num / den)
  }

  lemma UpdateBounds(p: real)
    requires p * 0.99 + 0.01 != 0.0
    ensures 0.0 <= p <= 1.0 ==> p <= p / (p * 0.99 + 0.01) <= 1.0
  {
    if 0.0 <= p <= 1.0 {
      var d := p * 0.99 + 0.01;
      assert 0.01 <= d <= 1.0;
      var q := p / d;
      assert q * d == p;
      assert q >= 0.0;
      // q * d == p with d <= 1 makes q >= p; d >= p makes q <= 1.
      assert q - q * d == q * (1.0 - d);
      Probability.MulNonNegative(q, 1.0 - d);
      assert p <= q;
      assert p <= d;
    }
  }

  /** The update never lowers a larger prior below a smaller one. */
  lemma BayesianUpdateMonotone(p1: real, p2: real)
    requires 0.0 <= p1 <= p2 <= 1.0
    ensures BayesianUpdate(p1).Ok? && BayesianUpdate(p2).Ok?
    ensures BayesianUpdate(p1).value <= BayesianUpdate(p2).value
  {
    var d1, d2 := p1 * 0.99 + 0.01, p2 * 0.99 + 0.01;
    assert d1 > 0.0 && d2 > 0.0;
    // p1 * d2 - p2 * d1 == 0.01 * (p1 - p2) <= 0
    assert p1 * d2 <= p2 * d1;
    Probability.DivideCrossed(p1, d1, p2, d2);
    assert BayesianUpdate(p1).value == p1 / d1;
    assert BayesianUpdate(p2).value == p2 / d2;
  }
}
