/** The per-agent hazard accumulator: a status-dependent output hazard and two
    exponentially decaying exposure channels (animal and human). */
module InfectionModels {
  import opened Types

  /** When false, status is driven only by self-reports. */
  const SIMULATE_SPREAD: bool := false

  const HUMAN_HAZARD_HEALTHY: real := 0.0
  const HUMAN_HAZARD_SICK: real := 0.03
  const HAZARD_DECAY: real := 0.99

  datatype InfectionModel = InfectionModel(
    outputHazard: real,
    experiencedAnimalHazard: real,
    experiencedHumanHazard: real)
  {
    function TotalExperiencedHazard(): real
    {
      experiencedAnimalHazard + experiencedHumanHazard
    }
  }

  /** The output hazard of a human in the given status. */
  function OutputHazardFor(status: HumanStatus): (r: real)
    ensures r == 0.0 <==> status == Healthy
    ensures status == Sick ==> r == 0.03
  {
    match status
    case Healthy => HUMAN_HAZARD_HEALTHY
    case Sick => HUMAN_HAZARD_SICK
  }

  /** Sum of a sequence of emissions, accumulated left to right. */
  function Sum(s: seq<real>): real
  {
    if s == [] then 0.0 else Sum(s[..|s| - 1]) + s[|s| - 1]
  }

  lemma {:induction false} SumNonNegative(s: seq<real>)
    requires forall i :: 0 <= i < |s| ==> s[i] >= 0.0
    ensures Sum(s) >= 0.0
  {
    if s != [] {
      SumNonNegative(s[..|s| - 1]);
    }
  }

  /** One tick of the accumulator: output hazard set from the status, both
      channels decayed, then each animal in range adds its emission to the
      animal channel and each human in contact adds its output hazard to the
      human channel. */
  function Step(m: InfectionModel, status: HumanStatus,
                animalEmissions: seq<real>, humanEmissions: seq<real>): InfectionModel
  {
    InfectionModel(
      OutputHazardFor(status),
      m.experiencedAnimalHazard * HAZARD_DECAY + Sum(animalEmissions),
      m.experiencedHumanHazard * HAZARD_DECAY + Sum(humanEmissions))
  }

  /** With no contacts both channels, and so the total, just decay. */
  lemma StepWithoutContactsDecays(m: InfectionModel, status: HumanStatus)
    ensures Step(m, status, [], []).experiencedAnimalHazard == m.experiencedAnimalHazard * 0.99
    ensures Step(m, status, [], []).experiencedHumanHazard == m.experiencedHumanHazard * 0.99
    ensures Step(m, status, [], []).TotalExperiencedHazard() == m.TotalExperiencedHazard() * 0.99
  {
  }

  /** Decay comes before the additions: the emissions of this tick are added
      in full, not decayed. */
  lemma StepAddsEmissionsUndecayed(m: InfectionModel, status: HumanStatus,
                                   ae: seq<real>, he: seq<real>)
    ensures Step(m, status, ae, he).experiencedAnimalHazard
         == Step(m, status, [], []).experiencedAnimalHazard + Sum(ae)
    ensures Step(m, status, ae, he).experiencedHumanHazard
         == Step(m, status, [], []).experiencedHumanHazard + Sum(he)
  {
  }

  predicate NonNegative(m: InfectionModel)
  {
    m.experiencedAnimalHazard >= 0.0 && m.experiencedHumanHazard >= 0.0
  }

  /** Non-negative channels and emissions give non-negative channels. */
  lemma {:induction false} StepPreservesNonNegative(m: InfectionModel, status: HumanStatus,
                                                     ae: seq<real>, he: seq<real>)
    requires NonNegative(m)
    requires forall i :: 0 <= i < |ae| ==> ae[i] >= 0.0
    requires forall i :: 0 <= i < |he| ==> he[i] >= 0.0
    ensures NonNegative(Step(m, status, ae, he))
    ensures Step(m, status, ae, he).outputHazard >= 0.0
  {
    SumNonNegative(ae);
    SumNonNegative(he);
  }

  /** `n` ticks in range of one animal emitting `e`, with no human contact. */
  function Exposed(m: InfectionModel, status: HumanStatus, e: real, n: nat): InfectionModel
  {
    if n == 0 then m else Step(Exposed(m, status, e, n - 1), status, [e], [])
  }

  function Pow(d: real, i: nat): real
  {
    if i == 0 then 1.0 else d * Pow(d, i - 1)
  }

  /** The geometric sum e * d^0 + ... + e * d^(n-1). */
  function DecayedTotal(e: real, d: real, n: nat): real
  {
    if n == 0 then 0.0 else DecayedTotal(e, d, n - 1) + e * Pow(d, n - 1)
  }

  /** Decaying the partial sum and adding one fresh emission extends it by one term. */
  lemma {:induction false} DecayedTotalShift(e: real, d: real, n: nat)
    ensures DecayedTotal(e, d, n) * d + e == DecayedTotal(e, d, n + 1)
    decreases n
  {
    if n > 0 {
      DecayedTotalShift(e, d, n - 1);
      Regroup(DecayedTotal(e, d, n), DecayedTotal(e, d, n - 1), e, Pow(d, n - 1), d, Pow(d, n));
    }
  }

  /** The ring identity behind `DecayedTotalShift`: with a = t + e * p,
      q = d * p and t * d + e = a, decaying a and adding e adds e * q. */
  lemma Regroup(a: real, t: real, e: real, p: real, d: real, q: real)
    requires a == t + e * p && q == d * p && t * d + e == a
    ensures a * d + e == a + e * q
  {
  }

  /** Closed form: from an empty animal channel, `n` ticks of constant
      emission `e` leave e * (1 + 0.99 + ... + 0.99^(n-1)) in it. */
  lemma {:induction false} ExposedClosedForm(m: InfectionModel, status: HumanStatus, e: real, n: nat)
    requires m.experiencedAnimalHazard == 0.0
    ensures Exposed(m, status, e, n).experiencedAnimalHazard == DecayedTotal(e, HAZARD_DECAY, n)
  {
    if n > 0 {
      ExposedClosedForm(m, status, e, n - 1);
      assert Sum([e]) == e;
      DecayedTotalShift(e, HAZARD_DECAY, n - 1);
    }
  }

  /** Without human contact, the human channel just decays geometrically. */
  lemma {:induction false} ExposedHumanChannel(m: InfectionModel, status: HumanStatus, e: real, n: nat)
    ensures Exposed(m, status, e, n).experiencedHumanHazard == m.experiencedHumanHazard * Pow(HAZARD_DECAY, n)
  {
    if n > 0 {
      ExposedHumanChannel(m, status, e, n - 1);
      assert Sum([]) == 0.0;
    }
  }
}
