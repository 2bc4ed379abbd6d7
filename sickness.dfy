/** Illness episodes of one human: opened on a Healthy -> Sick transition
    with a frozen copy of the hazard accumulator, annotated every sick tick
    with the secondary-case count and the zoonotic posterior, and closed on
    the Sick -> Healthy transition. */
module Sickness {
  import opened Types
  import opened InfectionModels
  import opened Contacts
  import Ticks
  import Probability

  /** The look-back before onset during which contacts may be causal (30 ticks). */
  const INCUBATION_SIM_TIME: int := Ticks.SecondsToSimTicks(300.0)

  datatype SicknessRecord = SicknessRecord(
    startTime: int,
    startInfectionModel: InfectionModel,   // a value: later hazard updates never reach it
    pZoonotic: real,
    endTime: Option<int>,
    secondaryCases: int)

  /** A fresh episode at tick `t`, with the defaults of the source. */
  function Onset(t: int, model: InfectionModel): SicknessRecord
  {
    SicknessRecord(t, model, 0.0, None, 0)
  }

  /** Episodes and the previous status agree: every episode but the last is
      closed, and the last is open exactly when the human was sick. */
  predicate WellFormed(records: seq<SicknessRecord>, prevStatus: HumanStatus)
  {
    && (forall i :: 0 <= i < |records| - 1 ==> records[i].endTime.Some?)
    && (prevStatus == Sick <==> records != [] && records[|records| - 1].endTime.None?)
  }

  // ---------------------------------------------------------------- secondary cases

  /** Every partner in the network has a known sickness log. */
  predicate PartnersKnown(network: map<int, ContactRecord>, logs: map<int, seq<SicknessRecord>>)
  {
    forall k :: k in network ==> network[k].otherId in logs
  }

  /** A closed contact that counts as a secondary case: it started inside the
      window, the partner was healthy then, and the partner has an episode
      starting inside the window. */
  predicate Qualifies(c: ContactRecord, infectiousAt: int, partnerLog: seq<SicknessRecord>)
  {
    && c.startTime >= infectiousAt
    && c.otherStatus == Healthy
    && exists j :: 0 <= j < |partnerLog| && partnerLog[j].startTime >= infectiousAt
  }

  predicate HasSecondaryCase(infectiousAt: int, network: map<int, ContactRecord>,
                             logs: map<int, seq<SicknessRecord>>)
    requires PartnersKnown(network, logs)
  {
    exists k :: k in network && Qualifies(network[k], infectiousAt, logs[network[k].otherId])
  }

  /** The count the source's nested scan produces: its outer `break` ends the
      whole scan at the first qualifying contact, so it is 0 or 1. */
  function SecondaryCount(infectiousAt: int, network: map<int, ContactRecord>,
                          logs: map<int, seq<SicknessRecord>>): int
    requires PartnersKnown(network, logs)
  {
    if HasSecondaryCase(infectiousAt, network, logs) then 1 else 0
  }

  /** The distinct partners with a qualifying contact: what a count of "one
      case per partner" would count. */
  function QualifyingPartners(infectiousAt: int, network: map<int, ContactRecord>,
                              logs: map<int, seq<SicknessRecord>>): set<int>
    requires PartnersKnown(network, logs)
  {
    set k | k in network && Qualifies(network[k], infectiousAt, logs[network[k].otherId]) :: network[k].otherId
  }

  /** The scan's result is 1 exactly when some partner qualifies, and never
      exceeds the number of distinct qualifying partners. */
  lemma SecondaryCountBounded(infectiousAt: int, network: map<int, ContactRecord>,
                              logs: map<int, seq<SicknessRecord>>)
    requires PartnersKnown(network, logs)
    ensures SecondaryCount(infectiousAt, network, logs) == 0 || SecondaryCount(infectiousAt, network, logs) == 1
    ensures SecondaryCount(infectiousAt, network, logs) == 1 <==> QualifyingPartners(infectiousAt, network, logs) != {}
    ensures SecondaryCount(infectiousAt, network, logs) <= |QualifyingPartners(infectiousAt, network, logs)|
  {
    var q := QualifyingPartners(infectiousAt, network, logs);
    if HasSecondaryCase(infectiousAt, network, logs) {
      var k :| k in network && Qualifies(network[k], infectiousAt, logs[network[k].otherId]);
      assert network[k].otherId in q;
    }
    if q != {} {
      var p :| p in q;
      var k :| k in network && Qualifies(network[k], infectiousAt, logs[network[k].otherId]) && network[k].otherId == p;
      assert HasSecondaryCase(infectiousAt, network, logs);
    }
  }

  /** Two different partners that both qualify still yield a count of one:
      the scan stops after the first partner, although two distinct partners
      qualify. */
  lemma SecondaryCountStopsAtFirstPartner(infectiousAt: int, network: map<int, ContactRecord>,
                                          logs: map<int, seq<SicknessRecord>>, k1: int, k2: int)
    requires PartnersKnown(network, logs)
    requires k1 in network && Qualifies(network[k1], infectiousAt, logs[network[k1].otherId])
    requires k2 in network && Qualifies(network[k2], infectiousAt, logs[network[k2].otherId])
    requires network[k1].otherId != network[k2].otherId
    ensures SecondaryCount(infectiousAt, network, logs) == 1
    ensures |QualifyingPartners(infectiousAt, network, logs)| >= 2
  {
    var q := QualifyingPartners(infectiousAt, network, logs);
    var pair := {network[k1].otherId, network[k2].otherId};
    assert pair <= q;
    assert |pair| == 2;
    assert q == pair + (q - pair);
    assert |q| == |pair| + |q - pair|;
  }

  /** Only the logs of partners in the network matter. */
  lemma SecondaryCountDependsOnPartners(infectiousAt: int, network: map<int, ContactRecord>,
                                        logs1: map<int, seq<SicknessRecord>>,
                                        logs2: map<int, seq<SicknessRecord>>)
    requires PartnersKnown(network, logs1) && PartnersKnown(network, logs2)
    requires forall k :: k in network ==> logs1[network[k].otherId] == logs2[network[k].otherId]
    ensures SecondaryCount(infectiousAt, network, logs1) == SecondaryCount(infectiousAt, network, logs2)
  {
    if HasSecondaryCase(infectiousAt, network, logs1) {
      var k :| k in network && Qualifies(network[k], infectiousAt, logs1[network[k].otherId]);
      assert Qualifies(network[k], infectiousAt, logs2[network[k].otherId]);
    }
    if HasSecondaryCase(infectiousAt, network, logs2) {
      var k :| k in network && Qualifies(network[k], infectiousAt, logs2[network[k].otherId]);
      assert Qualifies(network[k], infectiousAt, logs1[network[k].otherId]);
    }
  }

  // ---------------------------------------------------------------- lifecycle

  /** The episodes with an onset at tick `t` appended when the human was
      healthy before. */
  function WithOnset(records: seq<SicknessRecord>, prevStatus: HumanStatus, t: int, model: InfectionModel)
    : seq<SicknessRecord>
  {
    if prevStatus == Healthy then records + [Onset(t, model)] else records
  }

  /** The current episode given `count` secondary cases, and then the
      zoonotic probability of the episode so annotated. */
  function Scored(records: seq<SicknessRecord>, count: int, pz: SicknessRecord -> real): seq<SicknessRecord>
    requires records != []
  {
    var counted := records[|records| - 1].(secondaryCases := count);
    records[..|records| - 1] + [counted.(pZoonotic := pz(counted))]
  }

  /** The current episode scored with the secondary cases of its window. */
  function Annotated(records: seq<SicknessRecord>, network: map<int, ContactRecord>,
                     logs: map<int, seq<SicknessRecord>>, pz: SicknessRecord -> real): seq<SicknessRecord>
    requires records != [] && PartnersKnown(network, logs)
  {
    Scored(records, SecondaryCount(records[|records| - 1].startTime - INCUBATION_SIM_TIME, network, logs), pz)
  }

  /** Episodes after one update at tick `t`, where `status` is the status
      after this tick's move and `model` the hazard accumulator after this
      tick's hazard update. `pz` is the zoonotic-probability model. */
  function Lifecycle(records: seq<SicknessRecord>, prevStatus: HumanStatus, status: HumanStatus,
                     t: int, model: InfectionModel,
                     network: map<int, ContactRecord>, logs: map<int, seq<SicknessRecord>>,
                     pz: SicknessRecord -> real): seq<SicknessRecord>
    requires WellFormed(records, prevStatus)
    requires PartnersKnown(network, logs)
  {
    if status == Sick then
      Annotated(WithOnset(records, prevStatus, t, model), network, logs, pz)
    else if prevStatus == Sick then
      records[..|records| - 1] + [records[|records| - 1].(endTime := Some(t))]
    else
      records
  }

  /** A sick tick is the scoring of the episodes with any onset appended. */
  lemma LifecycleSick(records: seq<SicknessRecord>, prevStatus: HumanStatus, t: int, model: InfectionModel,
                      network: map<int, ContactRecord>, logs: map<int, seq<SicknessRecord>>,
                      pz: SicknessRecord -> real)
    requires WellFormed(records, prevStatus) && PartnersKnown(network, logs)
    ensures var withOnset := WithOnset(records, prevStatus, t, model);
            && withOnset != []
            && Lifecycle(records, prevStatus, Sick, t, model, network, logs, pz)
               == Scored(withOnset, SecondaryCount(withOnset[|withOnset| - 1].startTime - INCUBATION_SIM_TIME, network, logs), pz)
  {
  }

  /** One update keeps the episodes well formed, with this tick's status as
      the new previous status. */
  lemma LifecyclePreservesWellFormed(records: seq<SicknessRecord>, prevStatus: HumanStatus, status: HumanStatus,
                                     t: int, model: InfectionModel,
                                     network: map<int, ContactRecord>, logs: map<int, seq<SicknessRecord>>,
                                     pz: SicknessRecord -> real)
    requires WellFormed(records, prevStatus) && PartnersKnown(network, logs)
    ensures WellFormed(Lifecycle(records, prevStatus, status, t, model, network, logs, pz), status)
  {
  }

  /** While sick, the last episode is open and carries this tick's count and
      the posterior of the record so annotated. */
  lemma LifecycleWhileSick(records: seq<SicknessRecord>, prevStatus: HumanStatus,
                           t: int, model: InfectionModel,
                           network: map<int, ContactRecord>, logs: map<int, seq<SicknessRecord>>,
                           pz: SicknessRecord -> real)
    requires WellFormed(records, prevStatus) && PartnersKnown(network, logs)
    ensures var r := Lifecycle(records, prevStatus, Sick, t, model, network, logs, pz);
            && r != []
            && r[|r| - 1].endTime.None?
            && r[|r| - 1].secondaryCases == SecondaryCount(r[|r| - 1].startTime - INCUBATION_SIM_TIME, network, logs)
            && r[|r| - 1].pZoonotic == pz(r[|r| - 1].(pZoonotic := if prevStatus == Healthy then 0.0 else records[|records| - 1].pZoonotic))
  {
  }

  /** Healthy -> Sick appends exactly one episode, starting now, whose
      snapshot is the current accumulator; older episodes are untouched. */
  lemma LifecycleOnset(records: seq<SicknessRecord>, t: int, model: InfectionModel,
                       network: map<int, ContactRecord>, logs: map<int, seq<SicknessRecord>>,
                       pz: SicknessRecord -> real)
    requires WellFormed(records, Healthy) && PartnersKnown(network, logs)
    ensures var r := Lifecycle(records, Healthy, Sick, t, model, network, logs, pz);
            && |r| == |records| + 1
            && r[..|records|] == records
            && r[|records|].startTime == t
            && r[|records|].startInfectionModel == model
  {
    var r := Lifecycle(records, Healthy, Sick, t, model, network, logs, pz);
    var withOnset := records + [Onset(t, model)];
    assert withOnset[..|withOnset| - 1] == records;
  }

  /** Sick -> Healthy closes the last episode at `t` and changes nothing else. */
  lemma LifecycleRecovery(records: seq<SicknessRecord>, t: int, model: InfectionModel,
                          network: map<int, ContactRecord>, logs: map<int, seq<SicknessRecord>>,
                          pz: SicknessRecord -> real)
    requires WellFormed(records, Sick) && PartnersKnown(network, logs)
    ensures var r := Lifecycle(records, Sick, Healthy, t, model, network, logs, pz);
            && |r| == |records|
            && r[..|r| - 1] == records[..|records| - 1]
            && r[|r| - 1] == records[|records| - 1].(endTime := Some(t))
  {
  }

  /** Whatever the transition, existing episodes keep their start and their
      onset snapshot, closed episodes are never modified, and no episode is
      removed. */
  lemma LifecycleKeepsHistory(records: seq<SicknessRecord>, prevStatus: HumanStatus, status: HumanStatus,
                              t: int, model: InfectionModel,
                              network: map<int, ContactRecord>, logs: map<int, seq<SicknessRecord>>,
                              pz: SicknessRecord -> real)
    requires WellFormed(records, prevStatus) && PartnersKnown(network, logs)
    ensures var r := Lifecycle(records, prevStatus, status, t, model, network, logs, pz);
            && |records| <= |r| <= |records| + 1
            && (forall i :: 0 <= i < |records| ==>
                  r[i].startTime == records[i].startTime
                  && r[i].startInfectionModel == records[i].startInfectionModel)
            && (forall i :: 0 <= i < |records| && records[i].endTime.Some? ==> r[i] == records[i])
  {
  }

  /** The posterior of the source's estimator, applied to an episode: the
      onset snapshot's animal hazard and the current secondary-case count. */
  function ZoonoticEstimate(exp: real -> real, pmf: (int, real) -> real, r: SicknessRecord): (p: Result<real>)
    requires Probability.IsExp(exp) && Probability.IsPoissonPmf(pmf)
    ensures r.startInfectionModel.experiencedAnimalHazard >= 0.0 && r.secondaryCases >= 0 ==>
              p.Ok? && 0.0 <= p.value <= 1.0
    ensures r.startInfectionModel.experiencedAnimalHazard == 0.0 && r.secondaryCases >= 0 ==> p == Ok(0.0)
  {
    Probability.BayesianPZoonotic(exp, pmf, r.startInfectionModel.experiencedAnimalHazard, r.secondaryCases)
  }
}
