/** The tick-driven agent engine: humans that track their contacts, accumulate
    hazard and keep illness episodes; animal presences that emit a constant
    hazard inside a radius; and the simulation that moves every agent and then
    updates every agent, once per tick.

    Motion without recorded data, the square root and the zoonotic-probability
    model are parameters: the source leaves them to user code. */
module Engine {
  import opened Types
  import opened InfectionModels
  import opened Contacts
  import opened Sickness
  import Ticks

  // ---------------------------------------------------------------- hazard update

  /** The output hazards of a list of animal presences, in order. */
  function AnimalEmissions(animals: seq<AnimalPresence>): seq<real>
  {
    if animals == [] then []
    else AnimalEmissions(animals[..|animals| - 1]) + [animals[|animals| - 1].infectionModel.outputHazard]
  }

  /** The output hazards of a list of humans, in order, as they are now. */
  function HumanEmissions(humans: seq<Human>): (r: seq<real>)
    reads (set h | h in humans)`infectionModel
    ensures |r| == |humans|
    ensures forall i :: 0 <= i < |humans| ==> r[i] == humans[i].infectionModel.outputHazard
  {
    if humans == [] then []
    else HumanEmissions(humans[..|humans| - 1]) + [humans[|humans| - 1].infectionModel.outputHazard]
  }

  /** One tick of the hazard accumulator of `human`: the output hazard follows
      the status, both experienced hazards decay by 0.99 and then grow by the
      output hazards of the current animal and human contacts. The result is
      exactly the recurrence `Step`, read with the contacts' output hazards as
      they are after the call (a human listed among its own contacts would
      contribute its new output hazard). Spread is never simulated, so the
      human never gets sick here. */
  method InfectionProbabilityModel(human: Human, animalContacts: seq<AnimalPresence>, humanContacts: seq<Human>)
    returns (gotSick: bool)
    modifies human`infectionModel
    ensures human.infectionModel
         == Step(old(human.infectionModel), human.status, AnimalEmissions(animalContacts), HumanEmissions(humanContacts))
    ensures !gotSick
  {
    SetOutputAndDecay(human);
    AddAnimalHazards(human, animalContacts);
    AddHumanHazards(human, humanContacts);
    // Spread simulation is off, so the source returns before its random draw.
    assert !SIMULATE_SPREAD;
    gotSick := false;
  }

  /** The output hazard follows the status, then the human and the animal
      experienced hazards decay: a step without contacts. */
  method SetOutputAndDecay(human: Human)
    modifies human`infectionModel
    ensures human.infectionModel == Step(old(human.infectionModel), human.status, [], [])
  {
    match human.status {
      case Healthy => human.infectionModel := human.infectionModel.(outputHazard := HUMAN_HAZARD_HEALTHY);
      case Sick => human.infectionModel := human.infectionModel.(outputHazard := HUMAN_HAZARD_SICK);
    }
    var m := human.infectionModel;
    human.infectionModel := m.(experiencedHumanHazard := m.experiencedHumanHazard * HAZARD_DECAY);
    m := human.infectionModel;
    human.infectionModel := m.(experiencedAnimalHazard := m.experiencedAnimalHazard * HAZARD_DECAY);
  }

  /** Adds the output hazard of each animal presence, in order, to the
      experienced animal hazard; nothing else changes. */
  method AddAnimalHazards(human: Human, animals: seq<AnimalPresence>)
    modifies human`infectionModel
    ensures var m := old(human.infectionModel);
            human.infectionModel == m.(experiencedAnimalHazard := m.experiencedAnimalHazard + Sum(AnimalEmissions(animals)))
  {
    ghost var m := human.infectionModel;
    for i := 0 to |animals|
      invariant human.infectionModel
             == m.(experiencedAnimalHazard := m.experiencedAnimalHazard + Sum(AnimalEmissions(animals[..i])))
    {
      assert animals[..i + 1][..i] == animals[..i];
      var current := human.infectionModel;
      human.infectionModel :=
        current.(experiencedAnimalHazard := current.experiencedAnimalHazard + animals[i].infectionModel.outputHazard);
    }
    assert animals[..|animals|] == animals;
  }

  /** Adds the output hazard of each human contact, in order, to the
      experienced human hazard; nothing else changes. The output hazards
      read are the same before and after, even when `human` is among its
      own contacts, since only an experienced hazard is written. */
  method AddHumanHazards(human: Human, humans: seq<Human>)
    modifies human`infectionModel
    ensures HumanEmissions(humans) == old(HumanEmissions(humans))
    ensures var m := old(human.infectionModel);
            human.infectionModel == m.(experiencedHumanHazard := m.experiencedHumanHazard + Sum(HumanEmissions(humans)))
  {
    ghost var m := human.infectionModel;
    ghost var emissions := HumanEmissions(humans);
    for i := 0 to |humans|
      invariant forall j :: 0 <= j < |humans| ==> humans[j].infectionModel.outputHazard == emissions[j]
      invariant human.infectionModel
             == m.(experiencedHumanHazard := m.experiencedHumanHazard + Sum(emissions[..i]))
    {
      assert emissions[..i + 1][..i] == emissions[..i];
      var current := human.infectionModel;
      human.infectionModel :=
        current.(experiencedHumanHazard := current.experiencedHumanHazard + humans[i].infectionModel.outputHazard);
    }
    assert emissions[..|humans|] == emissions;
  }

  // ---------------------------------------------------------------- animals

  /** An animal presence: a hazard source with a fixed radius whose location
      follows its migration pattern. */
  class AnimalPresence {
    const id: int
    const migrationPattern: map<int, Location>
    const radius: real
    const infectionModel: InfectionModel
    var location: Location

    /** Starts at the earliest entry of the migration pattern, which must
        exist, emitting `hazardRate`. */
    constructor (id: int, migrationPattern: map<int, Location>, radius: real, hazardRate: real)
      requires exists t :: t in migrationPattern
      ensures this.id == id && this.migrationPattern == migrationPattern && this.radius == radius
      ensures infectionModel == InfectionModel(hazardRate, 0.0, 0.0)
      ensures var first := MinKey(migrationPattern.Keys);
              location == migrationPattern[first] && forall t :: t in migrationPattern ==> first <= t
    {
      this.id := id;
      this.migrationPattern := migrationPattern;
      assert exists t :: t in migrationPattern.Keys;
      this.location := migrationPattern[MinKey(migrationPattern.Keys)];
      this.radius := radius;
      this.infectionModel := InfectionModel(hazardRate, 0.0, 0.0);
    }

    /** Where this animal is after moving at tick `t` from `from`: the
        migration entry of that tick if there is one, otherwise `from` (the
        default animal motion does nothing). */
    function MigratedTo(t: int, from: Location): Location
    {
      if t in migrationPattern then migrationPattern[t] else from
    }

    /** Follows the migration pattern; nothing else changes. */
    method Move(sim: Simulation)
      modifies this`location
      ensures location == MigratedTo(sim.timeStep, old(location))
    {
      if sim.timeStep in migrationPattern {
        location := migrationPattern[sim.timeStep];
      }
    }

    /** Animals have no per-tick update. */
    method Update(sim: Simulation)
    {
    }
  }

  /** The animals of `animals` within their own radius of `here`, in order. */
  function AnimalsInRange(animals: seq<AnimalPresence>, here: Location, sqrt: real -> real): seq<AnimalPresence>
    reads (set a | a in animals)`location
  {
    if animals == [] then []
    else
      var pre := AnimalsInRange(animals[..|animals| - 1], here, sqrt);
      var a := animals[|animals| - 1];
      if Distance(sqrt, here, a.location) <= a.radius then pre + [a] else pre
  }

  /** The animals in range are exactly those of `animals` within their own
      radius of `here`. */
  lemma {:induction false} AnimalsInRangeExact(animals: seq<AnimalPresence>, here: Location, sqrt: real -> real)
    ensures forall a :: a in AnimalsInRange(animals, here, sqrt) ==>
              a in animals && Distance(sqrt, here, a.location) <= a.radius
    ensures forall i :: 0 <= i < |animals| && Distance(sqrt, here, animals[i].location) <= animals[i].radius ==>
              animals[i] in AnimalsInRange(animals, here, sqrt)
  {
    if animals != [] {
      var front := animals[..|animals| - 1];
      AnimalsInRangeExact(front, here, sqrt);
      assert forall i :: 0 <= i < |front| ==> front[i] == animals[i];
    }
  }

  // ---------------------------------------------------------------- humans

  /** The humans of `ids` that are open contacts, in `ids` order. */
  function Partners(ids: seq<int>, humans: map<int, Human>, active: map<int, ContactRecord>): (ps: seq<Human>)
    requires forall i :: 0 <= i < |ids| ==> ids[i] in humans
    ensures forall h :: h in ps ==> exists k :: k in active && k in humans && humans[k] == h
  {
    if ids == [] then []
    else
      var pre := Partners(ids[..|ids| - 1], humans, active);
      var k := ids[|ids| - 1];
      if k in active then pre + [humans[k]] else pre
  }

  /** Every open contact among `ids` is listed. */
  lemma {:induction false} PartnersComplete(ids: seq<int>, humans: map<int, Human>, active: map<int, ContactRecord>)
    requires forall i :: 0 <= i < |ids| ==> ids[i] in humans
    ensures forall i :: 0 <= i < |ids| && ids[i] in active ==> humans[ids[i]] in Partners(ids, humans, active)
  {
    if ids != [] {
      var front := ids[..|ids| - 1];
      PartnersComplete(front, humans, active);
      forall i | 0 <= i < |ids| && ids[i] in active
        ensures humans[ids[i]] in Partners(ids, humans, active)
      {
        if i < |front| { assert front[i] == ids[i]; }
      }
    }
  }

  /** Over distinct ids, each filed under its own id, no human is listed twice. */
  lemma {:induction false} PartnersDistinct(ids: seq<int>, humans: map<int, Human>, active: map<int, ContactRecord>)
    requires forall i :: 0 <= i < |ids| ==> ids[i] in humans && humans[ids[i]].id == ids[i]
    requires forall i, j :: 0 <= i < j < |ids| ==> ids[i] != ids[j]
    ensures forall i, j :: 0 <= i < j < |Partners(ids, humans, active)| ==>
              Partners(ids, humans, active)[i] != Partners(ids, humans, active)[j]
    ensures forall h :: h in Partners(ids, humans, active) ==> h.id in ids
  {
    if ids != [] {
      var front := ids[..|ids| - 1];
      var k := ids[|ids| - 1];
      assert forall i :: 0 <= i < |front| ==> front[i] == ids[i];
      PartnersDistinct(front, humans, active);
      assert k !in front;
      forall h | h in Partners(front, humans, active) ensures h.id in ids && h.id != k {
        var x :| 0 <= x < |front| && front[x] == h.id;
        assert ids[x] == h.id;
      }
      if k in active {
        var pre := Partners(front, humans, active);
        assert humans[k] !in pre;
        var ps := pre + [humans[k]];
        forall i, j | 0 <= i < j < |ps| ensures ps[i] != ps[j] {
          assert ps[i] == pre[i] && pre[i] in pre;
          if j < |pre| {
            assert ps[j] == pre[j];
            assert pre[i] != pre[j];
          } else {
            assert ps[j] == humans[k];
          }
        }
        assert Partners(ids, humans, active) == ps;
      }
    }
  }

  class Human {
    const id: int
    const locationHistory: map<int, Location>   // tick -> recorded location
    const selfReports: map<int, HumanStatus>    // tick -> reported status

    var location: Location
    var status: HumanStatus
    var prevStatus: HumanStatus
    var contactNetwork: map<int, ContactRecord>   // start tick -> closed contact
    var sicknessRecords: seq<SicknessRecord>
    var activeContacts: map<int, ContactRecord>   // partner id -> open contact
    var infectionModel: InfectionModel

    /** The open and closed contacts as one value. */
    function Tracking(): ContactState
      reads this`activeContacts, this`contactNetwork
    {
      ContactState(activeContacts, contactNetwork)
    }

    /** The episodes agree with the previous status, and the contacts are
        keyed by partner and never with this human. */
    ghost predicate Valid()
      reads this`sicknessRecords, this`prevStatus, this`activeContacts, this`contactNetwork
    {
      && Sickness.WellFormed(sicknessRecords, prevStatus)
      && SelfFree(Tracking(), id)
    }

    /** Valid, with every partner among `known`, and with its contacts in
        the shape of tick `t`. */
    ghost predicate ReadyFor(known: set<int>, t: int)
      reads this`sicknessRecords, this`prevStatus, this`activeContacts, this`contactNetwork
    {
      HumanReady(id, sicknessRecords, prevStatus, Tracking(), known, t)
    }

    /** Starts healthy, without contacts or episodes, at the earliest entry of
        its location history, which must exist. */
    constructor (id: int, locationHistory: map<int, Location>, reports: map<int, HumanStatus>)
      requires exists t :: t in locationHistory
      ensures this.id == id && this.locationHistory == locationHistory && selfReports == reports
      ensures var first := MinKey(locationHistory.Keys);
              location == locationHistory[first] && forall t :: t in locationHistory ==> first <= t
      ensures status == Healthy && prevStatus == Healthy
      ensures contactNetwork == map[] && activeContacts == map[] && sicknessRecords == []
      ensures infectionModel == InfectionModel(0.0, 0.0, 0.0)
      ensures Valid()
    {
      this.id := id;
      this.locationHistory := locationHistory;
      this.selfReports := reports;
      assert exists t :: t in locationHistory.Keys;
      this.location := locationHistory[MinKey(locationHistory.Keys)];
      this.status := Healthy;
      this.prevStatus := Healthy;
      this.contactNetwork := map[];
      this.sicknessRecords := [];
      this.activeContacts := map[];
      this.infectionModel := InfectionModel(0.0, 0.0, 0.0);
    }

    /** Where this human is after moving at tick `t` from `from`: the
        recorded location if there is one, otherwise the motion strategy's. */
    function MovedTo(t: int, from: Location, motion: (int, int, Location) -> Location): Location
    {
      if t in locationHistory then locationHistory[t] else motion(id, t, from)
    }

    /** The status after tick `t`: the report of that tick if there is one,
        otherwise unchanged. */
    function ReportedAt(t: int, current: HumanStatus): HumanStatus
    {
      if t in selfReports then selfReports[t] else current
    }

    /** Moves to the recorded location (or by the motion strategy) and takes
        the self-report of the tick, if any; nothing else changes. */
    method Move(sim: Simulation, motion: (int, int, Location) -> Location)
      modifies this`location, this`status
      ensures location == MovedTo(sim.timeStep, old(location), motion)
      ensures status == ReportedAt(sim.timeStep, old(status))
    {
      if sim.timeStep in locationHistory {
        location := locationHistory[sim.timeStep];
      } else {
        location := motion(id, sim.timeStep, location);
      }
      if sim.timeStep in selfReports {
        status := selfReports[sim.timeStep];
      }
    }

    /** The secondary cases of the current episode: fails unless this human
        is sick with an episode; otherwise 1 when some closed contact that
        started no earlier than the incubation look-back before onset was
        with a then-healthy partner who has an episode starting in the
        window, and 0 otherwise. `logs` holds every partner's episodes as
        they are now. Contacts are scanned in any order: the result does not
        depend on it. Nothing changes. */
    method SecondaryCases(sim: Simulation, ghost logs: map<int, seq<SicknessRecord>>) returns (r: Result<int>)
      requires forall k :: k in contactNetwork ==> contactNetwork[k].otherId in sim.humanAgents
      requires PartnersKnown(contactNetwork, logs)
      requires forall k :: k in contactNetwork ==>
                 logs[contactNetwork[k].otherId] == sim.humanAgents[contactNetwork[k].otherId].sicknessRecords
      ensures r.Err? <==> sicknessRecords == [] || status != Sick
      ensures r.Err? ==> r.error == UsageError
      ensures r.Ok? ==>
                r.value == SecondaryCount(sicknessRecords[|sicknessRecords| - 1].startTime - INCUBATION_SIM_TIME,
                                          contactNetwork, logs)
    {
      if |sicknessRecords| == 0 || status != Sick {
        return Err(UsageError);
      }
      var infectiousAt := sicknessRecords[|sicknessRecords| - 1].startTime - INCUBATION_SIM_TIME;
      var secondaryCases := 0;
      var remaining := contactNetwork.Keys;
      while exists key :: key in remaining
        invariant remaining <= contactNetwork.Keys
        invariant secondaryCases == 0
        invariant forall k :: k in contactNetwork && k !in remaining ==>
                    !Qualifies(contactNetwork[k], infectiousAt, logs[contactNetwork[k].otherId])
        decreases remaining
      {
        var key :| key in remaining;
        remaining := remaining - {key};
        var c := contactNetwork[key];
        if c.startTime >= infectiousAt {
          var other := sim.humanAgents[c.otherId];
          assert logs[c.otherId] == other.sicknessRecords;
          var incremented := false;
          ghost var hit := 0;
          for j := 0 to |other.sicknessRecords|
            invariant !incremented
            invariant forall i :: 0 <= i < j ==>
                        !(other.sicknessRecords[i].startTime >= infectiousAt && c.otherStatus == Healthy)
          {
            var sickness := other.sicknessRecords[j];
            if sickness.startTime >= infectiousAt && c.otherStatus == Healthy {
              secondaryCases := secondaryCases + 1;
              incremented := true;
              hit := j;
              break;
            }
          }
          if incremented {
            assert 0 <= hit < |logs[c.otherId]| && logs[c.otherId][hit].startTime >= infectiousAt;
            assert Qualifies(contactNetwork[key], infectiousAt, logs[contactNetwork[key].otherId]);
            // only count each contacted person once
            break;
          }
        }
      }
      return Ok(secondaryCases);
    }

    /** The animal presences within their own radius of this human, in
        simulation order. Nothing changes. */
    method AnimalContacts(sim: Simulation, sqrt: real -> real) returns (r: seq<AnimalPresence>)
      ensures r == AnimalsInRange(sim.animalAgents, location, sqrt)
    {
      r := [];
      for i := 0 to |sim.animalAgents|
        invariant r == AnimalsInRange(sim.animalAgents[..i], location, sqrt)
      {
        assert sim.animalAgents[..i + 1][..i] == sim.animalAgents[..i];
        var animal := sim.animalAgents[i];
        if Distance(sqrt, location, animal.location) <= animal.radius {
          r := r + [animal];
        }
      }
      assert sim.animalAgents[..|sim.animalAgents|] == sim.animalAgents;
    }

    /** One sighting of the contact tracking loop: a human within the
        proximity threshold opens or extends a contact, one beyond it closes
        the open contact into the network. */
    static method TrackSighting(active: map<int, ContactRecord>, network: map<int, ContactRecord>,
                                other: int, status: HumanStatus, dist: real, t: int)
      returns (active': map<int, ContactRecord>, network': map<int, ContactRecord>)
      ensures ContactState(active', network') == Track(ContactState(active, network), Sighting(other, status, dist), t)
    {
      active', network' := active, network;
      if dist <= CONTACT_NETWORK_PROXIMITY_THRESHOLD {
        if other in active {
          // already in contact with this human
          var c := active[other];
          active' := active[other := c.(totalProximity := c.totalProximity + dist)];
        } else {
          active' := active[other := ContactRecord(other, status, t, dist, None)];
        }
      } else if other in active {
        // went out of contact
        var c := active[other].(endTime := Some(t));
        active' := active - {other};
        network' := network[c.startTime := c];
      }
    }

    /** The contact tracking loop of one tick, over the table in order, by
        the human `id` standing at `location`: every other human is sighted
        where it stands, and each sighting updates the contact state. */
    static method TrackTick(sim: Simulation, id: int, location: Location, active0: map<int, ContactRecord>,
                            network0: map<int, ContactRecord>, sqrt: real -> real,
                            ghost positions: map<int, Location>, ghost statuses: map<int, HumanStatus>)
      returns (active: map<int, ContactRecord>, network: map<int, ContactRecord>)
      requires sim.Structure() && positions == sim.Positions() && statuses == sim.Statuses()
      ensures ContactState(active, network)
           == TrackAll(ContactState(active0, network0), See(sim.humanIds, positions, statuses, id, location, sqrt),
                       sim.timeStep)
    {
      var t := sim.timeStep;
      ghost var st0 := ContactState(active0, network0);
      active, network := active0, network0;
      for i := 0 to |sim.humanIds|
        invariant ContactState(active, network)
               == TrackAll(st0, See(sim.humanIds[..i], positions, statuses, id, location, sqrt), t)
      {
        assert sim.humanIds[..i + 1][..i] == sim.humanIds[..i];
        ghost var pre := See(sim.humanIds[..i], positions, statuses, id, location, sqrt);
        var human := sim.humanAgents[sim.humanIds[i]];
        if human.id != id {
          var dist := Distance(sqrt, location, human.location);
          ghost var s := Sighting(human.id, human.status, dist);
          assert See(sim.humanIds[..i + 1], positions, statuses, id, location, sqrt) == pre + [s];
          assert (pre + [s])[..|pre|] == pre;
          active, network := TrackSighting(active, network, human.id, human.status, dist, t);
        }
      }
      assert sim.humanIds[..|sim.humanIds|] == sim.humanIds;
    }

    /** Tracks every other human of the simulation, in table order, by the
        single-sighting rule: this tick's sightings are `See` of the current
        positions and statuses. Only the contacts change. */
    method TrackContacts(sim: Simulation, sqrt: real -> real)
      requires sim.Structure() && SelfFree(Tracking(), id)
      requires PartnersWithin(Tracking(), sim.humanAgents.Keys)
      modifies this`activeContacts, this`contactNetwork
      ensures Tracking()
           == TrackAll(old(Tracking()), See(sim.humanIds, old(sim.Positions()), old(sim.Statuses()), id, location, sqrt),
                       sim.timeStep)
      ensures SelfFree(Tracking(), id) && PartnersWithin(Tracking(), sim.humanAgents.Keys)
      ensures old(Contacts.WellFormed(Tracking(), id, sim.timeStep)) ==> Contacts.WellFormed(Tracking(), id, sim.timeStep + 1)
    {
      var t := sim.timeStep;
      ghost var st0 := Tracking();
      ghost var positions := sim.Positions();
      ghost var statuses := sim.Statuses();
      activeContacts, contactNetwork := TrackTick(sim, id, location, activeContacts, contactNetwork, sqrt, positions, statuses);

      ghost var seen := See(sim.humanIds, positions, statuses, id, location, sqrt);
      SeeShape(sim.humanIds, positions, statuses, id, location, sqrt);
      TrackAllWithin(st0, seen, t, id, sim.humanAgents.Keys);
      if Contacts.WellFormed(st0, id, t) {
        TrackAllInvariant(st0, seen, id, t);
      }
    }

    /** The humans of the simulation this human is in open contact with, in
        table order: every open contact with a human of the table, once.
        Nothing changes. */
    method HumanContacts(sim: Simulation) returns (r: seq<Human>)
      requires sim.Structure() && SelfFree(Tracking(), id)
      ensures r == Partners(sim.humanIds, sim.humanAgents, activeContacts)
      ensures this !in r
      ensures forall k :: k in activeContacts && k in sim.humanAgents ==> sim.humanAgents[k] in r
      ensures forall i, j :: 0 <= i < j < |r| ==> r[i] != r[j]
    {
      r := [];
      for i := 0 to |sim.humanIds|
        invariant r == Partners(sim.humanIds[..i], sim.humanAgents, activeContacts)
      {
        assert sim.humanIds[..i + 1][..i] == sim.humanIds[..i];
        var k := sim.humanIds[i];
        if k in activeContacts {
          r := r + [sim.humanAgents[k]];
        }
      }
      assert sim.humanIds[..|sim.humanIds|] == sim.humanIds;
      // every partner is filed under its own id, which is not this human's
      assert forall h :: h in r ==> h.id != id;
      PartnersComplete(sim.humanIds, sim.humanAgents, activeContacts);
      PartnersDistinct(sim.humanIds, sim.humanAgents, activeContacts);
    }

    /** A sick tick: open an episode if this is the first sick tick
        (snapshotting the hazard accumulator), then record on the current
        episode its secondary cases and, from the annotated episode, its
        zoonotic probability. Only the episodes change, as `Lifecycle` says. */
    method AnnotateEpisode(sim: Simulation, pz: SicknessRecord -> real)
      requires status == Sick && Sickness.WellFormed(sicknessRecords, prevStatus)
      requires sim.Structure() && SelfFree(Tracking(), id)
      requires PartnersWithin(Tracking(), sim.humanAgents.Keys)
      modifies this`sicknessRecords
      ensures PartnersKnown(contactNetwork, old(sim.Logs()))
      ensures sicknessRecords
           == Lifecycle(old(sicknessRecords), prevStatus, Sick, sim.timeStep, infectionModel,
                        contactNetwork, old(sim.Logs()), pz)
    {
      ghost var logs0 := sim.Logs();
      ghost var target := Lifecycle(sicknessRecords, prevStatus, Sick, sim.timeStep, infectionModel, contactNetwork, logs0, pz);
      LifecycleSick(sicknessRecords, prevStatus, sim.timeStep, infectionModel, contactNetwork, logs0, pz);
      if prevStatus == Healthy {
        sicknessRecords := sicknessRecords + [Onset(sim.timeStep, infectionModel)];
      }
      assert sicknessRecords == WithOnset(old(sicknessRecords), prevStatus, sim.timeStep, infectionModel);
      // Every partner is another human, so its episodes are untouched.
      forall k | k in contactNetwork
        ensures logs0[contactNetwork[k].otherId] == sim.humanAgents[contactNetwork[k].otherId].sicknessRecords
      {
        assert sim.humanAgents[contactNetwork[k].otherId].id != id;
      }
      var secondaryCases := SecondaryCases(sim, logs0);
      ScoreEpisode(secondaryCases.value, pz);
      assert sicknessRecords == target;
    }

    /** Records `count` secondary cases on the current episode, then its
        zoonotic probability. Only the episodes change. */
    method ScoreEpisode(count: int, pz: SicknessRecord -> real)
      requires sicknessRecords != []
      modifies this`sicknessRecords
      ensures sicknessRecords == Scored(old(sicknessRecords), count, pz)
    {
      var n := |sicknessRecords|;
      sicknessRecords := sicknessRecords[..n - 1] + [sicknessRecords[n - 1].(secondaryCases := count)];
      sicknessRecords := sicknessRecords[..n - 1] + [sicknessRecords[n - 1].(pZoonotic := pz(sicknessRecords[n - 1]))];
      assert sicknessRecords[..n - 1] == old(sicknessRecords)[..n - 1];
    }

    /** The episode bookkeeping of one tick: annotate while sick, close the
        current episode at `t` on recovery, and otherwise leave the episodes
        alone. Only the episodes change, as `Lifecycle` says. */
    method RecordSickness(sim: Simulation, pz: SicknessRecord -> real)
      requires Sickness.WellFormed(sicknessRecords, prevStatus)
      requires sim.Structure() && SelfFree(Tracking(), id)
      requires PartnersWithin(Tracking(), sim.humanAgents.Keys)
      modifies this`sicknessRecords
      ensures PartnersKnown(contactNetwork, old(sim.Logs()))
      ensures sicknessRecords
           == Lifecycle(old(sicknessRecords), prevStatus, status, sim.timeStep, infectionModel,
                        contactNetwork, old(sim.Logs()), pz)
    {
      if status == Sick {
        AnnotateEpisode(sim, pz);
      } else if prevStatus == Sick {
        var n := |sicknessRecords|;
        sicknessRecords := sicknessRecords[..n - 1] + [sicknessRecords[n - 1].(endTime := Some(sim.timeStep))];
      }
    }

    /** The hazard step of one tick: the animals in range and the humans in
        open contact feed the accumulator. Only the accumulator changes. */
    method ExperienceHazard(sim: Simulation, sqrt: real -> real)
      requires sim.Structure() && SelfFree(Tracking(), id)
      modifies this`infectionModel
      ensures infectionModel
           == Step(old(infectionModel), status, AnimalEmissions(old(AnimalsInRange(sim.animalAgents, location, sqrt))),
                   HumanEmissions(Partners(sim.humanIds, sim.humanAgents, activeContacts)))
    {
      var currentAnimalContacts := AnimalContacts(sim, sqrt);
      var currentHumanContacts := HumanContacts(sim);
      // Spread is not simulated: the model never reports a new infection,
      // so the status stays as reported.
      var gotSick := InfectionProbabilityModel(this, currentAnimalContacts, currentHumanContacts);
    }

    /** The observation half of a tick: track every other human, then step
        the hazard accumulator. Only the contacts and the accumulator change. */
    method Observe(sim: Simulation, sqrt: real -> real)
      requires sim.Structure() && SelfFree(Tracking(), id)
      requires PartnersWithin(Tracking(), sim.humanAgents.Keys)
      modifies this`activeContacts, this`contactNetwork, this`infectionModel
      ensures Tracking()
           == TrackAll(old(Tracking()), See(sim.humanIds, old(sim.Positions()), old(sim.Statuses()), id, location, sqrt),
                       sim.timeStep)
      ensures SelfFree(Tracking(), id) && PartnersWithin(Tracking(), sim.humanAgents.Keys)
      ensures old(Contacts.WellFormed(Tracking(), id, sim.timeStep)) ==> Contacts.WellFormed(Tracking(), id, sim.timeStep + 1)
      ensures sim.Logs() == old(sim.Logs())
      ensures infectionModel
           == Step(old(infectionModel), status, AnimalEmissions(old(AnimalsInRange(sim.animalAgents, location, sqrt))),
                   HumanEmissions(Partners(sim.humanIds, sim.humanAgents, activeContacts)))
    {
      ghost var heard, logs := AnimalsInRange(sim.animalAgents, location, sqrt), sim.Logs();
      TrackContacts(sim, sqrt);
      assert AnimalsInRange(sim.animalAgents, location, sqrt) == heard && sim.Logs() == logs;
      ExperienceHazard(sim, sqrt);
    }

    /** The bookkeeping half of a tick: the episodes follow `Lifecycle`,
        stay well formed, and the status becomes the previous status. */
    method Conclude(sim: Simulation, pz: SicknessRecord -> real)
      requires Sickness.WellFormed(sicknessRecords, prevStatus)
      requires sim.Structure() && SelfFree(Tracking(), id)
      requires PartnersWithin(Tracking(), sim.humanAgents.Keys)
      modifies this`sicknessRecords, this`prevStatus
      ensures prevStatus == status && Sickness.WellFormed(sicknessRecords, prevStatus)
      ensures PartnersKnown(contactNetwork, old(sim.Logs()))
      ensures sicknessRecords
           == Lifecycle(old(sicknessRecords), old(prevStatus), status, sim.timeStep, infectionModel,
                        contactNetwork, old(sim.Logs()), pz)
    {
      RecordSickness(sim, pz);
      prevStatus := status;
      LifecyclePreservesWellFormed(old(sicknessRecords), old(prevStatus), status, sim.timeStep, infectionModel,
                                   contactNetwork, old(sim.Logs()), pz);
    }

    /** One update of this human, after every agent has moved: the contacts
        are tracked, the accumulator is stepped, the episodes follow
        `Lifecycle`, and the status becomes the previous status. */
    method Update(sim: Simulation, sqrt: real -> real, pz: SicknessRecord -> real)
      requires Valid() && sim.Structure()
      requires PartnersWithin(Tracking(), sim.humanAgents.Keys)
      modifies this`activeContacts, this`contactNetwork, this`infectionModel, this`sicknessRecords, this`prevStatus
      ensures Valid()
      ensures prevStatus == status
      ensures Tracking()
           == TrackAll(old(Tracking()), See(sim.humanIds, old(sim.Positions()), old(sim.Statuses()), id, location, sqrt),
                       sim.timeStep)
      ensures PartnersWithin(Tracking(), sim.humanAgents.Keys)
      ensures old(Contacts.WellFormed(Tracking(), id, sim.timeStep)) ==> Contacts.WellFormed(Tracking(), id, sim.timeStep + 1)
      ensures infectionModel
           == Step(old(infectionModel), status, AnimalEmissions(old(AnimalsInRange(sim.animalAgents, location, sqrt))),
                   HumanEmissions(Partners(sim.humanIds, sim.humanAgents, activeContacts)))
      ensures PartnersKnown(contactNetwork, old(sim.Logs()))
      ensures sicknessRecords
           == Lifecycle(old(sicknessRecords), old(prevStatus), status, sim.timeStep, infectionModel,
                        contactNetwork, old(sim.Logs()), pz)
    {
      Observe(sim, sqrt);
      Conclude(sim, pz);
    }
  }

  // ---------------------------------------------------------------- simulation

  /** A human's state ready for the update of tick `t`: episodes agreeing
      with the previous status, contacts keyed by partner and never with
      itself, every partner among `known`, and contacts in the shape of
      tick `t`. */
  ghost predicate HumanReady(id: int, records: seq<SicknessRecord>, prevStatus: HumanStatus, st: ContactState,
                             known: set<int>, t: int)
  {
    && Sickness.WellFormed(records, prevStatus)
    && SelfFree(st, id)
    && PartnersWithin(st, known)
    && Contacts.WellFormed(st, id, t)
  }

  /** `ids` lists the keys of `table` once each, and each human is filed
      under its own id. */
  ghost predicate TableShape(ids: seq<int>, table: map<int, Human>)
  {
    && (forall i, j :: 0 <= i < j < |ids| ==> ids[i] != ids[j])
    && (forall k :: k in table <==> k in ids)
    && (forall i :: 0 <= i < |ids| ==> ids[i] in table)
    && (forall k :: k in table ==> table[k].id == k)
  }

  /** Filing a human under its id keeps the table's shape. */
  lemma TableShapeAdd(ids: seq<int>, table: map<int, Human>, h: Human)
    requires TableShape(ids, table)
    ensures TableShape(if h.id in table then ids else ids + [h.id], table[h.id := h])
  {
    if h.id !in table {
      var ids' := ids + [h.id];
      forall i, j | 0 <= i < j < |ids'| ensures ids'[i] != ids'[j] {
        if j == |ids| { assert ids[i] in table; }
      }
    }
  }

  /** Readiness survives a larger set of known ids. */
  lemma HumanReadyGrows(id: int, records: seq<SicknessRecord>, prevStatus: HumanStatus, st: ContactState,
                        known: set<int>, known': set<int>, t: int)
    requires HumanReady(id, records, prevStatus, st, known, t) && known <= known'
    ensures HumanReady(id, records, prevStatus, st, known', t)
  {
  }

  datatype Agent = HumanAgent(human: Human) | AnimalAgent(animal: AnimalPresence)

  class Simulation {
    var humanIds: seq<int>                  // the human agents' ids, in insertion order
    var humanAgents: map<int, Human>        // id -> human
    var animalAgents: seq<AnimalPresence>
    var timeStep: int

    /** The human table: `humanIds` lists its keys once each, and each human
        is filed under its own id. */
    ghost predicate Structure()
      reads this`humanIds, this`humanAgents
    {
      TableShape(humanIds, humanAgents)
    }

    /** Every human's location, by id. */
    ghost function Positions(): map<int, Location>
      reads this`humanAgents, humanAgents.Values`location
    {
      map k | k in humanAgents :: humanAgents[k].location
    }

    /** Every human's status, by id. */
    ghost function Statuses(): map<int, HumanStatus>
      reads this`humanAgents, humanAgents.Values`status
    {
      map k | k in humanAgents :: humanAgents[k].status
    }

    /** Every human's contacts, by id. */
    ghost function Trackings(): map<int, ContactState>
      reads this`humanAgents, humanAgents.Values`activeContacts, humanAgents.Values`contactNetwork
    {
      map k | k in humanAgents :: humanAgents[k].Tracking()
    }

    /** Every human's episodes, by id. */
    ghost function Logs(): map<int, seq<SicknessRecord>>
      reads this`humanAgents, humanAgents.Values`sicknessRecords
    {
      map k | k in humanAgents :: humanAgents[k].sicknessRecords
    }

    /** A human ready for the update of tick `t`: valid, with every partner
        in the table, and with its contacts in the shape of tick `t`. */
    ghost predicate Ready(h: Human, t: int)
      reads this`humanAgents, h`sicknessRecords, h`prevStatus, h`activeContacts, h`contactNetwork
    {
      h.ReadyFor(humanAgents.Keys, t)
    }

    /** Every human is ready for the update of tick `t`. */
    ghost predicate AllReady(t: int)
      reads this`humanAgents
      reads humanAgents.Values`sicknessRecords, humanAgents.Values`prevStatus
      reads humanAgents.Values`activeContacts, humanAgents.Values`contactNetwork
    {
      forall k :: k in humanAgents ==> Ready(humanAgents[k], t)
    }

    /** The table is well shaped and every human is ready for the current tick. */
    ghost predicate Valid()
      reads this, humanAgents.Values
    {
      Structure() && AllReady(timeStep)
    }

    constructor ()
      ensures humanIds == [] && humanAgents == map[] && animalAgents == [] && timeStep == 0
      ensures Valid()
    {
      humanIds := [];
      humanAgents := map[];
      animalAgents := [];
      timeStep := 0;
    }

    /** Files a human under its id, replacing any human with that id, or
        appends an animal presence. The table stays valid when the added
        human is ready for the current tick. */
    method AddAgent(agent: Agent)
      modifies this`humanIds, this`humanAgents, this`animalAgents
      ensures timeStep == old(timeStep)
      ensures agent.HumanAgent? ==>
                && humanAgents == old(humanAgents)[agent.human.id := agent.human]
                && humanIds == (if agent.human.id in old(humanAgents) then old(humanIds) else old(humanIds) + [agent.human.id])
                && animalAgents == old(animalAgents)
      ensures agent.AnimalAgent? ==>
                && humanAgents == old(humanAgents) && humanIds == old(humanIds)
                && animalAgents == old(animalAgents) + [agent.animal]
      ensures old(Valid()) && (agent.HumanAgent? ==> Ready(agent.human, timeStep)) ==> Valid()
    {
      match agent {
        case HumanAgent(h) =>
          ghost var wasValid := Valid();
          ghost var table0 := humanAgents;
          if wasValid {
            TableShapeAdd(humanIds, humanAgents, h);
          }
          if h.id !in humanAgents {
            humanIds := humanIds + [h.id];
          }
          humanAgents := humanAgents[h.id := h];
          if wasValid && Ready(h, timeStep) {
            forall k | k in humanAgents && k != h.id
              ensures Ready(humanAgents[k], timeStep)
            {
              var g := humanAgents[k];
              assert g == table0[k] && old(Ready(g, timeStep));
              HumanReadyGrows(g.id, g.sicknessRecords, g.prevStatus, g.Tracking(), table0.Keys, humanAgents.Keys, timeStep);
            }
          }
        case AnimalAgent(a) =>
          animalAgents := animalAgents + [a];
      }
    }

    /** The move phase of a tick: every human moves, in table order, then
        every animal presence. Only locations and statuses change. */
    method MoveAll(motion: (int, int, Location) -> Location)
      requires Structure()
      modifies humanAgents.Values`location, humanAgents.Values`status, (set a | a in animalAgents)`location
      ensures forall k :: k in humanAgents ==>
                && humanAgents[k].location == humanAgents[k].MovedTo(timeStep, old(humanAgents[k].location), motion)
                && humanAgents[k].status == humanAgents[k].ReportedAt(timeStep, old(humanAgents[k].status))
      ensures forall i :: 0 <= i < |animalAgents| ==>
                animalAgents[i].location == animalAgents[i].MigratedTo(timeStep, old(animalAgents[i].location))
    {
      for i := 0 to |humanIds|
        modifies humanAgents.Values`location, humanAgents.Values`status
        invariant forall k :: k in humanAgents ==>
                    if k in humanIds[..i] then
                      && humanAgents[k].location == humanAgents[k].MovedTo(timeStep, old(humanAgents[k].location), motion)
                      && humanAgents[k].status == humanAgents[k].ReportedAt(timeStep, old(humanAgents[k].status))
                    else
                      humanAgents[k].location == old(humanAgents[k].location) && humanAgents[k].status == old(humanAgents[k].status)
      {
        assert forall k :: k in humanIds[..i + 1] <==> k in humanIds[..i] || k == humanIds[i];
        humanAgents[humanIds[i]].Move(this, motion);
      }
      assert humanIds[..|humanIds|] == humanIds;
      for i := 0 to |animalAgents|
        modifies (set a | a in animalAgents)`location
        // the same presence may be listed twice; moving it again is harmless
        invariant forall j :: 0 <= j < |animalAgents| ==>
                    animalAgents[j].location
                      == if animalAgents[j] in animalAgents[..i]
                         then animalAgents[j].MigratedTo(timeStep, old(animalAgents[j].location))
                         else old(animalAgents[j].location)
      {
        assert forall a :: a in animalAgents[..i + 1] <==> a in animalAgents[..i] || a == animalAgents[i];
        animalAgents[i].Move(this);
      }
      assert animalAgents[..|animalAgents|] == animalAgents;
    }

    /** Partway through the update phase: the first `i` humans of the table
        order are ready for the next tick and have taken their status as
        previous status; the others are still ready for this tick. */
    ghost predicate PhaseReady(i: int)
      reads this`humanIds, this`humanAgents, this`timeStep
      reads humanAgents.Values`sicknessRecords, humanAgents.Values`prevStatus, humanAgents.Values`status
      reads humanAgents.Values`activeContacts, humanAgents.Values`contactNetwork
      requires Structure()
    {
      forall j :: 0 <= j < |humanIds| ==>
        var h := humanAgents[humanIds[j]];
        var st := ContactState(h.activeContacts, h.contactNetwork);
        if j < i then HumanReady(h.id, h.sicknessRecords, h.prevStatus, st, humanAgents.Keys, timeStep + 1) && h.prevStatus == h.status
        else HumanReady(h.id, h.sicknessRecords, h.prevStatus, st, humanAgents.Keys, timeStep)
    }

    /** `positions` and `statuses` hold every human's location and status, by id. */
    ghost predicate Located(positions: map<int, Location>, statuses: map<int, HumanStatus>)
      reads this`humanAgents, humanAgents.Values`location, humanAgents.Values`status
    {
      && positions.Keys == humanAgents.Keys && statuses.Keys == humanAgents.Keys
      && forall k :: k in humanAgents ==> positions[k] == humanAgents[k].location && statuses[k] == humanAgents[k].status
    }

    /** Partway through the update phase: the first `i` humans of the table
        order have tracked one tick from their contacts `before`, sighting
        the humans at `positions` with `statuses` from their own position;
        the others still have their contacts from `before`. */
    ghost predicate PhaseTracked(i: int, before: map<int, ContactState>, positions: map<int, Location>,
                                 statuses: map<int, HumanStatus>, sqrt: real -> real)
      reads this`humanIds, this`humanAgents, this`timeStep
      reads humanAgents.Values`activeContacts, humanAgents.Values`contactNetwork
      requires Structure() && positions.Keys == humanAgents.Keys && statuses.Keys == humanAgents.Keys
    {
      forall j :: 0 <= j < |humanIds| ==>
        var k := humanIds[j];
        k in before &&
        ContactState(humanAgents[k].activeContacts, humanAgents[k].contactNetwork)
          == if j < i then TrackAll(before[k], See(humanIds, positions, statuses, k, positions[k], sqrt), timeStep)
             else before[k]
    }

    /** Updates human `h`, filed under `humanIds[i]`, against the humans at
        `positions` with `statuses`: it becomes ready for the next tick, takes
        its status as previous status, and tracks one tick from its own
        position. Only its contacts, accumulator, episodes and previous status
        change. */
    method UpdateOwn(i: int, h: Human, sqrt: real -> real, pz: SicknessRecord -> real,
                     ghost positions: map<int, Location>, ghost statuses: map<int, HumanStatus>)
      requires Structure() && 0 <= i < |humanIds| && humanAgents[humanIds[i]] == h
      requires h.ReadyFor(humanAgents.Keys, timeStep) && Located(positions, statuses)
      modifies h`activeContacts, h`contactNetwork, h`infectionModel, h`sicknessRecords, h`prevStatus
      ensures HumanReady(h.id, h.sicknessRecords, h.prevStatus, ContactState(h.activeContacts, h.contactNetwork), humanAgents.Keys, timeStep + 1)
      ensures h.prevStatus == h.status
      ensures var k := humanIds[i];
              ContactState(h.activeContacts, h.contactNetwork)
                == TrackAll(old(h.Tracking()), See(humanIds, positions, statuses, k, positions[k], sqrt), timeStep)
      ensures h.infectionModel
           == Step(old(h.infectionModel), h.status, AnimalEmissions(old(AnimalsInRange(animalAgents, h.location, sqrt))),
                   HumanEmissions(Partners(humanIds, humanAgents, h.activeContacts)))
      ensures PartnersKnown(h.contactNetwork, old(Logs()))
      ensures h.sicknessRecords
           == Lifecycle(old(h.sicknessRecords), old(h.prevStatus), h.status, timeStep, h.infectionModel,
                        h.contactNetwork, old(Logs()), pz)
    {
      assert h.id == humanIds[i] && h.location == positions[humanIds[i]];
      LocatedIsCurrent(positions, statuses);
      h.Update(this, sqrt, pz);
    }

    /** Updates human `h`, the `i`-th of the table order, against the humans
        at `positions` with `statuses`: the update phase advances by one
        human. */
    method UpdateHuman(i: int, h: Human, sqrt: real -> real, pz: SicknessRecord -> real, ghost before: map<int, ContactState>,
                       ghost positions: map<int, Location>, ghost statuses: map<int, HumanStatus>)
      requires Structure() && 0 <= i < |humanIds| && humanAgents[humanIds[i]] == h && Located(positions, statuses)
      requires PhaseReady(i) && PhaseTracked(i, before, positions, statuses, sqrt)
      modifies h`activeContacts, h`contactNetwork, h`infectionModel, h`sicknessRecords, h`prevStatus
      ensures PhaseReady(i + 1) && PhaseTracked(i + 1, before, positions, statuses, sqrt)
    {
      UpdateOwn(i, h, sqrt, pz, positions, statuses);
      forall j | 0 <= j < |humanIds| && j != i
        ensures humanAgents[humanIds[j]] != h
      {
        assert humanAgents[humanIds[j]].id == humanIds[j];
      }
    }

    /** Updates every human in table order, from the start of the update
        phase to its end. */
    method UpdateInOrder(sqrt: real -> real, pz: SicknessRecord -> real, ghost before: map<int, ContactState>,
                         ghost positions: map<int, Location>, ghost statuses: map<int, HumanStatus>)
      requires Structure() && Located(positions, statuses)
      requires PhaseReady(0) && PhaseTracked(0, before, positions, statuses, sqrt)
      modifies humanAgents.Values`activeContacts, humanAgents.Values`contactNetwork
      modifies humanAgents.Values`infectionModel, humanAgents.Values`sicknessRecords, humanAgents.Values`prevStatus
      ensures Structure() && Located(positions, statuses)
      ensures PhaseReady(|humanIds|) && PhaseTracked(|humanIds|, before, positions, statuses, sqrt)
    {
      for i := 0 to |humanIds|
        modifies humanAgents.Values`activeContacts, humanAgents.Values`contactNetwork
        modifies humanAgents.Values`infectionModel, humanAgents.Values`sicknessRecords, humanAgents.Values`prevStatus
        invariant Structure()
        invariant forall k :: k in humanAgents ==> positions[k] == humanAgents[k].location && statuses[k] == humanAgents[k].status
        invariant PhaseReady(i) && PhaseTracked(i, before, positions, statuses, sqrt)
      {
        UpdateHuman(i, humanAgents[humanIds[i]], sqrt, pz, before, positions, statuses);
      }
    }

    /** Every human has tracked one tick at `t` from its contacts `before`:
        its sightings are of every human at its current location with its
        current status, seen from its own location. */
    ghost predicate TickTracked(before: map<int, ContactState>, sqrt: real -> real, t: int)
      reads this`humanIds, this`humanAgents
      reads humanAgents.Values`activeContacts, humanAgents.Values`contactNetwork
      reads humanAgents.Values`location, humanAgents.Values`status
      requires Structure()
    {
      forall k :: k in humanAgents ==>
        k in before &&
        humanAgents[k].Tracking()
          == TrackAll(before[k], See(humanIds, Positions(), Statuses(), k, humanAgents[k].location, sqrt), t)
    }

    /** A valid table is at the start of the update phase. */
    lemma PhaseStarts(sqrt: real -> real)
      requires Valid()
      ensures Located(Positions(), Statuses())
      ensures PhaseReady(0) && PhaseTracked(0, Trackings(), Positions(), Statuses(), sqrt)
    {
      assert Structure() && AllReady(timeStep);
      forall j | 0 <= j < |humanIds|
        ensures humanAgents[humanIds[j]].ReadyFor(humanAgents.Keys, timeStep)
      {
        var k := humanIds[j];
        assert k in humanAgents;
        assert Ready(humanAgents[k], timeStep);
      }
    }

    /** At the end of the update phase every human is ready for the next
        tick and has taken its status as previous status. */
    lemma PhaseEnds()
      requires Structure() && PhaseReady(|humanIds|)
      ensures AllReady(timeStep + 1)
      ensures forall k :: k in humanAgents ==> humanAgents[k].prevStatus == humanAgents[k].status
    {
      forall k | k in humanAgents
        ensures Ready(humanAgents[k], timeStep + 1) && humanAgents[k].prevStatus == humanAgents[k].status
      {
        var j :| 0 <= j < |humanIds| && humanIds[j] == k;
        assert humanAgents[humanIds[j]].ReadyFor(humanAgents.Keys, timeStep + 1);
      }
    }

    /** At the end of the update phase every human has tracked one tick. */
    lemma PhaseTrackedEnds(sqrt: real -> real, before: map<int, ContactState>,
                           positions: map<int, Location>, statuses: map<int, HumanStatus>)
      requires Structure() && Located(positions, statuses)
      requires PhaseTracked(|humanIds|, before, positions, statuses, sqrt)
      ensures TickTracked(before, sqrt, timeStep)
    {
      LocatedIsCurrent(positions, statuses);
      forall k | k in humanAgents
        ensures k in before
        ensures humanAgents[k].Tracking()
                  == TrackAll(before[k], See(humanIds, Positions(), Statuses(), k, humanAgents[k].location, sqrt), timeStep)
      {
        var j :| 0 <= j < |humanIds| && humanIds[j] == k;
        assert humanAgents[k].location == positions[k];
      }
    }

    /** The snapshot of every location and status is the current one. */
    lemma LocatedIsCurrent(positions: map<int, Location>, statuses: map<int, HumanStatus>)
      requires Located(positions, statuses)
      ensures positions == Positions() && statuses == Statuses()
    {
      assert positions.Keys == Positions().Keys && statuses.Keys == Statuses().Keys;
      assert forall k :: k in positions ==> positions[k] == Positions()[k];
      assert forall k :: k in statuses ==> statuses[k] == Statuses()[k];
    }

    /** The humans' update phase, in table order: every human becomes ready
        for the next tick, takes its status as previous status, and tracks
        one tick from its own position, sighting every human where the move
        phase left it. */
    method UpdateHumans(sqrt: real -> real, pz: SicknessRecord -> real)
      requires Valid()
      modifies humanAgents.Values`activeContacts, humanAgents.Values`contactNetwork
      modifies humanAgents.Values`infectionModel, humanAgents.Values`sicknessRecords, humanAgents.Values`prevStatus
      ensures AllReady(timeStep + 1)
      ensures forall k :: k in humanAgents ==> humanAgents[k].prevStatus == humanAgents[k].status
      ensures TickTracked(old(Trackings()), sqrt, timeStep)
    {
      ghost var before := Trackings();
      ghost var positions, statuses := Positions(), Statuses();
      PhaseStarts(sqrt);
      UpdateInOrder(sqrt, pz, before, positions, statuses);
      PhaseEnds();
      PhaseTrackedEnds(sqrt, before, positions, statuses);
    }

    /** The animals' update phase, which changes nothing. */
    method UpdateAnimals()
      ensures unchanged(this) && unchanged(humanAgents.Values)
      ensures old(AllReady(timeStep + 1)) ==> AllReady(timeStep + 1)
    {
      for i := 0 to |animalAgents|
      {
        animalAgents[i].Update(this);
      }
    }

    /** The end of the update phase, once every human is ready for the next
        tick: the animals' update, which changes nothing, then the tick
        advances. */
    method FinishTick(sqrt: real -> real, ghost before: map<int, ContactState>)
      requires Structure() && AllReady(timeStep + 1) && TickTracked(before, sqrt, timeStep)
      modifies this`timeStep
      ensures timeStep == old(timeStep) + 1
      ensures Valid() && TickTracked(before, sqrt, old(timeStep))
    {
      UpdateAnimals();
      assert AllReady(timeStep + 1);
      assert TickTracked(before, sqrt, timeStep);
      timeStep := timeStep + 1;
    }

    /** The update phase of a tick: every human in table order, then every
        animal presence, whose update does nothing; then the tick advances.
        Locations and statuses do not change. */
    method UpdatePhase(sqrt: real -> real, pz: SicknessRecord -> real)
      requires Valid()
      modifies this`timeStep
      modifies humanAgents.Values`activeContacts, humanAgents.Values`contactNetwork
      modifies humanAgents.Values`infectionModel, humanAgents.Values`sicknessRecords, humanAgents.Values`prevStatus
      ensures timeStep == old(timeStep) + 1
      ensures Valid()
      ensures forall k :: k in humanAgents ==> humanAgents[k].prevStatus == humanAgents[k].status
      ensures TickTracked(old(Trackings()), sqrt, old(timeStep))
    {
      ghost var before := Trackings();
      UpdateHumans(sqrt, pz);
      FinishTick(sqrt, before);
    }

    /** One tick: the move phase, then the update phase, then the tick
        advances. Every sighting of the tick therefore sees the moved
        positions. */
    method Update(motion: (int, int, Location) -> Location, sqrt: real -> real, pz: SicknessRecord -> real)
      requires Valid()
      modifies this`timeStep, humanAgents.Values, set a | a in animalAgents
      ensures humanIds == old(humanIds) && humanAgents == old(humanAgents) && animalAgents == old(animalAgents)
      ensures timeStep == old(timeStep) + 1
      ensures Valid()
      ensures forall k :: k in humanAgents ==>
                && humanAgents[k].location == humanAgents[k].MovedTo(old(timeStep), old(humanAgents[k].location), motion)
                && humanAgents[k].status == humanAgents[k].ReportedAt(old(timeStep), old(humanAgents[k].status))
                && humanAgents[k].prevStatus == humanAgents[k].status
      ensures forall i :: 0 <= i < |animalAgents| ==>
                animalAgents[i].location == animalAgents[i].MigratedTo(old(timeStep), old(animalAgents[i].location))
      ensures TickTracked(old(Trackings()), sqrt, old(timeStep))
    {
      MoveAll(motion);
      UpdatePhase(sqrt, pz);
    }

    /** Runs ticks until the tick counter passes the stop bound (70 ticks):
        at least one tick, and exactly as many as `StepsUntilStop` says. */
    method Run(motion: (int, int, Location) -> Location, sqrt: real -> real, pz: SicknessRecord -> real)
      returns (steps: nat)
      requires Valid()
      modifies this, humanAgents.Values, set a | a in animalAgents
      ensures humanIds == old(humanIds) && humanAgents == old(humanAgents) && animalAgents == old(animalAgents)
      ensures Valid()
      ensures steps == Ticks.StepsUntilStop(old(timeStep), Ticks.SecondsToSimTicks(Ticks.STOP_SIM_AFTER))
      ensures timeStep == old(timeStep) + steps
    {
      var bound := Ticks.SecondsToSimTicks(Ticks.STOP_SIM_AFTER);
      var running := true;
      steps := 0;
      while running
        invariant humanIds == old(humanIds) && humanAgents == old(humanAgents) && animalAgents == old(animalAgents)
        invariant Valid()
        invariant timeStep == old(timeStep) + steps
        invariant running ==> steps == 0 || timeStep <= bound
        invariant running ==>
                    Ticks.StepsUntilStop(old(timeStep), bound) == steps + Ticks.StepsUntilStop(timeStep, bound)
        invariant !running ==> steps == Ticks.StepsUntilStop(old(timeStep), bound)
        decreases running, bound - timeStep
      {
        Update(motion, sqrt, pz);
        steps := steps + 1;
        if timeStep > bound {
          running := false;
        }
      }
    }
  }
}
