# zv-sim agent engine in Dafny

A model of the tick-driven agent engine of the zv-sim zoonotic-spread
simulator, with proofs about it.

A simulation holds a table of human agents and a list of animal presences.
Each tick has two phases. First every agent moves: the humans in table order,
then the animals. Then every agent updates. Updating a human does four things:

- it tracks its contacts with every other human within 20 units, opening,
  accumulating and closing contact records;
- it collects the animal presences whose radius it is inside;
- it steps its hazard accumulator (the infection model);
- it keeps its illness episodes (sickness records): onset with a snapshot of
  the accumulator, secondary cases, zoonotic probability and recovery.

After the update phase the tick counter advances. The run loop stops at the
first tick after the counter exceeds the stop bound of 70 ticks.

Two sets of Bayesian helpers are modelled as pure functions over reals:

- the zoonotic posterior from the animal hazard and the secondary-case count;
- the simpler transmission filter.

Modules:

| module | models |
|---|---|
| `Types` | status, locations, `Option`/`Result`, Euclidean distance, `min` over keys |
| `Ticks` | `seconds_to_sim_ticks` and the stop bound of the run loop |
| `InfectionModels` | `InfectionModel`, the hazard constants, the pure recurrence of one hazard step and its closed form |
| `Contacts` | `HumanContactRecord` and the per-sighting contact-tracking rule |
| `Sickness` | `HumanSicknessRecord`, the secondary-case count and the episode lifecycle as functions |
| `Probability` | the zoonotic posterior of `probability.py` |
| `Filters` | `TransmissionModel` and `bayesian_update` |
| `Engine` | the classes `Human`, `AnimalPresence`, `Simulation` and the in-place hazard update, each method proved against the functions above |

Humans, animal presences, the simulation and the transmission model are
classes whose fields the methods update in place. Records and the infection
model are datatypes: they are values, so the deep copy taken at onset cannot
be reached by later hazard updates.

Some functions belong to code outside the model or to the host platform. They
are parameters, constrained only by what the proofs use:

- the motion strategy used when no location is recorded;
- the square root of the distance computation;
- the zoonotic-probability model that scores an episode;
- `exp`: positive, monotone, `exp(0) = 1`;
- the Poisson pmf: in (0, 1] for k ≥ 0 and a positive rate.

`Sickness.ZoonoticEstimate` scores an episode by the posterior of
`probability.py`. It returns a `Result`, so it is not itself a scoring
parameter: a scoring function built from it must choose a probability for the
error case. In the source, `poisson.pmf` returns a `numpy.float64`, so a zero
total weight makes the division give `nan` or `inf` with a `RuntimeWarning`,
not a `ZeroDivisionError`. The `Err` of `Probability.Posterior` stands for that
value.

The program never calls that posterior. `agents.py` imports
`bayesian_p_zoonotic` (agents.py:14), but it scores episodes through the
user-supplied `zoonotic_probability_model` (agents.py:165). That is why the
model takes the scorer as a parameter, and `Probability.BayesianPZoonotic` is
not the scorer the program runs.

Where the code and its comments disagree, the model follows the code:

- `secondary_cases` leaves the whole scan at the first qualifying contact, so
  it counts 0 or 1, not one case per contacted individual
  (`Sickness.SecondaryCountStopsAtFirstPartner`).
- The closed contact network is keyed by start tick alone, so two contacts
  that start together overwrite each other (`Contacts.NetworkKeyCollision`).
  The open contacts of two humans stay symmetric (`Contacts.TickSymmetric`),
  but their closed networks need not: a human who closes two contacts
  started on the same tick loses one that its partner still files
  (`Contacts.NetworkAsymmetry`).

## Model

| member | source | states |
|---|---|---|
| Types.Distance | agents.py:116-118 | definition: the host square root of the squared coordinate deltas; the scans built on it are stated by `Engine.AnimalsInRangeExact` and `Contacts.SeeShape` |
| Types.DistanceSymmetric | agents.py:116-118 | two humans measure the same distance to each other, so each is in range of the other exactly when the other is in range of it |
| Types.MinKey | agents.py:72-74 | the chosen key is in the key set and no key is smaller (Python's `min` over a dict) |
| Ticks.Truncate | simulator.py:17-18 | `int()` truncates toward zero: floor for non-negative reals, ceiling for negative ones |
| Ticks.SecondsToSimTicks | simulator.py:17-18 | a non-negative number of seconds gives r ≥ 0 with 10·r ≤ s < 10·(r+1); a negative one gives the mirror bound |
| Ticks.SecondsToSimTicksMonotone | simulator.py:17-18 | the conversion is monotone on non-negative seconds |
| Ticks.TickConstants | agents.py:19 | 300 s is 30 ticks (the incubation window) and the 700 s stop bound is 70 ticks |
| Ticks.StepsUntilStop | simulator.py:66-74 | the loop that compares the counter after each step runs at least one step, ends with the counter past the bound, and had not passed it one step earlier |
| Ticks.RunLength | simulator.py:66-74 | from tick 0 the run performs exactly 71 steps |
| InfectionModels.InfectionModel.TotalExperiencedHazard | user.py:38-39 | definition: the sum of the two channels; its property is `InfectionModels.StepWithoutContactsDecays` (without contacts the total decays by 0.99) |
| InfectionModels.Step | user.py:51-84 | definition of one tick of the accumulator with spread simulation off (status never changes here); its properties are `InfectionModels.StepWithoutContactsDecays`, `StepAddsEmissionsUndecayed`, `StepPreservesNonNegative`, `ExposedClosedForm` and `ExposedHumanChannel` |
| InfectionModels.OutputHazardFor | user.py:56-61 | the output hazard is 0 exactly when healthy, and 0.03 when sick |
| InfectionModels.StepWithoutContactsDecays | user.py:63-65 | without contacts both channels, and so the total experienced hazard, become exactly 0.99 times their old value |
| InfectionModels.StepAddsEmissionsUndecayed | user.py:63-75 | decay comes before the additions: each channel is its decayed value plus the undecayed sum of this tick's emissions |
| InfectionModels.StepPreservesNonNegative | user.py:63-75 | non-negative channels and emissions give non-negative channels and a non-negative output hazard |
| InfectionModels.ExposedClosedForm | user.py:63-70 | from an empty animal channel, n ticks next to one animal emitting e leave e·(1 + 0.99 + … + 0.99^(n-1)) in it |
| InfectionModels.ExposedHumanChannel | user.py:63-75 | without human contacts the human channel after n ticks is its start value times 0.99^n |
| Probability.PHazardGivenZoonotic | probability.py:10-11 | 1 - exp(-E) is below 1, is 0 at E = 0, and is non-negative for E ≥ 0 |
| Probability.PHazardMonotone | probability.py:10-11 | 1 - exp(-E) is non-decreasing in E |
| Probability.PSecondaryCasesGivenZoonotic | probability.py:14-15 | the Poisson(k; 0.1) likelihood lies in (0, 1] for k ≥ 0 |
| Probability.PSecondaryCasesGivenNonZoonotic | probability.py:18-19 | the Poisson(k; 2.0) likelihood lies in (0, 1] for k ≥ 0 |
| Probability.Posterior | probability.py:27-30 | the division fails exactly when the total weight is 0; a result times the total is the Z weight; for f_E in [0, 1] and positive likelihoods it succeeds and lies in [0, 1] |
| Probability.PosteriorExtremes | probability.py:27-30 | f_E = 0 gives posterior 0 and f_E = 1 gives posterior 1 |
| Probability.PosteriorMonotone | probability.py:27-30 | for fixed likelihoods the posterior is non-decreasing in f_E |
| Probability.BayesianPZoonotic | probability.py:22-30 | for hazard ≥ 0 and k ≥ 0 the posterior exists and lies in [0, 1]; zero hazard gives exactly 0 |
| Probability.BayesianPZoonoticMonotone | probability.py:22-30 | for a fixed count, more hazard never lowers the posterior |
| Filters.TransmissionModel.constructor | filters.py:8-10 | the hazard starts at the given value, 0 by default |
| Filters.TransmissionModel.AddHazard | filters.py:12-13 | the hazard grows by exactly rate × duration, with duration 1 by default; nothing else changes |
| Filters.TransmissionModel.GetPAnimalTransmission | filters.py:15-16 | 1 - exp(-hazard) is below 1, 0 at zero hazard, and non-negative for non-negative hazard |
| Filters.BayesianUpdate | filters.py:19-27 | the division fails exactly at p = -1/99; for p in [0, 1] the result lies in [p, 1]; 0 and 1 are fixed points |
| Filters.BayesianUpdateMonotone | filters.py:19-27 | on [0, 1] the update is non-decreasing in p |
| Contacts.Duration | agents.py:36-37 | an open contact has no duration; a closed one lasts from its start to its end |
| Contacts.AverageProximity | agents.py:39-40 | fails exactly for an open contact or one of zero duration; otherwise the average times the duration is the total proximity |
| Contacts.Track | agents.py:112-138 | definition of one sighting's effect on the open contacts and the network; its properties are `Contacts.TrackEnters`, `TrackStays`, `TrackLeaves` and `TrackIgnores` |
| Contacts.TrackAll | agents.py:112-138 | definition of one tick of sightings, applied in table order; its properties are `Contacts.TrackAllInvariant`, `TrackAllActiveOf`, `TrackAllNetwork` and `TrackAllWithin` |
| Contacts.TrackEnters | agents.py:120-132 | entering range with no open record opens one at this tick, with this distance and the partner's current status; the network is unchanged |
| Contacts.TrackStays | agents.py:120-123 | staying in range adds this tick's distance to the open record's total and changes nothing else |
| Contacts.TrackLeaves | agents.py:133-138 | leaving range removes the open record, ends it at this tick and files it under its start tick, replacing any entry there |
| Contacts.TrackIgnores | agents.py:133-135 | out of range with no open record, nothing changes |
| Contacts.TrackAllInvariant | agents.py:112-138 | a tick of tracking keeps open records keyed by partner, unended and started before the next tick, and closed records ended strictly after their start |
| Contacts.ClosedContactsHaveAverage | agents.py:36-40 | every closed contact of a well-formed state lasted at least one tick and has an average proximity |
| Contacts.TrackAllActiveOf | agents.py:112-138 | over distinct partners a tick of tracking does to each partner's open record exactly what its own sighting does |
| Contacts.TrackAllNetwork | agents.py:133-138 | within a tick the network keeps its keys, and every changed entry is an open record of this partner ended now |
| Contacts.SeeShape | agents.py:112-118 | a tick sights every other human of the table once, with its current status and distance, and never the observer |
| Contacts.TrackAllWithin | agents.py:112-138 | tracking keeps every record keyed by its partner, never with the observer, and every partner a known human |
| Contacts.TrackSymmetric | agents.py:120-138 | a mutual sighting at one distance keeps the two open halves of a contact in agreement (both hold it, with the same start, or neither does); a contact opened now starts now, and one that ends is closed at this tick by both sides under the same start tick |
| Contacts.TickSymmetric | agents.py:112-138 | contact symmetry for open contacts over a whole tick: two humans of the table whose open halves agree at the start of a tick still agree after both have tracked that tick's sightings |
| Contacts.NetworkAsymmetry | agents.py:133-138 | one concrete case where the closed halves disagree: a human who closes two contacts started on the same tick keeps only one, so its network loses the contact its partner still files |
| Contacts.NetworkKeyCollision | agents.py:138 | one concrete case of the start-tick key: two contacts started on the same tick and closed in the same tick leave one network entry, the one closed last (the general overwrite is `Contacts.TrackLeaves`) |
| Sickness.HasSecondaryCase | agents.py:184-195 | definition: some closed contact started in the infectious window with a then-healthy partner who has an episode starting in that window; its properties are `Sickness.SecondaryCountBounded` and `SecondaryCountDependsOnPartners` |
| Sickness.SecondaryCount | agents.py:177-201 | definition of the count as written, which stops at the first qualifying partner although the comment at agents.py:176 promises one case per partner; its properties are `Sickness.SecondaryCountBounded`, `SecondaryCountStopsAtFirstPartner` and `SecondaryCountDependsOnPartners` |
| Sickness.QualifyingPartners | agents.py:184-199 | definition: the partners the comment at agents.py:176 would count once each; `Sickness.SecondaryCountStopsAtFirstPartner` shows the count as written can be below their number |
| Sickness.SecondaryCountBounded | agents.py:181-201 | the count is 0 or 1, it is 1 exactly when some partner qualifies, and it never exceeds the number of qualifying partners |
| Sickness.SecondaryCountStopsAtFirstPartner | agents.py:184-199 | two distinct qualifying partners still give a count of 1 |
| Sickness.SecondaryCountDependsOnPartners | agents.py:184-195 | the count depends only on the logs of partners in the network |
| Sickness.WithOnset | agents.py:155-160 | definition: Healthy → Sick appends an episode starting now with a snapshot of the accumulator; its property is `Sickness.LifecycleOnset` |
| Sickness.Scored | agents.py:163-167 | definition: the last episode gets the count and then the score of the annotated record; its properties are `Sickness.LifecycleSick` and `LifecycleWhileSick` |
| Sickness.Annotated | agents.py:162-167 | definition: the count over the network from the last episode's infectious window, then the scoring; its properties are `Sickness.LifecycleSick` and `LifecycleWhileSick` |
| Sickness.Lifecycle | agents.py:153-174 | definition of one tick of the episode list; its properties are `Sickness.LifecycleSick`, `LifecyclePreservesWellFormed`, `LifecycleWhileSick`, `LifecycleOnset`, `LifecycleRecovery` and `LifecycleKeepsHistory` |
| Sickness.LifecycleSick | agents.py:153-167 | a sick tick appends an onset if needed and then scores the current episode; the episodes are never empty then |
| Sickness.LifecyclePreservesWellFormed | agents.py:153-174 | after an update every episode but the last is closed, and the last is open exactly when the new previous status is sick |
| Sickness.LifecycleWhileSick | agents.py:153-167 | while sick the last episode is open, has this tick's secondary count and the zoonotic score of the record so annotated |
| Sickness.LifecycleOnset | agents.py:155-160 | Healthy → Sick appends exactly one episode, starting now, whose snapshot is the current accumulator, and keeps the older ones |
| Sickness.LifecycleRecovery | agents.py:169-172 | Sick → Healthy ends the last episode now and changes nothing else |
| Sickness.LifecycleKeepsHistory | agents.py:153-172 | no episode is removed, at most one is added, starts and snapshots are kept, and closed episodes are never modified |
| Sickness.ZoonoticEstimate | probability.py:22-30 | scoring an episode by the posterior of its snapshot's animal hazard and its count gives a probability, and 0 without animal hazard |
| Engine.HumanEmissions | user.py:72-75 | one output hazard per human contact, in order |
| Engine.InfectionProbabilityModel | user.py:51-79 | the accumulator becomes the one-tick recurrence of its old value, the status and the contacts' output hazards; it never reports a new infection |
| Engine.SetOutputAndDecay | user.py:56-65 | the output hazard follows the status and both channels decay: the recurrence without contacts |
| Engine.AddAnimalHazards | user.py:67-70 | the animal channel grows by the sum of the animals' output hazards; nothing else changes |
| Engine.AddHumanHazards | user.py:72-75 | the human channel grows by the sum of the contacts' output hazards, which are left as they were; nothing else changes |
| Engine.AnimalPresence.constructor | agents.py:208-221 | starts at the earliest entry of its migration pattern, emitting its hazard rate with empty channels |
| Engine.AnimalPresence.Move | agents.py:223-227 | moves to the pattern's entry for this tick if there is one and otherwise stays |
| Engine.AnimalPresence.Update | agents.py:229-230 | the animals' update does nothing: it has no `modifies` clause; its property is `Engine.Simulation.UpdateAnimals` |
| Engine.AnimalsInRange | agents.py:101-109 | definition of the animal scan, in list order; its property is `Engine.AnimalsInRangeExact` |
| Engine.AnimalsInRangeExact | agents.py:101-109 | the animals in range are exactly the animals of the list within their own radius of the human |
| Engine.Partners | agents.py:140-142 | every listed human is the table's human for an open contact |
| Engine.PartnersComplete | agents.py:140-142 | every open contact with a human of the table lists that human |
| Engine.PartnersDistinct | agents.py:140-142 | over a table of distinct ids, each human filed under its own id, no human is listed twice and every listed human's id is in the table |
| Engine.Human.constructor | agents.py:60-86 | starts healthy at the earliest recorded location, with no contacts, no episodes and a zero accumulator |
| Engine.Human.Move | agents.py:88-95 | moves to the recorded location of this tick or else by the motion strategy, and takes this tick's self-report if any; nothing else changes |
| Engine.Human.SecondaryCases | agents.py:177-201 | fails with a usage error exactly when there is no episode or the human is not sick; otherwise returns the secondary count of the current episode's window |
| Engine.Human.AnimalContacts | agents.py:101-109 | the animal presences within their own radius, in simulation order |
| Engine.Human.TrackSighting | agents.py:120-138 | one sighting updates the open contacts and the network exactly as the per-sighting rule says |
| Engine.Human.TrackTick | agents.py:112-138 | the loop over the table leaves the contacts as the tracking of this tick's sightings of every other human, in table order |
| Engine.Human.TrackContacts | agents.py:112-138 | the contacts become the tracking of this tick's sightings of every other human at its current location; no contact is with the human itself, every partner is in the table, and the shape of the contact state carries over to the next tick |
| Engine.Human.HumanContacts | agents.py:140-142 | the humans with an open contact, in table order: every open contact with a human of the table appears, and appears once, and the human itself never does |
| Engine.Human.AnnotateEpisode | agents.py:153-167 | the episodes become the sick branch of the lifecycle for this tick |
| Engine.Human.ScoreEpisode | agents.py:162-167 | the current episode gets the count, then the zoonotic score of the annotated record |
| Engine.Human.RecordSickness | agents.py:153-172 | the episodes become the lifecycle of this tick for the current and previous status |
| Engine.Human.ExperienceHazard | agents.py:101-146 | the accumulator takes one recurrence step with the animals in range (where they stood when the step began) and the humans in open contact |
| Engine.Human.Observe | agents.py:101-146 | contact tracking and then the hazard step, each as stated above; the tracking sights every human where it stood when the update began, and no episode log changes |
| Engine.Human.Conclude | agents.py:153-174 | the episodes follow the lifecycle and stay well formed, and the previous status becomes the status |
| Engine.Human.Update | agents.py:97-174 | the contacts are this tick's tracking, the accumulator takes one recurrence step with the animals in range and the humans in open contact, the episodes follow the lifecycle for this tick, every partner of the network has an episode log, the previous status becomes the status, the human stays valid, and the contacts keep their shape for the next tick |
| Engine.TableShapeAdd | simulator.py:29 | filing a human under its id keeps every id listed once and every human under its own id |
| Engine.HumanReadyGrows | simulator.py:29 | a human ready for a tick stays ready when more humans join the table |
| Engine.Simulation.constructor | simulator.py:22-25 | no agents and tick 0 |
| Engine.Simulation.AddAgent | simulator.py:27-31 | a human is filed under its id, replacing any with that id, and an animal is appended; nothing else changes |
| Engine.Simulation.MoveAll | simulator.py:34-35 | every human and every animal take their move for this tick; only locations and statuses change |
| Engine.Simulation.UpdateOwn | simulator.py:37-38 | the i-th human becomes ready for the next tick, takes its status as previous status, and tracks one tick from its own location, sighting every human where the move phase left it; its accumulator takes the `Step` of its old value with the animals in range and the output hazards of its open partners as they are at its turn; its network holds only partners of the table; its episodes are the `Lifecycle` of this tick |
| Engine.Simulation.UpdateHuman | simulator.py:37-38 | after the i-th human's update the first i+1 humans are ready for the next tick and have tracked this tick, and the rest still have the contacts they started the phase with |
| Engine.Simulation.UpdateInOrder | simulator.py:37-38 | after the loop over the table every human is ready for the next tick and has tracked this tick; locations and statuses do not change |
| Engine.Simulation.UpdateHumans | simulator.py:37-38 | every human is ready for the next tick, has taken its status as previous status, and has tracked one tick of sightings of every human at its moved position |
| Engine.Simulation.UpdateAnimals | agents.py:229-230 | the animals' update leaves the simulation and every human unchanged |
| Engine.Simulation.FinishTick | simulator.py:37-40 | after the animals' update the counter goes up by one, every human's tracking of this tick carries over, and the simulation is valid again |
| Engine.Simulation.UpdatePhase | simulator.py:37-40 | the update phase and the counter step: the counter goes up by one, every human has tracked this tick and taken its status as previous status, and the simulation is valid again |
| Engine.Simulation.Update | simulator.py:33-40 | one tick: every agent moves as stated, then every human tracks one tick of sightings of the moved positions; the table is unchanged, the counter goes up by exactly one, and the simulation is valid again |
| Engine.Simulation.Run | simulator.py:66-74 | runs exactly as many ticks as the stop rule gives and leaves the simulation valid |

## Left out

- Display and console output: `display.py`, `main`'s display toggle and
  `print_results` are user interface. `Engine.Simulation.Run` models the loop
  with the display off. With the display on, `render()` calls
  `self.simulation.get_current_real_time()` (display.py:64), which the
  simulation does not define, so the first frame raises `AttributeError` and
  the run stops there.
- `data.py` and the initial `D0_HUMANS`/`D0_ANIMALS` agents: literal data,
  and those names are never defined.
- Randomness: the random walk of `human_motion` is a motion-strategy
  parameter. The stochastic infection branch of `infection_probability_model`
  is out because spread simulation is off, so a human's status changes only
  by self-report.
- Engine.Human.constructor: requires a non-empty location history. The
  source raises `ValueError` from `min` of an empty dict (agents.py:73); the
  model has no such error path.
- Engine.AnimalPresence.constructor: requires a non-empty migration pattern.
  The source raises `ValueError` from `min` of an empty dict (agents.py:214);
  the model has no such error path.
- Engine.Human.Move: as written, `human_motion` takes one argument but is
  called with two (agents.py:92 against user.py:10), so the first tick with
  no recorded location raises `TypeError` and stops the run. The model
  assumes the evident intent: it passes the human's id, the tick and the
  current location to the strategy and assigns the result.
- Engine.AnimalPresence.Move: the default animal motion does nothing, so the
  model keeps the location when no migration entry exists.
- Location aliasing: the current location and the history entry it was
  loaded from are the same object in the source, so an in-place random walk
  would rewrite the recorded trajectory. Locations are values here.
- Engine.Human.ScoreEpisode: as written, `zoonotic_probability_model` takes
  no arguments and returns nothing, yet it is called with the current record
  (agents.py:165 against user.py:28), so the first sick tick raises
  `TypeError` and stops the run. The model assumes the evident intent and
  takes the scorer as a parameter that maps a record to a probability.
- Floating point: reals stand in for floats; `math.sqrt`, `math.exp` and the
  Poisson pmf are parameters. Overflow, underflow, NaN and rounding are not
  modelled.
- Contacts.AverageProximity: the source raises a `TypeError` for an open
  contact and a `ZeroDivisionError` for a zero-length one. The model returns
  `DataError` and `ZeroDivision`.
- Engine.Human.SecondaryCases: contacts are scanned in an arbitrary order.
  The source uses the network's insertion order. The result is the same
  either way.
- Engine.Human.HumanContacts: the open contacts are listed in table order,
  not in the order the contacts opened. The channel gets the same sum of the
  same hazards either way.
- Engine.Simulation.UpdateHuman: the contract carries readiness, previous
  status and contact tracking through the phase, not the hazard step and the
  episodes. Those are stated for the i-th human's turn on
  `Engine.Simulation.UpdateOwn`, and are not carried to later turns.
- Engine.Simulation.UpdateInOrder: like `UpdateHuman`, the loop's invariant
  and contract state readiness and tracking only, not each human's hazard
  step and episodes.
- Engine.Simulation.UpdatePhase: like `UpdateHumans`, it states readiness,
  previous status, tracking and the counter step, not each human's hazard
  step and episodes.
- Engine.Simulation.UpdateHumans: the contract states every human's
  readiness, previous status and contact tracking, not each human's
  accumulator and episodes. Those are stated per turn on
  `Engine.Simulation.UpdateOwn` and per human on `Engine.Human.Update`. They read the other humans as they are at that
  human's turn: a partner earlier in the table order already has this tick's
  output hazard, and a later one still has the previous tick's.
- Engine.Simulation.Update: like `UpdateHumans`, it states moves, tracking
  and readiness for the whole table, not each human's hazard step and
  episodes.
- A Dafny function always gives the same result for the same arguments, so
  the purity of `bayesian_p_zoonotic` holds by construction and has no lemma.
- `__repr__` methods, imports, and the circular import between `agents.py`
  and `simulator.py` are out.
