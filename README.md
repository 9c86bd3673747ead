# Epidemic simulation core, modelled in Dafny

This project models the core of an agent-based epidemic simulation built on
the Mesa framework. Persons live on a toroidal grid. Each tick, every living
person may move to a neighbouring cell unless it is in quarantine or the
country is in lockdown. An infected person then infects cell-mates at random,
may self-quarantine, may become critical (hospital when beds are free, death
otherwise), and recovers once its infection clock reaches the recovery
period, possibly gaining immunity. The simulation records five series each
tick: active cases, deaths, immune, hospitalized and a lockdown spike. It
opens or closes the hospitals from the latest hospitalized count and runs a
lockdown countdown that a pluggable policy restarts. The reference policy
declares three weeks of lockdown whenever some recent active-case count
exceeds a fifth of the population.

Three modules follow the three source files:

- `Run` (`run.dfy`) holds the reference lockdown policy. It is a pure
  function returning either a decision or the error Python would raise.
- `Persons` (`person.dfy`) holds the class `Person`. Its fields are updated
  in place by methods that follow the Python methods. The one extra method,
  `Settle`, splits off the recovery-or-critical tail of `while_infected`
  (person.py:62-74). Each method is proved against value-level functions on
  `PersonState`:
  - `Infect` is `set_infected`;
  - `Progress` and `Outcome` are `while_infected`;
  - `Tick` is `step`.

  On top of these sit the invariant `Consistent` and the "allowed change"
  relation `Evolves`. Lemmas about one tick and about arbitrary runs of
  events are proved from them.
- `Model` (`model.dfy`) holds the counters, the
  lockdown spike and countdown, and the class `Simulation`. The class keeps
  the agents and the recorded series as fields. Its `Step` method keeps the
  invariant `Valid`: every agent consistent, the series in bounds, and the
  deaths and immune series never decreasing.

  The scheduler's pass over the agents is a loop, `RunSchedule`, outside the
  class. Each turn, `Activation` runs one agent's step (`StepAgent`). It is
  proved against the value-level fold `Schedule`, built from one
  `Activate` per turn, and the positions against the fold `Moves`. Lemmas
  about these folds state that each agent is activated once, that
  consistency is kept and that infection needs an infected agent.

All randomness is passed in as inputs:

- A `Draws` record holds the outcomes of the draws one activation may make,
  in the order the source makes them.
- The grid is given as a target cell per activation and the list of agents
  sharing the cell.
- The scheduler's random order is a permutation `order`.
- The initial infection draws and positions of `create_agents` are sequences.

Where the system's documentation and its code differ, the model follows the
code:

- Recovery resets neither `time_infected` nor `in_quarantine`. The source's
  `self.quarantine = False` sets an unrelated attribute.
- The hospital counter is never decremented. `self.hospitalized - 1`
  discards its result, so a hospital stay ends only in death.
- A person is among its own cell-mates. Its own infection draw can restart
  its own clock in the middle of `while_infected`.
- Dead persons remain on the grid, can be infected, and are counted as
  active cases while infected.
- The lockdown gate stops movement only; it has no effect on infection.

## Model

| member | source | states |
|---|---|---|
| Run.Window | run.py:14 | `infected[-20:]` is the last 20 entries, or the whole list when shorter |
| Run.Max | run.py:14 | `max` of a non-empty list is an element and bounds every element |
| Run.LockdownPolicy | run.py:9-16 | raises exactly on an empty history (`max` of an empty list, checked first) or a zero population (division by zero); otherwise declares 0 or 21*12 ticks |
| Run.DeclaresIffRecentEntryAboveFifth | run.py:14-16 | for a positive population: 21*12 exactly when one of the last 20 entries exceeds a fifth of the population, and 0 exactly when none does (a ratio of exactly 0.2 declares none) |
| Run.OnlyRecentEntriesMatter | run.py:9-16 | entries older than the last 20, and the deaths series, never change the decision |
| Run.ShortHistoryExaminedWhole | run.py:14-15 | with fewer than 20 entries, any entry above a fifth triggers a lockdown |
| Run.MonotoneInWindow | run.py:14-15 | raising recent active-case counts cannot cancel a declared lockdown |
| Run.LatestAboveTwentyOnePercentDeclares | run.py:14-15 | a latest count of at least 21% of the population declares a lockdown |
| Persons.Person.constructor | person.py:6-13 | a new person is alive, uninfected, out of hospital, not immune, not in quarantine, clock 0, and not yet placed |
| Persons.Person.SetQuarantine | person.py:25-27 | sets the quarantine flag and changes nothing else |
| Persons.Person.SetInfected | person.py:29-33 | an immune person is unchanged; anyone else (already infected or dead included) is infected with the clock at 0 |
| Persons.InfectKeepsConsistent | person.py:29-33 | infection keeps the person consistent, is an allowed change, and infects exactly the non-immune |
| Persons.Person.InfectOthers | person.py:35-41 | with more than one agent in the cell, every cell-mate (self and dead agents included) whose draw succeeds is infected and no one else changes; alone, nothing changes |
| Persons.Person.WhileInfected | person.py:43-74 | the person's fields follow `Progress`; the other cell-mates are infected only when the person spreads (not in hospital or quarantine) and their draw succeeds |
| Persons.Person.Settle | person.py:62-74 | the recovery-or-critical tail follows `Outcome`: hospital or death on a critical draw within the period, recovery with possible immunity after it |
| Persons.Person.Move | person.py:76-84 | the person moves to the target unless in quarantine or lockdown, then progresses its infection only if infected |
| Persons.Person.Step | person.py:86-88 | a dead person does nothing; the new state is `Tick`, movement is gated by liveness, quarantine and lockdown, and every touched person stays consistent and changes only in allowed ways |
| Persons.TickKeepsConsistent | person.py:43-88 | one tick keeps the invariant (immune persons are uninfected; hospitalized ones are alive, infected and quarantined) and is an allowed change |
| Persons.DeadStepChangesNothing | person.py:86-88 | a step of a dead person leaves its state unchanged |
| Persons.ProgressClock | person.py:43-74 | the infection clock goes up by one per tick, except that a successful self-infection restarts it at 0 |
| Persons.HospitalTick | person.py:46-57 | in hospital a tick either kills the person (clearing alive, infected and hospitalized) or changes nothing but the clock |
| Persons.RecoveryTick | person.py:70-74 | past the recovery period the person ends uninfected and alive, quarantine as the draw left it, immune exactly when the immunity draw succeeds |
| Persons.WithinPeriodTick | person.py:62-69 | within the recovery period a critical draw leads to hospital (for the hospital period, in quarantine) when beds are free and to death otherwise; without it the person stays infected |
| Persons.LockdownDoesNotStopProgress | person.py:76-84 | the lockdown gate has no effect on a person's health progression |
| Persons.OneTickRecoveryScenario | person.py:43-74 | with a one-tick recovery period a person recovers immune after one tick unless its own infection draw restarts its clock |
| Persons.NoBedScenario | person.py:62-69 | a critical person dies when no hospital bed is available |
| Persons.RunKeepsConsistent | person.py:29-88 | over any sequence of own steps and infections by cell-mates the invariant holds and every change is allowed |
| Persons.DeathIsAbsorbing | person.py:86-88 | a dead person stays dead over any run, with its hospital counter, immunity and quarantine flags untouched; a consistent dead person stays out of hospital |
| Persons.ImmunityIsPermanent | person.py:29-33 | an immune person stays immune and is never infected again |
| Persons.HospitalStayEndsOnlyInDeath | person.py:46-57 | a hospitalized person either stays in hospital with the same counter or dies; it never recovers |
| Persons.DeadCanBeInfected | person.py:29-41 | a dead, non-immune person is infected by a cell-mate's successful draw |
| Model.CountWhere | model.py:11-44 | a counter never exceeds the population |
| Model.CountWhereSplit | model.py:11-44 | a counter adds one per qualifying agent, additively over any split of the population |
| Model.CountWhereExtremes | model.py:11-44 | a counter is 0 exactly when no agent qualifies and the population size exactly when all do |
| Model.ActiveCases | model.py:11-17 | active cases never exceed the population |
| Model.TotalHospitalized | model.py:20-26 | the hospitalized count never exceeds the population |
| Model.TotalDeaths | model.py:29-35 | deaths never exceed the population |
| Model.TotalImmune | model.py:38-44 | the immune count never exceeds the population |
| Model.DeathsPlusLiving | model.py:29-35 | deaths plus living agents is the population |
| Model.CountersOfConsistentPopulation | model.py:11-44 | in a consistent population, active plus immune and hospitalized plus dead are at most the population, and hospitalized is at most active |
| Model.DeathsAndImmunityNeverDecrease | model.py:29-44 | when every agent changes only in allowed ways, the death and immune counts do not go down |
| Model.GetLockdown | model.py:53-56 | the spike is 6000 exactly while a countdown is positive and 0 otherwise |
| Model.CountdownLastsItsLength | model.py:129-137 | a declared countdown of L runs down one per step regardless of the policy, which is consulted again only at step L+1 |
| Model.Simulation.constructor | model.py:61-97 | configuration stored, hospitals open, no lockdown, cycle 0, empty series, and the agents `create_agents` makes |
| Model.Simulation.CreateAgents | model.py:99-109 | appends one fresh person per id 0..n-1, placed at its cell, infected exactly when its draw succeeds |
| Model.Simulation.Collect | model.py:111-124 | appends the current counts and lockdown spike to the five series, keeping them in bounds and monotone |
| Model.Simulation.Record | model.py:124-127 | the series gain the current counts and lockdown spike; the hospital gate becomes the latest hospitalized count below the free beds; the agents are untouched |
| Model.Simulation.RunAgents | model.py:128 | the agents' health fields become `Schedule` of the old ones under the current gates, their positions `Moves`; each agent changes only in allowed ways and the invariant is kept |
| Model.Simulation.AgentsPhase | model.py:124-128 | the series record the counts from before any agent acts; the hospital gate is the latest hospitalized count below the free beds; the agents then take one scheduler pass (`Schedule`, `Moves`) under that gate |
| Model.Simulation.UpdateLockdown | model.py:129-137 | a running countdown goes down by one; at 0 the policy's decision on the recorded series becomes the countdown, or its error is returned with the lockdown unchanged |
| Model.Simulation.Advance | model.py:129-138 | the lockdown is updated as `UpdateLockdown` says and the cycle advances unless the policy raised; agents and series are untouched |
| Model.Simulation.Step | model.py:122-138 | one tick: the series record the counts before any agent acts, the gate is set from them, the agents' new health fields are `Schedule` of the old ones in the given order under the new gate and the old lockdown, their positions are `Moves`, and the lockdown is updated; the cycle advances unless the policy raised, and the simulation invariant is kept |
| Model.RunSchedule | model.py:128 | the agent at `order[k]` is activated k-th, with target `targets[k]`, cell-mates `cells[k]` and draws `draws[k]`: the health fields end as the fold `Schedule`, the positions as the fold `Moves`, and every agent stays consistent |
| Model.ScheduleNext | model.py:128 | one turn of the scheduler extends both folds by exactly one activation |
| Model.Activation | person.py:86-88 | one activation changes the health fields as `Activate` says and moves only the activated agent, to its `Destination` |
| Model.StepAgent | person.py:35-88 | the activated agent takes its `Tick`, self-hit exactly when it is listed in its own cell (of more than one) with a successful draw; another agent is infected exactly when the actor was alive, infected and spreading and that agent's draw in the cell succeeds; only the actor moves |
| Model.ScheduleKeepsConsistent | model.py:128 | after any number of activations every agent is consistent and has changed only in allowed ways |
| Model.ScheduleCountsGrow | model.py:29-44 | a scheduler pass over a consistent population never lowers the death or immune count |
| Model.IsolatedAgentsTickOnce | model.py:128 | the scheduler activates each agent exactly once: with nobody sharing a cell, the agent at `order[i]` takes exactly one `Tick` with `draws[i]` and agents not yet activated are unchanged |
| Model.NoInfectionNoChange | person.py:35-88 | without an infected agent a scheduler pass changes nobody's health fields |
| Model.ScheduleLeavesOthersInPlace | person.py:35-41 | other agents' activations never change an agent's liveness or quarantine flag |
| Model.MovesOncePerAgent | person.py:76-84 | each agent moves once, to its `Destination` judged on its state before the pass; agents not yet activated stay where they were |
| Model.ReferencePolicyFailsOnlyWithoutAgents | model.py:133-137 | fed the series just recorded, the reference policy raises exactly when the population is empty |

## Left out

- The Mesa grid and scheduler are not modelled. Neighbourhood computation, toroidal wrapping, `move_agent`/`place_agent` and the random shuffle are replaced by inputs: a target cell, the cell-mates' indices and an activation order.
- Consistency between the agents' positions and the given cell-mate lists is not modelled. This includes the fact that an agent is always in its own cell.
- Random number generation and the probability thresholds are not modelled. These are `infect_rate`, `critical_rate`, `hospital_factor`, `quarantine_rate / recovery_period`, `immunity_chance` and `initial_infected`. Each draw is given as its boolean outcome.
- The floating-point derivation of the parameters from `params` is not modelled. These are `num_agents`, `free_beds`, `critical_rate` and `quarantine_rate`. They are given as integers or omitted.
- Float rounding in the policy's `max(...) / population_size` is not modelled. The comparison with 0.2 is modelled exactly over the integers, which can differ from the float result only when the ratio is within rounding error of 0.2; that needs populations of the order of 2^50.
- `get_hospital_takeup` is not modelled, because it is commented out of the reporters and never collected.
- `move_to_next` is modelled only as moving to the target cell, because the neighbourhood is the grid's job.
- `numba.jit`, `print`, matplotlib plotting, the `running` flag, `active_ratio` and the `run.py` driver script are left out. They are output or unused configuration.
- The stray `self.quarantine = False` attribute is not modelled, because nothing reads it.
- Model.CountWhere: its contract gives only the bound. How it counts is stated by `Model.CountWhereSplit` and `Model.CountWhereExtremes`, not in its own ensures.
- A policy other than the reference one may return any integer. The simulation treats it as Python's truthiness does (non-zero is a running lockdown). A policy that raises aborts the step before the cycle counter advances; the series entry for that tick stays recorded.
