/**
 * The simulation of model.py: the aggregate counters the data collector
 * records, the lockdown countdown, and the `Simulation` whose `step`
 * updates the hospital gate, runs every agent once and consults the
 * pluggable lockdown policy.
 */
module Model {
  import opened Persons
  import Run

  /** Number of entries of `pop` satisfying `f` (the `sum([1 for agent in ... if ...])` pattern). */
  function CountWhere(pop: seq<PersonState>, f: PersonState -> bool): (n: nat)
    ensures n <= |pop|
  {
    if pop == [] then 0
    else (if f(pop[0]) then 1 else 0) + CountWhere(pop[1..], f)
  }

  predicate IsInfected(s: PersonState) { s.infected }
  predicate IsHospitalized(s: PersonState) { s.hospitalized != 0 }
  predicate IsDead(s: PersonState) { !s.alive }
  predicate IsAlive(s: PersonState) { s.alive }
  predicate IsImmune(s: PersonState) { s.immune }

  /** `active_cases`: the agents whose `infected` flag is set, dead ones included. */
  function ActiveCases(pop: seq<PersonState>): (n: nat)
    ensures n <= |pop|
  {
    CountWhere(pop, IsInfected)
  }

  /** `total_hospitalized`: the agents with a non-zero hospital counter. */
  function TotalHospitalized(pop: seq<PersonState>): (n: nat)
    ensures n <= |pop|
  {
    CountWhere(pop, IsHospitalized)
  }

  /** `total_deaths`: the agents that are not alive. */
  function TotalDeaths(pop: seq<PersonState>): (n: nat)
    ensures n <= |pop|
  {
    CountWhere(pop, IsDead)
  }

  /** `total_immune`: the agents that are immune. */
  function TotalImmune(pop: seq<PersonState>): (n: nat)
    ensures n <= |pop|
  {
    CountWhere(pop, IsImmune)
  }

  /**
   * The counter adds one per agent satisfying `f`, in any split of the
   * population.
   */
  lemma {:induction false} CountWhereSplit(a: seq<PersonState>, b: seq<PersonState>, f: PersonState -> bool)
    ensures CountWhere(a + b, f) == CountWhere(a, f) + CountWhere(b, f)
    decreases |a|
  {
    if a == [] {
      assert a + b == b;
    } else {
      assert (a + b)[1..] == a[1..] + b;
      CountWhereSplit(a[1..], b, f);
    }
  }

  /** A counter is 0 exactly when no agent qualifies, and the population size exactly when all do. */
  lemma {:induction false} CountWhereExtremes(pop: seq<PersonState>, f: PersonState -> bool)
    ensures CountWhere(pop, f) == 0 <==> forall j :: 0 <= j < |pop| ==> !f(pop[j])
    ensures CountWhere(pop, f) == |pop| <==> forall j :: 0 <= j < |pop| ==> f(pop[j])
  {
    if pop != [] {
      CountWhereExtremes(pop[1..], f);
      assert forall j :: 1 <= j < |pop| ==> pop[j] == pop[1..][j - 1];
    }
  }

  /** Deaths and living agents together make up the whole population. */
  lemma {:induction false} DeathsPlusLiving(pop: seq<PersonState>)
    ensures TotalDeaths(pop) + CountWhere(pop, IsAlive) == |pop|
  {
    if pop != [] {
      DeathsPlusLiving(pop[1..]);
    }
  }

  /**
   * In a population of consistent agents nobody is both immune and
   * infected, and everyone in hospital is infected and alive.
   */
  lemma {:induction false} CountersOfConsistentPopulation(pop: seq<PersonState>)
    requires forall j :: 0 <= j < |pop| ==> Consistent(pop[j])
    ensures ActiveCases(pop) + TotalImmune(pop) <= |pop|
    ensures TotalHospitalized(pop) <= ActiveCases(pop)
    ensures TotalHospitalized(pop) + TotalDeaths(pop) <= |pop|
  {
    if pop != [] {
      CountersOfConsistentPopulation(pop[1..]);
    }
  }

  /**
   * Over any span of the run in which every agent changes only in allowed
   * ways, the death and immunity counts never go down.
   */
  lemma {:induction false} DeathsAndImmunityNeverDecrease(a: seq<PersonState>, b: seq<PersonState>)
    requires |a| == |b|
    requires forall j :: 0 <= j < |a| ==> Evolves(a[j], b[j])
    ensures TotalDeaths(a) <= TotalDeaths(b)
    ensures TotalImmune(a) <= TotalImmune(b)
  {
    if a != [] {
      DeathsAndImmunityNeverDecrease(a[1..], b[1..]);
    }
  }

  /** Height of the `Lockdown` plot series. */
  const LockdownSpike: int := 6000

  /** `get_lockdown`: a spike while a lockdown is counting down, 0 otherwise. */
  function GetLockdown(lockdown: int): (r: int)
    ensures r == LockdownSpike <==> lockdown > 0
    ensures r == 0 <==> lockdown <= 0
  {
    if lockdown > 0 then LockdownSpike else 0
  }

  /**
   * The lockdown update at the end of `step`: a running countdown goes
   * down by one; otherwise the policy's decision becomes the new countdown.
   */
  function Countdown(lockdown: int, decision: int): int
  {
    if lockdown != 0 then lockdown - 1 else decision
  }

  /** The countdown after a sequence of steps, given what the policy would decide at each. */
  function CountdownAfter(lockdown: int, decisions: seq<int>): int
    decreases |decisions|
  {
    if decisions == [] then lockdown else CountdownAfter(Countdown(lockdown, decisions[0]), decisions[1..])
  }

  /**
   * After the policy declares a countdown `L`, the next `k <= L` steps
   * decrement it to `L - k` whatever the policy would have said; the
   * policy is consulted again only at step `L + 1`, and its decision
   * there becomes the countdown.
   */
  lemma {:induction false} CountdownLastsItsLength(lockdown: nat, decisions: seq<int>)
    ensures |decisions| <= lockdown ==> CountdownAfter(lockdown, decisions) == lockdown - |decisions|
    ensures |decisions| == lockdown + 1 ==> CountdownAfter(lockdown, decisions) == decisions[lockdown]
    decreases |decisions|
  {
    if decisions != [] && lockdown > 0 {
      CountdownLastsItsLength(lockdown - 1, decisions[1..]);
    }
  }

  /** The policy as the simulation sees it: histories of active cases and deaths, and the population size. */
  type Policy = (seq<int>, seq<int>, int) -> Run.Result<int>

  predicate IsPermutation(order: seq<nat>, n: nat)
  {
    |order| == n &&
    (forall k :: 0 <= k < n ==> order[k] < n) &&
    (forall k, l :: 0 <= k < l < n ==> order[k] != order[l])
  }

  class Simulation {
    const numAgents: nat
    const freeBeds: int
    const recoveryPeriod: nat
    const hospitalPeriod: nat
    const lockdownPolicy: Policy

    /** The scheduler's agents, in the order they were added. */
    var agents: seq<Person>
    var hospitalTakeup: bool
    var lockdown: int
    var currentCycle: int

    /** The data collector's series, one entry per collection. */
    var activeCasesSeries: seq<int>
    var deathsSeries: seq<int>
    var immuneSeries: seq<int>
    var hospitalizedSeries: seq<int>
    var lockdownSeries: seq<int>

    /** The agents' health fields, in scheduler order. */
    function Population(): (pop: seq<PersonState>)
      reads this`agents, agents
      ensures |pop| == |agents|
      ensures forall j :: 0 <= j < |agents| ==> pop[j] == agents[j].State()
    {
      States(agents)
    }

    /** One distinct, consistent agent per id `0..numAgents-1`. */
    ghost predicate AgentsValid()
      reads this`agents, agents
    {
      |agents| == numAgents &&
      (forall j :: 0 <= j < |agents| ==> agents[j].id == j && agents[j].Valid()) &&
      (forall j, l :: 0 <= j < l < |agents| ==> agents[j] != agents[l])
    }

    /** The recorded series satisfy `SeriesOk`. */
    ghost predicate SeriesValid()
      reads this`activeCasesSeries, this`deathsSeries, this`immuneSeries, this`hospitalizedSeries, this`lockdownSeries
    {
      SeriesOk(activeCasesSeries, deathsSeries, immuneSeries, hospitalizedSeries, lockdownSeries, numAgents)
    }

    /** The latest recorded deaths and immune counts are not above the current ones. */
    ghost predicate SeriesBelowPopulation()
      reads this`agents, this`deathsSeries, this`immuneSeries, agents
    {
      (|deathsSeries| > 0 ==> deathsSeries[|deathsSeries| - 1] <= TotalDeaths(Population())) &&
      (|immuneSeries| > 0 ==> immuneSeries[|immuneSeries| - 1] <= TotalImmune(Population()))
    }

    /** The simulation's invariant. */
    ghost predicate Valid()
      reads this`agents, this`activeCasesSeries, this`deathsSeries, this`immuneSeries, this`hospitalizedSeries,
        this`lockdownSeries, agents
    {
      AgentsValid() && SeriesValid() && SeriesBelowPopulation()
    }

    /** Every completed step recorded exactly one entry per series. */
    ghost predicate InStep()
      reads this
    {
      |activeCasesSeries| == currentCycle
    }

    /**
     * `Simulation(params)`: the configuration values the core uses, an
     * open hospital gate, no lockdown, cycle 0, empty series, and the
     * agents of `create_agents`. The random draws and grid cells it uses
     * are given as `infectedDraws` and `positions`.
     */
    constructor (numAgents: nat, freeBeds: int, recoveryPeriod: nat, hospitalPeriod: nat,
                 lockdownPolicy: Policy, infectedDraws: seq<bool>, positions: seq<Position>)
      requires |infectedDraws| == numAgents && |positions| == numAgents
      ensures Valid() && InStep()
      ensures this.numAgents == numAgents && this.freeBeds == freeBeds
      ensures this.recoveryPeriod == recoveryPeriod && this.hospitalPeriod == hospitalPeriod
      ensures this.lockdownPolicy == lockdownPolicy
      ensures hospitalTakeup && lockdown == 0 && currentCycle == 0
      ensures activeCasesSeries == [] && deathsSeries == [] && immuneSeries == []
      ensures hospitalizedSeries == [] && lockdownSeries == []
      ensures |agents| == numAgents
      ensures forall j :: 0 <= j < numAgents ==> fresh(agents[j]) && NewAgent(agents[j], j, infectedDraws[j], positions[j])
    {
      this.numAgents := numAgents;
      this.freeBeds := freeBeds;
      this.recoveryPeriod := recoveryPeriod;
      this.hospitalPeriod := hospitalPeriod;
      this.lockdownPolicy := lockdownPolicy;
      agents := [];
      hospitalTakeup := true;
      lockdown := 0;
      currentCycle := 0;
      activeCasesSeries, deathsSeries, immuneSeries, hospitalizedSeries, lockdownSeries := [], [], [], [], [];
      new;
      CreateAgents(infectedDraws, positions);
      assert AgentsValid() by {
        forall j | 0 <= j < |agents| ensures agents[j].id == j && agents[j].Valid() {
          assert NewAgent(agents[0 + j], j, infectedDraws[j], positions[j]);
        }
        forall j, l | 0 <= j < l < |agents| ensures agents[j] != agents[l] {
          assert agents[0 + j] != agents[0 + l];
        }
      }
    }

    /**
     * `create_agents`: adds `numAgents` fresh persons with ids
     * `0..numAgents-1`, none dead or immune, each infected exactly when its
     * draw succeeds, each placed at its given cell.
     */
    method CreateAgents(infectedDraws: seq<bool>, positions: seq<Position>)
      requires |infectedDraws| == numAgents && |positions| == numAgents
      modifies this`agents
      ensures |agents| == |old(agents)| + numAgents && agents[..|old(agents)|] == old(agents)
      ensures forall j :: 0 <= j < numAgents ==> NewAgent(agents[|old(agents)| + j], j, infectedDraws[j], positions[j])
      ensures forall j :: |old(agents)| <= j < |agents| ==> fresh(agents[j])
      ensures forall j, l :: |old(agents)| <= j < l < |agents| ==> agents[j] != agents[l]
    {
      ghost var n0 := |agents|;
      var i := 0;
      while i < numAgents
        invariant 0 <= i <= numAgents
        invariant |agents| == n0 + i && agents[..n0] == old(agents)
        invariant forall j :: 0 <= j < i ==> NewAgent(agents[n0 + j], j, infectedDraws[j], positions[j])
        invariant forall j :: n0 <= j < |agents| ==> fresh(agents[j])
        invariant forall j, l :: n0 <= j < l < |agents| ==> agents[j] != agents[l]
      {
        var a := new Person(i);
        if infectedDraws[i] {
          a.SetInfected();
        }
        a.pos := positions[i];
        agents := agents + [a];
        i := i + 1;
      }
    }

    /**
     * `datacollector.collect(self)`: appends the current counts and
     * lockdown spike to the series.
     */
    method Collect()
      requires Valid()
      modifies this`activeCasesSeries, this`deathsSeries, this`immuneSeries, this`hospitalizedSeries, this`lockdownSeries
      ensures agents == old(agents) && AgentsValid() && SeriesValid()
      ensures activeCasesSeries == old(activeCasesSeries) + [ActiveCases(Population())]
      ensures deathsSeries == old(deathsSeries) + [TotalDeaths(Population())]
      ensures immuneSeries == old(immuneSeries) + [TotalImmune(Population())]
      ensures hospitalizedSeries == old(hospitalizedSeries) + [TotalHospitalized(Population())]
      ensures lockdownSeries == old(lockdownSeries) + [GetLockdown(lockdown)]
      ensures hospitalTakeup == old(hospitalTakeup) && lockdown == old(lockdown)
      ensures currentCycle == old(currentCycle)
    {
      var pop := Population();
      CountersOfConsistentPopulation(pop);
      SeriesOkAppend(activeCasesSeries, deathsSeries, immuneSeries, hospitalizedSeries, lockdownSeries, numAgents,
        ActiveCases(pop), TotalDeaths(pop), TotalImmune(pop), TotalHospitalized(pop), GetLockdown(lockdown));
      activeCasesSeries := activeCasesSeries + [ActiveCases(pop)];
      deathsSeries := deathsSeries + [TotalDeaths(pop)];
      immuneSeries := immuneSeries + [TotalImmune(pop)];
      hospitalizedSeries := hospitalizedSeries + [TotalHospitalized(pop)];
      lockdownSeries := lockdownSeries + [GetLockdown(lockdown)];
    }

    /**
     * `step`: collect the counts, set the hospital gate from the
     * Hospitalized count just recorded, run every agent once, then count
     * the lockdown down or, when it is 0, consult the policy on the
     * recorded series. A policy that raises aborts the step before the
     * cycle counter advances.
     */
    method Step(order: seq<nat>, targets: seq<Position>, cells: seq<seq<nat>>, draws: seq<Draws>)
      returns (failure: Option<Run.PolicyError>)
      requires Valid()
      requires IsPermutation(order, |agents|)
      requires |targets| == |agents| && |cells| == |agents| && |draws| == |agents|
      requires forall k :: 0 <= k < |cells| ==> |draws[k].infects| == |cells[k]|
      requires forall k, m :: 0 <= k < |cells| && 0 <= m < |cells[k]| ==> cells[k][m] < |agents|
      modifies this`activeCasesSeries, this`deathsSeries, this`immuneSeries, this`hospitalizedSeries,
        this`lockdownSeries, this`hospitalTakeup, this`lockdown, this`currentCycle, agents
      ensures Valid() && agents == old(agents)
      ensures old(InStep()) && failure.None? ==> InStep()
      // the data collector's entries are the counts before any agent acts
      ensures activeCasesSeries == old(activeCasesSeries) + [ActiveCases(old(Population()))]
      ensures deathsSeries == old(deathsSeries) + [TotalDeaths(old(Population()))]
      ensures immuneSeries == old(immuneSeries) + [TotalImmune(old(Population()))]
      ensures hospitalizedSeries == old(hospitalizedSeries) + [TotalHospitalized(old(Population()))]
      ensures lockdownSeries == old(lockdownSeries) + [GetLockdown(old(lockdown))]
      // the gate every agent read this tick
      ensures hospitalTakeup == (hospitalizedSeries[|hospitalizedSeries| - 1] < freeBeds)
      // every agent was activated once, in the given order, under the gates just set
      ensures Population() ==
        Schedule(old(Population()), Context(recoveryPeriod, hospitalPeriod, hospitalTakeup, old(lockdown)), order, cells, draws, |order|)
      ensures Places(agents) == Moves(old(Places(agents)), old(Population()), old(lockdown), order, targets, |order|)
      // every agent changed only in allowed ways
      ensures forall j :: 0 <= j < |agents| ==> Evolves(old(Population())[j], Population()[j])
      // the lockdown countdown and the policy
      ensures old(lockdown) != 0 ==> failure.None? && lockdown == old(lockdown) - 1
      ensures old(lockdown) == 0 ==>
        match lockdownPolicy(activeCasesSeries, deathsSeries, numAgents)
        case Ok(decision) => failure.None? && lockdown == Countdown(old(lockdown), decision)
        case Err(e) => failure == Some(e) && lockdown == old(lockdown)
      ensures currentCycle == old(currentCycle) + if failure.None? then 1 else 0
    {
      AgentsPhase(order, targets, cells, draws);
      failure := Advance();
    }

    /** The end of `step`: update the lockdown and, unless the policy raised, advance the cycle. */
    method Advance() returns (failure: Option<Run.PolicyError>)
      modifies this`lockdown, this`currentCycle
      ensures Valid() == old(Valid()) && Population() == old(Population()) && Places(agents) == old(Places(agents))
      ensures old(lockdown) != 0 ==> failure.None? && lockdown == old(lockdown) - 1
      ensures old(lockdown) == 0 ==>
        match lockdownPolicy(activeCasesSeries, deathsSeries, numAgents)
        case Ok(decision) => failure.None? && lockdown == Countdown(old(lockdown), decision)
        case Err(e) => failure == Some(e) && lockdown == old(lockdown)
      ensures currentCycle == old(currentCycle) + if failure.None? then 1 else 0
    {
      failure := UpdateLockdown();
      if failure.None? {
        currentCycle := currentCycle + 1;
      }
    }

    /**
     * The first part of `step`: collect the counts, set the hospital gate
     * from the Hospitalized count just recorded and run every agent once.
     */
    method AgentsPhase(order: seq<nat>, targets: seq<Position>, cells: seq<seq<nat>>, draws: seq<Draws>)
      requires Valid()
      requires IsPermutation(order, |agents|)
      requires |targets| == |agents| && |cells| == |agents| && |draws| == |agents|
      requires forall k :: 0 <= k < |cells| ==> |draws[k].infects| == |cells[k]|
      requires forall k, m :: 0 <= k < |cells| && 0 <= m < |cells[k]| ==> cells[k][m] < |agents|
      modifies this`activeCasesSeries, this`deathsSeries, this`immuneSeries, this`hospitalizedSeries,
        this`lockdownSeries, this`hospitalTakeup, agents
      ensures Valid() && agents == old(agents)
      ensures activeCasesSeries == old(activeCasesSeries) + [ActiveCases(old(Population()))]
      ensures deathsSeries == old(deathsSeries) + [TotalDeaths(old(Population()))]
      ensures immuneSeries == old(immuneSeries) + [TotalImmune(old(Population()))]
      ensures hospitalizedSeries == old(hospitalizedSeries) + [TotalHospitalized(old(Population()))]
      ensures lockdownSeries == old(lockdownSeries) + [GetLockdown(lockdown)]
      ensures hospitalTakeup == (hospitalizedSeries[|hospitalizedSeries| - 1] < freeBeds)
      ensures Population() ==
        Schedule(old(Population()), Context(recoveryPeriod, hospitalPeriod, hospitalTakeup, lockdown), order, cells, draws, |order|)
      ensures Places(agents) == Moves(old(Places(agents)), old(Population()), lockdown, order, targets, |order|)
      ensures forall j :: 0 <= j < |agents| ==> Evolves(old(Population())[j], Population()[j])
    {
      Record();
      RunAgents(order, targets, cells, draws);
    }

    /** Collect the counts and set the hospital gate from the Hospitalized count just recorded. */
    method Record()
      requires Valid()
      modifies this`activeCasesSeries, this`deathsSeries, this`immuneSeries, this`hospitalizedSeries,
        this`lockdownSeries, this`hospitalTakeup
      ensures Valid() && Population() == old(Population()) && Places(agents) == old(Places(agents))
      ensures activeCasesSeries == old(activeCasesSeries) + [ActiveCases(old(Population()))]
      ensures deathsSeries == old(deathsSeries) + [TotalDeaths(old(Population()))]
      ensures immuneSeries == old(immuneSeries) + [TotalImmune(old(Population()))]
      ensures hospitalizedSeries == old(hospitalizedSeries) + [TotalHospitalized(old(Population()))]
      ensures lockdownSeries == old(lockdownSeries) + [GetLockdown(lockdown)]
      ensures hospitalTakeup == (hospitalizedSeries[|hospitalizedSeries| - 1] < freeBeds)
    {
      Collect();
      hospitalTakeup := hospitalizedSeries[|hospitalizedSeries| - 1] < freeBeds;
    }

    /** Activate every agent once, in the given order, under the current gates. */
    method RunAgents(order: seq<nat>, targets: seq<Position>, cells: seq<seq<nat>>, draws: seq<Draws>)
      requires Valid()
      requires IsPermutation(order, |agents|)
      requires |targets| == |agents| && |cells| == |agents| && |draws| == |agents|
      requires forall k :: 0 <= k < |cells| ==> |draws[k].infects| == |cells[k]|
      requires forall k, m :: 0 <= k < |cells| && 0 <= m < |cells[k]| ==> cells[k][m] < |agents|
      modifies agents
      ensures Valid()
      ensures Population() ==
        Schedule(old(Population()), Context(recoveryPeriod, hospitalPeriod, hospitalTakeup, lockdown), order, cells, draws, |order|)
      ensures Places(agents) == Moves(old(Places(agents)), old(Population()), lockdown, order, targets, |order|)
      ensures forall j :: 0 <= j < |agents| ==> Evolves(old(Population())[j], Population()[j])
    {
      ghost var before := Population();
      var ctx := Context(recoveryPeriod, hospitalPeriod, hospitalTakeup, lockdown);
      RunSchedule(agents, ctx, order, targets, cells, draws);
      assert Population() == Schedule(before, ctx, order, cells, draws, |order|);
      ScheduleKeepsConsistent(before, ctx, order, cells, draws, |order|);
      ScheduleCountsGrow(before, ctx, order, cells, draws);
      assert AgentsValid();
    }

    /**
     * The end of `step`: a running countdown goes down by one; when it is
     * 0 the policy is consulted on the recorded series and its decision
     * becomes the countdown, or its error aborts the step.
     */
    method UpdateLockdown() returns (failure: Option<Run.PolicyError>)
      modifies this`lockdown
      ensures old(lockdown) != 0 ==> failure.None? && lockdown == old(lockdown) - 1
      ensures old(lockdown) == 0 ==>
        match lockdownPolicy(activeCasesSeries, deathsSeries, numAgents)
        case Ok(decision) => failure.None? && lockdown == Countdown(old(lockdown), decision)
        case Err(e) => failure == Some(e) && lockdown == old(lockdown)
    {
      failure := None;
      if lockdown != 0 {
        lockdown := lockdown - 1;
      } else {
        match lockdownPolicy(activeCasesSeries, deathsSeries, numAgents)
        case Ok(decision) =>
          lockdown := decision;
        case Err(e) =>
          failure := Some(e);
      }
    }
  }

  /** No agent appears twice. */
  predicate Distinct(ps: seq<Person>)
  {
    forall i, l :: 0 <= i < l < |ps| ==> ps[i] != ps[l]
  }

  /**
   * One activation of `schedule.step()`: the agent at index `a` steps
   * towards `target`, sharing its cell with the agents at indices `cell`
   * and drawing `d`. The health fields change as `Activate` says; only
   * the activated agent may move, and nobody else's liveness or
   * quarantine flag changes.
   */
  method Activation(ps: seq<Person>, ctx: Context, a: nat, target: Position, cell: seq<nat>, d: Draws)
    requires Distinct(ps) && forall j :: 0 <= j < |ps| ==> ps[j].Valid()
    requires a < |ps| && |d.infects| == |cell|
    requires forall m :: 0 <= m < |cell| ==> cell[m] < |ps|
    modifies ps
    ensures forall j :: 0 <= j < |ps| ==> ps[j].Valid()
    ensures States(ps) == Activate(old(States(ps)), ctx, a, cell, d)
    ensures Places(ps) == old(Places(ps))[a := Destination(old(States(ps))[a], old(Places(ps))[a], ctx.lockdown, target)]
  {
    ghost var pre := States(ps);
    ghost var prePlaces := Places(ps);
    StepAgent(ps, ctx, a, target, cell, d);
    ActivatePointwise(pre, States(ps), ctx, a, cell, d);
    assert Places(ps) == prePlaces[a := Destination(pre[a], prePlaces[a], ctx.lockdown, target)];
  }

  /** `Activation` stated agent by agent, in terms of `Tick` and `Touch`. */
  method StepAgent(ps: seq<Person>, ctx: Context, a: nat, target: Position, cell: seq<nat>, d: Draws)
    requires Distinct(ps) && forall j :: 0 <= j < |ps| ==> ps[j].Valid()
    requires a < |ps| && |d.infects| == |cell|
    requires forall m :: 0 <= m < |cell| ==> cell[m] < |ps|
    modifies ps
    ensures forall j :: 0 <= j < |ps| ==> ps[j].Valid()
    ensures ps[a].State() == Tick(old(ps[a].State()), ctx, d, |cell| > 1 && Hit(cell, d.infects, a))
    ensures forall j :: 0 <= j < |ps| && j != a ==> ps[j].State() == Touch(old(ps[a].State()), old(ps[j].State()), cell, d, j)
    ensures ps[a].pos == Destination(old(ps[a].State()), old(ps[a].pos), ctx.lockdown, target)
    ensures forall j :: 0 <= j < |ps| && j != a ==> ps[j].pos == old(ps[j].pos)
  {
    var agent := ps[a];
    var mates := Select(ps, cell);
    agent.Step(ctx, target, mates, d);
    HitSelect(ps, cell, d.infects, a);
    forall j | 0 <= j < |ps| && j != a
      ensures ps[j].State() == Touch(old(ps[a].State()), old(ps[j].State()), cell, d, j)
      ensures ps[j].pos == old(ps[j].pos)
    {
      HitSelect(ps, cell, d.infects, j);
      assert ps[j] != agent;
      if ps[j] !in mates {
        assert !Hit(mates, d.infects, ps[j]);
      }
    }
  }

  /**
   * `schedule.step()`: the agent at `order[k]` is activated k-th with
   * the tick's gates `ctx`, moving towards `targets[k]`, sharing its cell
   * with the agents at indices `cells[k]` and drawing `draws[k]`. The
   * health fields end as `Schedule` says, every agent ends at its
   * `Destination` as of its own activation, and every agent stays
   * consistent.
   */
  method RunSchedule(ps: seq<Person>, ctx: Context, order: seq<nat>, targets: seq<Position>, cells: seq<seq<nat>>,
                     draws: seq<Draws>)
    requires Distinct(ps) && forall j :: 0 <= j < |ps| ==> ps[j].Valid()
    requires IsPermutation(order, |ps|)
    requires |targets| == |ps| && |cells| == |ps| && |draws| == |ps|
    requires forall k :: 0 <= k < |cells| ==> |draws[k].infects| == |cells[k]|
    requires forall k, m :: 0 <= k < |cells| && 0 <= m < |cells[k]| ==> cells[k][m] < |ps|
    modifies ps
    ensures forall j :: 0 <= j < |ps| ==> ps[j].Valid()
    ensures States(ps) == Schedule(old(States(ps)), ctx, order, cells, draws, |order|)
    ensures Places(ps) == Moves(old(Places(ps)), old(States(ps)), ctx.lockdown, order, targets, |order|)
  {
    ghost var pre := States(ps);
    ghost var prePlaces := Places(ps);
    var k := 0;
    while k < |order|
      invariant 0 <= k <= |order|
      invariant forall j :: 0 <= j < |ps| ==> ps[j].Valid()
      invariant States(ps) == Schedule(pre, ctx, order, cells, draws, k)
      invariant Places(ps) == Moves(prePlaces, pre, ctx.lockdown, order, targets, k)
    {
      ScheduleNext(ps, ctx, order, targets, cells, draws, pre, prePlaces, k);
      k := k + 1;
    }
  }

  /** One turn of the scheduler: activating the `k`-th agent of `order` extends both folds by one step. */
  method ScheduleNext(ps: seq<Person>, ctx: Context, order: seq<nat>, targets: seq<Position>, cells: seq<seq<nat>>,
                      draws: seq<Draws>, ghost pre: seq<PersonState>, ghost prePlaces: seq<Position>, k: nat)
    requires Distinct(ps) && forall j :: 0 <= j < |ps| ==> ps[j].Valid()
    requires IsPermutation(order, |ps|) && k < |order| && |pre| == |ps| && |prePlaces| == |ps|
    requires |targets| == |ps| && |cells| == |ps| && |draws| == |ps|
    requires forall i :: 0 <= i < |cells| ==> |draws[i].infects| == |cells[i]|
    requires forall i, m :: 0 <= i < |cells| && 0 <= m < |cells[i]| ==> cells[i][m] < |ps|
    requires States(ps) == Schedule(pre, ctx, order, cells, draws, k)
    requires Places(ps) == Moves(prePlaces, pre, ctx.lockdown, order, targets, k)
    modifies ps
    ensures forall j :: 0 <= j < |ps| ==> ps[j].Valid()
    ensures States(ps) == Schedule(pre, ctx, order, cells, draws, k + 1)
    ensures Places(ps) == Moves(prePlaces, pre, ctx.lockdown, order, targets, k + 1)
  {
    NotYetActivated(order, |ps|, k);
    MovesNext(prePlaces, pre, ctx, order, targets, cells, draws, k);
    Activation(ps, ctx, order[k], targets[k], cells[k], draws[k]);
  }

  /**
   * The population after the agent at index `a` is activated with the
   * cell-mates at indices `cell`: the agent takes its own `Tick` (hit by
   * its own draw when it is listed in its cell), and, when it was alive,
   * infected and spreading in a cell of more than one, every other agent
   * whose draw succeeds is infected.
   */
  function Activate(pop: seq<PersonState>, ctx: Context, a: nat, cell: seq<nat>, d: Draws): (r: seq<PersonState>)
    requires a < |pop| && |d.infects| == |cell|
    ensures |r| == |pop|
  {
    seq(|pop|, j requires 0 <= j < |pop| =>
      if j == a then Tick(pop[a], ctx, d, |cell| > 1 && Hit(cell, d.infects, a))
      else Touch(pop[a], pop[j], cell, d, j))
  }

  /**
   * What the activation of `actor` does to the agent at index `j` (not
   * the actor) whose state is `s`: it is infected when the actor is alive,
   * infected and spreading in a cell of more than one, and `j`'s draw in
   * that cell succeeds.
   */
  function Touch(actor: PersonState, s: PersonState, cell: seq<nat>, d: Draws, j: nat): PersonState
    requires |d.infects| == |cell|
  {
    if actor.alive && actor.infected && Spreads(actor, d) && |cell| > 1 && Hit(cell, d.infects, j) then Infect(s) else s
  }

  lemma ActivatePointwise(pre: seq<PersonState>, post: seq<PersonState>, ctx: Context, a: nat, cell: seq<nat>, d: Draws)
    requires a < |pre| == |post| && |d.infects| == |cell|
    requires post[a] == Tick(pre[a], ctx, d, |cell| > 1 && Hit(cell, d.infects, a))
    requires forall j :: 0 <= j < |pre| && j != a ==> post[j] == Touch(pre[a], pre[j], cell, d, j)
    ensures post == Activate(pre, ctx, a, cell, d)
  {
  }

  /** The population after the first `k` activations of a scheduler step. */
  function Schedule(pop: seq<PersonState>, ctx: Context, order: seq<nat>, cells: seq<seq<nat>>, draws: seq<Draws>,
                    k: nat): (r: seq<PersonState>)
    requires k <= |order| && k <= |cells| && k <= |draws|
    requires forall i :: 0 <= i < k ==> order[i] < |pop| && |draws[i].infects| == |cells[i]|
    ensures |r| == |pop|
    decreases k
  {
    if k == 0 then pop
    else Activate(Schedule(pop, ctx, order, cells, draws, k - 1), ctx, order[k - 1], cells[k - 1], draws[k - 1])
  }

  /**
   * A scheduler step keeps every agent consistent, and every agent
   * changes only in allowed ways.
   */
  lemma {:induction false} ScheduleKeepsConsistent(pop: seq<PersonState>, ctx: Context, order: seq<nat>,
                                                   cells: seq<seq<nat>>, draws: seq<Draws>, k: nat)
    requires k <= |order| && k <= |cells| && k <= |draws|
    requires forall i :: 0 <= i < k ==> order[i] < |pop| && |draws[i].infects| == |cells[i]|
    requires forall j :: 0 <= j < |pop| ==> Consistent(pop[j])
    ensures forall j :: 0 <= j < |pop| ==>
      Consistent(Schedule(pop, ctx, order, cells, draws, k)[j]) && Evolves(pop[j], Schedule(pop, ctx, order, cells, draws, k)[j])
    decreases k
  {
    if k > 0 {
      ScheduleKeepsConsistent(pop, ctx, order, cells, draws, k - 1);
      var prev := Schedule(pop, ctx, order, cells, draws, k - 1);
      var a, cell, d := order[k - 1], cells[k - 1], draws[k - 1];
      var r := Activate(prev, ctx, a, cell, d);
      forall j | 0 <= j < |pop|
        ensures Consistent(r[j]) && Evolves(pop[j], r[j])
      {
        TickKeepsConsistent(prev[j], ctx, d, |cell| > 1 && Hit(cell, d.infects, a));
        InfectKeepsConsistent(prev[j]);
        EvolvesTransitive(pop[j], prev[j], r[j]);
      }
    }
  }

  /** Over a scheduler step, the death and immune counts do not go down. */
  lemma ScheduleCountsGrow(pop: seq<PersonState>, ctx: Context, order: seq<nat>, cells: seq<seq<nat>>, draws: seq<Draws>)
    requires |cells| == |order| && |draws| == |order|
    requires forall i :: 0 <= i < |order| ==> order[i] < |pop| && |draws[i].infects| == |cells[i]|
    requires forall j :: 0 <= j < |pop| ==> Consistent(pop[j])
    ensures TotalDeaths(pop) <= TotalDeaths(Schedule(pop, ctx, order, cells, draws, |order|))
    ensures TotalImmune(pop) <= TotalImmune(Schedule(pop, ctx, order, cells, draws, |order|))
  {
    ScheduleKeepsConsistent(pop, ctx, order, cells, draws, |order|);
    DeathsAndImmunityNeverDecrease(pop, Schedule(pop, ctx, order, cells, draws, |order|));
  }

  /**
   * In cells of at most one agent nobody infects anybody, and the
   * scheduler activates each agent exactly once: after the first `k`
   * activations the agent at `order[i]` (for `i < k`) has taken exactly
   * one `Tick` with its own draws, and every other agent is unchanged.
   */
  lemma {:induction false} IsolatedAgentsTickOnce(pop: seq<PersonState>, ctx: Context, order: seq<nat>,
                                                  cells: seq<seq<nat>>, draws: seq<Draws>, k: nat)
    requires IsPermutation(order, |pop|) && |cells| == |pop| && |draws| == |pop| && k <= |pop|
    requires forall i :: 0 <= i < |pop| ==> |draws[i].infects| == |cells[i]| && |cells[i]| <= 1
    ensures forall i :: 0 <= i < k ==>
      Schedule(pop, ctx, order, cells, draws, k)[order[i]] == Tick(pop[order[i]], ctx, draws[i], false)
    ensures forall j :: 0 <= j < |pop| && j !in order[..k] ==> Schedule(pop, ctx, order, cells, draws, k)[j] == pop[j]
    decreases k
  {
    if k > 0 {
      IsolatedAgentsTickOnce(pop, ctx, order, cells, draws, k - 1);
      var prev := Schedule(pop, ctx, order, cells, draws, k - 1);
      var r := Schedule(pop, ctx, order, cells, draws, k);
      var a := order[k - 1];
      NotYetActivated(order, |pop|, k - 1);
      forall i | 0 <= i < k ensures r[order[i]] == Tick(pop[order[i]], ctx, draws[i], false) {
        if i < k - 1 {
          assert order[i] != a;
        }
      }
    }
  }

  /** Without any infected agent a scheduler step changes nobody: infection never arises spontaneously. */
  lemma {:induction false} NoInfectionNoChange(pop: seq<PersonState>, ctx: Context, order: seq<nat>,
                                               cells: seq<seq<nat>>, draws: seq<Draws>, k: nat)
    requires k <= |order| && k <= |cells| && k <= |draws|
    requires forall i :: 0 <= i < k ==> order[i] < |pop| && |draws[i].infects| == |cells[i]|
    requires forall j :: 0 <= j < |pop| ==> !pop[j].infected
    ensures Schedule(pop, ctx, order, cells, draws, k) == pop
    decreases k
  {
    if k > 0 {
      NoInfectionNoChange(pop, ctx, order, cells, draws, k - 1);
      var r := Schedule(pop, ctx, order, cells, draws, k);
      assert forall j :: 0 <= j < |pop| ==> r[j] == pop[j];
    }
  }

  /** The positions of a sequence of agents. */
  function Places(ps: seq<Person>): (r: seq<Position>)
    reads ps
    ensures |r| == |ps|
    ensures forall j :: 0 <= j < |ps| ==> r[j] == ps[j].pos
  {
    seq(|ps|, j requires 0 <= j < |ps| reads ps => ps[j].pos)
  }

  /**
   * The positions after the first `k` activations of a scheduler step:
   * the agent activated i-th goes to its `Destination`, judged on its
   * health fields and position before the step.
   */
  function Moves(places: seq<Position>, pop: seq<PersonState>, lockdown: int, order: seq<nat>, targets: seq<Position>,
                 k: nat): (r: seq<Position>)
    requires |places| == |pop| && k <= |order| && k <= |targets|
    requires forall i :: 0 <= i < k ==> order[i] < |pop|
    ensures |r| == |places|
    decreases k
  {
    if k == 0 then places
    else
      var a := order[k - 1];
      Moves(places, pop, lockdown, order, targets, k - 1)[a := Destination(pop[a], places[a], lockdown, targets[k - 1])]
  }

  /**
   * Each agent moves at most once in a scheduler step: after the first
   * `k` activations the agent activated i-th is at its `Destination`,
   * and every agent not yet activated is where it was.
   */
  lemma {:induction false} MovesOncePerAgent(places: seq<Position>, pop: seq<PersonState>, lockdown: int,
                                             order: seq<nat>, targets: seq<Position>, k: nat)
    requires |places| == |pop| && IsPermutation(order, |pop|) && |targets| == |pop| && k <= |pop|
    ensures forall i :: 0 <= i < k ==>
      Moves(places, pop, lockdown, order, targets, k)[order[i]] ==
      Destination(pop[order[i]], places[order[i]], lockdown, targets[i])
    ensures forall j :: 0 <= j < |pop| && j !in order[..k] ==> Moves(places, pop, lockdown, order, targets, k)[j] == places[j]
    decreases k
  {
    if k > 0 {
      MovesOncePerAgent(places, pop, lockdown, order, targets, k - 1);
      NotYetActivated(order, |pop|, k - 1);
      forall i | 0 <= i < k - 1 ensures order[i] != order[k - 1] {
        assert order[..k - 1][i] == order[i];
      }
    }
  }

  /**
   * The next activation moves the agent `order[k]` to the `Destination`
   * it has in the current population, which is the one it had before
   * the step.
   */
  lemma MovesNext(places: seq<Position>, pop: seq<PersonState>, ctx: Context, order: seq<nat>, targets: seq<Position>,
                  cells: seq<seq<nat>>, draws: seq<Draws>, k: nat)
    requires |places| == |pop| && k < |order| && k < |targets| && k < |cells| && k < |draws|
    requires forall i :: 0 <= i <= k ==> order[i] < |pop| && |draws[i].infects| == |cells[i]|
    requires order[k] !in order[..k]
    ensures var cur := Schedule(pop, ctx, order, cells, draws, k);
      var curPlaces := Moves(places, pop, ctx.lockdown, order, targets, k);
      curPlaces[order[k] := Destination(cur[order[k]], curPlaces[order[k]], ctx.lockdown, targets[k])] ==
      Moves(places, pop, ctx.lockdown, order, targets, k + 1)
  {
    ScheduleLeavesOthersInPlace(pop, ctx, order, cells, draws, k, order[k]);
    MovesLeaveOthers(places, pop, ctx.lockdown, order, targets, k, order[k]);
  }

  /** An agent not yet activated is where it was. */
  lemma {:induction false} MovesLeaveOthers(places: seq<Position>, pop: seq<PersonState>, lockdown: int,
                                            order: seq<nat>, targets: seq<Position>, k: nat, j: nat)
    requires |places| == |pop| && k <= |order| && k <= |targets|
    requires forall i :: 0 <= i < k ==> order[i] < |pop|
    requires j < |pop| && j !in order[..k]
    ensures Moves(places, pop, lockdown, order, targets, k)[j] == places[j]
    decreases k
  {
    if k > 0 {
      assert order[..k] == order[..k - 1] + [order[k - 1]];
      MovesLeaveOthers(places, pop, lockdown, order, targets, k - 1, j);
    }
  }

  /**
   * An agent not yet activated has its own liveness and quarantine flag:
   * other agents' activations can only infect it.
   */
  lemma {:induction false} ScheduleLeavesOthersInPlace(pop: seq<PersonState>, ctx: Context, order: seq<nat>,
                                                       cells: seq<seq<nat>>, draws: seq<Draws>, k: nat, j: nat)
    requires k <= |order| && k <= |cells| && k <= |draws|
    requires forall i :: 0 <= i < k ==> order[i] < |pop| && |draws[i].infects| == |cells[i]|
    requires j < |pop| && j !in order[..k]
    ensures Schedule(pop, ctx, order, cells, draws, k)[j].alive == pop[j].alive
    ensures Schedule(pop, ctx, order, cells, draws, k)[j].inQuarantine == pop[j].inQuarantine
    decreases k
  {
    if k > 0 {
      assert order[..k] == order[..k - 1] + [order[k - 1]];
      ScheduleLeavesOthersInPlace(pop, ctx, order, cells, draws, k - 1, j);
    }
  }

  /** In a permutation, the entry at `k` does not occur before `k`. */
  lemma NotYetActivated(order: seq<nat>, n: nat, k: nat)
    requires IsPermutation(order, n) && k < n
    ensures order[k] !in order[..k]
    ensures order[..k + 1] == order[..k] + [order[k]]
  {
  }

  /** With distinct agents, a hit on the agent at index `j` of a cell is a hit on its index. */
  lemma HitSelect(ps: seq<Person>, cell: seq<nat>, draws: seq<bool>, j: nat)
    requires |draws| == |cell| && j < |ps|
    requires forall m :: 0 <= m < |cell| ==> cell[m] < |ps|
    requires Distinct(ps)
    ensures Hit(Select(ps, cell), draws, ps[j]) <==> Hit(cell, draws, j)
  {
    var r := Select(ps, cell);
    if Hit(r, draws, ps[j]) {
      var m :| 0 <= m < |r| && r[m] == ps[j] && draws[m];
      assert ps[cell[m]] == ps[j];
      assert cell[m] == j;
    }
    if Hit(cell, draws, j) {
      var m :| 0 <= m < |cell| && cell[m] == j && draws[m];
      assert r[m] == ps[j];
    }
  }

  /**
   * A person as `create_agents` leaves it: id `id`, placed at `pos`,
   * alive, not immune, and infected (clock at 0) exactly when its draw
   * succeeded.
   */
  ghost predicate NewAgent(a: Person, id: int, infected: bool, pos: Position)
    reads a
  {
    a.id == id && a.pos == pos && a.Valid() &&
    a.State() == if infected then Infect(Healthy) else Healthy
  }

  /** The agents at the given indices: the contents of one grid cell. */
  function Select(ps: seq<Person>, indices: seq<nat>): (r: seq<Person>)
    requires forall m :: 0 <= m < |indices| ==> indices[m] < |ps|
    ensures |r| == |indices|
    ensures forall m :: 0 <= m < |indices| ==> r[m] == ps[indices[m]]
    ensures forall p :: p in r ==> p in ps
  {
    if indices == [] then [] else [ps[indices[0]]] + Select(ps, indices[1..])
  }

  /** The health fields of a sequence of agents. */
  function States(ps: seq<Person>): (r: seq<PersonState>)
    reads ps
    ensures |r| == |ps|
    ensures forall j :: 0 <= j < |ps| ==> r[j] == ps[j].State()
  {
    seq(|ps|, j requires 0 <= j < |ps| reads ps => ps[j].State())
  }

  datatype Option<T> = None | Some(value: T)

  predicate NonDecreasing(s: seq<int>)
  {
    forall k, l :: 0 <= k < l < |s| ==> s[k] <= s[l]
  }

  /** One tick's worth of recorded values is within the bounds the counters keep. */
  predicate EntryOk(active: int, deaths: int, immune: int, hospitalized: int, lockdown: int, n: nat)
  {
    0 <= hospitalized <= active && 0 <= immune && active + immune <= n &&
    0 <= deaths <= n && (lockdown == 0 || lockdown == LockdownSpike)
  }

  /**
   * The data collector's series: equally long, every entry within bounds,
   * and the deaths and immune series never decreasing.
   */
  ghost predicate SeriesOk(active: seq<int>, deaths: seq<int>, immune: seq<int>, hospitalized: seq<int>,
                           lockdown: seq<int>, n: nat)
  {
    |deaths| == |active| && |immune| == |active| && |hospitalized| == |active| && |lockdown| == |active| &&
    (forall k :: 0 <= k < |active| ==> EntryOk(active[k], deaths[k], immune[k], hospitalized[k], lockdown[k], n)) &&
    NonDecreasing(deaths) && NonDecreasing(immune)
  }

  lemma SeriesOkAppend(active: seq<int>, deaths: seq<int>, immune: seq<int>, hospitalized: seq<int>,
                       lockdown: seq<int>, n: nat, a: int, d: int, i: int, h: int, l: int)
    requires SeriesOk(active, deaths, immune, hospitalized, lockdown, n)
    requires EntryOk(a, d, i, h, l, n)
    requires |deaths| > 0 ==> deaths[|deaths| - 1] <= d
    requires |immune| > 0 ==> immune[|immune| - 1] <= i
    ensures SeriesOk(active + [a], deaths + [d], immune + [i], hospitalized + [h], lockdown + [l], n)
  {
    var deaths', immune' := deaths + [d], immune + [i];
    forall k, m | 0 <= k < m < |deaths'| ensures deaths'[k] <= deaths'[m] {
      if m == |deaths| && k < m - 1 {
        assert deaths[k] <= deaths[|deaths| - 1];
      }
    }
    forall k, m | 0 <= k < m < |immune'| ensures immune'[k] <= immune'[m] {
      if m == |immune| && k < m - 1 {
        assert immune[k] <= immune[|immune| - 1];
      }
    }
  }

  /**
   * With the reference policy the step can fail only for an empty
   * population: the series it is given always holds the entry just
   * recorded.
   */
  lemma ReferencePolicyFailsOnlyWithoutAgents(activeCases: seq<int>, deaths: seq<int>, numAgents: nat)
    requires |activeCases| > 0
    ensures Run.LockdownPolicy(activeCases, deaths, numAgents).Err? <==> numAgents == 0
  {
  }
}
