/**
 * One agent of the epidemic simulation (person.py): its health flags and
 * the per-tick transition rules. Random draws are supplied by the caller
 * as booleans; the grid is represented by a target cell for a move and
 * the list of agents sharing the agent's cell.
 */
module Persons {

  /** Where the grid has placed an agent; `Unplaced` until it is placed. */
  datatype Position = Unplaced | Cell(x: int, y: int)

  /**
   * The health fields of a `Person`. `hospitalized` is the source's
   * `False`-or-`hospital_period` value: 0 means not in hospital.
   */
  datatype PersonState = PersonState(
    alive: bool,
    infected: bool,
    hospitalized: nat,
    immune: bool,
    inQuarantine: bool,
    timeInfected: nat)

  /** The fields of a freshly constructed person. */
  const Healthy := PersonState(true, false, 0, false, false, 0)

  /**
   * What an agent reads from its model during a tick: two configuration
   * values and the two gates the simulation sets between ticks.
   */
  datatype Context = Context(
    recoveryPeriod: nat,
    hospitalPeriod: nat,
    hospitalTakeup: bool,
    lockdown: int)

  /**
   * The outcomes of the random draws one activation may make, in the
   * order the source makes them: death in hospital, self-quarantine, one
   * infection draw per cell-mate, critical progression, and immunity on
   * recovery. A draw the activation does not reach is ignored.
   */
  datatype Draws = Draws(
    diesInHospital: bool,
    quarantines: bool,
    infects: seq<bool>,
    critical: bool,
    gainsImmunity: bool)

  /** `set_infected` on a value: no effect on an immune person, otherwise (re)starts the infection clock. */
  function Infect(s: PersonState): PersonState
  {
    if s.immune then s else s.(infected := true, timeInfected := 0)
  }

  /**
   * Whether an infected person spreads this tick: not in hospital, and not
   * in quarantine once the quarantine draw has been made. The lockdown
   * gate plays no part.
   */
  predicate Spreads(s: PersonState, d: Draws)
  {
    s.hospitalized == 0 && !s.inQuarantine && !d.quarantines
  }

  /**
   * `while_infected` on the person's own fields. `selfHit` says whether
   * the person is among its own cell-mates and its draw for itself
   * succeeds, in which case `infect_others` calls `set_infected` on the
   * person itself and restarts its clock before the recovery test.
   */
  function Progress(s: PersonState, ctx: Context, d: Draws, selfHit: bool): PersonState
  {
    var s1 := s.(timeInfected := s.timeInfected + 1);
    if s1.hospitalized != 0 then
      // in hospital: may die; the bed counter is never decremented
      if d.diesInHospital then s1.(alive := false, hospitalized := 0, infected := false) else s1
    else
      var s2 := if d.quarantines then s1.(inQuarantine := true) else s1;
      var s3 := if !s2.inQuarantine && selfHit then Infect(s2) else s2;
      Outcome(s3, ctx, d)
  }

  /**
   * The last part of `while_infected` outside hospital: within the
   * recovery period a critical draw leads to hospital or death; past it
   * the person recovers.
   */
  function Outcome(s: PersonState, ctx: Context, d: Draws): PersonState
  {
    if s.timeInfected < ctx.recoveryPeriod then
      if !d.critical then s
      else if ctx.hospitalTakeup then s.(hospitalized := ctx.hospitalPeriod, inQuarantine := true)
      else s.(alive := false, infected := false)
    else
      // recovery leaves `in_quarantine` and `time_infected` as they are
      s.(infected := false, immune := s.immune || d.gainsImmunity)
  }

  /** `step` on the person's own fields: only a living, infected person changes. */
  function Tick(s: PersonState, ctx: Context, d: Draws, selfHit: bool): PersonState
  {
    if s.alive && s.infected then Progress(s, ctx, d, selfHit) else s
  }

  /** Where `move` leaves a person: at the target unless it is dead, in quarantine or in lockdown. */
  function Destination(s: PersonState, pos: Position, lockdown: int, target: Position): Position
  {
    if s.alive && !s.inQuarantine && lockdown == 0 then target else pos
  }

  /** Whether `p` is among `cellmates` at a position whose infection draw succeeds. */
  predicate Hit<T(==)>(cellmates: seq<T>, draws: seq<bool>, p: T)
    requires |draws| == |cellmates|
  {
    exists j :: 0 <= j < |cellmates| && cellmates[j] == p && draws[j]
  }

  /**
   * The invariant every person keeps: an immune person is not infected,
   * and a person in hospital is alive, infected and in quarantine.
   */
  predicate Consistent(s: PersonState)
  {
    (s.immune ==> !s.infected) &&
    (s.hospitalized != 0 ==> s.alive && s.infected && s.inQuarantine)
  }

  /**
   * What may change between two moments of a person's life: death is
   * absorbing, immunity is never lost, and a hospital stay keeps its
   * counter until the person dies.
   */
  predicate Evolves(a: PersonState, b: PersonState)
  {
    (!a.alive ==> !b.alive && b.hospitalized == 0) &&
    (a.immune ==> b.immune) &&
    (a.hospitalized != 0 ==>
      (b.alive && b.hospitalized == a.hospitalized) || (!b.alive && b.hospitalized == 0))
  }

  lemma EvolvesTransitive(a: PersonState, b: PersonState, c: PersonState)
    requires Evolves(a, b) && Evolves(b, c)
    ensures Evolves(a, c)
  {
  }

  /** `set_infected` keeps the invariant and is an allowed change. */
  lemma InfectKeepsConsistent(s: PersonState)
    requires Consistent(s)
    ensures Consistent(Infect(s)) && Evolves(s, Infect(s))
    ensures s.immune ==> Infect(s) == s
    ensures !s.immune ==> Infect(s).infected && Infect(s).timeInfected == 0
  {
  }

  /** One tick of a living, infected, consistent person keeps the invariant and is an allowed change. */
  lemma TickKeepsConsistent(s: PersonState, ctx: Context, d: Draws, selfHit: bool)
    requires Consistent(s)
    ensures Consistent(Tick(s, ctx, d, selfHit)) && Evolves(s, Tick(s, ctx, d, selfHit))
  {
  }

  /** `step` on a dead person changes nothing. */
  lemma DeadStepChangesNothing(s: PersonState, ctx: Context, d: Draws, selfHit: bool)
    requires !s.alive
    ensures Tick(s, ctx, d, selfHit) == s
  {
  }

  /**
   * The clock: `time_infected` goes up by exactly one, unless the person
   * infects itself, which restarts the clock at 0. Recovery does not
   * reset it.
   */
  lemma ProgressClock(s: PersonState, ctx: Context, d: Draws, selfHit: bool)
    requires Consistent(s) && s.infected
    ensures Progress(s, ctx, d, selfHit).timeInfected ==
      if Spreads(s, d) && selfHit then 0 else s.timeInfected + 1
  {
  }

  /**
   * In hospital, a tick either kills the person (clearing `alive`,
   * `infected` and `hospitalized`) or leaves every flag and the bed
   * counter as they were; the recovery branch is never taken.
   */
  lemma HospitalTick(s: PersonState, ctx: Context, d: Draws, selfHit: bool)
    requires s.hospitalized != 0
    ensures var r := Progress(s, ctx, d, selfHit);
      if d.diesInHospital then
        !r.alive && !r.infected && r.hospitalized == 0
      else
        r == s.(timeInfected := s.timeInfected + 1)
  {
  }

  /**
   * Outside hospital, once the (possibly restarted) clock has reached
   * the recovery period the person ends the tick uninfected and alive,
   * its quarantine flag as the quarantine draw left it (recovery does not
   * lift quarantine), and immune exactly when it was or the immunity draw
   * succeeds.
   */
  lemma RecoveryTick(s: PersonState, ctx: Context, d: Draws, selfHit: bool)
    requires Consistent(s) && s.alive && s.infected && s.hospitalized == 0
    requires (if Spreads(s, d) && selfHit then 0 else s.timeInfected + 1) >= ctx.recoveryPeriod
    ensures var r := Progress(s, ctx, d, selfHit);
      r.alive && !r.infected && r.hospitalized == 0 &&
      r.inQuarantine == (s.inQuarantine || d.quarantines) &&
      r.immune == d.gainsImmunity
  {
  }

  /**
   * Outside hospital and within the recovery period: a failed critical
   * draw leaves the person alive and infected; a successful one sends it
   * to hospital (for `hospital_period`, in quarantine) when beds are
   * available and kills it otherwise.
   */
  lemma WithinPeriodTick(s: PersonState, ctx: Context, d: Draws, selfHit: bool)
    requires Consistent(s) && s.alive && s.infected && s.hospitalized == 0
    requires (if Spreads(s, d) && selfHit then 0 else s.timeInfected + 1) < ctx.recoveryPeriod
    ensures var r := Progress(s, ctx, d, selfHit);
      if !d.critical then
        r.alive && r.infected && r.hospitalized == 0
      else if ctx.hospitalTakeup then
        r.alive && r.infected && r.hospitalized == ctx.hospitalPeriod && r.inQuarantine
      else
        !r.alive && !r.infected && r.hospitalized == 0
  {
  }

  /** The lockdown gate has no effect on a person's own progression (it only stops movement). */
  lemma LockdownDoesNotStopProgress(s: PersonState, ctx: Context, d: Draws, selfHit: bool, lockdown: int)
    ensures Tick(s, ctx, d, selfHit) == Tick(s, ctx.(lockdown := lockdown), d, selfHit)
  {
  }

  /**
   * A person whose recovery period is one tick, who is not critical, is
   * not hit by its own infection draw and gains immunity, is recovered and
   * immune after one tick; if its own draw hits it instead (and it did not
   * quarantine), it is still infected, its clock restarted.
   */
  lemma OneTickRecoveryScenario(ctx: Context, d: Draws, selfHit: bool)
    requires ctx.recoveryPeriod == 1 && !d.critical && d.gainsImmunity
    ensures var s := Infect(Healthy);
      var r := Tick(s, ctx, d, selfHit);
      if selfHit && !d.quarantines then
        r.alive && r.infected && r.timeInfected == 0 && !r.immune
      else
        r.alive && !r.infected && r.immune
  {
  }

  /** A critical person with a long recovery period dies when the hospitals are full. */
  lemma NoBedScenario(ctx: Context, d: Draws, selfHit: bool)
    requires ctx.recoveryPeriod > 1 && d.critical && !ctx.hospitalTakeup
    ensures var r := Tick(Infect(Healthy), ctx, d, selfHit);
      !r.alive && !r.infected
  {
  }

  /**
   * Everything that can happen to one person during a run: its own
   * activation, or a cell-mate's successful infection draw on it.
   */
  datatype Event =
    | OwnStep(ctx: Context, draws: Draws, selfHit: bool)
    | InfectedByCellmate

  function Apply(s: PersonState, e: Event): PersonState
  {
    match e
    case OwnStep(ctx, d, selfHit) => Tick(s, ctx, d, selfHit)
    case InfectedByCellmate => Infect(s)
  }

  /** The person's state after a sequence of events. */
  function Replay(s: PersonState, events: seq<Event>): PersonState
    decreases |events|
  {
    if events == [] then s else Replay(Apply(s, events[0]), events[1..])
  }

  /** Over any run, the invariant holds and every change is an allowed one. */
  lemma {:induction false} RunKeepsConsistent(s: PersonState, events: seq<Event>)
    requires Consistent(s)
    ensures Consistent(Replay(s, events)) && Evolves(s, Replay(s, events))
    decreases |events|
  {
    if events != [] {
      var s' := Apply(s, events[0]);
      assert Consistent(s') && Evolves(s, s') by {
        match events[0]
        case OwnStep(ctx, d, h) => TickKeepsConsistent(s, ctx, d, h);
        case InfectedByCellmate => InfectKeepsConsistent(s);
      }
      RunKeepsConsistent(s', events[1..]);
      EvolvesTransitive(s, s', Replay(s', events[1..]));
    }
  }

  /**
   * Death is absorbing: after any run a dead person is still dead, with
   * its hospital counter, immunity and quarantine flags untouched, and out
   * of hospital when it started consistent. (Its `infected` flag may still
   * be set by a cell-mate.)
   */
  lemma {:induction false} DeathIsAbsorbing(s: PersonState, events: seq<Event>)
    requires !s.alive
    ensures var r := Replay(s, events);
      !r.alive && r.hospitalized == s.hospitalized &&
      r.immune == s.immune && r.inQuarantine == s.inQuarantine
    ensures Consistent(s) ==> Replay(s, events).hospitalized == 0
    decreases |events|
  {
    if events != [] {
      DeathIsAbsorbing(Apply(s, events[0]), events[1..]);
    }
  }

  /** An immune person stays immune and is never infected again. */
  lemma ImmunityIsPermanent(s: PersonState, events: seq<Event>)
    requires Consistent(s) && s.immune
    ensures Replay(s, events).immune && !Replay(s, events).infected
  {
    RunKeepsConsistent(s, events);
  }

  /**
   * A hospital stay ends only in death: after any run a hospitalized
   * person is either still alive in hospital with the same counter, or
   * dead and out of hospital. It never recovers.
   */
  lemma HospitalStayEndsOnlyInDeath(s: PersonState, events: seq<Event>)
    requires Consistent(s) && s.hospitalized != 0
    ensures var r := Replay(s, events);
      (r.alive && r.infected && r.hospitalized == s.hospitalized) ||
      (!r.alive && r.hospitalized == 0)
  {
    RunKeepsConsistent(s, events);
  }

  /** A dead person who is not immune becomes infected when a cell-mate's draw hits it. */
  lemma DeadCanBeInfected(s: PersonState)
    requires !s.alive && !s.immune
    ensures Replay(s, [InfectedByCellmate]).infected && !Replay(s, [InfectedByCellmate]).alive
  {
  }

  class Person {
    const id: int
    var pos: Position
    var alive: bool
    var infected: bool
    var hospitalized: nat
    var immune: bool
    var inQuarantine: bool
    var timeInfected: nat

    function State(): PersonState
      reads this
    {
      PersonState(alive, infected, hospitalized, immune, inQuarantine, timeInfected)
    }

    predicate Valid()
      reads this
    {
      Consistent(State())
    }

    /** `Person(unique_id, model)`: alive, healthy and not yet placed on the grid. */
    constructor (id: int)
      ensures this.id == id && pos == Unplaced
      ensures State() == Healthy && Valid()
    {
      this.id := id;
      pos := Unplaced;
      alive, infected, hospitalized, immune, inQuarantine, timeInfected := true, false, 0, false, false, 0;
    }

    method SetQuarantine()
      modifies this
      ensures State() == old(State()).(inQuarantine := true)
      ensures pos == old(pos)
    {
      inQuarantine := true;
    }

    /**
     * `set_infected`: nothing changes for an immune person; otherwise the
     * person is infected with its clock at 0, even if it was already
     * infected, and even if it is dead.
     */
    method SetInfected()
      modifies this
      ensures old(immune) ==> State() == old(State())
      ensures !old(immune) ==> State() == old(State()).(infected := true, timeInfected := 0)
      ensures State() == Infect(old(State()))
      ensures pos == old(pos)
    {
      if !immune {
        infected := true;
        timeInfected := 0;
      }
    }

    /**
     * `infect_others`: when the cell holds more than one agent, every
     * cell-mate (this person and dead agents included) whose draw succeeds
     * gets `set_infected`; nothing else changes, and nothing at all when the
     * person is alone.
     */
    method InfectOthers(cellmates: seq<Person>, draws: seq<bool>)
      requires |draws| == |cellmates|
      modifies cellmates
      ensures forall p :: p in cellmates ==>
        p.State() == if |cellmates| > 1 && Hit(cellmates, draws, p) then Infect(old(p.State())) else old(p.State())
      ensures forall p :: p in cellmates ==> p.pos == old(p.pos)
    {
      if |cellmates| > 1 {
        var j := 0;
        while j < |cellmates|
          invariant 0 <= j <= |cellmates|
          invariant forall p :: p in cellmates ==>
            p.State() == if Hit(cellmates[..j], draws[..j], p) then Infect(old(p.State())) else old(p.State())
          invariant forall p :: p in cellmates ==> p.pos == old(p.pos)
        {
          if draws[j] {
            cellmates[j].SetInfected();
          }
          forall p | p in cellmates
            ensures Hit(cellmates[..j + 1], draws[..j + 1], p) <==>
              Hit(cellmates[..j], draws[..j], p) || (cellmates[j] == p && draws[j])
          {
            HitExtend(cellmates, draws, j, p);
          }
          j := j + 1;
        }
        assert cellmates[..j] == cellmates && draws[..j] == draws;
      }
    }

    /**
     * `while_infected`: this person's fields follow `Progress`; the other
     * cell-mates are infected by `infect_others` only when the person
     * spreads this tick.
     */
    method WhileInfected(ctx: Context, cellmates: seq<Person>, d: Draws)
      requires |d.infects| == |cellmates|
      modifies this, cellmates
      ensures State() == Progress(old(State()), ctx, d, |cellmates| > 1 && Hit(cellmates, d.infects, this))
      ensures forall p :: p in cellmates && p != this ==>
        p.State() ==
          if Spreads(old(State()), d) && |cellmates| > 1 && Hit(cellmates, d.infects, p)
          then Infect(old(p.State())) else old(p.State())
      ensures pos == old(pos)
      ensures forall p :: p in cellmates ==> p.pos == old(p.pos)
    {
      timeInfected := timeInfected + 1;
      if hospitalized != 0 {
        if d.diesInHospital {
          alive := false;
          hospitalized := 0;
          infected := false;
          return;
        }
        // the source computes `hospitalized - 1` and discards it
        return;
      }
      if d.quarantines {
        SetQuarantine();
      }
      ghost var selfHit := |cellmates| > 1 && Hit(cellmates, d.infects, this);
      ghost var s2 := State();
      if !inQuarantine {
        InfectOthers(cellmates, d.infects);
        assert !selfHit ==> State() == s2;
      }
      assert State() == if !s2.inQuarantine && selfHit then Infect(s2) else s2;
      Settle(ctx, d);
    }

    /** The recovery-or-critical tail of `while_infected`, on this person only. */
    method Settle(ctx: Context, d: Draws)
      modifies this
      ensures State() == Outcome(old(State()), ctx, d)
      ensures pos == old(pos)
    {
      if timeInfected < ctx.recoveryPeriod {
        if d.critical {
          if ctx.hospitalTakeup {
            hospitalized := ctx.hospitalPeriod;
            SetQuarantine();
          } else {
            alive := false;
            infected := false;
          }
        }
      } else {
        infected := false;
        if d.gainsImmunity {
          immune := true;
        }
      }
    }

    /**
     * `move`: relocate to `target` (the grid's choice) unless in
     * quarantine or lockdown, then progress the infection if infected.
     */
    method Move(ctx: Context, target: Position, cellmates: seq<Person>, d: Draws)
      requires |d.infects| == |cellmates|
      modifies this, cellmates
      ensures pos == if old(inQuarantine) || ctx.lockdown != 0 then old(pos) else target
      ensures State() ==
        if old(infected) then Progress(old(State()), ctx, d, |cellmates| > 1 && Hit(cellmates, d.infects, this))
        else old(State())
      ensures forall p :: p in cellmates && p != this ==>
        p.State() ==
          if old(infected) && Spreads(old(State()), d) && |cellmates| > 1 && Hit(cellmates, d.infects, p)
          then Infect(old(p.State())) else old(p.State())
      ensures forall p :: p in cellmates && p != this ==> p.pos == old(p.pos)
    {
      if inQuarantine || ctx.lockdown != 0 {
      } else {
        pos := target;
      }
      if infected {
        WhileInfected(ctx, cellmates, d);
      }
    }

    /**
     * `step`: a dead person does nothing; a living one moves. Every person
     * touched keeps the invariant and changes only in allowed ways.
     */
    method Step(ctx: Context, target: Position, cellmates: seq<Person>, d: Draws)
      requires |d.infects| == |cellmates|
      requires Valid() && forall p :: p in cellmates ==> p.Valid()
      modifies this, cellmates
      ensures State() == Tick(old(State()), ctx, d, |cellmates| > 1 && Hit(cellmates, d.infects, this))
      ensures pos == Destination(old(State()), old(pos), ctx.lockdown, target)
      ensures forall p :: p in cellmates && p != this ==>
        p.State() ==
          if old(alive) && old(infected) && Spreads(old(State()), d) && |cellmates| > 1 && Hit(cellmates, d.infects, p)
          then Infect(old(p.State())) else old(p.State())
      ensures forall p :: p in cellmates && p != this ==> p.pos == old(p.pos)
      ensures Valid() && Evolves(old(State()), State())
      ensures forall p :: p in cellmates ==> p.Valid() && Evolves(old(p.State()), p.State())
    {
      if alive {
        Move(ctx, target, cellmates, d);
      }
      TickKeepsConsistent(old(State()), ctx, d, |cellmates| > 1 && Hit(cellmates, d.infects, this));
      forall p | p in cellmates && p != this
        ensures p.Valid() && Evolves(old(p.State()), p.State())
      {
        InfectKeepsConsistent(old(p.State()));
      }
    }
  }

  lemma HitExtend<T>(cellmates: seq<T>, draws: seq<bool>, j: nat, p: T)
    requires |draws| == |cellmates| && j < |cellmates|
    ensures Hit(cellmates[..j + 1], draws[..j + 1], p) <==>
      Hit(cellmates[..j], draws[..j], p) || (cellmates[j] == p && draws[j])
  {
    if Hit(cellmates[..j + 1], draws[..j + 1], p) {
      var i :| 0 <= i < j + 1 && cellmates[..j + 1][i] == p && draws[..j + 1][i];
      if i < j {
        assert cellmates[..j][i] == p && draws[..j][i];
      }
    }
    if Hit(cellmates[..j], draws[..j], p) {
      var i :| 0 <= i < j && cellmates[..j][i] == p && draws[..j][i];
      assert cellmates[..j + 1][i] == p && draws[..j + 1][i];
    }
    if cellmates[j] == p && draws[j] {
      assert cellmates[..j + 1][j] == p && draws[..j + 1][j];
    }
  }
}
