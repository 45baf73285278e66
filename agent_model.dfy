/** The enum-based rewrite of the person (agent_model.py): the five health
    states, the two state queries, exposure and the daily update of the
    state and its day counters. The immunity object is not modelled. */
module AgentModel {

  /** HealthState: SUSCEPTIBLE, EXPOSED, INFECTED, RECOVERED, VACCINATED. */
  datatype HealthState = Susceptible | Exposed | Infected | Recovered | Vaccinated

  /** The fields of a Person that exposed and update read or write: the
      state, the four day counters and the two periods. */
  datatype PersonState = PersonState(
    state: HealthState,
    daysInfected: int,
    daysExposed: int,
    daysSinceVaccination: int,
    daysSinceRecovery: int,
    incubationPeriod: int,
    infectiousPeriod: int)

  /** The dataclass defaults: susceptible, all counters 0, incubation period
      2 and infectious period 7. */
  const DEFAULT: PersonState := PersonState(Susceptible, 0, 0, 0, 0, 2, 7)

  /** The states can_be_infected accepts. */
  predicate Receptive(s: HealthState) {
    s == Susceptible || s == Vaccinated
  }

  /** exposed on the fields: a susceptible or vaccinated person becomes
      exposed with days_exposed 0; anybody else is left as is. */
  function Expose(p: PersonState): (r: PersonState)
    ensures r.state == Exposed || r == p
    ensures r != p ==> Receptive(p.state) && r == p.(state := Exposed, daysExposed := 0)
  {
    if Receptive(p.state) then p.(state := Exposed, daysExposed := 0) else p
  }

  /** update on the fields, without the immunity arithmetic. */
  function Step(p: PersonState): PersonState {
    match p.state
    case Exposed =>
      var q := p.(daysExposed := p.daysExposed + 1);
      if q.daysExposed >= q.incubationPeriod then q.(state := Infected, daysInfected := 0) else q
    case Infected =>
      var q := p.(daysInfected := p.daysInfected + 1);
      if q.daysInfected >= q.infectiousPeriod then q.(state := Recovered, daysSinceRecovery := 0) else q
    case Recovered => p.(daysSinceRecovery := p.daysSinceRecovery + 1)
    case Vaccinated => p.(daysSinceVaccination := p.daysSinceVaccination + 1)
    case Susceptible => p
  }

  /** The fields after k calls of update. */
  function Iterate(p: PersonState, k: nat): PersonState {
    if k == 0 then p else Step(Iterate(p, k - 1))
  }

  /** exposed changes a person exactly when can_be_infected holds, and a
      second call changes nothing: the exposed person can no longer be
      infected. */
  lemma ExposeEffect(p: PersonState)
    ensures Expose(p) != p <==> Receptive(p.state)
    ensures Receptive(p.state) ==> Expose(p).state == Exposed && Expose(p).daysExposed == 0
    ensures !Receptive(Expose(p).state) || Expose(p) == p
    ensures Expose(Expose(p)) == Expose(p)
  {
  }

  /** An infectious person cannot be infected, and neither can an exposed or
      a recovered one. */
  lemma StateQueries(s: HealthState)
    ensures s == Infected ==> !Receptive(s)
    ensures Receptive(s) <==> s !in {Exposed, Infected, Recovered}
  {
  }

  /** An exposed person counts days_exposed up by one per update and stays
      exposed until the counter reaches incubation_period; on that update it
      becomes infected with days_infected 0. Nothing else changes. */
  lemma {:induction false} ExposedTimeline(p: PersonState, k: nat)
    requires p.state == Exposed && p.daysExposed < p.incubationPeriod
    requires p.daysExposed + k <= p.incubationPeriod
    ensures Iterate(p, k) ==
              if p.daysExposed + k < p.incubationPeriod then p.(daysExposed := p.daysExposed + k)
              else p.(daysExposed := p.daysExposed + k, state := Infected, daysInfected := 0)
    decreases k
  {
    if k > 0 {
      ExposedTimeline(p, k - 1);
    }
  }

  /** An infected person counts days_infected up by one per update and stays
      infected until the counter reaches infectious_period; on that update
      it becomes recovered with days_since_recovery 0. Nothing else
      changes. */
  lemma {:induction false} InfectedTimeline(p: PersonState, k: nat)
    requires p.state == Infected && p.daysInfected < p.infectiousPeriod
    requires p.daysInfected + k <= p.infectiousPeriod
    ensures Iterate(p, k) ==
              if p.daysInfected + k < p.infectiousPeriod then p.(daysInfected := p.daysInfected + k)
              else p.(daysInfected := p.daysInfected + k, state := Recovered, daysSinceRecovery := 0)
    decreases k
  {
    if k > 0 {
      InfectedTimeline(p, k - 1);
    }
  }

  /** A recovered person stays recovered, days_since_recovery rising by one
      per update. */
  lemma {:induction false} RecoveredForever(p: PersonState, k: nat)
    requires p.state == Recovered
    ensures Iterate(p, k) == p.(daysSinceRecovery := p.daysSinceRecovery + k)
    decreases k
  {
    if k > 0 {
      RecoveredForever(p, k - 1);
    }
  }

  /** A vaccinated person stays vaccinated, days_since_vaccination rising by
      one per update. */
  lemma {:induction false} VaccinatedForever(p: PersonState, k: nat)
    requires p.state == Vaccinated
    ensures Iterate(p, k) == p.(daysSinceVaccination := p.daysSinceVaccination + k)
    decreases k
  {
    if k > 0 {
      VaccinatedForever(p, k - 1);
    }
  }

  /** update leaves a susceptible person exactly as it is, and never makes a
      person susceptible who was not. */
  lemma SusceptibleKept(p: PersonState)
    ensures p.state == Susceptible ==> Step(p) == p
    ensures Step(p).state == Susceptible <==> p.state == Susceptible
  {
  }

  /** No number of updates returns a person to susceptible. */
  lemma {:induction false} NeverSusceptibleAgain(p: PersonState, k: nat)
    requires p.state != Susceptible
    ensures Iterate(p, k).state != Susceptible
    decreases k
  {
    if k > 0 {
      NeverSusceptibleAgain(p, k - 1);
      SusceptibleKept(Iterate(p, k - 1));
    }
  }

  /** Updating k times and then j times is updating k + j times. */
  lemma {:induction false} IterateAdd(p: PersonState, k: nat, j: nat)
    ensures Iterate(Iterate(p, k), j) == Iterate(p, k + j)
    decreases j
  {
    if j > 0 {
      IterateAdd(p, k, j - 1);
    }
  }

  /** One day of the infected phase: infected before infectious_period
      updates, recovered from then on. */
  lemma InfectedOn(i: PersonState, k: nat)
    requires i.state == Infected && i.daysInfected == 0 && i.infectiousPeriod > 0
    ensures Iterate(i, k).state == if k < i.infectiousPeriod then Infected else Recovered
  {
    var m := i.infectiousPeriod;
    if k < m {
      InfectedTimeline(i, k);
    } else {
      InfectedTimeline(i, m);
      var j: nat := k - m;
      RecoveredForever(Iterate(i, m), j);
      IterateAdd(i, m, j);
    }
  }

  /** From the day a person becomes infected (days_infected 0) with a
      positive infectious_period: infected for infectious_period updates,
      recovered from then on. */
  lemma InfectedPhase(i: PersonState)
    requires i.state == Infected && i.daysInfected == 0 && i.infectiousPeriod > 0
    ensures forall k :: 0 <= k < i.infectiousPeriod ==> Iterate(i, k).state == Infected
    ensures forall k :: i.infectiousPeriod <= k ==> Iterate(i, k).state == Recovered
  {
    forall k: nat {
      InfectedOn(i, k);
    }
  }

  /** The course of one infection with positive periods: a person that can
      be infected and is exposed is infected on its incubation_period-th
      update, recovered on its (incubation_period + infectious_period)-th,
      and recovered from then on. */
  lemma InfectionCourse(p: PersonState)
    requires Receptive(p.state) && p.incubationPeriod > 0 && p.infectiousPeriod > 0
    ensures var e := Expose(p); var n := p.incubationPeriod; var m := p.infectiousPeriod;
            && (forall k :: 0 <= k < n ==> Iterate(e, k).state == Exposed)
            && (forall k :: n <= k < n + m ==> Iterate(e, k).state == Infected)
            && (forall k :: n + m <= k ==> Iterate(e, k).state == Recovered)
  {
    var e := Expose(p);
    var n := p.incubationPeriod;
    forall k | 0 <= k < n ensures Iterate(e, k).state == Exposed {
      ExposedTimeline(e, k);
    }
    ExposedTimeline(e, n);
    var i := Iterate(e, n);
    InfectedPhase(i);
    forall k | n <= k ensures Iterate(e, k) == Iterate(i, k - n) {
      IterateAdd(e, n, k - n);
    }
  }

  /** What update does as written: the immunity attribute holds an Immunity
      object, so adding 0.6 to it on recovery, or multiplying it while
      recovered or vaccinated, raises a TypeError. The fields the branch
      assigned before the failing line stay assigned: partial holds them. */
  datatype Outcome = Done(person: PersonState) | TypeError(partial: PersonState)

  /** update as written, immunity arithmetic included: it fails exactly on
      the updates that touch the immunity, and whether it fails or not, the
      fields it has assigned are those of Step. */
  function UpdateAsWritten(p: PersonState): (r: Outcome)
    ensures r.TypeError? <==>
              || p.state in {Recovered, Vaccinated}
              || (p.state == Infected && p.daysInfected + 1 >= p.infectiousPeriod)
    ensures r.Done? ==> r.person == Step(p)
    ensures r.TypeError? ==> r.partial == Step(p)
  {
    match p.state
    case Infected =>
      var q := p.(daysInfected := p.daysInfected + 1);
      if q.daysInfected >= q.infectiousPeriod then TypeError(q.(state := Recovered, daysSinceRecovery := 0))
      else Done(Step(p))
    case Recovered => TypeError(p.(daysSinceRecovery := p.daysSinceRecovery + 1))
    case Vaccinated => TypeError(p.(daysSinceVaccination := p.daysSinceVaccination + 1))
    case _ => Done(Step(p))
  }

  /** The fields of a default person k <= 8 updates after exposure:
      exposed for two updates, then infected with days_infected k - 2. */
  lemma DefaultCourse(k: nat)
    requires k <= 8
    ensures var d := Iterate(Expose(DEFAULT), k);
            if k < 2 then d.state == Exposed else d.state == Infected && d.daysInfected == k - 2
  {
    var e := Expose(DEFAULT);
    if k < 2 {
      ExposedTimeline(e, k);
    } else {
      ExposedTimeline(e, 2);
      InfectedTimeline(Iterate(e, 2), k - 2);
      IterateAdd(e, 2, k - 2);
    }
  }

  /** A default person, once exposed, passes 2 + 6 updates and fails on the
      ninth, the one that makes it recovered, leaving that state assigned. */
  lemma RecoveryFailsAsWritten()
    ensures var e := Expose(DEFAULT);
            && (forall k :: 0 <= k < 8 ==> UpdateAsWritten(Iterate(e, k)).Done?)
            && UpdateAsWritten(Iterate(e, 8)) ==
                 TypeError(e.(state := Recovered, daysExposed := 2, daysInfected := 7, daysSinceRecovery := 0))
  {
    forall k | 0 <= k < 8 ensures UpdateAsWritten(Iterate(Expose(DEFAULT), k)).Done? {
      DefaultCourse(k);
    }
    DefaultCourse(8);
  }

  /** A Person; id, role and age are never changed. */
  class Person {
    const id: int
    const role: string
    const age: int
    var state: HealthState
    var daysInfected: int
    var daysExposed: int
    var daysSinceVaccination: int
    var daysSinceRecovery: int
    var incubationPeriod: int
    var infectiousPeriod: int

    function State(): PersonState
      reads this
    {
      PersonState(state, daysInfected, daysExposed, daysSinceVaccination, daysSinceRecovery,
                  incubationPeriod, infectiousPeriod)
    }

    /** The dataclass constructor with the given field values (DEFAULT for
        the fields left to their defaults). */
    constructor (id: int, role: string, age: int, init: PersonState)
      ensures this.id == id && this.role == role && this.age == age && State() == init
    {
      this.id := id;
      this.role := role;
      this.age := age;
      state := init.state;
      daysInfected := init.daysInfected;
      daysExposed := init.daysExposed;
      daysSinceVaccination := init.daysSinceVaccination;
      daysSinceRecovery := init.daysSinceRecovery;
      incubationPeriod := init.incubationPeriod;
      infectiousPeriod := init.infectiousPeriod;
    }

    /** is_infectious. */
    predicate IsInfectious()
      reads this
    {
      state == Infected
    }

    /** can_be_infected. */
    predicate CanBeInfected()
      reads this
    {
      Receptive(state)
    }

    /** exposed: only a person that can be infected becomes exposed. */
    method Exposed()
      modifies this
      ensures State() == Expose(old(State()))
    {
      if CanBeInfected() {
        state := HealthState.Exposed;
        daysExposed := 0;
      }
    }

    /** update, without the immunity arithmetic. */
    method Update()
      modifies this
      ensures State() == Step(old(State()))
    {
      if state == HealthState.Exposed {
        daysExposed := daysExposed + 1;
        if daysExposed >= incubationPeriod {
          state := Infected;
          daysInfected := 0;
        }
      } else if state == Infected {
        daysInfected := daysInfected + 1;
        if daysInfected >= infectiousPeriod {
          state := Recovered;
          daysSinceRecovery := 0;
        }
      } else if state == Recovered {
        daysSinceRecovery := daysSinceRecovery + 1;
      } else if state == Vaccinated {
        daysSinceVaccination := daysSinceVaccination + 1;
      }
    }
  }
}
