/** The earliest, dictionary-based variant of the agent-based engine
    (S.A.R.I.py): group_by_status, initialize_population, update_infections
    and the day loop of simulate. Every person is a record (a dict with the
    keys status, days_infected, incubation and immunity) that the functions
    update in place. */
module Sari {
  import opened Epidemic
  import opened Contact
  import opened History

  /** The base duration random.randint(5, 6) gives. */
  type BaseDuration = d: int | 5 <= d <= 6 witness 5

  /** base_duration, drawn once when the script is loaded: the model holds
      for whichever of 5 or 6 was drawn. */
  const BASE_DURATION: BaseDuration

  /** time_incubation. */
  const TIME_INCUBATION: int := 2

  /** infection_probability, before the infector's immunity adjusts it. */
  const INFECTION_PROBABILITY: real := 0.1

  /** The four entries of one person record. */
  datatype PersonState = PersonState(status: Status, daysInfected: nat, incubation: nat, immunity: Immunity)

  function StatusesOf(s: seq<PersonState>): seq<Status> {
    seq(|s|, i requires 0 <= i < |s| => s[i].status)
  }

  /** The days_infected value at which an infected person of immunity i is
      cured: within one day of base_duration, so between 4 and 7. */
  function CureDay(i: Immunity): (d: int)
    ensures BASE_DURATION - 1 <= d <= BASE_DURATION + 1 && 4 <= d <= 7
  {
    BASE_DURATION + ImmunityEffect(i)
  }

  /** What the first two loops of update_infections do to one record: an
      infected one counts a day and is cured at its cure day, an exposed one
      counts a day of incubation and becomes infected at time_incubation;
      healthy and cured records are in neither loop. */
  function Advance(p: PersonState): PersonState {
    match p.status
    case Infected =>
      var q := p.(daysInfected := p.daysInfected + 1);
      if q.daysInfected >= CureDay(p.immunity) then q.(status := Cured) else q
    case Exposed =>
      var q := p.(incubation := p.incubation + 1);
      if q.incubation >= TIME_INCUBATION then q.(status := Infected) else q
    case Healthy => p
    case Cured => p
  }

  /** A successful contact: the target becomes exposed with its incubation
      set to 0. */
  function Expose(p: PersonState): PersonState {
    p.(status := Exposed, incubation := 0)
  }

  /** The record after k calls of update_infections that make no contact
      with it. */
  function Iterate(p: PersonState, k: nat): PersonState {
    if k == 0 then p else Advance(Iterate(p, k - 1))
  }

  /** An exposed record stays exposed, its incubation rising by one per call,
      until the incubation reaches time_incubation; on that call it becomes
      infected. Nothing else about it changes. */
  lemma {:induction false} ExposedTimeline(p: PersonState, k: nat)
    requires p.status == Exposed && p.incubation < TIME_INCUBATION
    requires p.incubation + k <= TIME_INCUBATION
    ensures Iterate(p, k) == p.(incubation := p.incubation + k,
                                status := if p.incubation + k < TIME_INCUBATION then Exposed else Infected)
    decreases k
  {
    if k > 0 {
      ExposedTimeline(p, k - 1);
    }
  }

  /** An infected record stays infected, its days_infected rising by one per
      call, until days_infected reaches its cure day; on that call it becomes
      cured. Nothing else about it changes. */
  lemma {:induction false} InfectedTimeline(p: PersonState, k: nat)
    requires p.status == Infected && p.daysInfected < CureDay(p.immunity)
    requires p.daysInfected + k <= CureDay(p.immunity)
    ensures Iterate(p, k) == p.(daysInfected := p.daysInfected + k,
                                status := if p.daysInfected + k < CureDay(p.immunity) then Infected else Cured)
    decreases k
  {
    if k > 0 {
      InfectedTimeline(p, k - 1);
    }
  }

  /** A cured record stays cured, unchanged, through any number of calls. */
  lemma {:induction false} CuredForever(p: PersonState, k: nat)
    requires p.status == Cured
    ensures Iterate(p, k) == p
    decreases k
  {
    if k > 0 {
      CuredForever(p, k - 1);
    }
  }

  /** No call makes anybody healthy who was not healthy before. */
  lemma NeverHealthyAgain(p: PersonState)
    ensures Advance(p).status == Healthy <==> p.status == Healthy
  {
  }

  /** The whole course of one infection: a healthy record (days_infected 0)
      exposed by a contact is infected after its 2nd call, cured after its
      (2 + cure day)-th, and cured for good from then on. */
  lemma InfectionCourse(p: PersonState)
    requires p.status == Healthy && p.daysInfected == 0
    ensures Iterate(Expose(p), 1).status == Exposed
    ensures Iterate(Expose(p), 2).status == Infected
    ensures forall k :: 2 <= k < 2 + CureDay(p.immunity) ==> Iterate(Expose(p), k).status == Infected
    ensures forall k :: 2 + CureDay(p.immunity) <= k ==> Iterate(Expose(p), k).status == Cured
  {
    var e := Expose(p);
    ExposedTimeline(e, 1);
    ExposedTimeline(e, 2);
    InfectedPhase(e, 2);
    StaysCured(e, 2 + CureDay(p.immunity));
  }

  /** A record infected, with days_infected 0, after k0 calls stays infected
      through call k0 + cure day - 1 and is cured by call k0 + cure day. */
  lemma InfectedPhase(p: PersonState, k0: nat)
    requires Iterate(p, k0).status == Infected && Iterate(p, k0).daysInfected == 0
    ensures forall k :: k0 <= k < k0 + CureDay(p.immunity) ==> Iterate(p, k).status == Infected
    ensures Iterate(p, k0 + CureDay(p.immunity)).status == Cured
  {
    var i := Iterate(p, k0);
    var d := CureDay(i.immunity);
    assert i.immunity == p.immunity by {
      ImmunityKept(p, k0);
    }
    forall k | k0 <= k < k0 + d ensures Iterate(p, k).status == Infected {
      InfectedTimeline(i, k - k0);
      IterateAdd(p, k0, k - k0);
    }
    InfectedTimeline(i, d);
    IterateAdd(p, k0, d);
  }

  /** update_infections never changes the immunity entry. */
  lemma {:induction false} ImmunityKept(p: PersonState, k: nat)
    ensures Iterate(p, k).immunity == p.immunity
    decreases k
  {
    if k > 0 {
      ImmunityKept(p, k - 1);
    }
  }

  /** Once cured after k0 calls, cured after every later call too. */
  lemma StaysCured(p: PersonState, k0: nat)
    requires Iterate(p, k0).status == Cured
    ensures forall k :: k0 <= k ==> Iterate(p, k).status == Cured
  {
    forall k | k0 <= k ensures Iterate(p, k).status == Cured {
      CuredForever(Iterate(p, k0), k - k0);
      IterateAdd(p, k0, k - k0);
    }
  }

  /** k calls and then j more are k + j calls. */
  lemma {:induction false} IterateAdd(p: PersonState, k: nat, j: nat)
    ensures Iterate(Iterate(p, k), j) == Iterate(p, k + j)
    decreases j
  {
    if j > 0 {
      IterateAdd(p, k, j - 1);
    }
  }

  /** adj_prob: the probability of one contact transmitting, set by the
      infector's immunity alone. */
  function AdjustedProbability(i: Immunity): (p: real)
    ensures i == Low ==> p == 0.13
    ensures i == Medium ==> p == 0.1
    ensures i == Strong ==> p == 0.07
  {
    INFECTION_PROBABILITY + (if i == Low then 0.03 else if i == Strong then -0.03 else 0.0)
  }

  /** The immunities of the persons infected at the start of the call, in
      population order: the spreaders, in the order they make contacts. */
  function SpreaderImmunities(s: seq<PersonState>): (r: seq<Immunity>)
    ensures |r| == Count(StatusesOf(s), Infected)
  {
    var pos := Positions(StatusesOf(s), Infected);
    seq(|pos|, j requires 0 <= j < |pos| => s[pos[j]].immunity)
  }

  /** The outcomes of the first t trials: trial k is made by the (k/2)-th
      spreader, whose immunity is imm[k / 2], and succeeds when the k-th
      random.random() is below that spreader's adj_prob. */
  function Trials(imm: seq<Immunity>, t: nat, draw: nat -> real): (r: seq<bool>)
    requires t <= 2 * |imm|
    ensures |r| == t
  {
    seq(t, k requires 0 <= k < t => draw(k) < AdjustedProbability(imm[k / 2]))
  }

  /** The outcomes of all trials of one call on the records s. */
  function ContactTrials(s: seq<PersonState>, draw: nat -> real): (r: seq<bool>)
    ensures |r| == TrialCount(Count(StatusesOf(s), Infected), Count(StatusesOf(s), Healthy))
  {
    var st := StatusesOf(s);
    Trials(SpreaderImmunities(s), TrialCount(Count(st, Infected), Count(st, Healthy)), draw)
  }

  /** The records that update_infections sets to exposed: the targets of the
      successful trials, taken from the front of the shuffled healthy list. */
  function NewlyExposed(s: seq<PersonState>, perm: seq<nat>, draw: nat -> real): set<nat>
    requires IsPermutation(perm, Count(StatusesOf(s), Healthy))
  {
    var targets := FrontTargets(StatusesOf(s), perm);
    Hits(targets, ContactTrials(s, draw), |targets|)
  }

  /** update_infections on the records' values: every infected and every
      exposed record advances one day, then the trials of the persons
      infected at the start of the call are made in order, each successful
      one exposing its target. */
  function Step(s: seq<PersonState>, perm: seq<nat>, draw: nat -> real): seq<PersonState>
    requires IsPermutation(perm, Count(StatusesOf(s), Healthy))
  {
    var targets := FrontTargets(StatusesOf(s), perm);
    ExposeTargets(AdvanceEach(s), targets, ContactTrials(s, draw), |targets|)
  }

  function AdvanceEach(s: seq<PersonState>): seq<PersonState> {
    seq(|s|, i requires 0 <= i < |s| => Advance(s[i]))
  }

  /** The records after the first t trials, made in order: a successful trial
      sets its target to exposed with incubation 0. */
  function ExposeTargets(s: seq<PersonState>, targets: seq<nat>, hit: seq<bool>, t: nat): (r: seq<PersonState>)
    requires t <= |targets| && t <= |hit|
    requires forall k :: 0 <= k < |targets| ==> targets[k] < |s|
    ensures |r| == |s|
    decreases t
  {
    if t == 0 then s
    else
      var r := ExposeTargets(s, targets, hit, t - 1);
      if hit[t - 1] then r[targets[t - 1] := Expose(r[targets[t - 1]])] else r
  }

  /** Making the trials one after the other exposes exactly the targets of the
      successful ones and leaves everybody else unchanged. */
  lemma {:induction false} ExposeTargetsHits(s: seq<PersonState>, targets: seq<nat>, hit: seq<bool>, t: nat)
    requires t <= |targets| && t <= |hit|
    requires forall k :: 0 <= k < |targets| ==> targets[k] < |s|
    ensures forall i :: 0 <= i < |s| ==>
              ExposeTargets(s, targets, hit, t)[i] == if i in Hits(targets, hit, t) then Expose(s[i]) else s[i]
    decreases t
  {
    if t > 0 {
      ExposeTargetsHits(s, targets, hit, t - 1);
      HitsStep(targets, hit, t - 1);
    }
  }

  /** Only records healthy at the start of the call can be newly exposed; they
      end the call exposed with incubation 0, and everybody else just
      advances one day. The number of records does not change. */
  lemma StepEffect(s: seq<PersonState>, perm: seq<nat>, draw: nat -> real)
    requires IsPermutation(perm, Count(StatusesOf(s), Healthy))
    ensures |Step(s, perm, draw)| == |s|
    ensures forall i :: i in NewlyExposed(s, perm, draw) ==>
              i < |s| && s[i].status == Healthy && Step(s, perm, draw)[i] == s[i].(status := Exposed, incubation := 0)
    ensures forall i :: 0 <= i < |s| && i !in NewlyExposed(s, perm, draw) ==> Step(s, perm, draw)[i] == Advance(s[i])
  {
    var targets := FrontTargets(StatusesOf(s), perm);
    var hit := ContactTrials(s, draw);
    ExposeTargetsHits(AdvanceEach(s), targets, hit, |targets|);
    forall i | i in NewlyExposed(s, perm, draw) ensures i < |s| && s[i].status == Healthy {
      var k :| 0 <= k < |targets| && hit[k] && targets[k] == i;
    }
  }

  /** new_infections, the number of successful trials, is the number of
      records newly exposed, at most twice the number of spreaders and at
      most the number of healthy records: each healthy record gets at most
      one trial. */
  lemma NewInfectionsBound(s: seq<PersonState>, perm: seq<nat>, draw: nat -> real)
    requires IsPermutation(perm, Count(StatusesOf(s), Healthy))
    ensures var t := TrialCount(Count(StatusesOf(s), Infected), Count(StatusesOf(s), Healthy));
            |NewlyExposed(s, perm, draw)| == Successes(ContactTrials(s, draw), t)
    ensures |NewlyExposed(s, perm, draw)| <= 2 * Count(StatusesOf(s), Infected)
    ensures |NewlyExposed(s, perm, draw)| <= Count(StatusesOf(s), Healthy)
  {
    var targets := FrontTargets(StatusesOf(s), perm);
    HitsBound(targets, ContactTrials(s, draw), |targets|);
  }

  /** The spreaders are the persons infected at the start of the call: with
      none of them nobody is newly exposed, even though exposed records become
      infected during the call. */
  lemma NoSpreadersNoExposure(s: seq<PersonState>, perm: seq<nat>, draw: nat -> real)
    requires IsPermutation(perm, Count(StatusesOf(s), Healthy))
    requires Count(StatusesOf(s), Infected) == 0
    ensures NewlyExposed(s, perm, draw) == {}
    ensures Step(s, perm, draw) == AdvanceEach(s)
  {
    var targets := FrontTargets(StatusesOf(s), perm);
    assert |targets| == 0;
  }

  /** The records initialize_population returns: the sampled ones exposed,
      the others healthy, all counters 0. */
  function InitialStates(immunities: seq<Immunity>, chosen: seq<nat>): seq<PersonState> {
    seq(|immunities|, i requires 0 <= i < |immunities| =>
      PersonState(if i in chosen then Exposed else Healthy, 0, 0, immunities[i]))
  }

  /** initialize_population returns size records, exactly infected_count of
      them exposed and the rest healthy. */
  lemma InitialCounts(immunities: seq<Immunity>, chosen: seq<nat>)
    requires Distinct(chosen) && forall k :: 0 <= k < |chosen| ==> chosen[k] < |immunities|
    ensures |InitialStates(immunities, chosen)| == |immunities|
    ensures var st := StatusesOf(InitialStates(immunities, chosen));
            Count(st, Exposed) == |chosen| && Count(st, Healthy) == |immunities| - |chosen|
            && Count(st, Infected) == 0 && Count(st, Cured) == 0
  {
    var st := StatusesOf(InitialStates(immunities, chosen));
    assert forall i :: 0 <= i < |st| ==> st[i] == if i in chosen then Exposed else Healthy;
    CountIsCardinality(st, Exposed);
    assert IndexSet(st, Exposed) == Elems(chosen);
    DistinctCardinality(chosen);
    NoneCounted(st, Infected);
    NoneCounted(st, Cured);
    CountsPartition(st);
  }

  /** The records after d days of simulate. */
  ghost function Evolve(s: seq<PersonState>, d: nat, rng: Rng): (r: seq<PersonState>)
    requires ValidRng(rng)
    ensures |r| == |s|
    decreases d, 1
  {
    if d == 0 then s else DayStep(s, d, rng)
  }

  /** The records at the end of day d > 0: update_infections, with that day's
      shuffle of the healthy list and that day's draws, on the records after
      d - 1 days. */
  ghost function DayStep(s: seq<PersonState>, d: nat, rng: Rng): (r: seq<PersonState>)
    requires ValidRng(rng) && d > 0
    ensures |r| == |s|
    decreases d, 0
  {
    var prev := Evolve(s, d - 1, rng);
    Step(prev, rng.shuffle(d - 1)(Count(StatusesOf(prev), Healthy)), rng.coin(d - 1))
  }

  /** The counts recorded on day d of simulate from the records s. */
  ghost function DailyCounts(s: seq<PersonState>, d: nat, rng: Rng): (c: Counts)
    requires ValidRng(rng)
    ensures Total(c) == |s|
  {
    CountsOf(StatusesOf(Evolve(s, d, rng)))
  }

  /** The counts of the first n days of simulate from the records s. */
  ghost function Trace(s: seq<PersonState>, n: nat, rng: Rng): (r: seq<Counts>)
    requires ValidRng(rng)
    ensures |r| == n
  {
    seq(n, d requires 0 <= d < n => DailyCounts(s, d, rng))
  }

  /** One more recorded day appends that day's counts to the trace. */
  lemma TraceStep(s: seq<PersonState>, n: nat, rng: Rng)
    requires ValidRng(rng)
    ensures Trace(s, n + 1, rng) == Trace(s, n, rng) + [DailyCounts(s, n, rng)]
  {
    assert Trace(s, n + 1, rng)[..n] == Trace(s, n, rng);
  }

  /** Day d of the trace holds the counts of the records after d days. */
  lemma {:induction false} TraceAt(s: seq<PersonState>, n: nat, rng: Rng)
    requires ValidRng(rng)
    ensures forall d :: 0 <= d < n ==> Trace(s, n, rng)[d] == DailyCounts(s, d, rng)
  {
    if n > 0 {
      TraceAt(s, n - 1, rng);
    }
  }

  /** The number of days simulate records, when it has reached day from
      without stopping: it stops after recording the first day whose counts
      satisfy the stopping condition. */
  ghost function RunLength(s: seq<PersonState>, days: nat, rng: Rng, from: nat): (n: nat)
    requires ValidRng(rng)
    ensures from <= n && (from <= days ==> n <= days)
    decreases days - from
  {
    if from >= days then from
    else if Stops(DailyCounts(s, from, rng)) then from + 1
    else RunLength(s, days, rng, from + 1)
  }

  /** simulate goes on through every day before its last one, and a run that
      ends before days days ends on a day that satisfies the stopping
      condition. */
  lemma {:induction false} RunLengthStops(s: seq<PersonState>, days: nat, rng: Rng, from: nat)
    requires ValidRng(rng)
    ensures forall d :: from <= d < RunLength(s, days, rng, from) - 1 ==> !Stops(DailyCounts(s, d, rng))
    ensures from < RunLength(s, days, rng, from) < days ==>
              Stops(DailyCounts(s, RunLength(s, days, rng, from) - 1, rng))
    decreases days - from
  {
    if from < days && !Stops(DailyCounts(s, from, rng)) {
      RunLengthStops(s, days, rng, from + 1);
    }
  }

  /** How the day loop of simulate ends: either on day (< days) with its
      stopping condition, or after all days, the last of them not stopping. */
  lemma RunEnd(s: seq<PersonState>, days: nat, rng: Rng, day: nat, stop: bool)
    requires ValidRng(rng) && day <= days
    requires RunLength(s, days, rng, 0) == RunLength(s, days, rng, day)
    requires stop ==> day < days && Stops(DailyCounts(s, day, rng))
    requires !stop ==> day == days
    ensures RunLength(s, days, rng, 0) == if stop then day + 1 else day
  {
    var n := RunLength(s, days, rng, day);
    if stop {
      assert n == day + 1;
    } else {
      assert n == day;
    }
  }

  /** What simulate records: one entry per day of the run, holding that day's
      counts, every day but the last goes on, and a run shorter than days
      days ended on its stopping condition. */
  lemma RunHistory(s: seq<PersonState>, days: nat, rng: Rng)
    requires ValidRng(rng)
    ensures var n := RunLength(s, days, rng, 0);
            var h := HistoryOf(Trace(s, n, rng));
            && WellFormed(h) && Days(h) == n <= days && (days > 0 ==> n > 0)
            && (forall d :: 0 <= d < n ==> DayCounts(h, d) == DailyCounts(s, d, rng))
            && (forall d :: 0 <= d < n ==> Total(DayCounts(h, d)) == |s|)
            && (forall d :: 0 <= d < n - 1 ==> !Stops(DayCounts(h, d)))
            && (n < days ==> Stops(DayCounts(h, n - 1)))
  {
    var n := RunLength(s, days, rng, 0);
    HistoryOfDays(Trace(s, n, rng));
    TraceAt(s, n, rng);
    RunLengthStops(s, days, rng, 0);
  }

  /** One more day of simulate is one more Step, with that day's shuffle of
      the healthy list and that day's draws. */
  lemma EvolveStep(s: seq<PersonState>, d: nat, rng: Rng)
    requires ValidRng(rng)
    ensures Evolve(s, d + 1, rng) ==
              Step(Evolve(s, d, rng), rng.shuffle(d)(DailyCounts(s, d, rng).healthy), rng.coin(d))
  {
  }

  /** Within one call of update_infections nobody becomes healthy and nobody
      stops being cured: cured is final, the healthy count never rises and
      the cured count never falls. */
  lemma StepMonotone(s: seq<PersonState>, perm: seq<nat>, draw: nat -> real)
    requires IsPermutation(perm, Count(StatusesOf(s), Healthy))
    ensures forall i :: 0 <= i < |s| && s[i].status == Cured ==> Step(s, perm, draw)[i] == s[i]
    ensures Count(StatusesOf(Step(s, perm, draw)), Healthy) <= Count(StatusesOf(s), Healthy)
    ensures Count(StatusesOf(s), Cured) <= Count(StatusesOf(Step(s, perm, draw)), Cured)
  {
    StepEffect(s, perm, draw);
    var a := StatusesOf(s);
    var b := StatusesOf(Step(s, perm, draw));
    forall i | 0 <= i < |a| && a[i] == Cured ensures Step(s, perm, draw)[i] == s[i] {
      assert i !in NewlyExposed(s, perm, draw);
    }
    CountMonotone(a, b, Cured);
    forall i | 0 <= i < |b| && b[i] == Healthy ensures a[i] == Healthy {
      if i !in NewlyExposed(s, perm, draw) {
        NeverHealthyAgain(s[i]);
      }
    }
    CountMonotone(b, a, Healthy);
  }

  /** From one day of simulate to the next the healthy count does not rise
      and the cured count does not fall. */
  lemma NextDayMonotone(s: seq<PersonState>, d: nat, rng: Rng)
    requires ValidRng(rng)
    ensures Progressed(DailyCounts(s, d, rng), DailyCounts(s, d + 1, rng))
  {
    var prev := Evolve(s, d, rng);
    var perm := rng.shuffle(d)(Count(StatusesOf(prev), Healthy));
    EvolveStep(s, d, rng);
    StepMonotone(prev, perm, rng.coin(d));
  }

  /** From any day of simulate to a later one the healthy count does not rise
      and the cured count does not fall. */
  lemma {:induction false} DailyMonotone(s: seq<PersonState>, d: nat, e: nat, rng: Rng)
    requires ValidRng(rng) && d <= e
    ensures Progressed(DailyCounts(s, d, rng), DailyCounts(s, e, rng))
    decreases e - d
  {
    if d < e {
      DailyMonotone(s, d, e - 1, rng);
      NextDayMonotone(s, e - 1, rng);
    }
  }

  /** Through the first n days the healthy count never rises and the cured
      count never falls. */
  lemma TraceMonotone(s: seq<PersonState>, n: nat, rng: Rng)
    requires ValidRng(rng)
    ensures MonotoneCounts(Trace(s, n, rng))
  {
    var cs := Trace(s, n, rng);
    TraceAt(s, n, rng);
    forall d, e | 0 <= d <= e < n ensures Progressed(cs[d], cs[e]) {
      DailyMonotone(s, d, e, rng);
    }
  }

  /** The history simulate records: the healthy list never rises and the
      cured list never falls. */
  lemma RunMonotone(s: seq<PersonState>, days: nat, rng: Rng)
    requires ValidRng(rng)
    ensures WellFormed(HistoryOf(Trace(s, RunLength(s, days, rng, 0), rng)))
    ensures MonotoneHistory(HistoryOf(Trace(s, RunLength(s, days, rng, 0), rng)))
  {
    TraceMonotone(s, RunLength(s, days, rng, 0), rng);
    HistoryMonotoneOf(Trace(s, RunLength(s, days, rng, 0), rng));
  }

  /** One person record (a dict). The immunity entry is written once and never
      changed. */
  class Person {
    var status: Status
    var daysInfected: nat
    var incubation: nat
    const immunity: Immunity

    function State(): PersonState
      reads this
    {
      PersonState(status, daysInfected, incubation, immunity)
    }

    /** The record literal of initialize_population for a drawn immunity. */
    constructor (immunity: Immunity)
      ensures State() == PersonState(Healthy, 0, 0, immunity)
    {
      status := Healthy;
      daysInfected := 0;
      incubation := 0;
      this.immunity := immunity;
    }
  }

  /** The values of the records of a population list. */
  function States(population: seq<Person>): (r: seq<PersonState>)
    reads population
    ensures |r| == |population|
  {
    seq(|population|, i reads population requires 0 <= i < |population| => population[i].State())
  }

  /** initialize_population: size fresh records with the drawn immunities;
      the records at the sampled indices are then set to exposed. */
  method InitializePopulation(size: nat, infectedCount: nat, immunities: seq<Immunity>, chosen: seq<nat>)
    returns (population: seq<Person>)
    requires |immunities| == size
    requires |chosen| == infectedCount && Distinct(chosen)
    requires forall k :: 0 <= k < |chosen| ==> chosen[k] < size
    ensures |population| == size && Distinct(population)
    ensures forall i :: 0 <= i < |population| ==> fresh(population[i])
    ensures States(population) == InitialStates(immunities, chosen)
  {
    population := [];
    var i: nat := 0;
    while i < size
      invariant 0 <= i <= size && |population| == i
      invariant Distinct(population)
      invariant forall k :: 0 <= k < i ==> fresh(population[k])
      invariant forall k :: 0 <= k < i ==> population[k].State() == PersonState(Healthy, 0, 0, immunities[k])
    {
      var r := new Person(immunities[i]);
      assert Distinct(population + [r]) by {
        forall k, l | 0 <= k < l < |population| + 1 ensures DistinctAt(population + [r], k, l) {
          if l < |population| {
            assert DistinctAt(population, k, l);
          }
        }
      }
      population := population + [r];
      i := i + 1;
    }
    var j: nat := 0;
    while j < |chosen|
      invariant 0 <= j <= |chosen|
      invariant forall k :: 0 <= k < size ==>
                  population[k].State() == PersonState(if k in chosen[..j] then Exposed else Healthy, 0, 0, immunities[k])
    {
      assert chosen[..j + 1] == chosen[..j] + [chosen[j]];
      forall k | 0 <= k < size && k != chosen[j] ensures population[k] != population[chosen[j]] {
        DistinctIndices(population, k, chosen[j]);
      }
      population[chosen[j]].status := Exposed;
      j := j + 1;
    }
    assert chosen[..|chosen|] == chosen;
  }

  /** group_by_status: for each status present, the records of that status
      in population order. */
  method GroupByStatus(population: seq<Person>) returns (groups: map<Status, seq<Person>>)
    ensures IsGrouping(groups, population, StatusesOf(States(population)))
  {
    ghost var st := StatusesOf(States(population));
    groups := map[];
    var i: nat := 0;
    while i < |population|
      invariant 0 <= i <= |population|
      invariant IsGrouping(groups, population[..i], st[..i])
    {
      var s := population[i].status;
      assert s == st[i];
      GroupingStep(groups, population, st, i);
      groups := groups[s := GroupOf(groups, s) + [population[i]]];
      i := i + 1;
    }
    assert population[..i] == population && st[..i] == st;
  }

  /** update_infections on the groups of the records population: the infected
      and the exposed records advance one day, then the persons infected at
      the start of the call make their contacts with the shuffled healthy
      list, walked from its front. */
  method UpdateInfections(groups: map<Status, seq<Person>>, perm: seq<nat>, draw: nat -> real,
                          ghost population: seq<Person>, ghost s0: seq<PersonState>)
    returns (newInfections: nat)
    requires Distinct(population) && States(population) == s0
    requires IsGrouping(groups, population, StatusesOf(s0))
    requires IsPermutation(perm, Count(StatusesOf(s0), Healthy))
    modifies population
    ensures States(population) == Step(s0, perm, draw)
    ensures newInfections == |NewlyExposed(s0, perm, draw)|
  {
    AdvanceAll(groups, population, s0);
    newInfections := ContactPhase(groups, perm, draw, population, s0, AdvanceEach(s0));
    NewInfectionsBound(s0, perm, draw);
  }

  /** The first two loops of update_infections: the infected records, then
      the exposed ones, advance one day; together that is every record
      advanced by Advance. */
  method AdvanceAll(groups: map<Status, seq<Person>>, ghost population: seq<Person>, ghost s0: seq<PersonState>)
    requires Distinct(population) && States(population) == s0
    requires IsGrouping(groups, population, StatusesOf(s0))
    modifies population
    ensures States(population) == AdvanceEach(s0)
  {
    ghost var st0 := StatusesOf(s0);
    AdvanceInfected(GroupOf(groups, Infected), population, Positions(st0, Infected), s0);
    ghost var s1 := States(population);
    ExposedKept(s0, s1);
    AdvanceExposed(GroupOf(groups, Exposed), population, Positions(st0, Exposed), s1);
    AdvanceGroups(s0, s1, States(population));
  }

  /** The contact part of update_infections: when there are both infected
      and healthy records, the healthy list is shuffled and each spreader
      takes up to two records from its front, each with one trial. */
  method ContactPhase(groups: map<Status, seq<Person>>, perm: seq<nat>, draw: nat -> real,
                      ghost population: seq<Person>, ghost s0: seq<PersonState>, ghost s1: seq<PersonState>)
    returns (newInfections: nat)
    requires Distinct(population) && |s0| == |population| && States(population) == s1
    requires forall k :: 0 <= k < |s0| ==> population[k].immunity == s0[k].immunity
    requires IsGrouping(groups, population, StatusesOf(s0))
    requires IsPermutation(perm, Count(StatusesOf(s0), Healthy))
    modifies population
    ensures var targets := FrontTargets(StatusesOf(s0), perm);
            && States(population) == ExposeTargets(s1, targets, ContactTrials(s0, draw), |targets|)
            && newInfections == Successes(ContactTrials(s0, draw), |targets|)
  {
    ghost var st0 := StatusesOf(s0);
    ghost var targets := FrontTargets(st0, perm);
    newInfections := 0;
    var infectedGroup := GroupOf(groups, Infected);
    var healthyGroup := GroupOf(groups, Healthy);
    if |infectedGroup| > 0 && |healthyGroup| > 0 {
      healthyGroup := Shuffle(healthyGroup, perm);
      ghost var order := Shuffle(Positions(st0, Healthy), perm);
      SpreadersOf(groups, population, s0);
      newInfections := Spread(infectedGroup, healthyGroup, population, order, SpreaderImmunities(s0), draw);
      assert targets == order[..|targets|];
    } else {
      assert |targets| == 0;
    }
  }

  /** The list of infected records holds the spreaders, in the order of
      SpreaderImmunities. */
  lemma SpreadersOf(groups: map<Status, seq<Person>>, population: seq<Person>, s0: seq<PersonState>)
    requires |s0| == |population|
    requires forall k :: 0 <= k < |s0| ==> population[k].immunity == s0[k].immunity
    requires IsGrouping(groups, population, StatusesOf(s0))
    ensures |GroupOf(groups, Infected)| == |SpreaderImmunities(s0)|
    ensures forall a :: 0 <= a < |GroupOf(groups, Infected)| ==>
              GroupOf(groups, Infected)[a].immunity == SpreaderImmunities(s0)[a]
  {
    var pos := Positions(StatusesOf(s0), Infected);
    assert GroupOf(groups, Infected) == Pick(population, pos);
  }

  /** After the loop over the infected records the exposed ones are still
      as they were: the positions of the exposed records are those of s0. */
  lemma ExposedKept(s0: seq<PersonState>, s1: seq<PersonState>)
    requires |s1| == |s0|
    requires forall k :: 0 <= k < |s0| ==>
               s1[k] == if k in Positions(StatusesOf(s0), Infected) then Advance(s0[k]) else s0[k]
    ensures forall m :: 0 <= m < |Positions(StatusesOf(s0), Exposed)| ==>
              s1[Positions(StatusesOf(s0), Exposed)[m]].status == Exposed
  {
    var pos := Positions(StatusesOf(s0), Exposed);
    forall m | 0 <= m < |pos| ensures s1[pos[m]].status == Exposed {
      var k := pos[m];
      assert StatusesOf(s0)[k] == Exposed;
      assert k !in Positions(StatusesOf(s0), Infected);
    }
  }

  /** The two loops together advance every record one day: each infected
      or exposed record is in exactly one of them, and Advance leaves the
      healthy and the cured ones as they are. */
  lemma AdvanceGroups(s0: seq<PersonState>, s1: seq<PersonState>, s2: seq<PersonState>)
    requires |s1| == |s0| && |s2| == |s0|
    requires forall k :: 0 <= k < |s0| ==>
               s1[k] == if k in Positions(StatusesOf(s0), Infected) then Advance(s0[k]) else s0[k]
    requires forall k :: 0 <= k < |s0| ==>
               s2[k] == if k in Positions(StatusesOf(s0), Exposed) then Advance(s1[k]) else s1[k]
    ensures s2 == AdvanceEach(s0)
  {
    var st := StatusesOf(s0);
    forall k | 0 <= k < |s0| ensures s2[k] == Advance(s0[k]) {
      if st[k] == Infected {
        assert k !in Positions(st, Exposed);
      } else if st[k] == Exposed {
        assert k !in Positions(st, Infected);
      } else {
        assert k !in Positions(st, Infected) && k !in Positions(st, Exposed);
      }
    }
  }

  /** The first loop of update_infections: every record of the group (the
      records at the positions pos, all infected) counts a day and is cured
      at its cure day; nobody else changes. */
  method AdvanceInfected(group: seq<Person>, ghost population: seq<Person>, ghost pos: seq<nat>,
                         ghost sIn: seq<PersonState>)
    requires Distinct(population) && States(population) == sIn && Distinct(pos)
    requires forall m :: 0 <= m < |pos| ==> pos[m] < |population| && sIn[pos[m]].status == Infected
    requires group == Pick(population, pos)
    modifies population
    ensures forall k :: 0 <= k < |population| ==>
              States(population)[k] == if k in pos then Advance(sIn[k]) else sIn[k]
  {
    var j: nat := 0;
    while j < |group|
      invariant 0 <= j <= |group| && |States(population)| == |sIn|
      invariant forall m :: 0 <= m < |pos| ==>
                  States(population)[pos[m]] == if m < j then Advance(sIn[pos[m]]) else sIn[pos[m]]
      invariant forall k :: 0 <= k < |population| && k !in pos ==> States(population)[k] == sIn[k]
    {
      OtherPositions(pos, j);
      CountInfectedDay(group[j], population, pos[j]);
      j := j + 1;
    }
  }

  /** The body of the first loop for one infected record, record i. */
  method CountInfectedDay(person: Person, ghost population: seq<Person>, ghost i: nat)
    requires Distinct(population) && i < |population| && population[i] == person
    requires person.status == Infected
    modifies person
    ensures States(population) == old(States(population))[i := Advance(old(States(population))[i])]
  {
    person.daysInfected := person.daysInfected + 1;
    if person.daysInfected >= CureDay(person.immunity) {
      person.status := Cured;
    }
    OthersUnchanged(population, i);
  }

  /** The second loop of update_infections: every record of the group (the
      records at the positions pos, all exposed) counts a day of incubation
      and becomes infected at time_incubation; nobody else changes. */
  method AdvanceExposed(group: seq<Person>, ghost population: seq<Person>, ghost pos: seq<nat>,
                        ghost sIn: seq<PersonState>)
    requires Distinct(population) && States(population) == sIn && Distinct(pos)
    requires forall m :: 0 <= m < |pos| ==> pos[m] < |population| && sIn[pos[m]].status == Exposed
    requires group == Pick(population, pos)
    modifies population
    ensures forall k :: 0 <= k < |population| ==>
              States(population)[k] == if k in pos then Advance(sIn[k]) else sIn[k]
  {
    var j: nat := 0;
    while j < |group|
      invariant 0 <= j <= |group| && |States(population)| == |sIn|
      invariant forall m :: 0 <= m < |pos| ==>
                  States(population)[pos[m]] == if m < j then Advance(sIn[pos[m]]) else sIn[pos[m]]
      invariant forall k :: 0 <= k < |population| && k !in pos ==> States(population)[k] == sIn[k]
    {
      OtherPositions(pos, j);
      CountIncubationDay(group[j], population, pos[j]);
      j := j + 1;
    }
  }

  /** The body of the second loop for one exposed record, record i. */
  method CountIncubationDay(person: Person, ghost population: seq<Person>, ghost i: nat)
    requires Distinct(population) && i < |population| && population[i] == person
    requires person.status == Exposed
    modifies person
    ensures States(population) == old(States(population))[i := Advance(old(States(population))[i])]
  {
    person.incubation := person.incubation + 1;
    if person.incubation >= TIME_INCUBATION {
      person.status := Infected;
    }
    OthersUnchanged(population, i);
  }

  /** The position pos[j] is at no other index of pos. */
  lemma OtherPositions(pos: seq<nat>, j: nat)
    requires Distinct(pos) && j < |pos|
    ensures forall m :: 0 <= m < |pos| && m != j ==> pos[m] != pos[j]
  {
    forall m | 0 <= m < |pos| && m != j ensures pos[m] != pos[j] {
      DistinctIndices(pos, m, j);
    }
  }

  /** Record i is a different object from every other record of the list. */
  lemma OthersUnchanged(population: seq<Person>, i: nat)
    requires Distinct(population) && i < |population|
    ensures forall k :: 0 <= k < |population| && k != i ==> population[k] != population[i]
  {
    forall k | 0 <= k < |population| && k != i ensures population[k] != population[i] {
      DistinctIndices(population, k, i);
    }
  }

  /** A successful contact: the target (record i) becomes exposed with
      incubation 0; nobody else changes. */
  method SetExposed(target: Person, ghost population: seq<Person>, ghost i: nat)
    requires Distinct(population) && i < |population| && population[i] == target
    modifies target
    ensures States(population) == old(States(population))[i := Expose(old(States(population))[i])]
  {
    target.status := Exposed;
    target.incubation := 0;
    OthersUnchanged(population, i);
  }

  /** After the first t trials of one call: the records are s0 with the
      successful targets among the first t exposed, and count is the number
      of successes so far. */
  ghost predicate TrialsDone(population: seq<Person>, s0: seq<PersonState>, targets: seq<nat>, hit: seq<bool>,
                             t: nat, count: nat)
    reads population
  {
    && t <= |targets| && t <= |hit|
    && (forall k :: 0 <= k < |targets| ==> targets[k] < |s0|)
    && States(population) == ExposeTargets(s0, targets, hit, t)
    && count == Successes(hit, t)
  }

  /** The contact loops of update_infections: each spreader takes up to two
      records from the front of the shuffled healthy list (whose j-th record
      is population[order[j]]); contact_index counts the trials made, and
      imm holds the spreaders' immunities. */
  method Spread(infectedGroup: seq<Person>, healthyGroup: seq<Person>, ghost population: seq<Person>,
                ghost order: seq<nat>, ghost imm: seq<Immunity>, draw: nat -> real)
    returns (newInfections: nat)
    requires Distinct(population)
    requires |order| == |healthyGroup|
    requires forall j :: 0 <= j < |order| ==> order[j] < |population| && healthyGroup[j] == population[order[j]]
    requires |imm| == |infectedGroup|
    requires forall a :: 0 <= a < |infectedGroup| ==> infectedGroup[a].immunity == imm[a]
    modifies population
    ensures var t := TrialCount(|infectedGroup|, |healthyGroup|);
            && States(population) == ExposeTargets(old(States(population)), order[..t], Trials(imm, t, draw), t)
            && newInfections == Successes(Trials(imm, t, draw), t)
  {
    ghost var s0 := States(population);
    ghost var n := |healthyGroup|;
    ghost var T := TrialCount(|infectedGroup|, n);
    newInfections := 0;
    var contactIndex: nat := 0;
    var a: nat := 0;
    while a < |infectedGroup|
      invariant 0 <= a <= |infectedGroup|
      invariant contactIndex == Min(2 * a, n)
      invariant TrialsDone(population, s0, order[..T], Trials(imm, T, draw), contactIndex, newInfections)
    {
      contactIndex, newInfections := Contacts(infectedGroup[a], a, contactIndex, newInfections, healthyGroup,
                                              population, order, imm, s0, T, draw);
      a := a + 1;
    }
  }

  /** The inner loop of update_infections for the a-th spreader inf: up to
      two contacts, stopping when contact_index passes the end of the healthy
      list. */
  method Contacts(inf: Person, ghost a: nat, contactIndex: nat, newInfections: nat, healthyGroup: seq<Person>,
                  ghost population: seq<Person>, ghost order: seq<nat>, ghost imm: seq<Immunity>,
                  ghost s0: seq<PersonState>, ghost T: nat, draw: nat -> real)
    returns (contactIndex': nat, newInfections': nat)
    requires Distinct(population) && |s0| == |population|
    requires |order| == |healthyGroup|
    requires forall j :: 0 <= j < |order| ==> order[j] < |population| && healthyGroup[j] == population[order[j]]
    requires a < |imm| && inf.immunity == imm[a] && T == TrialCount(|imm|, |order|)
    requires contactIndex == Min(2 * a, |order|)
    requires TrialsDone(population, s0, order[..T], Trials(imm, T, draw), contactIndex, newInfections)
    modifies population
    ensures contactIndex' == Min(2 * a + 2, |order|)
    ensures TrialsDone(population, s0, order[..T], Trials(imm, T, draw), contactIndex', newInfections')
  {
    contactIndex', newInfections' := contactIndex, newInfections;
    var c: nat := 0;
    while c < 2
      invariant 0 <= c <= 2
      invariant contactIndex' == Min(2 * a + c, |order|)
      invariant TrialsDone(population, s0, order[..T], Trials(imm, T, draw), contactIndex', newInfections')
    {
      if contactIndex' >= |healthyGroup| {
        break;
      }
      newInfections' := Meet(inf, a, c, contactIndex', newInfections', healthyGroup, population, order, imm, s0, T, draw);
      contactIndex' := contactIndex' + 1;
      c := c + 1;
    }
  }

  /** One contact of the inner loop: the spreader inf (the a-th) meets the
      healthy record at contact_index t = 2a + c, with its adj_prob. */
  method Meet(inf: Person, ghost a: nat, ghost c: nat, t: nat, newInfections: nat, healthyGroup: seq<Person>,
              ghost population: seq<Person>, ghost order: seq<nat>, ghost imm: seq<Immunity>,
              ghost s0: seq<PersonState>, ghost T: nat, draw: nat -> real)
    returns (newInfections': nat)
    requires Distinct(population) && |s0| == |population| && |order| == |healthyGroup|
    requires forall j :: 0 <= j < |order| ==> order[j] < |population| && healthyGroup[j] == population[order[j]]
    requires a < |imm| && inf.immunity == imm[a] && T == TrialCount(|imm|, |order|)
    requires c < 2 && t == 2 * a + c && t < |healthyGroup|
    requires TrialsDone(population, s0, order[..T], Trials(imm, T, draw), t, newInfections)
    modifies population
    ensures TrialsDone(population, s0, order[..T], Trials(imm, T, draw), t + 1, newInfections')
  {
    TrialOf(imm, T, draw, a, c);
    var adjProb := AdjustedProbability(inf.immunity);
    newInfections' := Trial(healthyGroup[t], t, adjProb, newInfections, population, s0, order[..T], Trials(imm, T, draw), draw);
  }

  /** Trial 2a + c (c < 2) is made by the a-th spreader: it succeeds when
      the draw is below that spreader's adj_prob. */
  lemma TrialOf(imm: seq<Immunity>, t: nat, draw: nat -> real, a: nat, c: nat)
    requires t <= 2 * |imm| && c < 2 && 2 * a + c < t
    ensures Trials(imm, t, draw)[2 * a + c] == (draw(2 * a + c) < AdjustedProbability(imm[a]))
  {
    assert (2 * a + c) / 2 == a;
  }

  /** One trial, the t-th: when the t-th random.random() is below adjProb the
      target, record targets[t], becomes exposed and new_infections grows by
      one. */
  method Trial(target: Person, t: nat, adjProb: real, newInfections: nat, ghost population: seq<Person>,
               ghost s0: seq<PersonState>, ghost targets: seq<nat>, ghost hit: seq<bool>, draw: nat -> real)
    returns (newInfections': nat)
    requires Distinct(population) && |s0| == |population| && t < |targets| == |hit|
    requires forall k :: 0 <= k < |targets| ==> targets[k] < |population|
    requires target == population[targets[t]] && hit[t] == (draw(t) < adjProb)
    requires TrialsDone(population, s0, targets, hit, t, newInfections)
    modifies population
    ensures TrialsDone(population, s0, targets, hit, t + 1, newInfections')
  {
    newInfections' := newInfections;
    if draw(t) < adjProb {
      SetExposed(target, population, targets[t]);
      newInfections' := newInfections' + 1;
    }
  }

  /** One pass of the day loop of simulate: count the groups, record the day,
      move the peak on a new maximum, and unless the day ends the run, call
      update_infections with the day's random inputs. The ghost init is the
      population the run started from. */
  method SimulateDay(population: seq<Person>, rng: Rng, day: nat, ghost init: seq<PersonState>,
                     history: map<Status, seq<nat>>, peakDay: nat, maxInfected: nat)
    returns (history': map<Status, seq<nat>>, peakDay': nat, maxInfected': nat, stop: bool)
    requires Distinct(population) && ValidRng(rng)
    requires States(population) == Evolve(init, day, rng)
    requires Recorded(history, peakDay, maxInfected, init, day, rng)
    modifies population
    ensures Recorded(history', peakDay', maxInfected', init, day + 1, rng)
    ensures stop == Stops(DailyCounts(init, day, rng))
    ensures States(population) == Evolve(init, if stop then day else day + 1, rng)
  {
    var groups, counts := CountGroups(population);
    assert counts == DailyCounts(init, day, rng);
    TraceStep(init, day, rng);
    history', peakDay', maxInfected' := RecordDay(history, peakDay, maxInfected, counts, day, Trace(init, day, rng));
    stop := (counts.infected == 0 && counts.exposed == 0) || counts.healthy == 0;
    if !stop {
      UpdateDay(population, groups, counts, rng, day, init);
    }
  }

  /** The start of the day loop of simulate: group the records and take the
      four group sizes. */
  method CountGroups(population: seq<Person>) returns (groups: map<Status, seq<Person>>, counts: Counts)
    ensures IsGrouping(groups, population, StatusesOf(States(population)))
    ensures counts == CountsOf(StatusesOf(States(population)))
  {
    groups := GroupByStatus(population);
    var healthy := |GroupOf(groups, Healthy)|;
    var exposed := |GroupOf(groups, Exposed)|;
    var infected := |GroupOf(groups, Infected)|;
    var cured := |GroupOf(groups, Cured)|;
    counts := Counts(healthy, exposed, infected, cured);
  }

  /** The update at the end of a day that does not stop the run:
      update_infections on that day's groups, with the day's shuffle of the
      healthy list and the day's draws. */
  method UpdateDay(population: seq<Person>, groups: map<Status, seq<Person>>, counts: Counts, rng: Rng, day: nat,
                   ghost init: seq<PersonState>)
    requires Distinct(population) && ValidRng(rng)
    requires States(population) == Evolve(init, day, rng)
    requires IsGrouping(groups, population, StatusesOf(Evolve(init, day, rng)))
    requires counts == DailyCounts(init, day, rng)
    modifies population
    ensures States(population) == Evolve(init, day + 1, rng)
  {
    var newInfected := UpdateInfections(groups, rng.shuffle(day)(counts.healthy), rng.coin(day), population,
                                        Evolve(init, day, rng));
    EvolveStep(init, day, rng);
  }

  /** The recording part of the day loop of simulate: the four appends to
      the history and the peak update with a strict comparison. */
  method RecordDay(history: map<Status, seq<nat>>, peakDay: nat, maxInfected: nat, counts: Counts, day: nat,
                   ghost series: seq<Counts>)
    returns (history': map<Status, seq<nat>>, peakDay': nat, maxInfected': nat)
    requires history == HistoryOf(series) && |series| == day
    requires (peakDay, maxInfected) == Peak(Column(series, Infected))
    ensures history' == HistoryOf(series + [counts])
    ensures (peakDay', maxInfected') == Peak(Column(series + [counts], Infected))
  {
    RecordHistoryOf(series, counts);
    ColumnAppend(series, counts, Infected);
    PeakAppend(Column(series, Infected), counts.infected);
    history' := History.Record(history, counts);
    peakDay', maxInfected' := peakDay, maxInfected;
    if counts.infected > maxInfected {
      maxInfected' := counts.infected;
      peakDay' := day;
    }
  }

  /** simulate, without its logging and plotting: initialize the population,
      then for each day record the counts, track the peak, stop after a day
      with nobody exposed or infected or nobody healthy, otherwise update.
      The history holds the trace of the run's RunLength days from the
      initial records, and the peak is what peak tracking finds on the
      infected counts. initialInfected is round(population_size * 0.05). */
  method Simulate(populationSize: nat, days: nat, initialInfected: nat, immunities: seq<Immunity>,
                  chosen: seq<nat>, rng: Rng)
    returns (history: map<Status, seq<nat>>, peakDay: nat, maxInfected: nat)
    requires |immunities| == populationSize
    requires |chosen| == initialInfected && Distinct(chosen)
    requires forall k :: 0 <= k < |chosen| ==> chosen[k] < populationSize
    requires ValidRng(rng)
    ensures var init := InitialStates(immunities, chosen);
            && history == HistoryOf(Trace(init, RunLength(init, days, rng, 0), rng))
            && (peakDay, maxInfected) == Peak(history[Infected])
  {
    var population := InitializePopulation(populationSize, initialInfected, immunities, chosen);
    history, peakDay, maxInfected := DayLoop(population, days, rng, States(population));
  }

  /** The day loop of simulate from the records population, whose values
      are init, with an empty history and no peak yet. */
  method DayLoop(population: seq<Person>, days: nat, rng: Rng, ghost init: seq<PersonState>)
    returns (history: map<Status, seq<nat>>, peakDay: nat, maxInfected: nat)
    requires Distinct(population) && ValidRng(rng) && States(population) == init
    modifies population
    ensures history == HistoryOf(Trace(init, RunLength(init, days, rng, 0), rng))
    ensures (peakDay, maxInfected) == Peak(history[Infected])
  {
    history := EmptyHistory();
    maxInfected := 0;
    peakDay := 0;
    assert HistoryOf([]) == EmptyHistory();
    var day: nat := 0;
    var stop := false;
    while day < days
      invariant 0 <= day <= days && !stop
      invariant Recorded(history, peakDay, maxInfected, init, day, rng)
      invariant States(population) == Evolve(init, day, rng)
      invariant RunLength(init, days, rng, 0) == RunLength(init, days, rng, day)
    {
      history, peakDay, maxInfected, stop := SimulateDay(population, rng, day, init, history, peakDay, maxInfected);
      if stop {
        break;
      }
      day := day + 1;
    }
    RecordedRun(history, peakDay, maxInfected, init, days, rng, day, stop);
  }

  /** history, peakDay and maxInfected are what the day loop holds after
      recording the first n days of a run from init. */
  ghost predicate Recorded(history: map<Status, seq<nat>>, peakDay: nat, maxInfected: nat,
                           init: seq<PersonState>, n: nat, rng: Rng)
    requires ValidRng(rng)
  {
    history == HistoryOf(Trace(init, n, rng)) && (peakDay, maxInfected) == Peak(Column(Trace(init, n, rng), Infected))
  }

  /** When the day loop ends, on a stopping day or after all days, it has
      recorded the whole run. */
  lemma RecordedRun(history: map<Status, seq<nat>>, peakDay: nat, maxInfected: nat,
                    init: seq<PersonState>, days: nat, rng: Rng, day: nat, stop: bool)
    requires ValidRng(rng) && day <= days
    requires RunLength(init, days, rng, 0) == RunLength(init, days, rng, day)
    requires stop ==> day < days && Stops(DailyCounts(init, day, rng))
    requires !stop ==> day == days
    requires Recorded(history, peakDay, maxInfected, init, if stop then day + 1 else day, rng)
    ensures history == HistoryOf(Trace(init, RunLength(init, days, rng, 0), rng))
    ensures (peakDay, maxInfected) == Peak(history[Infected])
  {
    RunEnd(init, days, rng, day, stop);
    HistoryOfColumn(Trace(init, if stop then day + 1 else day, rng), Infected);
  }
}
