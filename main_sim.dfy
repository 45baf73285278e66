/** The earlier, stand-alone agent-based engine (main.py): Person.update_infections
    without reinfection, Population (construction, update, group_by_status,
    get_statistics) and Simulation.run. */
module MainSim {
  import opened Epidemic
  import opened Contact
  import opened History

  /** The base duration random.randint(5, 7) gives. */
  type BaseDuration = d: int | 5 <= d <= 7 witness 6

  /** The base duration of the virus singleton, drawn once when the module is
      loaded: the model holds for whichever of 5, 6 or 7 was drawn. */
  const BASE_DURATION: BaseDuration

  /** The virus singleton: incubation 2 days, the drawn base duration,
      infection probability 0.1. */
  const VIRUS: Virus := Virus(2, BASE_DURATION, 0.1)

  /** The fields of one Person. */
  datatype PersonState = PersonState(status: Status, daysInfected: nat, incubation: nat, immunity: Immunity)

  function StatusesOf(s: seq<PersonState>): seq<Status> {
    seq(|s|, i requires 0 <= i < |s| => s[i].status)
  }

  /** The day count at which an infected person of immunity i is cured. */
  function CureDay(i: Immunity): int {
    VIRUS.baseDuration + ImmunityEffect(i)
  }

  /** Person.update_infections on the person's fields. */
  function Advance(p: PersonState): PersonState {
    match p.status
    case Exposed =>
      var q := p.(incubation := p.incubation + 1);
      if q.incubation >= VIRUS.timeIncubation then q.(status := Infected) else q
    case Infected =>
      var q := p.(daysInfected := p.daysInfected + 1);
      if q.daysInfected >= CureDay(p.immunity) then q.(status := Cured) else q
    case Cured => p
    case Healthy => p
  }

  /** A successful contact: the target becomes exposed with its incubation
      counter set to 0. */
  function Expose(p: PersonState): PersonState {
    p.(status := Exposed, incubation := 0)
  }

  /** The person after k calls of update_infections. */
  function Iterate(p: PersonState, k: nat): PersonState {
    if k == 0 then p else Advance(Iterate(p, k - 1))
  }

  /** The cure day lies within one day of the drawn base duration, so
      between 4 and 8. */
  lemma CureDayRange(i: Immunity)
    ensures BASE_DURATION - 1 <= CureDay(i) <= BASE_DURATION + 1
    ensures 4 <= CureDay(i) <= 8
  {
  }

  /** An exposed person stays exposed, its incubation counter rising by one per
      update, until the counter reaches time_incubation; on that update it
      becomes infected. Nothing else about it changes. */
  lemma {:induction false} ExposedTimeline(p: PersonState, k: nat)
    requires p.status == Exposed && p.incubation < VIRUS.timeIncubation
    requires p.incubation + k <= VIRUS.timeIncubation
    ensures Iterate(p, k) == p.(incubation := p.incubation + k,
                                status := if p.incubation + k < VIRUS.timeIncubation then Exposed else Infected)
    decreases k
  {
    if k > 0 {
      ExposedTimeline(p, k - 1);
    }
  }

  /** An infected person stays infected, its day counter rising by one per
      update, until the counter reaches its cure day; on that update it becomes
      cured. Nothing else about it changes. */
  lemma {:induction false} InfectedTimeline(p: PersonState, k: nat)
    requires p.status == Infected && p.daysInfected < CureDay(p.immunity)
    requires p.daysInfected + k <= CureDay(p.immunity)
    ensures Iterate(p, k) == p.(daysInfected := p.daysInfected + k,
                                status := if p.daysInfected + k < CureDay(p.immunity) then Infected else Cured)
    decreases k
  {
    if k > 0 {
      InfectedTimeline(p, k - 1);
    }
  }

  /** update_infections changes neither a healthy nor a cured person: cured
      is final. */
  lemma Settled(p: PersonState)
    ensures p.status == Healthy || p.status == Cured <==> Advance(p) == p
  {
  }

  /** A cured person stays cured, unchanged, through any number of updates. */
  lemma {:induction false} CuredForever(p: PersonState, k: nat)
    requires p.status == Cured
    ensures Iterate(p, k) == p
    decreases k
  {
    if k > 0 {
      CuredForever(p, k - 1);
    }
  }

  /** No update makes anybody healthy who was not healthy before. */
  lemma NeverHealthyAgain(p: PersonState)
    ensures Advance(p).status == Healthy <==> p.status == Healthy
  {
  }

  /** The whole course of one infection: a person exposed by a contact (from
      healthy, day counter 0) is infected on its 2nd update, cured on its
      (2 + cure day)-th, and cured for good from then on. */
  lemma {:induction false} InfectionCourse(p: PersonState)
    requires p.status == Healthy && p.daysInfected == 0
    ensures Iterate(Expose(p), 1).status == Exposed
    ensures Iterate(Expose(p), 2).status == Infected
    ensures forall k :: 2 <= k < 2 + CureDay(p.immunity) ==> Iterate(Expose(p), k).status == Infected
    ensures forall k :: 2 + CureDay(p.immunity) <= k ==> Iterate(Expose(p), k).status == Cured
  {
    var e := Expose(p);
    ExposedTimeline(e, 1);
    ExposedTimeline(e, 2);
    InfectedPhase(e, 2);
    StaysCured(e, 2 + CureDay(p.immunity));
  }

  /** A person infected, with day counter 0, after k0 updates stays infected
      through update k0 + cure day - 1 and is cured by update k0 + cure day. */
  lemma InfectedPhase(p: PersonState, k0: nat)
    requires Iterate(p, k0).status == Infected && Iterate(p, k0).daysInfected == 0
    ensures forall k :: k0 <= k < k0 + CureDay(p.immunity) ==> Iterate(p, k).status == Infected
    ensures Iterate(p, k0 + CureDay(p.immunity)).status == Cured
  {
    var i := Iterate(p, k0);
    var d := CureDay(i.immunity);
    assert d > 0 && i.immunity == p.immunity by {
      ImmunityKept(p, k0);
    }
    forall k | k0 <= k < k0 + d ensures Iterate(p, k).status == Infected {
      InfectedTimeline(i, k - k0);
      IterateAdd(p, k0, k - k0);
    }
    InfectedTimeline(i, d);
    IterateAdd(p, k0, d);
  }

  /** update_infections never changes the immunity tag. */
  lemma {:induction false} ImmunityKept(p: PersonState, k: nat)
    ensures Iterate(p, k).immunity == p.immunity
    decreases k
  {
    if k > 0 {
      ImmunityKept(p, k - 1);
    }
  }

  /** Once cured after k0 updates, cured after every later update too. */
  lemma StaysCured(p: PersonState, k0: nat)
    requires Iterate(p, k0).status == Cured
    ensures forall k :: k0 <= k ==> Iterate(p, k).status == Cured
  {
    forall k | k0 <= k ensures Iterate(p, k).status == Cured {
      CuredForever(Iterate(p, k0), k - k0);
      IterateAdd(p, k0, k - k0);
    }
  }

  /** Updating k times and then j times is updating k + j times. */
  lemma {:induction false} IterateAdd(p: PersonState, k: nat, j: nat)
    ensures Iterate(Iterate(p, k), j) == Iterate(p, k + j)
    decreases j
  {
    if j > 0 {
      IterateAdd(p, k, j - 1);
    }
  }

  /** The outcome of each trial of a day: random.random() < 0.1. */
  function Trials(t: nat, draw: nat -> real): seq<bool> {
    seq(t, k requires 0 <= k < t => draw(k) < VIRUS.infectionProbability)
  }

  /** The persons that Population.update sets to exposed: the targets of the
      successful trials. */
  function NewlyExposed(s: seq<PersonState>, perm: seq<nat>, draw: nat -> real): set<nat>
    requires IsPermutation(perm, Count(StatusesOf(s), Healthy))
  {
    var targets := PopTargets(StatusesOf(s), perm);
    Hits(targets, Trials(|targets|, draw), |targets|)
  }

  /** Population.update on the persons' fields: everybody advances one day,
      then the trials of the persons infected at the start of the call are
      made in order, each successful one exposing its target. */
  function Step(s: seq<PersonState>, perm: seq<nat>, draw: nat -> real): seq<PersonState>
    requires IsPermutation(perm, Count(StatusesOf(s), Healthy))
  {
    var targets := PopTargets(StatusesOf(s), perm);
    ExposeTargets(AdvanceEach(s), targets, Trials(|targets|, draw), |targets|)
  }

  /** Every person advanced by one update_infections. */
  function AdvanceEach(s: seq<PersonState>): seq<PersonState> {
    seq(|s|, i requires 0 <= i < |s| => Advance(s[i]))
  }

  /** The persons after the first t trials, made in order: a successful trial
      sets its target to exposed with incubation 0. */
  function ExposeTargets(s: seq<PersonState>, targets: seq<nat>, hit: seq<bool>, t: nat): (r: seq<PersonState>)
    requires t <= |targets| && t <= |hit|
    requires forall k :: 0 <= k < |targets| ==> targets[k] < |s|
    ensures |r| == |s|
    decreases t
  {
    if t == 0 then s
    else
      var r := ExposeTargets(s, targets, hit, t - 1);
      if hit[t - 1] then r[targets[t - 1] := Expose(r[targets[t - 1]])] else r
  }

  /** Making the trials one after the other exposes exactly the targets of the
      successful ones, each once, and leaves everybody else unchanged. */
  lemma {:induction false} ExposeTargetsHits(s: seq<PersonState>, targets: seq<nat>, hit: seq<bool>, t: nat)
    requires t <= |targets| && t <= |hit|
    requires forall k :: 0 <= k < |targets| ==> targets[k] < |s|
    ensures forall i :: 0 <= i < |s| ==>
              ExposeTargets(s, targets, hit, t)[i] == if i in Hits(targets, hit, t) then Expose(s[i]) else s[i]
    decreases t
  {
    if t > 0 {
      ExposeTargetsHits(s, targets, hit, t - 1);
      HitsStep(targets, hit, t - 1);
    }
  }

  /** Only persons healthy at the start of the call can be newly exposed; they
      end the call exposed with incubation 0, and everybody else just
      advances one day. The population size does not change. */
  lemma StepEffect(s: seq<PersonState>, perm: seq<nat>, draw: nat -> real)
    requires IsPermutation(perm, Count(StatusesOf(s), Healthy))
    ensures |Step(s, perm, draw)| == |s|
    ensures forall i :: i in NewlyExposed(s, perm, draw) ==>
              i < |s| && s[i].status == Healthy && Step(s, perm, draw)[i] == s[i].(status := Exposed, incubation := 0)
    ensures forall i :: 0 <= i < |s| && i !in NewlyExposed(s, perm, draw) ==> Step(s, perm, draw)[i] == Advance(s[i])
  {
    var st := StatusesOf(s);
    var targets := PopTargets(st, perm);
    var hit := Trials(|targets|, draw);
    HitsBound(targets, hit, |targets|);
    ExposeTargetsHits(AdvanceEach(s), targets, hit, |targets|);
    forall i | i in NewlyExposed(s, perm, draw) ensures i < |s| && s[i].status == Healthy {
      var k :| 0 <= k < |targets| && hit[k] && targets[k] == i;
    }
  }

  /** The number of persons newly exposed equals the number of successful
      trials and is at most twice the number of spreaders and at most the
      number of healthy persons; no healthy person is a target twice. */
  lemma NewInfectionsBound(s: seq<PersonState>, perm: seq<nat>, draw: nat -> real)
    requires IsPermutation(perm, Count(StatusesOf(s), Healthy))
    ensures var t := TrialCount(Count(StatusesOf(s), Infected), Count(StatusesOf(s), Healthy));
            |NewlyExposed(s, perm, draw)| == Successes(Trials(t, draw), t)
    ensures |NewlyExposed(s, perm, draw)| <= 2 * Count(StatusesOf(s), Infected)
    ensures |NewlyExposed(s, perm, draw)| <= Count(StatusesOf(s), Healthy)
  {
    var targets := PopTargets(StatusesOf(s), perm);
    HitsBound(targets, Trials(|targets|, draw), |targets|);
  }

  /** The spreaders are the persons infected at the start of the call: with
      none of them nobody is newly exposed, even if exposed persons become
      infected during the call. */
  lemma NoSpreadersNoExposure(s: seq<PersonState>, perm: seq<nat>, draw: nat -> real)
    requires IsPermutation(perm, Count(StatusesOf(s), Healthy))
    requires Count(StatusesOf(s), Infected) == 0
    ensures NewlyExposed(s, perm, draw) == {}
    ensures Step(s, perm, draw) == AdvanceEach(s)
  {
    var targets := PopTargets(StatusesOf(s), perm);
    assert |targets| == 0;
  }

  /** The persons right after construction: the sampled ones exposed, the
      others healthy, all counters 0. */
  function InitialStates(immunities: seq<Immunity>, chosen: seq<nat>): seq<PersonState> {
    seq(|immunities|, i requires 0 <= i < |immunities| =>
      PersonState(if i in chosen then Exposed else Healthy, 0, 0, immunities[i]))
  }

  /** After construction there are size persons, exactly infected_count of
      them exposed and the rest healthy. */
  lemma InitialCounts(immunities: seq<Immunity>, chosen: seq<nat>)
    requires Distinct(chosen) && forall k :: 0 <= k < |chosen| ==> chosen[k] < |immunities|
    ensures |InitialStates(immunities, chosen)| == |immunities|
    ensures var st := StatusesOf(InitialStates(immunities, chosen));
            Count(st, Exposed) == |chosen| && Count(st, Healthy) == |immunities| - |chosen|
            && Count(st, Infected) == 0 && Count(st, Cured) == 0
  {
    var st := StatusesOf(InitialStates(immunities, chosen));
    assert forall i :: 0 <= i < |st| ==> st[i] == if i in chosen then Exposed else Healthy;
    CountIsCardinality(st, Exposed);
    assert IndexSet(st, Exposed) == Elems(chosen);
    DistinctCardinality(chosen);
    NoneCounted(st, Infected);
    NoneCounted(st, Cured);
    CountsPartition(st);
  }

  /** The persons after d simulated days of a run. */
  ghost function Evolve(s: seq<PersonState>, d: nat, rng: Rng): (r: seq<PersonState>)
    requires ValidRng(rng)
    ensures |r| == |s|
    decreases d, 1
  {
    if d == 0 then s else DayStep(s, d, rng)
  }

  /** The persons at the end of day d > 0: Population.update, with that day's
      shuffle of the healthy list and that day's random draws, on the persons
      after d - 1 days. */
  ghost function DayStep(s: seq<PersonState>, d: nat, rng: Rng): (r: seq<PersonState>)
    requires ValidRng(rng) && d > 0
    ensures |r| == |s|
    decreases d, 0
  {
    var prev := Evolve(s, d - 1, rng);
    Step(prev, rng.shuffle(d - 1)(Count(StatusesOf(prev), Healthy)), rng.coin(d - 1))
  }

  /** The counts recorded on day d of a run from the persons s. */
  ghost function DailyCounts(s: seq<PersonState>, d: nat, rng: Rng): (c: Counts)
    requires ValidRng(rng)
    ensures Total(c) == |s|
  {
    CountsOf(StatusesOf(Evolve(s, d, rng)))
  }

  /** The counts of the first n days of a run from the persons s. */
  ghost function Trace(s: seq<PersonState>, n: nat, rng: Rng): (r: seq<Counts>)
    requires ValidRng(rng)
    ensures |r| == n
  {
    seq(n, d requires 0 <= d < n => DailyCounts(s, d, rng))
  }

  /** One more recorded day appends that day's counts to the trace. */
  lemma TraceStep(s: seq<PersonState>, n: nat, rng: Rng)
    requires ValidRng(rng)
    ensures Trace(s, n + 1, rng) == Trace(s, n, rng) + [DailyCounts(s, n, rng)]
  {
    assert Trace(s, n + 1, rng)[..n] == Trace(s, n, rng);
  }

  /** Day d of the trace holds the counts of the persons after d days. */
  lemma {:induction false} TraceAt(s: seq<PersonState>, n: nat, rng: Rng)
    requires ValidRng(rng)
    ensures forall d :: 0 <= d < n ==> Trace(s, n, rng)[d] == DailyCounts(s, d, rng)
  {
    if n > 0 {
      TraceAt(s, n - 1, rng);
    }
  }

  /** The number of days a run of at most days days records, when it has
      reached day from without stopping: it stops after recording the first
      day whose counts satisfy the stopping condition. */
  ghost function RunLength(s: seq<PersonState>, days: nat, rng: Rng, from: nat): (n: nat)
    requires ValidRng(rng)
    ensures from <= n && (from <= days ==> n <= days)
    decreases days - from
  {
    if from >= days then from
    else if Stops(DailyCounts(s, from, rng)) then from + 1
    else RunLength(s, days, rng, from + 1)
  }

  /** A run goes on through every day before its last one, and a run that
      ends before days days ends on a day that satisfies the stopping
      condition. */
  lemma {:induction false} RunLengthStops(s: seq<PersonState>, days: nat, rng: Rng, from: nat)
    requires ValidRng(rng)
    ensures forall d :: from <= d < RunLength(s, days, rng, from) - 1 ==> !Stops(DailyCounts(s, d, rng))
    ensures from < RunLength(s, days, rng, from) < days ==>
              Stops(DailyCounts(s, RunLength(s, days, rng, from) - 1, rng))
    decreases days - from
  {
    if from < days && !Stops(DailyCounts(s, from, rng)) {
      RunLengthStops(s, days, rng, from + 1);
    }
  }

  /** The number of updates a run makes: one after each recorded day except
      a day that stops it. */
  ghost function UpdatedDays(s: seq<PersonState>, days: nat, rng: Rng): nat
    requires ValidRng(rng)
  {
    var n := RunLength(s, days, rng, 0);
    if n > 0 && Stops(DailyCounts(s, n - 1, rng)) then n - 1 else n
  }

  /** How a run's day loop ends: either on day (< days) with its stopping
      condition, or after all days, the last of them not stopping. */
  lemma RunEnd(s: seq<PersonState>, days: nat, rng: Rng, day: nat, stop: bool)
    requires ValidRng(rng) && day <= days
    requires RunLength(s, days, rng, 0) == RunLength(s, days, rng, day)
    requires stop ==> day < days && Stops(DailyCounts(s, day, rng))
    requires !stop ==> day == days
    ensures RunLength(s, days, rng, 0) == if stop then day + 1 else day
  {
    var n := RunLength(s, days, rng, day);
    if stop {
      assert n == day + 1;
    } else {
      assert n == day;
    }
  }

  /** A run that stopped on day made day updates; one that went through all
      its days without stopping on the last made an update after each. */
  lemma UpdatedDaysEnd(s: seq<PersonState>, days: nat, rng: Rng, day: nat, stop: bool)
    requires ValidRng(rng)
    requires RunLength(s, days, rng, 0) == if stop then day + 1 else day
    requires stop ==> Stops(DailyCounts(s, day, rng))
    requires !stop ==> day > 0 ==> !Stops(DailyCounts(s, day - 1, rng))
    ensures UpdatedDays(s, days, rng) == day
  {
  }

  /** What run records: one entry per day of the run, holding that day's
      counts, every day but the last goes on, and a run shorter than days
      days ended on its stopping condition. */
  lemma RunHistory(s: seq<PersonState>, days: nat, rng: Rng)
    requires ValidRng(rng)
    ensures var n := RunLength(s, days, rng, 0);
            var h := HistoryOf(Trace(s, n, rng));
            && WellFormed(h) && Days(h) == n <= days && (days > 0 ==> n > 0)
            && (forall d :: 0 <= d < n ==> DayCounts(h, d) == DailyCounts(s, d, rng))
            && (forall d :: 0 <= d < n ==> Total(DayCounts(h, d)) == |s|)
            && (forall d :: 0 <= d < n - 1 ==> !Stops(DayCounts(h, d)))
            && (n < days ==> Stops(DayCounts(h, n - 1)))
  {
    var n := RunLength(s, days, rng, 0);
    HistoryOfDays(Trace(s, n, rng));
    TraceAt(s, n, rng);
    RunLengthStops(s, days, rng, 0);
  }

  /** One more day of a run is one more Step, with that day's shuffle of the
      healthy list and that day's draws. */
  lemma EvolveStep(s: seq<PersonState>, d: nat, rng: Rng)
    requires ValidRng(rng)
    ensures Evolve(s, d + 1, rng) ==
              Step(Evolve(s, d, rng), rng.shuffle(d)(DailyCounts(s, d, rng).healthy), rng.coin(d))
  {
  }

  /** Within one update nobody becomes healthy and nobody stops being cured:
      the healthy count never rises and the cured count never falls. */
  lemma StepMonotone(s: seq<PersonState>, perm: seq<nat>, draw: nat -> real)
    requires IsPermutation(perm, Count(StatusesOf(s), Healthy))
    ensures Count(StatusesOf(Step(s, perm, draw)), Healthy) <= Count(StatusesOf(s), Healthy)
    ensures Count(StatusesOf(s), Cured) <= Count(StatusesOf(Step(s, perm, draw)), Cured)
  {
    StepEffect(s, perm, draw);
    var a := StatusesOf(s);
    var b := StatusesOf(Step(s, perm, draw));
    forall i | 0 <= i < |a| && a[i] == Cured ensures b[i] == Cured {
      assert i !in NewlyExposed(s, perm, draw);
    }
    CountMonotone(a, b, Cured);
    forall i | 0 <= i < |b| && b[i] == Healthy ensures a[i] == Healthy {
      if i !in NewlyExposed(s, perm, draw) {
        NeverHealthyAgain(s[i]);
      }
    }
    CountMonotone(b, a, Healthy);
  }

  /** From any day of a run to a later one the healthy count does not rise
      and the cured count does not fall. */
  lemma {:induction false} DailyMonotone(s: seq<PersonState>, d: nat, e: nat, rng: Rng)
    requires ValidRng(rng) && d <= e
    ensures Progressed(DailyCounts(s, d, rng), DailyCounts(s, e, rng))
    decreases e - d
  {
    if d < e {
      DailyMonotone(s, d, e - 1, rng);
      NextDayMonotone(s, e - 1, rng);
    }
  }

  /** From one day of a run to the next the healthy count does not rise and
      the cured count does not fall. */
  lemma NextDayMonotone(s: seq<PersonState>, d: nat, rng: Rng)
    requires ValidRng(rng)
    ensures Progressed(DailyCounts(s, d, rng), DailyCounts(s, d + 1, rng))
  {
    var prev := Evolve(s, d, rng);
    var perm := rng.shuffle(d)(Count(StatusesOf(prev), Healthy));
    EvolveStep(s, d, rng);
    StepMonotone(prev, perm, rng.coin(d));
  }

  /** Through the first n days of a run the healthy count never rises and
      the cured count never falls. */
  lemma TraceMonotone(s: seq<PersonState>, n: nat, rng: Rng)
    requires ValidRng(rng)
    ensures MonotoneCounts(Trace(s, n, rng))
  {
    var cs := Trace(s, n, rng);
    TraceAt(s, n, rng);
    forall d, e | 0 <= d <= e < n ensures Progressed(cs[d], cs[e]) {
      DailyMonotone(s, d, e, rng);
    }
  }

  /** The history run records: the healthy list never rises and the cured
      list never falls. */
  lemma RunMonotone(s: seq<PersonState>, days: nat, rng: Rng)
    requires ValidRng(rng)
    ensures WellFormed(HistoryOf(Trace(s, RunLength(s, days, rng, 0), rng)))
    ensures MonotoneHistory(HistoryOf(Trace(s, RunLength(s, days, rng, 0), rng)))
  {
    var cs := Trace(s, RunLength(s, days, rng, 0), rng);
    TraceMonotone(s, RunLength(s, days, rng, 0), rng);
    HistoryMonotoneOf(cs);
  }

  /** history, peakDay and maxInfected are what the day loop holds after
      recording the first n days of a run from init. */
  ghost predicate Recorded(history: map<Status, seq<nat>>, peakDay: nat, maxInfected: nat,
                           init: seq<PersonState>, n: nat, rng: Rng)
    requires ValidRng(rng)
  {
    history == HistoryOf(Trace(init, n, rng)) && (peakDay, maxInfected) == Peak(Column(Trace(init, n, rng), Infected))
  }

  /** When the day loop ends, on a stopping day or after all days, it has
      recorded the whole run, and the population has been updated once per
      recorded day but a stopping one. */
  lemma RecordedRun(history: map<Status, seq<nat>>, peakDay: nat, maxInfected: nat,
                    init: seq<PersonState>, days: nat, rng: Rng, day: nat, stop: bool)
    requires ValidRng(rng) && day <= days
    requires RunLength(init, days, rng, 0) == RunLength(init, days, rng, day)
    requires stop ==> day < days && Stops(DailyCounts(init, day, rng))
    requires !stop ==> day == days
    requires day > 0 ==> !Stops(DailyCounts(init, day - 1, rng))
    requires Recorded(history, peakDay, maxInfected, init, if stop then day + 1 else day, rng)
    ensures history == HistoryOf(Trace(init, RunLength(init, days, rng, 0), rng))
    ensures (peakDay, maxInfected) == Peak(history[Infected])
    ensures UpdatedDays(init, days, rng) == day
  {
    RunEnd(init, days, rng, day, stop);
    UpdatedDaysEnd(init, days, rng, day, stop);
    HistoryOfColumn(Trace(init, if stop then day + 1 else day, rng), Infected);
  }

  class Person {
    var status: Status
    var daysInfected: nat
    var incubation: nat
    const immunity: Immunity

    function State(): PersonState
      reads this
    {
      PersonState(status, daysInfected, incubation, immunity)
    }

    constructor (immunity: Immunity)
      ensures State() == PersonState(Healthy, 0, 0, immunity)
    {
      status := Healthy;
      daysInfected := 0;
      incubation := 0;
      this.immunity := immunity;
    }

    method UpdateInfections()
      modifies this
      ensures State() == Advance(old(State()))
    {
      if status == Exposed {
        incubation := incubation + 1;
        if incubation >= VIRUS.timeIncubation {
          status := Infected;
        }
      } else if status == Infected {
        daysInfected := daysInfected + 1;
        if daysInfected >= VIRUS.baseDuration + ImmunityEffect(immunity) {
          status := Cured;
        }
      }
    }
  }

  class Population {
    const people: seq<Person>

    /** The persons are distinct objects. */
    ghost predicate Valid() {
      Distinct(people)
    }

    function States(): seq<PersonState>
      reads people
    {
      seq(|people|, i reads people requires 0 <= i < |people| => people[i].State())
    }

    function Statuses(): seq<Status>
      reads people
    {
      StatusesOf(States())
    }

    /** size persons with the drawn immunities; the persons at the sampled
        indices are then set to exposed. */
    constructor (size: nat, infectedCount: nat, immunities: seq<Immunity>, chosen: seq<nat>)
      requires |immunities| == size
      requires |chosen| == infectedCount && Distinct(chosen)
      requires forall k :: 0 <= k < |chosen| ==> chosen[k] < size
      ensures Valid() && |people| == size
      ensures forall i :: 0 <= i < |people| ==> fresh(people[i])
      ensures States() == InitialStates(immunities, chosen)
    {
      var ps: seq<Person> := [];
      var i: nat := 0;
      while i < size
        invariant 0 <= i <= size && |ps| == i
        invariant Distinct(ps)
        invariant forall k :: 0 <= k < i ==> fresh(ps[k])
        invariant forall k :: 0 <= k < i ==> ps[k].State() == PersonState(Healthy, 0, 0, immunities[k])
      {
        var p := new Person(immunities[i]);
        assert Distinct(ps + [p]) by {
          forall k, l | 0 <= k < l < |ps| + 1 ensures DistinctAt(ps + [p], k, l) {
            if l < |ps| {
              assert DistinctAt(ps, k, l);
            }
          }
        }
        ps := ps + [p];
        i := i + 1;
      }
      people := ps;
      new;
      var j: nat := 0;
      while j < |chosen|
        invariant 0 <= j <= |chosen|
        invariant forall k :: 0 <= k < size ==>
                    people[k].State() == PersonState(if k in chosen[..j] then Exposed else Healthy, 0, 0, immunities[k])
      {
        assert chosen[..j + 1] == chosen[..j] + [chosen[j]];
        forall k | 0 <= k < size && k != chosen[j] ensures people[k] != people[chosen[j]] {
          DistinctIndices(people, k, chosen[j]);
        }
        people[chosen[j]].status := Exposed;
        j := j + 1;
      }
      assert chosen[..|chosen|] == chosen;
    }

    /** group_by_status: for each status present, the persons of that status
        in population order. */
    method GroupByStatus() returns (groups: map<Status, seq<Person>>)
      ensures IsGrouping(groups, people, Statuses())
    {
      ghost var st := Statuses();
      groups := map[];
      var i: nat := 0;
      while i < |people|
        invariant 0 <= i <= |people|
        invariant IsGrouping(groups, people[..i], st[..i])
      {
        var s := people[i].status;
        assert s == st[i];
        GroupingStep(groups, people, st, i);
        groups := groups[s := GroupOf(groups, s) + [people[i]]];
        i := i + 1;
      }
      assert people[..i] == people && st[..i] == st;
    }

    /** The sizes of the four groups of group_by_status, as run reads them. */
    method GroupSizes() returns (c: Counts)
      ensures c == CountsOf(Statuses())
    {
      var groups := GroupByStatus();
      c := Counts(|GroupOf(groups, Healthy)|, |GroupOf(groups, Exposed)|,
                  |GroupOf(groups, Infected)|, |GroupOf(groups, Cured)|);
    }

    /** get_statistics: the size of each group present. */
    method GetStatistics() returns (stats: map<Status, nat>)
      ensures forall s :: s in stats <==> Count(Statuses(), s) > 0
      ensures forall s :: s in stats ==> stats[s] == Count(Statuses(), s)
    {
      var groups := GroupByStatus();
      stats := map s | s in groups :: |groups[s]|;
      forall s | s in stats ensures stats[s] == Count(Statuses(), s) {
        assert groups[s] == GroupOf(groups, s);
      }
    }

    /** update: every person advances one day, then each person infected at
        the start of the call makes up to two contacts, popped from the
        shuffled list of persons healthy at the start of the call. */
    method Update(perm: seq<nat>, draw: nat -> real) returns (newInfections: nat)
      requires Valid()
      requires IsPermutation(perm, Count(Statuses(), Healthy))
      modifies people
      ensures States() == Step(old(States()), perm, draw)
      ensures newInfections == |NewlyExposed(old(States()), perm, draw)|
    {
      ghost var s0 := States();
      ghost var st0 := Statuses();
      var groups := GroupByStatus();
      newInfections := 0;

      AdvanceAll();

      var infectedGroup := GroupOf(groups, Infected);
      var healthyGroup := GroupOf(groups, Healthy);
      ghost var targets := PopTargets(st0, perm);
      if |infectedGroup| > 0 && |healthyGroup| > 0 {
        healthyGroup := Shuffle(healthyGroup, perm);
        ghost var order := Shuffle(Positions(st0, Healthy), perm);
        newInfections := Spread(infectedGroup, healthyGroup, order, draw);
        assert targets == PopOrder(order, |targets|);
      } else {
        assert |targets| == 0;
      }
      NewInfectionsBound(s0, perm, draw);
    }

    /** The first loop of update: update_infections on every person. */
    method AdvanceAll()
      requires Valid()
      modifies people
      ensures States() == AdvanceEach(old(States()))
    {
      ghost var s0 := States();
      var i: nat := 0;
      while i < |people|
        invariant 0 <= i <= |people|
        invariant forall k :: 0 <= k < i ==> people[k].State() == Advance(s0[k])
        invariant forall k :: i <= k < |people| ==> people[k].State() == s0[k]
      {
        forall k | 0 <= k < |people| && k != i ensures people[k] != people[i] {
          DistinctIndices(people, k, i);
        }
        people[i].UpdateInfections();
        i := i + 1;
      }
    }

    /** A successful contact: the target (person i) becomes exposed with
        incubation 0; nobody else changes. */
    method SetExposed(target: Person, ghost i: nat)
      requires Valid() && i < |people| && people[i] == target
      modifies target
      ensures States() == old(States())[i := Expose(old(States())[i])]
    {
      target.status := Exposed;
      target.incubation := 0;
      forall k | 0 <= k < |people| && k != i ensures people[k] != target {
        DistinctIndices(people, k, i);
      }
    }

    /** The contact loops of update: for each spreader, up to two pops from
        the shuffled healthy list (whose j-th person is people[order[j]]), each
        with one trial. */
    method Spread(infectedGroup: seq<Person>, healthyGroup: seq<Person>, ghost order: seq<nat>, draw: nat -> real)
      returns (newInfections: nat)
      requires Valid()
      requires |order| == |healthyGroup|
      requires forall j :: 0 <= j < |order| ==> order[j] < |people| && healthyGroup[j] == people[order[j]]
      modifies people
      ensures var t := TrialCount(|infectedGroup|, |healthyGroup|);
              && States() == ExposeTargets(old(States()), PopOrder(order, t), Trials(t, draw), t)
              && newInfections == Successes(Trials(t, draw), t)
    {
      ghost var s0 := States();
      ghost var n := |healthyGroup|;
      ghost var T := TrialCount(|infectedGroup|, n);
      var pending := healthyGroup;
      newInfections := 0;
      var t: nat := 0;
      var a: nat := 0;
      while a < |infectedGroup|
        invariant 0 <= a <= |infectedGroup|
        invariant t == Min(2 * a, n) && pending == healthyGroup[..n - t]
        invariant States() == ExposeTargets(s0, PopOrder(order, T), Trials(T, draw), t)
        invariant newInfections == Successes(Trials(T, draw), t)
      {
        pending, t, newInfections := Contacts(pending, t, newInfections, s0, healthyGroup, order, T, draw);
        a := a + 1;
      }
    }

    /** One trial: with probability 0.1 the target, person targets[t], becomes
        exposed and the count of new infections grows by one. */
    method Trial(target: Person, t: nat, newInfections: nat, ghost s0: seq<PersonState>,
                 ghost targets: seq<nat>, ghost T: nat, draw: nat -> real)
      returns (newInfections': nat)
      requires Valid() && |s0| == |people| && t < T == |targets|
      requires forall k :: 0 <= k < |targets| ==> targets[k] < |people|
      requires target == people[targets[t]]
      requires States() == ExposeTargets(s0, targets, Trials(T, draw), t)
      requires newInfections == Successes(Trials(T, draw), t)
      modifies people
      ensures States() == ExposeTargets(s0, targets, Trials(T, draw), t + 1)
      ensures newInfections' == Successes(Trials(T, draw), t + 1)
    {
      newInfections' := newInfections;
      if draw(t) < VIRUS.infectionProbability {
        SetExposed(target, targets[t]);
        newInfections' := newInfections' + 1;
      }
    }

    /** The inner loop of update for one spreader: up to two pops, stopping
        when the healthy list is empty; t counts the trials made so far. */
    method Contacts(pending: seq<Person>, t: nat, newInfections: nat, ghost s0: seq<PersonState>,
                    ghost healthyGroup: seq<Person>, ghost order: seq<nat>, ghost T: nat, draw: nat -> real)
      returns (pending': seq<Person>, t': nat, newInfections': nat)
      requires Valid() && |s0| == |people|
      requires |order| == |healthyGroup|
      requires forall j :: 0 <= j < |order| ==> order[j] < |people| && healthyGroup[j] == people[order[j]]
      requires t <= T <= |order| && Min(t + 2, |order|) <= T
      requires pending == healthyGroup[..|order| - t]
      requires States() == ExposeTargets(s0, PopOrder(order, T), Trials(T, draw), t)
      requires newInfections == Successes(Trials(T, draw), t)
      modifies people
      ensures t' == Min(t + 2, |order|) && pending' == healthyGroup[..|order| - t']
      ensures States() == ExposeTargets(s0, PopOrder(order, T), Trials(T, draw), t')
      ensures newInfections' == Successes(Trials(T, draw), t')
    {
      ghost var n := |order|;
      ghost var targets := PopOrder(order, T);
      ghost var hit := Trials(T, draw);
      pending', t', newInfections' := pending, t, newInfections;
      var c: nat := 0;
      while c < 2
        invariant 0 <= c <= 2
        invariant t' == Min(t + c, n) && pending' == healthyGroup[..n - t']
        invariant States() == ExposeTargets(s0, targets, hit, t')
        invariant newInfections' == Successes(hit, t')
      {
        if |pending'| == 0 {
          break;
        }
        var target := pending'[|pending'| - 1];
        pending' := pending'[..|pending'| - 1];
        assert target == people[targets[t']];
        newInfections' := Trial(target, t', newInfections', s0, targets, T, draw);
        t' := t' + 1;
        c := c + 1;
      }
    }
  }

  /** The simulation: the population, the history of counts and the peak of
      the infected count. */
  class Simulation {
    const days: nat
    const population: Population
    var history: map<Status, seq<nat>>
    var peakDay: nat
    var maxInfected: nat

    ghost predicate Valid() {
      population.Valid()
    }

    /** The population starts with initialExposed (round(size * 0.05) in the
        source) sampled persons exposed. */
    constructor (populationSize: nat, days: nat, initialExposed: nat, immunities: seq<Immunity>, chosen: seq<nat>)
      requires |immunities| == populationSize
      requires |chosen| == initialExposed && Distinct(chosen)
      requires forall k :: 0 <= k < |chosen| ==> chosen[k] < populationSize
      ensures Valid() && |population.people| == populationSize && this.days == days
      ensures fresh(population) && forall i :: 0 <= i < |population.people| ==> fresh(population.people[i])
      ensures population.States() == InitialStates(immunities, chosen)
      ensures history == EmptyHistory() && peakDay == 0 && maxInfected == 0
    {
      this.days := days;
      population := new Population(populationSize, initialExposed, immunities, chosen);
      history := EmptyHistory();
      peakDay := 0;
      maxInfected := 0;
    }

    /** The recording part of the day loop of run: append the day's counts
        to the history and move the peak when the infected count is a new
        maximum. */
    method RecordDay(counts: Counts, day: nat, ghost series: seq<Counts>)
      requires history == HistoryOf(series) && |series| == day
      requires (peakDay, maxInfected) == Peak(Column(series, Infected))
      modifies this
      ensures population.States() == old(population.States())
      ensures history == HistoryOf(series + [counts])
      ensures (peakDay, maxInfected) == Peak(Column(series + [counts], Infected))
    {
      assert forall k :: 0 <= k < |population.people| ==> population.people[k] as object != this;
      RecordHistoryOf(series, counts);
      ColumnAppend(series, counts, Infected);
      PeakAppend(Column(series, Infected), counts.infected);
      history := Record(history, counts);
      if counts.infected > maxInfected {
        maxInfected := counts.infected;
        peakDay := day;
      }
    }

    /** The body of the day loop of run: count the groups, record the day,
        and unless the day ends the run, update the population with the
        day's random inputs. The ghost init is the population the run
        started from. */
    method Day(rng: Rng, day: nat, ghost init: seq<PersonState>) returns (stop: bool)
      requires Valid() && ValidRng(rng)
      requires population.States() == Evolve(init, day, rng)
      requires Recorded(history, peakDay, maxInfected, init, day, rng)
      modifies this, population.people
      ensures Recorded(history, peakDay, maxInfected, init, day + 1, rng)
      ensures stop == Stops(DailyCounts(init, day, rng))
      ensures population.States() == Evolve(init, if stop then day else day + 1, rng)
    {
      var counts := population.GroupSizes();
      assert counts == DailyCounts(init, day, rng);
      TraceStep(init, day, rng);
      RecordDay(counts, day, Trace(init, day, rng));
      stop := (counts.infected == 0 && counts.exposed == 0) || counts.healthy == 0;
      if !stop {
        UpdateDay(rng, day, counts, init);
      }
    }

    /** The update at the end of a day that does not stop the run, with the
        day's shuffle of the healthy list and the day's draws. */
    method UpdateDay(rng: Rng, day: nat, counts: Counts, ghost init: seq<PersonState>)
      requires Valid() && ValidRng(rng)
      requires population.States() == Evolve(init, day, rng) && counts == DailyCounts(init, day, rng)
      modifies population.people
      ensures population.States() == Evolve(init, day + 1, rng)
      ensures unchanged(this)
    {
      assert forall k :: 0 <= k < |population.people| ==> population.people[k] as object != this;
      var newInfected := population.Update(rng.shuffle(day)(counts.healthy), rng.coin(day));
      EvolveStep(init, day, rng);
    }

    /** run: record the counts of each day, track the peak, stop after a day
        with nobody exposed or infected or nobody healthy, otherwise update.
        The history holds the trace of the run's RunLength days, the peak is
        what peak tracking finds on the infected counts, and the population
        has been updated after every recorded day but a stopping one. The
        ghost init is the population the run starts from. */
    method Run(rng: Rng, ghost init: seq<PersonState>) returns (h: map<Status, seq<nat>>)
      requires Valid() && ValidRng(rng) && population.States() == init
      requires history == EmptyHistory() && peakDay == 0 && maxInfected == 0
      modifies this, population.people
      ensures var n := RunLength(init, days, rng, 0);
              && h == history == HistoryOf(Trace(init, n, rng))
              && (peakDay, maxInfected) == Peak(h[Infected])
              && population.States() == Evolve(init, UpdatedDays(init, days, rng), rng)
    {
      assert HistoryOf([]) == EmptyHistory();
      var day: nat := 0;
      var stop := false;
      while day < days
        invariant 0 <= day <= days && !stop
        invariant Recorded(history, peakDay, maxInfected, init, day, rng)
        invariant population.States() == Evolve(init, day, rng)
        invariant RunLength(init, days, rng, 0) == RunLength(init, days, rng, day)
        invariant day > 0 ==> !Stops(DailyCounts(init, day - 1, rng))
      {
        stop := Day(rng, day, init);
        if stop {
          break;
        }
        day := day + 1;
      }
      h := history;
      RecordedRun(history, peakDay, maxInfected, init, days, rng, day, stop);
    }
  }
}
