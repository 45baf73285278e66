/** The per-day record of a run: four count lists keyed by status, the early
    stopping condition and the tracking of the peak day. */
module History {
  import opened Epidemic

  /** The four counts of one day. */
  datatype Counts = Counts(healthy: nat, exposed: nat, infected: nat, cured: nat)

  /** The counts of a population whose statuses are st. */
  function CountsOf(st: seq<Status>): (c: Counts)
    ensures Total(c) == |st|
  {
    CountsPartition(st);
    Counts(Count(st, Healthy), Count(st, Exposed), Count(st, Infected), Count(st, Cured))
  }

  function Total(c: Counts): nat {
    c.healthy + c.exposed + c.infected + c.cured
  }

  /** The run stops after recording a day with nobody exposed or infected, or
      with nobody healthy. */
  predicate Stops(c: Counts) {
    (c.infected == 0 && c.exposed == 0) || c.healthy == 0
  }

  /** The history dictionary before the first day. */
  function EmptyHistory(): map<Status, seq<nat>> {
    map[Healthy := [], Exposed := [], Infected := [], Cured := []]
  }

  /** All four lists are present and equally long. */
  predicate WellFormed(h: map<Status, seq<nat>>) {
    && Healthy in h && Exposed in h && Infected in h && Cured in h
    && |h[Exposed]| == |h[Healthy]| && |h[Infected]| == |h[Healthy]| && |h[Cured]| == |h[Healthy]|
  }

  /** The number of days recorded. */
  function Days(h: map<Status, seq<nat>>): nat
    requires WellFormed(h)
  {
    |h[Healthy]|
  }

  /** The counts recorded for day d. */
  function DayCounts(h: map<Status, seq<nat>>, d: nat): Counts
    requires WellFormed(h) && d < Days(h)
  {
    Counts(h[Healthy][d], h[Exposed][d], h[Infected][d], h[Cured][d])
  }

  /** The four appends of one day. */
  function Record(h: map<Status, seq<nat>>, c: Counts): (r: map<Status, seq<nat>>)
    requires WellFormed(h)
    ensures WellFormed(r) && Days(r) == Days(h) + 1
    ensures DayCounts(r, Days(h)) == c
    ensures forall d :: 0 <= d < Days(h) ==> DayCounts(r, d) == DayCounts(h, d)
  {
    h[Healthy := h[Healthy] + [c.healthy]]
     [Exposed := h[Exposed] + [c.exposed]]
     [Infected := h[Infected] + [c.infected]]
     [Cured := h[Cured] + [c.cured]]
  }

  /** The count of status s in c. */
  function Get(c: Counts, s: Status): nat {
    match s
    case Healthy => c.healthy
    case Exposed => c.exposed
    case Infected => c.infected
    case Cured => c.cured
  }

  /** The list of the counts of status s, one entry per day of cs. */
  function Column(cs: seq<Counts>, s: Status): (r: seq<nat>)
    ensures |r| == |cs|
  {
    if |cs| == 0 then [] else Column(cs[..|cs| - 1], s) + [Get(cs[|cs| - 1], s)]
  }

  /** One more day appends its count to each column. */
  lemma ColumnAppend(cs: seq<Counts>, c: Counts, s: Status)
    ensures Column(cs + [c], s) == Column(cs, s) + [Get(c, s)]
  {
    assert (cs + [c])[..|cs|] == cs;
  }

  /** The history dictionary holding the counts of the days cs. */
  function HistoryOf(cs: seq<Counts>): map<Status, seq<nat>> {
    map[Healthy := Column(cs, Healthy), Exposed := Column(cs, Exposed),
        Infected := Column(cs, Infected), Cured := Column(cs, Cured)]
  }

  /** The list of status s in the history of the days cs is its column. */
  lemma HistoryOfColumn(cs: seq<Counts>, s: Status)
    ensures s in HistoryOf(cs) && HistoryOf(cs)[s] == Column(cs, s)
  {
  }

  /** Recording one more day appends its counts. */
  lemma RecordHistoryOf(cs: seq<Counts>, c: Counts)
    ensures WellFormed(HistoryOf(cs)) && Record(HistoryOf(cs), c) == HistoryOf(cs + [c])
  {
    var cs' := cs + [c];
    assert cs'[..|cs'| - 1] == cs;
  }

  /** The history of the days cs holds, for each day d, exactly cs[d]. */
  lemma {:induction false} HistoryOfDays(cs: seq<Counts>)
    ensures WellFormed(HistoryOf(cs)) && Days(HistoryOf(cs)) == |cs|
    ensures forall d :: 0 <= d < |cs| ==> DayCounts(HistoryOf(cs), d) == cs[d]
    decreases |cs|
  {
    if |cs| > 0 {
      var n := |cs| - 1;
      HistoryOfDays(cs[..n]);
      RecordHistoryOf(cs[..n], cs[n]);
      assert cs[..n] + [cs[n]] == cs;
    }
  }

  /** (day, m) is what peak tracking with a strict comparison, starting from
      (0, 0), ends with on xs: m is the largest value (0 if there is none) and
      day is the first index holding it (0 if m is 0). */
  predicate IsEarliestPeak(xs: seq<nat>, day: nat, m: nat) {
    && (forall i :: 0 <= i < |xs| ==> xs[i] <= m)
    && (m == 0 ==> day == 0)
    && (m > 0 ==> day < |xs| && xs[day] == m && forall i :: 0 <= i < day ==> xs[i] < m)
  }

  /** One step of peak tracking: a strictly larger value moves the peak to the
      new day, anything else keeps it. */
  function PeakStep(day: nat, m: nat, i: nat, x: nat): (nat, nat) {
    if x > m then (i, x) else (day, m)
  }

  /** Peak tracking keeps the earliest peak when a day is appended. */
  lemma PeakExtend(xs: seq<nat>, day: nat, m: nat, x: nat)
    requires IsEarliestPeak(xs, day, m)
    ensures IsEarliestPeak(xs + [x], PeakStep(day, m, |xs|, x).0, PeakStep(day, m, |xs|, x).1)
  {
    var ys := xs + [x];
    assert forall i :: 0 <= i < |xs| ==> ys[i] == xs[i];
  }

  /** The earliest peak of a series is unique. */
  lemma PeakUnique(xs: seq<nat>, d1: nat, m1: nat, d2: nat, m2: nat)
    requires IsEarliestPeak(xs, d1, m1) && IsEarliestPeak(xs, d2, m2)
    ensures d1 == d2 && m1 == m2
  {
  }

  /** The (day, maximum) pair that peak tracking, starting from (0, 0),
      ends with on xs. */
  function Peak(xs: seq<nat>): (nat, nat) {
    if |xs| == 0 then (0, 0)
    else
      var p := Peak(xs[..|xs| - 1]);
      PeakStep(p.0, p.1, |xs| - 1, xs[|xs| - 1])
  }

  /** Tracking one more day is one more PeakStep. */
  lemma PeakAppend(xs: seq<nat>, x: nat)
    ensures Peak(xs + [x]) == PeakStep(Peak(xs).0, Peak(xs).1, |xs|, x)
  {
    assert (xs + [x])[..|xs|] == xs;
  }

  /** Peak tracking ends with the earliest peak. */
  lemma {:induction false} PeakIsEarliest(xs: seq<nat>)
    ensures IsEarliestPeak(xs, Peak(xs).0, Peak(xs).1)
    decreases |xs|
  {
    if |xs| > 0 {
      var n := |xs| - 1;
      PeakIsEarliest(xs[..n]);
      PeakExtend(xs[..n], Peak(xs[..n]).0, Peak(xs[..n]).1, xs[n]);
      assert xs[..n] + [xs[n]] == xs;
    }
  }

  /** The earliest peak is what peak tracking ends with, and nothing else is. */
  lemma PeakCharacterization(xs: seq<nat>, day: nat, m: nat)
    ensures IsEarliestPeak(xs, day, m) <==> (day, m) == Peak(xs)
  {
    PeakIsEarliest(xs);
    if IsEarliestPeak(xs, day, m) {
      PeakUnique(xs, day, m, Peak(xs).0, Peak(xs).1);
    }
  }

  /** The counts b have no more healthy and no fewer cured persons than a. */
  predicate Progressed(a: Counts, b: Counts) {
    b.healthy <= a.healthy && a.cured <= b.cured
  }

  /** Over the days cs the healthy count never rises and the cured count
      never falls. */
  predicate MonotoneCounts(cs: seq<Counts>) {
    forall d, e :: 0 <= d <= e < |cs| ==> Progressed(cs[d], cs[e])
  }

  /** In the history h the healthy list never rises and the cured list never
      falls. */
  predicate MonotoneHistory(h: map<Status, seq<nat>>)
    requires WellFormed(h)
  {
    forall d, e :: 0 <= d <= e < Days(h) ==> h[Healthy][e] <= h[Healthy][d] && h[Cured][d] <= h[Cured][e]
  }

  /** A history built from days whose healthy counts never rise and whose
      cured counts never fall has lists with the same shape. */
  lemma HistoryMonotoneOf(cs: seq<Counts>)
    requires MonotoneCounts(cs)
    ensures WellFormed(HistoryOf(cs)) && MonotoneHistory(HistoryOf(cs))
  {
    HistoryOfDays(cs);
    var h := HistoryOf(cs);
    forall d, e | 0 <= d <= e < Days(h) ensures h[Healthy][e] <= h[Healthy][d] && h[Cured][d] <= h[Cured][e] {
      assert DayCounts(h, d) == cs[d] && DayCounts(h, e) == cs[e];
      assert Progressed(cs[d], cs[e]);
    }
  }
}
