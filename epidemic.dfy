/** Vocabulary shared by the three list-based variants of the agent-based
    epidemic engine (models.py, main.py, S.A.R.I.py): the status tags, the
    immunity tags, the virus parameter record, grouping of a population by
    status, and the random source as an explicit input. */
module Epidemic {

  /** The status tag of one person: 'healthy', 'exposed', 'infected', 'cured'. */
  datatype Status = Healthy | Exposed | Infected | Cured

  /** The immunity tag drawn once per person: 'low', 'medium', 'strong'. */
  datatype Immunity = Low | Medium | Strong

  /** The days an immunity tag adds to the virus's base duration
      (the table {'low': 1, 'medium': 0, 'strong': -1}). */
  function ImmunityEffect(i: Immunity): int {
    match i
    case Low => 1
    case Medium => 0
    case Strong => -1
  }

  /** The virus record: incubation time, base illness duration and the
      probability of one contact transmitting. */
  datatype Virus = Virus(timeIncubation: int, baseDuration: int, infectionProbability: real)

  function Min(a: int, b: int): int { if a <= b then a else b }

  /** No element of xs occurs twice. */
  predicate Distinct<T(==)>(xs: seq<T>) {
    forall i, j :: 0 <= i < j < |xs| ==> DistinctAt(xs, i, j)
  }

  /** The entries at positions i and j differ. A separate predicate, so that
      the fact about a pair is drawn only where a proof names the pair. */
  predicate DistinctAt<T(==)>(xs: seq<T>, i: nat, j: nat)
    requires i < |xs| && j < |xs|
  {
    xs[i] != xs[j]
  }

  /** In a list without duplicates, different positions hold different entries. */
  lemma DistinctIndices<T>(xs: seq<T>, i: nat, j: nat)
    requires Distinct(xs) && i < |xs| && j < |xs| && i != j
    ensures xs[i] != xs[j]
  {
    if i < j {
      assert DistinctAt(xs, i, j);
    } else {
      assert DistinctAt(xs, j, i);
    }
  }

  /** The entries of xs strictly increase. */
  predicate Increasing(xs: seq<nat>) {
    forall i, j :: 0 <= i < j < |xs| ==> IncreasingAt(xs, i, j)
  }

  /** The entry at position i is below the one at position j. */
  predicate IncreasingAt(xs: seq<nat>, i: nat, j: nat)
    requires i < |xs| && j < |xs|
  {
    xs[i] < xs[j]
  }

  /** The indices, in increasing order, of the persons whose status is s:
      the positions that group_by_status appends to the list of s. */
  function Positions(st: seq<Status>, s: Status): (r: seq<nat>)
    ensures |r| == Count(st, s) <= |st|
    ensures forall k :: 0 <= k < |r| ==> r[k] < |st| && st[r[k]] == s
    ensures Increasing(r) && Distinct(r)
    ensures forall i :: 0 <= i < |st| && st[i] == s ==> i in r
    decreases |st|
  {
    if |st| == 0 then []
    else
      var p := Positions(st[..|st| - 1], s);
      var r := p + (if st[|st| - 1] == s then [|st| - 1] else []);
      assert Increasing(r) by {
        forall k, l | 0 <= k < l < |r| ensures IncreasingAt(r, k, l) {
          if l < |p| { assert IncreasingAt(p, k, l); }
        }
      }
      IncreasingDistinct(r);
      r
  }

  lemma IncreasingDistinct(xs: seq<nat>)
    requires Increasing(xs)
    ensures Distinct(xs)
  {
    forall i, j | 0 <= i < j < |xs| ensures DistinctAt(xs, i, j) {
      assert IncreasingAt(xs, i, j);
    }
  }

  /** The number of persons with status s. */
  function Count(st: seq<Status>, s: Status): nat
    decreases |st|
  {
    if |st| == 0 then 0
    else Count(st[..|st| - 1], s) + (if st[|st| - 1] == s then 1 else 0)
  }

  /** The entries of xs at the given indices, in the order of the indices. */
  function Pick<T>(xs: seq<T>, idx: seq<nat>): seq<T>
    requires forall k :: 0 <= k < |idx| ==> idx[k] < |xs|
  {
    seq(|idx|, k requires 0 <= k < |idx| => xs[idx[k]])
  }

  /** The group of s in a grouping, read like a defaultdict: absent means empty. */
  function GroupOf<T>(groups: map<Status, seq<T>>, s: Status): seq<T> {
    if s in groups then groups[s] else []
  }

  /** groups is exactly what group_by_status builds for the persons xs with
      statuses st: a key for every status present, and under it the persons of
      that status in population order. */
  ghost predicate IsGrouping<T>(groups: map<Status, seq<T>>, xs: seq<T>, st: seq<Status>)
    requires |xs| == |st|
  {
    && (forall s :: s in groups <==> Count(st, s) > 0)
    && (forall s :: GroupOf(groups, s) == Pick(xs, Positions(st, s)))
  }

  /** Appending one person of status s to the persons of a grouping and to the
      list of s gives the grouping of the longer population: the loop step of
      group_by_status. */
  lemma GroupingAppend<T>(groups: map<Status, seq<T>>, xs: seq<T>, st: seq<Status>, x: T, s: Status)
    requires |xs| == |st| && IsGrouping(groups, xs, st)
    ensures IsGrouping(groups[s := GroupOf(groups, s) + [x]], xs + [x], st + [s])
  {
    GroupingKeysAppend(groups, st, x, s);
    GroupingListsAppend(groups, xs, st, x, s);
  }

  /** The keys after one more append: the statuses present. */
  lemma GroupingKeysAppend<T>(groups: map<Status, seq<T>>, st: seq<Status>, x: T, s: Status)
    requires forall t :: t in groups <==> Count(st, t) > 0
    ensures forall t :: t in groups[s := GroupOf(groups, s) + [x]] <==> Count(st + [s], t) > 0
  {
    forall t ensures Count(st + [s], t) == Count(st, t) + (if t == s then 1 else 0) {
      assert (st + [s])[..|st|] == st;
    }
  }

  /** The lists after one more append: the persons of each status in order. */
  lemma GroupingListsAppend<T>(groups: map<Status, seq<T>>, xs: seq<T>, st: seq<Status>, x: T, s: Status)
    requires |xs| == |st|
    requires forall t :: GroupOf(groups, t) == Pick(xs, Positions(st, t))
    ensures forall t :: GroupOf(groups[s := GroupOf(groups, s) + [x]], t) == Pick(xs + [x], Positions(st + [s], t))
  {
    forall t ensures GroupOf(groups[s := GroupOf(groups, s) + [x]], t) == Pick(xs + [x], Positions(st + [s], t)) {
      GroupListAppend(groups, xs, st, x, s, t);
    }
  }

  /** The list of one status t after one more append. */
  lemma GroupListAppend<T>(groups: map<Status, seq<T>>, xs: seq<T>, st: seq<Status>, x: T, s: Status, t: Status)
    requires |xs| == |st|
    requires GroupOf(groups, t) == Pick(xs, Positions(st, t))
    ensures GroupOf(groups[s := GroupOf(groups, s) + [x]], t) == Pick(xs + [x], Positions(st + [s], t))
  {
    PositionsAppend(st, s, t);
    PickAppend(xs, x, Positions(st, t));
  }

  /** The loop step of group_by_status on prefixes: appending the i-th
      person to the list of its status turns the grouping of the first i
      persons into the grouping of the first i + 1. */
  lemma GroupingStep<T>(groups: map<Status, seq<T>>, xs: seq<T>, st: seq<Status>, i: nat)
    requires |xs| == |st| && i < |xs| && IsGrouping(groups, xs[..i], st[..i])
    ensures IsGrouping(groups[st[i] := GroupOf(groups, st[i]) + [xs[i]]], xs[..i + 1], st[..i + 1])
  {
    GroupingAppend(groups, xs[..i], st[..i], xs[i], st[i]);
    assert xs[..i + 1] == xs[..i] + [xs[i]];
    assert st[..i + 1] == st[..i] + [st[i]];
  }

  lemma PositionsAppend(st: seq<Status>, s: Status, t: Status)
    ensures Positions(st + [s], t) == Positions(st, t) + (if t == s then [|st|] else [])
  {
    assert (st + [s])[..|st|] == st;
  }

  lemma PickAppend<T>(xs: seq<T>, x: T, idx: seq<nat>)
    requires forall k :: 0 <= k < |idx| ==> idx[k] < |xs|
    ensures Pick(xs + [x], idx) == Pick(xs, idx)
    ensures Pick(xs + [x], idx + [|xs|]) == Pick(xs, idx) + [x]
  {
  }

  /** The four status groups partition the population: their sizes sum to
      the population size. */
  lemma {:induction false} CountsPartition(st: seq<Status>)
    ensures Count(st, Healthy) + Count(st, Exposed) + Count(st, Infected) + Count(st, Cured) == |st|
    decreases |st|
  {
    if |st| > 0 {
      CountsPartition(st[..|st| - 1]);
    }
  }

  /** Count agrees with the cardinality of the set of indices of status s. */
  lemma {:induction false} CountIsCardinality(st: seq<Status>, s: Status)
    ensures Count(st, s) == |IndexSet(st, s)|
    decreases |st|
  {
    if |st| > 0 {
      var n := |st| - 1;
      CountIsCardinality(st[..n], s);
      IndexSetExtend(st, s);
    }
  }

  ghost function IndexSet(st: seq<Status>, s: Status): set<nat> {
    set i: nat | i < |st| && st[i] == s
  }

  lemma IndexSetExtend(st: seq<Status>, s: Status)
    requires |st| > 0
    ensures |IndexSet(st, s)| == |IndexSet(st[..|st| - 1], s)| + (if st[|st| - 1] == s then 1 else 0)
  {
    var n := |st| - 1;
    var prefix := st[..n];
    var before := IndexSet(prefix, s);
    var now := IndexSet(st, s);
    assert n !in before;
    forall i | i in now ensures i in before || i == n {
      if i < n { assert prefix[i] == st[i]; }
    }
    forall i | i in before ensures i in now {
      assert prefix[i] == st[i];
    }
    if st[n] == s {
      assert now == before + {n};
    } else {
      assert now == before;
    }
  }

  ghost function Elems(xs: seq<nat>): set<nat> {
    set x | x in xs
  }

  /** A list of distinct indices has as many elements as the set of them. */
  lemma {:induction false} DistinctCardinality(xs: seq<nat>)
    requires Distinct(xs)
    ensures |Elems(xs)| == |xs|
    decreases |xs|
  {
    if |xs| > 0 {
      var n := |xs| - 1;
      var prefix := xs[..n];
      assert Distinct(prefix) by {
        forall i, j | 0 <= i < j < |prefix| ensures DistinctAt(prefix, i, j) {
          assert DistinctAt(xs, i, j);
        }
      }
      DistinctCardinality(prefix);
      assert xs == prefix + [xs[n]];
      assert xs[n] !in Elems(prefix) by {
        forall i | 0 <= i < n ensures prefix[i] != xs[n] {
          assert DistinctAt(xs, i, n);
        }
      }
      assert Elems(xs) == Elems(prefix) + {xs[n]};
    }
  }

  /** If every person of status s in a still has status s in b, the count of
      s does not fall from a to b. */
  lemma {:induction false} CountMonotone(a: seq<Status>, b: seq<Status>, s: Status)
    requires |a| == |b|
    requires forall i :: 0 <= i < |a| && a[i] == s ==> b[i] == s
    ensures Count(a, s) <= Count(b, s)
    decreases |a|
  {
    if |a| > 0 {
      CountMonotone(a[..|a| - 1], b[..|b| - 1], s);
    }
  }

  /** A status that no entry has is counted 0 times. */
  lemma {:induction false} NoneCounted(st: seq<Status>, s: Status)
    requires forall i :: 0 <= i < |st| ==> st[i] != s
    ensures Count(st, s) == 0
    decreases |st|
  {
    if |st| > 0 {
      NoneCounted(st[..|st| - 1], s);
    }
  }

  /** The random source of one run, as explicit inputs: shuffle(day)(n) is the
      order random.shuffle gives to a list of n persons on that day (the person
      at position j afterwards is the one that was at perm[j]), and coin(day)(k)
      is the value of the k-th random.random() call of the contact phase. */
  datatype Rng = Rng(shuffle: nat -> nat -> seq<nat>, coin: nat -> nat -> real)

  /** perm is a permutation of 0 .. n-1. */
  predicate IsPermutation(perm: seq<nat>, n: nat) {
    |perm| == n && (forall k :: 0 <= k < n ==> perm[k] < n) && Distinct(perm)
  }

  /** Every shuffle the source hands out is a permutation of the list's indices. */
  ghost predicate ValidRng(rng: Rng) {
    forall d: nat, n: nat :: IsPermutation(rng.shuffle(d)(n), n)
  }
}
