/** The one-day contact step shared by the list-based variants: the persons
    infected at the start of the day each make up to two contacts, drawn
    without replacement from the shuffled list of persons healthy at the start
    of the day, and each contact is one Bernoulli trial. */
module Contact {
  import opened Epidemic

  /** The list xs after random.shuffle with the permutation perm. */
  function Shuffle<T>(xs: seq<T>, perm: seq<nat>): seq<T>
    requires IsPermutation(perm, |xs|)
  {
    seq(|xs|, j requires 0 <= j < |xs| => xs[perm[j]])
  }

  /** The number of trials of a day: two per spreader, but never more than the
      healthy list holds, because the inner loop breaks once it is empty. */
  function TrialCount(spreaders: nat, pool: nat): nat {
    Min(2 * spreaders, pool)
  }

  /** The first t persons taken from pool by repeated pop(), which removes the
      last element. */
  function PopOrder<T>(pool: seq<T>, t: nat): seq<T>
    requires t <= |pool|
  {
    seq(t, k requires 0 <= k < t => pool[|pool| - 1 - k])
  }

  /** The targets of the day's trials, as indices into the population, when
      each trial pops the last person of the shuffled healthy list
      (models.py and main.py). Trial k is made by the (k/2)-th spreader. */
  function PopTargets(st: seq<Status>, perm: seq<nat>): (r: seq<nat>)
    requires IsPermutation(perm, Count(st, Healthy))
    ensures |r| == TrialCount(Count(st, Infected), Count(st, Healthy))
    ensures forall k :: 0 <= k < |r| ==> r[k] < |st| && st[r[k]] == Healthy
    ensures Distinct(r)
  {
    var pool := Shuffle(Positions(st, Healthy), perm);
    ShuffleDistinct(Positions(st, Healthy), perm);
    var r := PopOrder(pool, TrialCount(Count(st, Infected), Count(st, Healthy)));
    assert Distinct(r) by {
      forall k, l | 0 <= k < l < |r| ensures DistinctAt(r, k, l) {
        assert DistinctAt(pool, |pool| - 1 - l, |pool| - 1 - k);
      }
    }
    r
  }

  /** The targets of the day's trials when a contact index walks the shuffled
      healthy list from its front (S.A.R.I.py). Trial k is made by the (k/2)-th
      spreader. */
  function FrontTargets(st: seq<Status>, perm: seq<nat>): (r: seq<nat>)
    requires IsPermutation(perm, Count(st, Healthy))
    ensures |r| == TrialCount(Count(st, Infected), Count(st, Healthy))
    ensures forall k :: 0 <= k < |r| ==> r[k] < |st| && st[r[k]] == Healthy
    ensures Distinct(r)
  {
    var pool := Shuffle(Positions(st, Healthy), perm);
    ShuffleDistinct(Positions(st, Healthy), perm);
    var r := pool[..TrialCount(Count(st, Infected), Count(st, Healthy))];
    assert Distinct(r) by {
      forall k, l | 0 <= k < l < |r| ensures DistinctAt(r, k, l) {
        assert DistinctAt(pool, k, l);
      }
    }
    r
  }

  /** Shuffling a list of distinct elements keeps them distinct. */
  lemma ShuffleDistinct<T>(xs: seq<T>, perm: seq<nat>)
    requires IsPermutation(perm, |xs|) && Distinct(xs)
    ensures Distinct(Shuffle(xs, perm))
  {
    var r := Shuffle(xs, perm);
    forall i, j | 0 <= i < j < |r| ensures DistinctAt(r, i, j) {
      assert DistinctAt(perm, i, j);
      if perm[i] < perm[j] {
        assert DistinctAt(xs, perm[i], perm[j]);
      } else {
        assert DistinctAt(xs, perm[j], perm[i]);
      }
    }
  }

  /** The persons set to exposed by the first t trials: the targets of the
      trials that succeeded. */
  function Hits(targets: seq<nat>, hit: seq<bool>, t: nat): set<nat>
    requires t <= |targets| && t <= |hit|
  {
    set k | 0 <= k < t && hit[k] :: targets[k]
  }

  /** One more trial adds its target exactly when it succeeds; with distinct
      targets that target was not hit before. */
  lemma HitsStep(targets: seq<nat>, hit: seq<bool>, t: nat)
    requires t < |targets| && t < |hit|
    ensures Hits(targets, hit, t + 1) == Hits(targets, hit, t) + (if hit[t] then {targets[t]} else {})
    ensures Distinct(targets) ==> targets[t] !in Hits(targets, hit, t)
  {
    var before := Hits(targets, hit, t);
    var after := Hits(targets, hit, t + 1);
    forall x | x in after ensures x in before || (hit[t] && x == targets[t]) {
      var k :| 0 <= k < t + 1 && hit[k] && targets[k] == x;
      if k < t { assert x in before; }
    }
    if Distinct(targets) {
      forall k | 0 <= k < t && hit[k] ensures targets[k] != targets[t] {
        assert DistinctAt(targets, k, t);
      }
    }
  }

  /** The first t trials expose at most t persons; with distinct targets,
      exactly one per success. */
  lemma {:induction false} HitsBound(targets: seq<nat>, hit: seq<bool>, t: nat)
    requires t <= |targets| && t <= |hit|
    ensures |Hits(targets, hit, t)| <= t
    ensures Distinct(targets) ==> |Hits(targets, hit, t)| == Successes(hit, t)
    decreases t
  {
    if t > 0 {
      HitsBound(targets, hit, t - 1);
      HitsStep(targets, hit, t - 1);
      var before := Hits(targets, hit, t - 1);
      if hit[t - 1] {
        var x := targets[t - 1];
        if x in before {
          assert before + {x} == before;
        } else {
          assert |before + {x}| == |before| + 1;
        }
      }
    }
  }

  /** The number of successful trials among the first t. */
  function Successes(hit: seq<bool>, t: nat): nat
    requires t <= |hit|
  {
    if t == 0 then 0 else Successes(hit, t - 1) + (if hit[t - 1] then 1 else 0)
  }
}
