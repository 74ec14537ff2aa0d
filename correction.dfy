/**
 * `correct_pvalue`: the Benjamini-Hochberg false-discovery-rate adjustment
 * that `scipy.stats.false_discovery_control(ps, method="bh")` computes, over
 * exact reals.
 *
 * scipy sorts the p-values, multiplies the one of rank `i` (from 1) by
 * `m / i`, takes the running minimum from the largest rank down, clips to
 * `[0, 1]` and puts every value back at the position its p-value came from.
 * The adjusted value at rank `i` is thus the least of `p * m / rank` over
 * the ranks from `i` up. Among equal p-values the last rank gives the least
 * product, and that rank is the number of p-values at most `p`; so the
 * value at position `i` is the least, over every p-value `p[j] >= p[i]`, of
 * `p[j] * m / CountAtMost(p, p[j])`, and never more than 1. That is the
 * definition below; `ProcedureMatches` proves that the sorted
 * procedure gives the same numbers whatever order it puts ties in.
 */
module Correction {
  import opened FunctionalEnrichment
  import PyDict

  /** How many of the p-values are at most `v`. */
  function CountAtMost(p: seq<real>, v: real): (n: nat)
    ensures n <= |p|
  {
    if p == [] then 0 else CountAtMost(p[..|p| - 1], v) + (if p[|p| - 1] <= v then 1 else 0)
  }

  /** A p-value counts itself, so its rank is at least one. */
  lemma {:induction false} CountAtMostSelf(p: seq<real>, j: nat)
    requires j < |p|
    ensures CountAtMost(p, p[j]) >= 1
  {
    if j < |p| - 1 {
      CountAtMostSelf(p[..|p| - 1], j);
    }
  }

  /** `p[j] * m / rank`, the rank of `p[j]` being the last position its value takes in sorted order. */
  function Adjusted(p: seq<PValue>, j: nat): (r: real)
    requires j < |p|
    ensures p[j] <= r
  {
    CountAtMostSelf(p, j);
    Scale(p[j], |p|, CountAtMost(p, p[j]))
  }

  /** `x * (m / n)`, which is at least `x` when `n <= m`. */
  function Scale(x: real, m: nat, n: nat): (r: real)
    requires 0.0 <= x && 0 < n <= m
    ensures x <= r
  {
    var f := (m as real) / (n as real);
    assert f * (n as real) == m as real;
    assert f >= 1.0;
    assert x * f - x == x * (f - 1.0);
    x * f
  }

  function Min(x: real, y: real): real {
    if x <= y then x else y
  }

  /**
   * The least adjusted value among the p-values from position `k` on that
   * are at least `v`, and 1 when that is less: the running minimum from the
   * top rank down to the rank of `v`, clipped.
   */
  function StepUpMin(p: seq<PValue>, v: real, k: nat): (r: real)
    requires k <= |p|
    ensures 0.0 <= r <= 1.0
    ensures v <= 1.0 ==> v <= r
    decreases |p| - k
  {
    if k == |p| then 1.0
    else
      var rest := StepUpMin(p, v, k + 1);
      if v <= p[k] then Min(Adjusted(p, k), rest) else rest
  }

  /** A larger p-value draws its minimum from fewer candidates. */
  lemma {:induction false} StepUpMinMonotone(p: seq<PValue>, v: real, w: real, k: nat)
    requires v <= w && k <= |p|
    ensures StepUpMin(p, v, k) <= StepUpMin(p, w, k)
    decreases |p| - k
  {
    if k < |p| {
      StepUpMinMonotone(p, v, w, k + 1);
    }
  }

  /**
   * `correct_pvalue(pvalues)`: one adjusted value per p-value, at the same
   * position. Each lies in `[0, 1]`, is at least its own p-value, and a
   * p-value no larger than another never gets a larger adjusted value. A
   * single p-value is its own adjustment.
   */
  function CorrectPValues(p: seq<PValue>): (q: seq<PValue>)
    ensures |q| == |p|
    ensures forall i | 0 <= i < |p| :: p[i] <= q[i]
    ensures forall i, j | 0 <= i < |p| && 0 <= j < |p| && p[i] <= p[j] :: q[i] <= q[j]
    ensures |p| == 1 ==> q == p
  {
    var q := seq(|p|, i requires 0 <= i < |p| => StepUpMin(p, p[i], 0) as PValue);
    assert forall i, j | 0 <= i < |p| && 0 <= j < |p| && p[i] <= p[j] :: q[i] <= q[j] by {
      forall i, j | 0 <= i < |p| && 0 <= j < |p| && p[i] <= p[j] ensures q[i] <= q[j] {
        StepUpMinMonotone(p, p[i], p[j], 0);
      }
    }
    if |p| == 1 then
      assert CountAtMost(p, p[0]) == 1;
      assert Adjusted(p, 0) == p[0];
      q
    else
      q
  }

  /** Positions are kept: `[0.5, 0.01, 0.2]` is adjusted to `[0.5, 0.03, 0.3]`, not to a sorted list. */
  lemma PositionsKept()
    ensures CorrectPValues([0.5, 0.01, 0.2]) == [0.5, 0.03, 0.3]
  {
    var p: seq<PValue> := [0.5, 0.01, 0.2];
    assert CountAtMost(p, 0.5) == 3;
    assert CountAtMost(p, 0.01) == 1;
    assert CountAtMost(p, 0.2) == 2;
    assert Adjusted(p, 0) == 0.5;
    assert Adjusted(p, 1) == 0.03;
    assert Adjusted(p, 2) == 0.3;
  }

  /** No p-values, no adjusted values. */
  lemma EmptyInput()
    ensures CorrectPValues([]) == []
  {
  }

  /*
   * The sorted procedure, and the proof that it computes `CorrectPValues`.
   */

  /**
   * `order` is what `np.argsort(ps)` may return: every position exactly once,
   * smallest p-value first. Nothing is assumed about how ties are ordered.
   */
  predicate IsArgsort(p: seq<real>, order: seq<nat>) {
    && |order| == |p|
    && (forall k | 0 <= k < |order| :: order[k] < |p|)
    && (forall k, l | 0 <= k < l < |order| :: order[k] != order[l])
    && (forall i | 0 <= i < |p| :: i in order)
    && (forall k, l | 0 <= k <= l < |order| :: p[order[k]] <= p[order[l]])
  }

  /** `ps[order] * (m / i)` for the ranks `i` from 1 to `m`. */
  function RankScaled(p: seq<PValue>, order: seq<nat>): (a: seq<real>)
    requires IsArgsort(p, order)
    ensures |a| == |p|
  {
    seq(|p|, k requires 0 <= k < |p| => Scale(p[order[k]], |p|, k + 1))
  }

  /** The running minimum of `a` from its end down to index `k`, clipped at 1. */
  function SuffixMin(a: seq<real>, k: nat): real
    requires k <= |a|
    decreases |a| - k
  {
    if k == |a| then 1.0 else Min(a[k], SuffixMin(a, k + 1))
  }

  /** scipy's procedure: the clipped running minimum of each rank, put back at its p-value's position. */
  function SortedProcedure(p: seq<PValue>, order: seq<nat>): (q: seq<real>)
    requires IsArgsort(p, order)
    ensures |q| == |p|
  {
    seq(|p|, i requires 0 <= i < |p| => SuffixMin(RankScaled(p, order), PyDict.Find(order, i)))
  }

  /** Whatever argsort order it is given, the sorted procedure computes `CorrectPValues`. */
  lemma ProcedureMatches(p: seq<PValue>, order: seq<nat>)
    requires IsArgsort(p, order)
    ensures SortedProcedure(p, order) == CorrectPValues(p)
  {
    forall i | 0 <= i < |p| ensures SortedProcedure(p, order)[i] == CorrectPValues(p)[i] {
      PositionMatches(p, order, i);
    }
  }

  lemma PositionMatches(p: seq<PValue>, order: seq<nat>, i: nat)
    requires IsArgsort(p, order) && i < |p|
    ensures SuffixMin(RankScaled(p, order), PyDict.Find(order, i)) == StepUpMin(p, p[i], 0)
  {
    StepUpMinAtMostProcedure(p, order, i);
    ProcedureAtMostStepUpMin(p, order, i);
  }

  /** The step-up minimum is below every scaled value from the rank of `p[i]` on, hence below their minimum. */
  lemma StepUpMinAtMostProcedure(p: seq<PValue>, order: seq<nat>, i: nat)
    requires IsArgsort(p, order) && i < |p|
    ensures StepUpMin(p, p[i], 0) <= SuffixMin(RankScaled(p, order), PyDict.Find(order, i))
  {
    var t := PyDict.Find(order, i);
    var a := RankScaled(p, order);
    var x := StepUpMin(p, p[i], 0);
    assert order[t] == i;
    forall k | t <= k < |p| ensures x <= a[k] {
      StepUpMinBelowCandidate(p, p[i], 0, order[k]);
      AdjustedBelowScaled(p, order, k);
    }
    SuffixMinAbove(a, t, x);
  }

  /** The scaled value at a rank is at least the adjusted value of the p-value there. */
  lemma AdjustedBelowScaled(p: seq<PValue>, order: seq<nat>, k: nat)
    requires IsArgsort(p, order) && k < |p|
    ensures Adjusted(p, order[k]) <= RankScaled(p, order)[k]
  {
    var j := order[k];
    RankAtLeast(p, order, k);
    ScaleDown(p[j], |p|, k + 1, CountAtMost(p, p[j]));
  }

  /** The step-up minimum is 1 or the adjusted value of some p-value, which the procedure meets at its last rank. */
  lemma ProcedureAtMostStepUpMin(p: seq<PValue>, order: seq<nat>, i: nat)
    requires IsArgsort(p, order) && i < |p|
    ensures SuffixMin(RankScaled(p, order), PyDict.Find(order, i)) <= StepUpMin(p, p[i], 0)
  {
    var t := PyDict.Find(order, i);
    var a := RankScaled(p, order);
    var j := StepUpMinWitness(p, p[i], 0);
    if j < |p| {
      WitnessRank(p, order, i, j);
    } else {
      SuffixMinAtMostOne(a, t);
    }
  }

  /**
   * The adjusted value of a p-value at least `p[i]` sits in the scaled
   * sequence at its last rank, which is not before the rank of `p[i]`.
   */
  lemma WitnessRank(p: seq<PValue>, order: seq<nat>, i: nat, j: nat)
    requires IsArgsort(p, order) && i < |p| && j < |p| && p[i] <= p[j]
    ensures SuffixMin(RankScaled(p, order), PyDict.Find(order, i)) <= Adjusted(p, j)
  {
    var t := PyDict.Find(order, i);
    var c := CountAtMost(p, p[j]);
    LastRank(p, order, j);
    assert order[t] == i;
    RankAtLeast(p, order, t);
    CountAtMostMonotone(p, p[i], p[j]);
    assert RankScaled(p, order)[c - 1] == Adjusted(p, j);
    SuffixMinBelow(RankScaled(p, order), t, c - 1);
  }

  /** Dividing by a larger rank scales less. */
  lemma ScaleDown(x: real, m: nat, n1: nat, n2: nat)
    requires 0.0 <= x && 0 < n1 <= n2 <= m
    ensures Scale(x, m, n2) <= Scale(x, m, n1)
  {
    var a, b1, b2 := m as real, n1 as real, n2 as real;
    var f1, f2 := a / b1, a / b2;
    DivideByLarger(a, b1, b2);
    MultiplyMonotone(x, f2, f1, Scale(x, m, n2), Scale(x, m, n1));
  }

  /** Scaling a non-negative value by a smaller factor gives a smaller product. */
  lemma MultiplyMonotone(x: real, y: real, z: real, xy: real, xz: real)
    requires 0.0 <= x && y <= z && xy == x * y && xz == x * z
    ensures xy <= xz
  {
    var d := z - y;
    assert x * z == x * y + x * d;
    assert x * d >= 0.0;
  }

  lemma DivideByLarger(a: real, b1: real, b2: real)
    requires a >= 0.0 && 0.0 < b1 <= b2
    ensures a / b2 <= a / b1
  {
    var f1, f2 := a / b1, a / b2;
    assert f2 * b1 <= f2 * b2 by {
      assert f2 >= 0.0;
      assert f2 * b2 - f2 * b1 == f2 * (b2 - b1);
    }
    assert f2 * b1 <= a;
    CancelPositive(f2, f1, b1);
  }

  lemma CancelPositive(y: real, z: real, b: real)
    requires b > 0.0 && y * b <= z * b
    ensures y <= z
  {
    var d := z - y;
    assert d * b >= 0.0;
    assert d == (d * b) / b;
  }

  lemma {:induction false} SuffixMinAbove(a: seq<real>, t: nat, x: real)
    requires t <= |a| && x <= 1.0
    requires forall k | t <= k < |a| :: x <= a[k]
    ensures x <= SuffixMin(a, t)
    decreases |a| - t
  {
    if t < |a| {
      SuffixMinAbove(a, t + 1, x);
    }
  }

  lemma {:induction false} SuffixMinBelow(a: seq<real>, t: nat, k: nat)
    requires t <= k < |a|
    ensures SuffixMin(a, t) <= a[k]
    decreases k - t
  {
    if t < k {
      SuffixMinBelow(a, t + 1, k);
    }
  }

  lemma {:induction false} SuffixMinAtMostOne(a: seq<real>, t: nat)
    requires t <= |a|
    ensures SuffixMin(a, t) <= 1.0
    decreases |a| - t
  {
    if t < |a| {
      SuffixMinAtMostOne(a, t + 1);
    }
  }

  lemma {:induction false} StepUpMinBelowCandidate(p: seq<PValue>, v: real, k: nat, j: nat)
    requires k <= j < |p| && v <= p[j]
    ensures StepUpMin(p, v, k) <= Adjusted(p, j)
    decreases j - k
  {
    if k < j {
      StepUpMinBelowCandidate(p, v, k + 1, j);
    }
  }

  /** The step-up minimum is 1 (returned as `|p|`) or the adjusted value of a candidate it returns. */
  lemma {:induction false} StepUpMinWitness(p: seq<PValue>, v: real, k: nat) returns (j: nat)
    requires k <= |p|
    ensures j == |p| ==> StepUpMin(p, v, k) == 1.0
    ensures j != |p| ==> k <= j < |p| && v <= p[j] && StepUpMin(p, v, k) == Adjusted(p, j)
    decreases |p| - k
  {
    if k == |p| {
      j := |p|;
    } else {
      var j' := StepUpMinWitness(p, v, k + 1);
      if v <= p[k] && Adjusted(p, k) <= StepUpMin(p, v, k + 1) {
        j := k;
      } else {
        j := j';
      }
    }
  }

  /** The positions whose p-value is at most `v`. */
  function IndicesAtMost(p: seq<real>, v: real): set<nat> {
    set j: nat | j < |p| && p[j] <= v
  }

  lemma {:induction false} CountAtMostIsCardinality(p: seq<real>, v: real)
    ensures CountAtMost(p, v) == |IndicesAtMost(p, v)|
    decreases |p|
  {
    if p != [] {
      var init, last := p[..|p| - 1], |p| - 1;
      CountAtMostIsCardinality(init, v);
      assert IndicesAtMost(p, v) == IndicesAtMost(init, v) + (if p[last] <= v then {last} else {});
    }
  }

  lemma CountAtMostMonotone(p: seq<real>, v: real, w: real)
    requires v <= w
    ensures CountAtMost(p, v) <= CountAtMost(p, w)
  {
    CountAtMostIsCardinality(p, v);
    CountAtMostIsCardinality(p, w);
    SubsetCardinality(IndicesAtMost(p, v), IndicesAtMost(p, w));
  }


  /** The positions `order` puts at the first `n` ranks. */
  function FirstRanks(order: seq<nat>, n: nat): set<nat>
    requires n <= |order|
  {
    set k | 0 <= k < n :: order[k]
  }

  lemma {:induction false} FirstRanksCardinality(order: seq<nat>, n: nat)
    requires n <= |order|
    requires forall k, l | 0 <= k < l < |order| :: order[k] != order[l]
    ensures |FirstRanks(order, n)| == n
  {
    if n > 0 {
      FirstRanksCardinality(order, n - 1);
      assert FirstRanks(order, n) == FirstRanks(order, n - 1) + {order[n - 1]};
      assert order[n - 1] !in FirstRanks(order, n - 1);
    }
  }

  /** At least `k + 1` p-values are at most the one of rank `k + 1`. */
  lemma RankAtLeast(p: seq<PValue>, order: seq<nat>, k: nat)
    requires IsArgsort(p, order) && k < |p|
    ensures CountAtMost(p, p[order[k]]) >= k + 1
  {
    FirstRanksCardinality(order, k + 1);
    CountAtMostIsCardinality(p, p[order[k]]);
    SubsetCardinality(FirstRanks(order, k + 1), IndicesAtMost(p, p[order[k]]));
  }

  /** Mapping a set loses no more than it has. */
  lemma {:induction false} ImageCardinality(s: set<nat>, order: seq<nat>)
    requires forall k | k in s :: k < |order|
    ensures |set k | k in s :: order[k]| <= |s|
    decreases |s|
  {
    if s != {} {
      var x :| x in s;
      var s' := s - {x};
      ImageCardinality(s', order);
      assert (set k | k in s :: order[k]) == (set k | k in s' :: order[k]) + {order[x]};
    }
  }

  /** A set of at least `c` naturals holds one of at least `c - 1`. */
  lemma LargeElement(s: set<nat>, c: nat) returns (k: nat)
    requires 1 <= c <= |s|
    ensures k in s && k >= c - 1
  {
    var small := set k: nat | k in s && k < c - 1;
    assert small <= FirstRanks(seq(c - 1, i => i), c - 1) by {
      forall k | k in small ensures k in FirstRanks(seq(c - 1, i => i), c - 1) {
        assert seq(c - 1, i => i)[k] == k;
      }
    }
    FirstRanksCardinality(seq(c - 1, i => i), c - 1);
    SubsetCardinality(small, FirstRanks(seq(c - 1, i => i), c - 1));
    assert s == small + (s - small);
    k :| k in s - small;
  }

  /** The last rank of a value is its count, and that rank holds the value itself. */
  lemma LastRank(p: seq<PValue>, order: seq<nat>, j: nat)
    requires IsArgsort(p, order) && j < |p|
    ensures 1 <= CountAtMost(p, p[j]) <= |p|
    ensures p[order[CountAtMost(p, p[j]) - 1]] == p[j]
  {
    var m, v := |p|, p[j];
    var c := CountAtMost(p, v);
    CountAtMostSelf(p, j);
    // The ranks holding values at most v map onto the positions of those values.
    var ranks := set k: nat | k < m && p[order[k]] <= v;
    forall x | x in IndicesAtMost(p, v) ensures x in set k | k in ranks :: order[k] {
      var k := PyDict.Find(order, x);
      assert order[k] == x && k in ranks;
    }
    ImageCardinality(ranks, order);
    CountAtMostIsCardinality(p, v);
    SubsetCardinality(IndicesAtMost(p, v), set k | k in ranks :: order[k]);
    var k := LargeElement(ranks, c);
    assert p[order[c - 1]] <= v;
    // The rank of position j itself is at most c.
    var r := PyDict.Find(order, j);
    assert order[r] == j;
    RankAtLeast(p, order, r);
    assert p[order[c - 1]] >= v;
  }
}
