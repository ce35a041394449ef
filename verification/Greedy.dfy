/**
 * Greedy list scheduling: each cost in turn goes to the least-loaded worker, the lowest index
 * winning a tie. The module proves the list-scheduling bound for any order of the costs and
 * Graham's bound when the costs are handed out longest first.
 */
module Greedy {

  /** `f` sends every cost to one of the workers `0..workers`. */
  predicate Assigns(p: seq<real>, f: seq<nat>, workers: nat) {
    |f| == |p| && forall i :: 0 <= i < |f| ==> f[i] < workers
  }

  predicate NonNegative(p: seq<real>) {
    forall i :: 0 <= i < |p| ==> p[i] >= 0.0
  }

  predicate Descending(p: seq<real>) {
    forall i, j :: 0 <= i < j < |p| ==> p[i] >= p[j]
  }

  /** No worker carries more than `t`. */
  ghost predicate UnderCeiling(p: seq<real>, f: seq<nat>, workers: nat, t: real)
    requires |f| == |p|
  {
    forall w :: 0 <= w < workers ==> Load(p, f, w) <= t
  }

  function Total(p: seq<real>): real {
    if p == [] then 0.0 else Total(p[..|p| - 1]) + p[|p| - 1]
  }

  /** What worker `w` carries under the assignment `f`. */
  function Load(p: seq<real>, f: seq<nat>, w: nat): real
    requires |f| == |p|
  {
    if p == [] then 0.0
    else
      var n := |p| - 1;
      Load(p[..n], f[..n], w) + (if f[n] == w then p[n] else 0.0)
  }

  function Loads(p: seq<real>, f: seq<nat>, workers: nat): seq<real>
    requires |f| == |p|
  {
    seq(workers, w requires 0 <= w < workers => Load(p, f, w))
  }

  /** The worker with the least load, the lowest index among equals. */
  function LeastLoaded(loads: seq<real>): (target: nat)
    requires loads != []
    ensures target < |loads|
    ensures forall w :: 0 <= w < |loads| ==> loads[target] <= loads[w]
    ensures forall w :: 0 <= w < target ==> loads[target] < loads[w]
  {
    var n := |loads| - 1;
    if n == 0 then 0
    else
      var best := LeastLoaded(loads[..n]);
      if loads[n] < loads[best] then n else best
  }

  /** The targets the greedy loop picks, in the order the costs are handed out. */
  function Place(p: seq<real>, workers: nat): (g: seq<nat>)
    requires workers > 0
    ensures Assigns(p, g, workers)
  {
    if p == [] then []
    else
      var n := |p| - 1;
      var g := Place(p[..n], workers);
      g + [LeastLoaded(Loads(p[..n], g, workers))]
  }

  /** The load of the worker the greedy rule picks for cost number `n`, before it takes it. */
  function NextLoad(p: seq<real>, workers: nat, n: nat): real
    requires workers > 0 && n < |p|
  {
    var g := Place(p[..n], workers);
    Load(p[..n], g, LeastLoaded(Loads(p[..n], g, workers)))
  }

  // --- loads add up to the total ---

  function SumLoads(p: seq<real>, f: seq<nat>, workers: nat): real
    requires |f| == |p|
  {
    if workers == 0 then 0.0 else SumLoads(p, f, workers - 1) + Load(p, f, workers - 1)
  }

  lemma {:induction false} SumLoadsStep(p: seq<real>, f: seq<nat>, workers: nat)
    requires |f| == |p| && p != []
    ensures var n := |p| - 1;
            SumLoads(p, f, workers) == SumLoads(p[..n], f[..n], workers) + if f[n] < workers then p[n] else 0.0
  {
    if workers > 0 {
      SumLoadsStep(p, f, workers - 1);
    }
  }

  lemma {:induction false} SumLoadsEmpty(workers: nat)
    ensures SumLoads([], [], workers) == 0.0
  {
    if workers > 0 {
      SumLoadsEmpty(workers - 1);
    }
  }

  /** Conservation: whatever the assignment, the workers together carry the whole cost. */
  lemma {:induction false} LoadsConserve(p: seq<real>, f: seq<nat>, workers: nat)
    requires Assigns(p, f, workers)
    ensures SumLoads(p, f, workers) == Total(p)
  {
    if p == [] {
      assert f == [];
      SumLoadsEmpty(workers);
    } else {
      var n := |p| - 1;
      SumLoadsStep(p, f, workers);
      LoadsConserve(p[..n], f[..n], workers);
    }
  }

  lemma {:induction false} SumAtLeast(p: seq<real>, f: seq<nat>, workers: nat, c: real)
    requires |f| == |p| && forall w :: 0 <= w < workers ==> Load(p, f, w) >= c
    ensures SumLoads(p, f, workers) >= workers as real * c
  {
    if workers > 0 {
      SumAtLeast(p, f, workers - 1, c);
      assert workers as real * c == (workers - 1) as real * c + c;
    }
  }

  lemma {:induction false} SumAtMost(p: seq<real>, f: seq<nat>, workers: nat, c: real)
    requires |f| == |p| && forall w :: 0 <= w < workers ==> Load(p, f, w) <= c
    ensures SumLoads(p, f, workers) <= workers as real * c
  {
    if workers > 0 {
      SumAtMost(p, f, workers - 1, c);
      assert workers as real * c == (workers - 1) as real * c + c;
    }
  }

  lemma {:induction false} LoadPrefix(p: seq<real>, f: seq<nat>, k: nat, w: nat)
    requires |f| == |p| && k <= |p| && NonNegative(p)
    ensures 0.0 <= Load(p[..k], f[..k], w) <= Load(p, f, w)
    decreases |p|
  {
    if k == |p| {
      assert p[..k] == p && f[..k] == f;
      if k > 0 {
        LoadPrefix(p[..k - 1], f[..k - 1], k - 1, w);
        assert p[..k - 1][..k - 1] == p[..k - 1] && f[..k - 1][..k - 1] == f[..k - 1];
      }
    } else {
      var n := |p| - 1;
      LoadPrefix(p[..n], f[..n], k, w);
      assert p[..n][..k] == p[..k] && f[..n][..k] == f[..k];
    }
  }

  lemma {:induction false} TotalPrefix(p: seq<real>, k: nat)
    requires k <= |p| && NonNegative(p)
    ensures 0.0 <= Total(p[..k]) <= Total(p)
    decreases |p|
  {
    if k == |p| {
      assert p[..k] == p;
      if k > 0 {
        TotalPrefix(p[..k - 1], k - 1);
        assert p[..k - 1][..k - 1] == p[..k - 1];
      }
    } else {
      TotalPrefix(p[..|p| - 1], k);
      assert p[..|p| - 1][..k] == p[..k];
    }
  }

  predicate BelowAverage(workers: nat, load: real, total: real) {
    workers as real * load <= total
  }

  /** The load the greedy rule builds on is at most the average so far. */
  lemma LeastBelowAverage(p: seq<real>, workers: nat, n: nat)
    requires workers > 0 && n < |p|
    ensures BelowAverage(workers, NextLoad(p, workers, n), Total(p[..n]))
  {
    LeastOfLoads(p[..n], Place(p[..n], workers), workers);
  }

  lemma LeastOfLoads(q: seq<real>, g: seq<nat>, workers: nat)
    requires workers > 0 && Assigns(q, g, workers)
    ensures BelowAverage(workers, Load(q, g, LeastLoaded(Loads(q, g, workers))), Total(q))
  {
    var t := LeastLoaded(Loads(q, g, workers));
    LeastIsLeast(q, g, workers, t);
    FloorBelowAverage(q, g, workers, Load(q, g, t));
  }

  lemma LeastIsLeast(q: seq<real>, g: seq<nat>, workers: nat, t: nat)
    requires workers > 0 && |g| == |q| && t == LeastLoaded(Loads(q, g, workers))
    ensures forall w :: 0 <= w < workers ==> Load(q, g, w) >= Load(q, g, t)
  {
    forall w | 0 <= w < workers ensures Load(q, g, w) >= Load(q, g, t) {
      assert Loads(q, g, workers)[w] >= Loads(q, g, workers)[t];
    }
  }

  /** What every worker carries at least is at most the average. */
  lemma FloorBelowAverage(q: seq<real>, g: seq<nat>, workers: nat, c: real)
    requires Assigns(q, g, workers) && forall w :: 0 <= w < workers ==> Load(q, g, w) >= c
    ensures BelowAverage(workers, c, Total(q))
  {
    SumAtLeast(q, g, workers, c);
    LoadsConserve(q, g, workers);
  }

  lemma Scale(m: real, x: real, y: real)
    requires m >= 0.0 && x <= y
    ensures m * x <= m * y
  {
  }

  /** `load` is at most (total + (workers - 1) * largest) / workers, without the division. */
  predicate WithinListBound(workers: nat, load: real, total: real, largest: real) {
    workers as real * load <= total + (workers as real - 1.0) * largest
  }

  lemma NextWithinListBound(workers: nat, load: real, cost: real, total: real, largest: real)
    requires workers > 0 && cost <= largest && BelowAverage(workers, load, total)
    ensures WithinListBound(workers, load + cost, total + cost, largest)
  {
    var m := workers as real;
    Scale(m - 1.0, cost, largest);
    assert m * (load + cost) == m * load + cost + (m - 1.0) * cost;
  }

  lemma ListBoundGrows(workers: nat, load: real, total: real, cost: real, largest: real)
    requires cost >= 0.0 && WithinListBound(workers, load, total, largest)
    ensures WithinListBound(workers, load, total + cost, largest)
  {
  }

  /**
   * The list-scheduling bound, for costs in any order: no worker carries more than
   * (total + (workers - 1) * largest cost) / workers.
   */
  lemma {:induction false} ListSchedulingBound(p: seq<real>, workers: nat, largest: real, w: nat)
    requires workers > 0 && w < workers && NonNegative(p) && largest >= 0.0
    requires forall i :: 0 <= i < |p| ==> p[i] <= largest
    ensures WithinListBound(workers, Load(p, Place(p, workers), w), Total(p), largest)
  {
    if p == [] {
      NextWithinListBound(workers, 0.0, 0.0, 0.0, largest);
    } else {
      var n := |p| - 1;
      var q, g := p[..n], Place(p, workers);
      assert g[..n] == Place(q, workers);
      assert Total(p) == Total(q) + p[n];
      if g[n] == w {
        assert Load(p, g, w) == NextLoad(p, workers, n) + p[n];
        LeastBelowAverage(p, workers, n);
        NextWithinListBound(workers, NextLoad(p, workers, n), p[n], Total(q), largest);
      } else {
        assert Load(p, g, w) == Load(q, g[..n], w);
        ListSchedulingBound(q, workers, largest, w);
        ListBoundGrows(workers, Load(q, g[..n], w), Total(q), p[n], largest);
      }
    }
  }

  // --- Graham's bound for costs handed out longest first ---

  /**
   * Weighs a cost 2 when it cannot share a worker with a cost of `s` or more under the ceiling
   * `t`, and 1 otherwise. The long-cost half of Graham's argument is a count of these weights.
   */
  function Weights(p: seq<real>, s: real, t: real): (q: seq<real>)
    ensures |q| == |p|
  {
    seq(|p|, i requires 0 <= i < |p| => if p[i] + s > t then 2.0 else 1.0)
  }

  lemma WeightsPrefix(p: seq<real>, s: real, t: real, n: nat)
    requires n <= |p|
    ensures Weights(p, s, t)[..n] == Weights(p[..n], s, t)
  {
  }

  /** A worker under the ceiling holds at most two ordinary costs or one heavy one. */
  lemma {:induction false} WeightAtMostTwo(p: seq<real>, f: seq<nat>, w: nat, s: real, t: real)
    requires |f| == |p| && s > 0.0 && t > 0.0
    requires forall i :: 0 <= i < |p| ==> p[i] >= s && 3.0 * p[i] > t
    ensures var load, weight := Load(p, f, w), Load(Weights(p, s, t), f, w);
            && load >= 0.0
            && (weight == 0.0 || weight == 1.0 || weight == 2.0 || (weight > 2.0 && load > t))
            && (weight == 1.0 ==> load >= s && 3.0 * load > t)
            && (weight == 2.0 ==> load + s > t || 3.0 * load > 2.0 * t)
  {
    if p != [] {
      var n := |p| - 1;
      WeightAtMostTwo(p[..n], f[..n], w, s, t);
      WeightsPrefix(p, s, t, n);
    }
  }

  /** A worker with no room left for `s` holds two ordinary costs or one heavy one. */
  lemma {:induction false} WeightAtLeastTwo(p: seq<real>, f: seq<nat>, w: nat, s: real, t: real)
    requires |f| == |p| && s <= t
    ensures var load, weight := Load(p, f, w), Load(Weights(p, s, t), f, w);
            && weight >= 0.0
            && (weight < 2.0 ==> weight == 0.0 || weight == 1.0)
            && (weight == 0.0 ==> load == 0.0)
            && (weight < 2.0 ==> load + s <= t)
  {
    if p != [] {
      var n := |p| - 1;
      WeightAtLeastTwo(p[..n], f[..n], w, s, t);
      WeightsPrefix(p, s, t, n);
    }
  }

  /**
   * When every cost is more than a third of the ceiling and some assignment stays under it, the
   * greedy placement of the shortest cost stays under it too.
   */
  lemma LongCostsFit(p: seq<real>, f: seq<nat>, g: seq<nat>, workers: nat, t: real)
    requires workers > 0 && p != [] && Assigns(p, f, workers)
    requires var n := |p| - 1; Assigns(p[..n], g, workers)
    requires t > 0.0 && Descending(p) && p[|p| - 1] > 0.0 && 3.0 * p[|p| - 1] > t && p[|p| - 1] <= t
    requires UnderCeiling(p, f, workers, t)
    ensures var n := |p| - 1;
            Load(p[..n], g, LeastLoaded(Loads(p[..n], g, workers))) + p[n] <= t
  {
    var n := |p| - 1;
    var s := p[n];
    var least := LeastLoaded(Loads(p[..n], g, workers));
    if Load(p[..n], g, least) + s > t {
      var q := Weights(p, s, t);
      WeightsPrefix(p, s, t, n);
      forall w | 0 <= w < workers ensures Load(q, f, w) <= 2.0 {
        WeightAtMostTwo(p, f, w, s, t);
      }
      SumAtMost(q, f, workers, 2.0);
      LoadsConserve(q, f, workers);
      forall w | 0 <= w < workers ensures Load(q[..n], g, w) >= 2.0 {
        assert Loads(p[..n], g, workers)[least] <= Loads(p[..n], g, workers)[w];
        WeightAtLeastTwo(p[..n], g, w, s, t);
      }
      SumAtLeast(q[..n], g, workers, 2.0);
      LoadsConserve(q[..n], g, workers);
      assert false;
    }
  }

  lemma CostUnderCeiling(p: seq<real>, f: seq<nat>, workers: nat, t: real, k: nat)
    requires Assigns(p, f, workers) && NonNegative(p) && k < |p| && UnderCeiling(p, f, workers, t)
    ensures p[k] <= t && UnderCeiling(p[..k + 1], f[..k + 1], workers, t)
  {
    var p', f' := p[..k + 1], f[..k + 1];
    forall w | 0 <= w < workers ensures Load(p', f', w) <= t {
      LoadPrefix(p, f, k + 1, w);
    }
    LoadPrefix(p[..k], f[..k], k, f[k]);
    assert p[..k][..k] == p[..k] && f[..k][..k] == f[..k];
    assert p[..k + 1][..k] == p[..k] && f[..k + 1][..k] == f[..k];
    assert Load(p[..k + 1], f[..k + 1], f[k]) >= p[k];
  }

  /** `load` is at most 4/3 - 1/(3 * workers) times `t`, without the division. */
  predicate WithinGraham(workers: nat, load: real, t: real) {
    3.0 * workers as real * load <= (4.0 * workers as real - 1.0) * t
  }

  lemma ShortCostWithin(workers: nat, load: real, cost: real, t: real)
    requires workers > 0 && 3.0 * cost <= t
    requires workers as real * load + cost <= workers as real * t
    ensures WithinGraham(workers, load + cost, t)
  {
    var m := workers as real;
    Scale(m - 1.0, 3.0 * cost, t);
    assert m * (load + cost) == m * load + cost + (m - 1.0) * cost;
  }

  lemma CeilingWithin(workers: nat, load: real, t: real)
    requires workers > 0 && load <= t && t >= 0.0
    ensures WithinGraham(workers, load, t)
  {
    var m := workers as real;
    Scale(m, load, t);
    Scale(t, 1.0, m);
    assert 3.0 * m * load == 3.0 * (m * load);
    assert (4.0 * m - 1.0) * t == 4.0 * (m * t) - t;
  }

  /** The prefix of a feasible assignment leaves room for the next cost on the average worker. */
  lemma AverageRoom(p: seq<real>, f: seq<nat>, workers: nat, t: real, n: nat)
    requires workers > 0 && NonNegative(p) && Assigns(p, f, workers) && n < |p| && UnderCeiling(p, f, workers, t)
    ensures workers as real * NextLoad(p, workers, n) + p[n] <= workers as real * t
  {
    LeastBelowAverage(p, workers, n);
    assert Total(p[..n]) + p[n] <= Total(p) by {
      TotalPrefix(p, n + 1);
      assert p[..n + 1][..n] == p[..n];
    }
    assert Total(p) <= workers as real * t by {
      LoadsConserve(p, f, workers);
      SumAtMost(p, f, workers, t);
    }
  }

  /** A cost above a third of the ceiling still fits under it. */
  lemma LongCostWithin(p: seq<real>, f: seq<nat>, workers: nat, t: real, n: nat)
    requires workers > 0 && NonNegative(p) && Descending(p) && Assigns(p, f, workers) && n < |p|
    requires t >= 0.0 && UnderCeiling(p, f, workers, t) && 3.0 * p[n] > t
    ensures NextLoad(p, workers, n) + p[n] <= t
  {
    var q, h := p[..n + 1], f[..n + 1];
    CostUnderCeiling(p, f, workers, t, n);
    assert q[..n] == p[..n] && q[n] == p[n];
    LongCostsFit(q, h, Place(p[..n], workers), workers, t);
  }

  lemma NextCostWithin(p: seq<real>, f: seq<nat>, workers: nat, t: real, n: nat)
    requires workers > 0 && NonNegative(p) && Descending(p) && Assigns(p, f, workers) && n < |p|
    requires t >= 0.0 && UnderCeiling(p, f, workers, t)
    ensures WithinGraham(workers, NextLoad(p, workers, n) + p[n], t)
  {
    if 3.0 * p[n] <= t {
      AverageRoom(p, f, workers, t, n);
      ShortCostWithin(workers, NextLoad(p, workers, n), p[n], t);
    } else {
      LongCostWithin(p, f, workers, t, n);
      CeilingWithin(workers, NextLoad(p, workers, n) + p[n], t);
    }
  }

  /** Cost number `n` goes to the least-loaded worker and to no other. */
  lemma PlaceOneMore(p: seq<real>, workers: nat, n: nat, w: nat)
    requires workers > 0 && n < |p| && w < workers
    ensures var picked := LeastLoaded(Loads(p[..n], Place(p[..n], workers), workers));
            Load(p[..n + 1], Place(p[..n + 1], workers), w)
              == if picked == w then NextLoad(p, workers, n) + p[n] else Load(p[..n], Place(p[..n], workers), w)
  {
    var q := p[..n + 1];
    assert q[..n] == p[..n] && q[n] == p[n];
    var g := Place(p[..n], workers);
    assert Place(q, workers) == g + [LeastLoaded(Loads(p[..n], g, workers))];
    assert Place(q, workers)[..n] == g;
  }

  lemma {:induction false} LongestFirstPrefix(p: seq<real>, f: seq<nat>, workers: nat, t: real, w: nat, k: nat)
    requires workers > 0 && w < workers && NonNegative(p) && Descending(p) && Assigns(p, f, workers)
    requires t >= 0.0 && k <= |p| && UnderCeiling(p, f, workers, t)
    ensures WithinGraham(workers, Load(p[..k], Place(p[..k], workers), w), t)
    decreases k
  {
    if k == 0 {
      CeilingWithin(workers, 0.0, t);
    } else {
      var n := k - 1;
      PlaceOneMore(p, workers, n, w);
      if LeastLoaded(Loads(p[..n], Place(p[..n], workers), workers)) == w {
        NextCostWithin(p, f, workers, t, n);
      } else {
        LongestFirstPrefix(p, f, workers, t, w, n);
      }
    }
  }

  /**
   * Graham's bound: handing costs out longest first, no worker carries more than
   * 4/3 - 1/(3 * workers) times the largest load of any other assignment `f` of the same costs.
   */
  lemma LongestFirstBound(p: seq<real>, f: seq<nat>, workers: nat, t: real, w: nat)
    requires workers > 0 && w < workers && NonNegative(p) && Descending(p)
    requires Assigns(p, f, workers) && UnderCeiling(p, f, workers, t)
    ensures WithinGraham(workers, Load(p, Place(p, workers), w), t)
  {
    LoadPrefix(p, f, 0, 0);
    assert p[..0] == [] && f[..0] == [] && p[..|p|] == p;
    assert Load(p, f, 0) <= t;
    LongestFirstPrefix(p, f, workers, t, w, |p|);
  }
}
