/**
 * Longest-first assignment is stable: when every cost moves by at most `d`, the sorted loads, and with
 * them the largest one, move by at most `d` per cost, even where the change reorders the costs.
 */
module Stability {
  import opened Ordering
  import opened Shares
  import G = Greedy

  predicate Near(x: real, y: real, margin: real) {
    x - margin <= y <= x + margin
  }

  /** The two sequences agree position by position up to `margin`. */
  predicate Close(a: seq<real>, b: seq<real>, margin: real) {
    |a| == |b| && forall i :: 0 <= i < |a| ==> Near(a[i], b[i], margin)
  }

  /** What moving `n` costs by `d` each can add up to. */
  function Drift(d: real, n: nat): real {
    if n == 0 then 0.0 else Drift(d, n - 1) + d
  }

  predicate RealGe(a: real, b: real) {
    a >= b
  }

  // --- sorting ---

  /** Inserting into a descending sequence, seen position by position. */
  lemma {:induction false} InsertAt(x: real, s: seq<real>, k: nat)
    requires G.Descending(s) && k <= |s|
    ensures |Insert(RealGe, x, s)| == |s| + 1
    ensures Insert(RealGe, x, s)[k] == if k < |s| && s[k] > x then s[k] else if k > 0 && s[k - 1] < x then s[k - 1] else x
  {
    if s != [] && x < s[0] {
      InsertAt(x, s[1..], if k > 0 then k - 1 else 0);
    }
  }

  lemma InsertNear(x: real, y: real, a: seq<real>, b: seq<real>, margin: real)
    requires G.Descending(a) && G.Descending(b) && Close(a, b, margin) && Near(x, y, margin)
    ensures Close(Insert(RealGe, x, a), Insert(RealGe, y, b), margin)
  {
    InsertAt(x, a, 0);
    InsertAt(y, b, 0);
    forall k | 0 <= k <= |a| ensures Near(Insert(RealGe, x, a)[k], Insert(RealGe, y, b)[k], margin) {
      InsertAt(x, a, k);
      InsertAt(y, b, k);
      if 0 < k {
        assert Near(a[k - 1], b[k - 1], margin);
      }
      if k < |a| {
        assert Near(a[k], b[k], margin);
      }
    }
  }

  lemma SortDescends(s: seq<real>)
    ensures G.Descending(Sort(RealGe, s))
  {
    SortSorts(RealGe, s);
  }

  lemma {:induction false} SortNear(a: seq<real>, b: seq<real>, margin: real)
    requires Close(a, b, margin)
    ensures Close(Sort(RealGe, a), Sort(RealGe, b), margin)
  {
    if a != [] {
      SortNear(a[1..], b[1..], margin);
      SortDescends(a[1..]);
      SortDescends(b[1..]);
      InsertNear(a[0], b[0], Sort(RealGe, a[1..]), Sort(RealGe, b[1..]), margin);
    }
  }

  /** A descending arrangement is the sorted one. */
  lemma DescendingIsSorted(s: seq<real>, t: seq<real>)
    requires G.Descending(s) && multiset(s) == multiset(t)
    ensures s == Sort(RealGe, t)
  {
    SortPermutes(RealGe, t);
    SortDescends(t);
    SortedUnique(RealGe, s, Sort(RealGe, t));
  }

  // --- one cost handed out ---

  /** The loads of the greedy placement, largest first. */
  function SortedLoads(p: seq<real>, workers: nat): seq<real>
    requires workers > 0
  {
    Sort(RealGe, G.Loads(p, G.Place(p, workers), workers))
  }

  /** The least load is the last of the sorted ones. */
  lemma LeastIsLast(loads: seq<real>, s: seq<real>)
    requires loads != [] && G.Descending(s) && multiset(s) == multiset(loads)
    ensures |s| == |loads| && s[|s| - 1] == loads[G.LeastLoaded(loads)]
  {
    var least := loads[G.LeastLoaded(loads)];
    assert |s| == |multiset(s)| == |loads|;
    assert least in multiset(s) && s[|s| - 1] in multiset(loads);
    var k :| 0 <= k < |s| && s[k] == least;
    var l :| 0 <= l < |loads| && loads[l] == s[|s| - 1];
  }

  lemma LoadsGrow(p: seq<real>, f: seq<nat>, workers: nat)
    requires p != [] && |f| == |p| && f[|p| - 1] < workers
    ensures var n := |p| - 1;
            var loads := G.Loads(p[..n], f[..n], workers);
            G.Loads(p, f, workers) == loads[f[n] := loads[f[n]] + p[n]]
  {
    var n := |p| - 1;
    var loads := G.Loads(p[..n], f[..n], workers);
    forall w | 0 <= w < workers ensures G.Loads(p, f, workers)[w] == loads[f[n] := loads[f[n]] + p[n]][w] {
      assert G.Load(p, f, w) == G.Load(p[..n], f[..n], w) + if f[n] == w then p[n] else 0.0;
    }
  }

  /** The loads after the chosen worker, the least loaded, has taken a cost. */
  function RaiseLeast(loads: seq<real>, c: real): seq<real>
    requires loads != []
  {
    loads[G.LeastLoaded(loads) := loads[G.LeastLoaded(loads)] + c]
  }

  lemma PlaceStep(p: seq<real>, workers: nat)
    requires workers > 0 && p != []
    ensures var n, g := |p| - 1, G.Place(p, workers);
            g[..n] == G.Place(p[..n], workers) && g[n] == G.LeastLoaded(G.Loads(p[..n], g[..n], workers))
  {
    assert G.Place(p, workers)[..|p| - 1] == G.Place(p[..|p| - 1], workers);
  }

  /** The loop body: the chosen worker's load grows, the others stay. */
  lemma LoadsStep(p: seq<real>, g: seq<nat>, workers: nat)
    requires workers > 0 && p != [] && |g| == |p|
    requires g[|p| - 1] == G.LeastLoaded(G.Loads(p[..|p| - 1], g[..|p| - 1], workers))
    ensures G.Loads(p, g, workers) == RaiseLeast(G.Loads(p[..|p| - 1], g[..|p| - 1], workers), p[|p| - 1])
  {
    LoadsGrow(p, g, workers);
  }

  /** The last of the sorted loads taken out and inserted again, the cost added. */
  function Raised(sorted: seq<real>, c: real): seq<real>
    requires sorted != []
  {
    Insert(RealGe, sorted[|sorted| - 1] + c, sorted[..|sorted| - 1])
  }

  lemma UpdateMultiset(s: seq<real>, i: nat, x: real)
    requires i < |s|
    ensures multiset(s[i := x]) == multiset(s) - multiset{s[i]} + multiset{x}
  {
  }

  lemma MovedMultiset(loads: seq<real>, sorted: seq<real>, target: nat, x: real, moved: seq<real>)
    requires target < |loads| == |sorted| && multiset(sorted) == multiset(loads) && sorted[|sorted| - 1] == loads[target]
    requires multiset(moved) == multiset(sorted[..|sorted| - 1]) + multiset{x}
    ensures multiset(moved) == multiset(loads[target := x])
  {
    assert sorted == sorted[..|sorted| - 1] + [loads[target]];
    UpdateMultiset(loads, target, x);
  }

  lemma RaisedDescends(s: seq<real>, c: real)
    requires s != [] && G.Descending(s)
    ensures G.Descending(Raised(s, c))
  {
    var rest := s[..|s| - 1];
    assert G.Descending(rest) && SortedBy(RealGe, rest);
    InsertSorted(RealGe, s[|s| - 1] + c, rest);
  }

  lemma RaisedPermutes(s: seq<real>, c: real)
    requires s != []
    ensures multiset(Raised(s, c)) == multiset(s[..|s| - 1]) + multiset{s[|s| - 1] + c}
  {
    InsertPermutes(RealGe, s[|s| - 1] + c, s[..|s| - 1]);
  }

  lemma RaisedMultiset(loads: seq<real>, s: seq<real>, c: real)
    requires loads != [] && G.Descending(s) && multiset(s) == multiset(loads)
    ensures s != [] && multiset(Raised(s, c)) == multiset(RaiseLeast(loads, c))
  {
    LeastIsLast(loads, s);
    RaisedPermutes(s, c);
    MovedMultiset(loads, s, G.LeastLoaded(loads), s[|s| - 1] + c, Raised(s, c));
  }

  lemma RaiseSorted(loads: seq<real>, s: seq<real>, c: real)
    requires loads != [] && G.Descending(s) && multiset(s) == multiset(loads)
    ensures |s| == |loads| && Sort(RealGe, RaiseLeast(loads, c)) == Raised(s, c)
  {
    LeastIsLast(loads, s);
    RaisedMultiset(loads, s, c);
    RaisedDescends(s, c);
    DescendingIsSorted(Raised(s, c), RaiseLeast(loads, c));
  }

  lemma RaisedNear(a: seq<real>, b: seq<real>, margin: real, c: real, c': real, d: real)
    requires a != [] && G.Descending(a) && G.Descending(b) && Close(a, b, margin) && Near(c, c', d) && d >= 0.0
    ensures Close(Raised(a, c), Raised(b, c'), margin + d)
  {
    var n := |a| - 1;
    assert Near(a[n], b[n], margin);
    assert Near(a[n] + c, b[n] + c', margin + d);
    assert Close(a[..n], b[..n], margin + d);
    InsertNear(a[n] + c, b[n] + c', a[..n], b[..n], margin + d);
  }

  lemma SortedStep(p: seq<real>, workers: nat)
    requires workers > 0 && p != []
    ensures var s := SortedLoads(p[..|p| - 1], workers);
            |s| == workers && G.Descending(s) && SortedLoads(p, workers) == Raised(s, p[|p| - 1])
  {
    var loads := G.Loads(p[..|p| - 1], G.Place(p[..|p| - 1], workers), workers);
    PlaceStep(p, workers);
    LoadsStep(p, G.Place(p, workers), workers);
    SortPermutes(RealGe, loads);
    SortDescends(loads);
    RaiseSorted(loads, Sort(RealGe, loads), p[|p| - 1]);
  }

  /** Costs that stay close leave the sorted loads close. */
  lemma {:induction false} LoadsNear(p: seq<real>, q: seq<real>, workers: nat, d: real)
    requires workers > 0 && d >= 0.0 && Close(p, q, d)
    ensures Close(SortedLoads(p, workers), SortedLoads(q, workers), Drift(d, |p|))
  {
    if p == [] {
      assert p == q;
    } else {
      var n := |p| - 1;
      LoadsNear(p[..n], q[..n], workers, d);
      SortedStep(p, workers);
      SortedStep(q, workers);
      assert Near(p[n], q[n], d);
      RaisedNear(SortedLoads(p[..n], workers), SortedLoads(q[..n], workers), Drift(d, n), p[n], q[n], d);
    }
  }

  // --- the largest load ---

  /** The largest of the loads is the first of the sorted ones. */
  lemma LargestIsFirst(loads: seq<real>)
    requires loads != []
    ensures Sort(RealGe, loads) != [] && Sort(RealGe, loads)[0] in loads
    ensures forall x :: x in loads ==> x <= Sort(RealGe, loads)[0]
  {
    var s := Sort(RealGe, loads);
    SortPermutes(RealGe, loads);
    SortDescends(loads);
    assert s[0] in multiset(loads);
    forall x | x in loads ensures x <= s[0] {
      assert x in multiset(s);
    }
  }
}
