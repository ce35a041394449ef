/** The frozen duration history, and the deterministic longest-first balance built on it. */
module Scheduler {
  import opened Common
  import opened Ordering
  import opened Shares
  import opened Sequences
  import G = Greedy

  const NO_HISTORY_FALLBACK_SECONDS: real := 1.0

  /** Recorded seconds per node, in insertion order; a dictionary, so no node appears twice. */
  datatype History = History(durations: seq<(string, real)>) {
    predicate Valid() {
      forall i, j :: 0 <= i < j < |durations| ==> durations[i].0 != durations[j].0
    }

    function FallbackSeconds(): real {
      var known := Known(durations);
      if known == [] then NO_HISTORY_FALLBACK_SECONDS else Median(Sort(RealLe, known))
    }

    function Cost(node: string): real {
      var recorded := Recorded(durations, node);
      if recorded.None? || recorded.value <= 0.0 then FallbackSeconds() else recorded.value
    }
  }

  predicate RealLe(a: real, b: real) { a <= b }

  /** The positive durations. */
  function Known(durations: seq<(string, real)>): seq<real> {
    if durations == [] then []
    else
      var rest := Known(durations[1..]);
      if durations[0].1 > 0.0 then [durations[0].1] + rest else rest
  }

  function Recorded(durations: seq<(string, real)>, node: string): Option<real> {
    if durations == [] then None
    else if durations[0].0 == node then Some(durations[0].1)
    else Recorded(durations[1..], node)
  }

  /** `statistics.median` of values already sorted. */
  function Median(sorted: seq<real>): real
    requires sorted != []
  {
    var half := |sorted| / 2;
    if |sorted| % 2 == 1 then sorted[half] else (sorted[half - 1] + sorted[half]) / 2.0
  }

  lemma {:induction false} KnownPositive(durations: seq<(string, real)>)
    ensures forall x :: x in Known(durations) ==> x > 0.0
  {
    if durations != [] {
      KnownPositive(durations[1..]);
    }
  }

  lemma MedianPositive(sorted: seq<real>)
    requires sorted != [] && forall i :: 0 <= i < |sorted| ==> sorted[i] > 0.0
    ensures Median(sorted) > 0.0
  {
  }

  /** No node is ever free: an unknown or unusable duration costs the positive fallback. */
  lemma CostPositive(h: History, node: string)
    ensures h.Cost(node) > 0.0
  {
    var known := Known(h.durations);
    var sorted := Sort(RealLe, known);
    KnownPositive(h.durations);
    SortPermutes(RealLe, known);
    forall i | 0 <= i < |sorted| ensures sorted[i] > 0.0 {
      assert sorted[i] in multiset(sorted);
      assert sorted[i] in known;
    }
    if known != [] {
      MedianPositive(sorted);
    }
  }

  lemma {:induction false} KnownAppend(a: seq<(string, real)>, b: seq<(string, real)>)
    ensures Known(a + b) == Known(a) + Known(b)
  {
    if a == [] {
      assert a + b == b;
    } else {
      KnownAppend(a[1..], b);
      TailOfConcat(a, b);
      if a[0].1 > 0.0 {
        Associate([a[0].1], Known(a[1..]), Known(b));
      }
    }
  }

  lemma KnownRemove(b: seq<(string, real)>, i: nat)
    requires i < |b|
    ensures multiset(Known(b)) == multiset(Known([b[i]])) + multiset(Known(b[..i] + b[i + 1..]))
  {
    var before, after := b[..i], b[i + 1..];
    AroundIndex(b, i);
    KnownAppend(before, [b[i]] + after);
    KnownAppend([b[i]], after);
    KnownAppend(before, after);
  }

  lemma {:induction false} KnownPermutes(a: seq<(string, real)>, b: seq<(string, real)>)
    requires multiset(a) == multiset(b)
    ensures multiset(Known(a)) == multiset(Known(b))
  {
    if a == [] {
      assert |b| == |multiset(b)| == 0;
    } else {
      assert a[0] in multiset(b);
      var i :| 0 <= i < |b| && b[i] == a[0];
      var a', b' := a[..0] + a[1..], b[..i] + b[i + 1..];
      assert multiset(a') == multiset(b') by {
        MultisetRemove(a, 0);
        MultisetRemove(b, i);
      }
      KnownPermutes(a', b');
      assert multiset(Known(a)) == multiset(Known([a[0]])) + multiset(Known(a')) by { KnownRemove(a, 0); }
      assert multiset(Known(b)) == multiset(Known([a[0]])) + multiset(Known(b')) by { KnownRemove(b, i); }
    }
  }

  lemma {:induction false} RecordedIs(durations: seq<(string, real)>, node: string)
    requires History(durations).Valid()
    ensures forall x :: (node, x) in durations <==> Recorded(durations, node) == Some(x)
  {
    if durations != [] {
      RecordedIs(durations[1..], node);
      forall x | (node, x) in durations ensures Recorded(durations, node) == Some(x) {
        var i :| 0 <= i < |durations| && durations[i] == (node, x);
        assert i > 0 ==> durations[0].0 != node && durations[1..][i - 1] == (node, x);
      }
      forall x | Recorded(durations, node) == Some(x) ensures (node, x) in durations {
        assert durations[0].0 == node ==> durations[0] == (node, x);
      }
    }
  }

  /** Costs depend on what is recorded, not on the order it was recorded in. */
  lemma CostIgnoresInsertionOrder(h: History, h': History, node: string)
    requires h.Valid() && h'.Valid() && multiset(h.durations) == multiset(h'.durations)
    ensures h.Cost(node) == h'.Cost(node)
  {
    KnownPermutes(h.durations, h'.durations);
    SortCanonical(RealLe, Known(h.durations), Known(h'.durations));
    assert |Known(h.durations)| == |multiset(Known(h.durations))| == |Known(h'.durations)|;
    RecordedIs(h.durations, node);
    RecordedIs(h'.durations, node);
    forall x ensures Recorded(h.durations, node) == Some(x) <==> Recorded(h'.durations, node) == Some(x) {
      assert (node, x) in h.durations <==> (node, x) in multiset(h.durations);
      assert (node, x) in h'.durations <==> (node, x) in multiset(h'.durations);
    }
    var r, r' := Recorded(h.durations, node), Recorded(h'.durations, node);
    assert r.Some? ==> r' == Some(r.value);
    assert r'.Some? ==> r == Some(r'.value);
  }

  // --- schedules ---

  datatype Assignment = Assignment(workerId: string, nodes: seq<string>, predictedSeconds: real)

  datatype Fault =
    | BadWorkerCount(workers: int)
    | DuplicateNodes(nodes: set<string>)
    | EmptyCollection
    | NotScheduled(node: string)

  datatype Schedule = Schedule(assignments: seq<Assignment>) {
    /** Every scheduled node, worker by worker. */
    function Nodes(): seq<string> {
      Flatten(Map((a: Assignment) => a.nodes, assignments))
    }

    /** The first worker whose share names the node. */
    function WorkerFor(node: string): Result<string, Fault> {
      FirstOwner(assignments, node)
    }
  }

  function FirstOwner(assignments: seq<Assignment>, node: string): Result<string, Fault> {
    if assignments == [] then Err(NotScheduled(node))
    else if node in assignments[0].nodes then Ok(assignments[0].workerId)
    else FirstOwner(assignments[1..], node)
  }

  // --- balance ---

  /** Descending cost, then ascending node ID. */
  predicate RankLe(h: History, a: string, b: string) {
    h.Cost(a) > h.Cost(b) || (h.Cost(a) == h.Cost(b) && StringLe(a, b))
  }

  function RankOrder(h: History): (string, string) -> bool {
    (a, b) => RankLe(h, a, b)
  }

  function CostOf(h: History): string -> real {
    node => h.Cost(node)
  }

  function Ranked(h: History, nodes: seq<string>): seq<string> {
    Sort(RankOrder(h), nodes)
  }

  function RankedCosts(h: History, nodes: seq<string>): seq<real> {
    Map(CostOf(h), Ranked(h, nodes))
  }

  function RankedBuckets(h: History, nodes: seq<string>, workers: nat): (b: seq<seq<string>>)
    requires workers > 0
    ensures |b| == workers
  {
    Buckets(Ranked(h, nodes), G.Place(RankedCosts(h, nodes), workers), workers)
  }

  function Digits(n: nat): string {
    if n < 10 then ["0123456789"[n]] else Digits(n / 10) + ["0123456789"[n % 10]]
  }

  function WorkerId(index: nat): string {
    "w" + Digits(index)
  }

  function Duplicates(nodes: seq<string>): set<string> {
    set n | n in nodes && multiset(nodes)[n] > 1
  }

  function Share(h: History, nodes: seq<string>, workers: nat, w: nat): Assignment
    requires w < workers
  {
    var costs := RankedCosts(h, nodes);
    Assignment(WorkerId(w),
               Sort(StringLe, RankedBuckets(h, nodes, workers)[w]),
               G.Load(costs, G.Place(costs, workers), w))
  }

  /** What `balance` returns; the lemmas below say what that schedule is worth. */
  function Balanced(nodes: seq<string>, workers: int, h: History): Result<Schedule, Fault> {
    if workers < 1 then Err(BadWorkerCount(workers))
    else if Duplicates(nodes) != {} then Err(DuplicateNodes(Duplicates(nodes)))
    else if nodes == [] then Err(EmptyCollection)
    else Ok(Schedule(seq(workers, w requires 0 <= w < workers => Share(h, nodes, workers, w))))
  }

  method Balance(nodes: seq<string>, workers: int, h: History) returns (r: Result<Schedule, Fault>)
    ensures r == Balanced(nodes, workers, h)
  {
    if workers < 1 {
      return Err(BadWorkerCount(workers));
    }
    var duplicates := Duplicates(nodes);
    if duplicates != {} {
      return Err(DuplicateNodes(duplicates));
    }
    if nodes == [] {
      return Err(EmptyCollection);
    }
    var ranked := Ranked(h, nodes);
    var costs := RankedCosts(h, nodes); // history.cost of each ranked node
    var loads := seq(workers, _ => 0.0);
    var buckets: seq<seq<string>> := seq(workers, _ => []);
    var i := 0;
    while i < |ranked|
      invariant 0 <= i <= |ranked|
      invariant Dealt(ranked, costs, workers, i, loads, buckets)
    {
      var target := G.LeastLoaded(loads);
      DealOne(ranked, costs, workers, i, loads, buckets, target);
      buckets := buckets[target := buckets[target] + [ranked[i]]];
      loads := loads[target := loads[target] + costs[i]];
      i := i + 1;
    }
    assert ranked[..i] == ranked && costs[..i] == costs;
    var assignments := seq(workers, w requires 0 <= w < workers && |buckets| == |loads| == workers =>
      Assignment(WorkerId(w), Sort(StringLe, buckets[w]), loads[w]));
    assert assignments == Balanced(nodes, workers, h).value.assignments;
    return Ok(Schedule(assignments));
  }

  // --- what the schedule is worth ---

  lemma RankOrderTotal(h: History)
    ensures TotalPreorder(RankOrder(h))
    ensures forall s: seq<string> :: Separates(RankOrder(h), s)
  {
    StringOrder();
    forall a, b, c | RankOrder(h)(a, b) && RankOrder(h)(b, c) ensures RankOrder(h)(a, c) {
      if StringLe(a, b) && StringLe(b, c) {
        StringLeTransitive(a, b, c);
      }
    }
  }

  lemma DigitsSplit(n: nat)
    ensures |Digits(n)| == 1 <==> n < 10
    ensures Digits(n) != "" && Digits(n)[|Digits(n)| - 1] == "0123456789"[n % 10]
    ensures n >= 10 ==> Digits(n)[..|Digits(n)| - 1] == Digits(n / 10)
  {
    if n >= 10 {
      DropLast(Digits(n / 10), "0123456789"[n % 10]);
    }
  }

  lemma {:induction false} DigitsInjective(a: nat, b: nat)
    requires Digits(a) == Digits(b)
    ensures a == b
  {
    DigitsSplit(a);
    DigitsSplit(b);
    if a >= 10 {
      DigitsInjective(a / 10, b / 10);
    }
    SameDigit(a % 10, b % 10);
  }

  lemma SameDigit(a: nat, b: nat)
    requires a < 10 && b < 10 && "0123456789"[a] == "0123456789"[b]
    ensures a == b
  {
  }

  lemma {:induction false} FirstOwnerIs(assignments: seq<Assignment>, w: nat, node: string)
    requires w < |assignments| && node in assignments[w].nodes
    requires forall v :: 0 <= v < w ==> node !in assignments[v].nodes
    ensures FirstOwner(assignments, node) == Ok(assignments[w].workerId)
  {
    if w > 0 {
      FirstOwnerIs(assignments[1..], w - 1, node);
    }
  }

  lemma SortedShareMembers(h: History, nodes: seq<string>, workers: nat, w: nat)
    requires w < workers
    ensures multiset(Share(h, nodes, workers, w).nodes) == multiset(RankedBuckets(h, nodes, workers)[w])
    ensures forall n :: n in Share(h, nodes, workers, w).nodes <==> n in RankedBuckets(h, nodes, workers)[w]
  {
    SortPermutes(StringLe, RankedBuckets(h, nodes, workers)[w]);
    forall n ensures n in Share(h, nodes, workers, w).nodes <==> n in RankedBuckets(h, nodes, workers)[w] {
      assert n in Share(h, nodes, workers, w).nodes <==> n in multiset(Share(h, nodes, workers, w).nodes);
    }
  }

  lemma {:induction false} FlattenSorted(b: seq<seq<string>>, c: seq<seq<string>>)
    requires |b| == |c| && forall w :: 0 <= w < |b| ==> multiset(b[w]) == multiset(c[w])
    ensures multiset(Flatten(b)) == multiset(Flatten(c))
  {
    if b != [] {
      FlattenSorted(b[..|b| - 1], c[..|c| - 1]);
    }
  }

  lemma RepeatedIsDuplicate(nodes: seq<string>, r: seq<string>, i: nat, j: nat)
    requires multiset(r) == multiset(nodes) && i < j < |r| && r[i] == r[j]
    ensures r[i] in Duplicates(nodes)
  {
    assert r == r[..i] + [r[i]] + r[i + 1..j] + [r[j]] + r[j + 1..];
    assert r[i] in multiset(nodes);
  }

  lemma RankedOnce(h: History, nodes: seq<string>)
    requires Duplicates(nodes) == {}
    ensures forall i, j :: 0 <= i < j < |Ranked(h, nodes)| ==> Ranked(h, nodes)[i] != Ranked(h, nodes)[j]
    ensures forall n :: n in Ranked(h, nodes) <==> n in nodes
  {
    var r := Ranked(h, nodes);
    SortPermutes(RankOrder(h), nodes);
    forall n ensures n in r <==> n in nodes {
      assert n in r <==> n in multiset(r);
    }
    forall i, j | 0 <= i < j < |r| && r[i] == r[j] ensures false {
      RepeatedIsDuplicate(nodes, r, i, j);
    }
  }

  /**
   * Every node of the collection is in exactly one worker's share, once, and a node belongs to
   * the worker whose share names it; each share is in ID order and its prediction is the sum of
   * its own costs.
   */
  lemma BalanceDealsEveryNodeOnce(nodes: seq<string>, workers: int, h: History)
    requires Balanced(nodes, workers, h).Ok?
    ensures var s := Balanced(nodes, workers, h).value;
            && |s.assignments| == workers
            && multiset(s.Nodes()) == multiset(nodes)
            && (forall w :: 0 <= w < workers ==>
                  && SortedBy(StringLe, s.assignments[w].nodes)
                  && s.assignments[w].predictedSeconds == SumOf(CostOf(h), s.assignments[w].nodes))
            && (forall w, n :: 0 <= w < workers && n in nodes ==>
                  (n in s.assignments[w].nodes <==> s.WorkerFor(n) == Ok(s.assignments[w].workerId)))
  {
    var s := Balanced(nodes, workers, h).value;
    var ranked, costs := Ranked(h, nodes), RankedCosts(h, nodes);
    var g := G.Place(costs, workers);
    var b := RankedBuckets(h, nodes, workers);
    forall w | 0 <= w < workers
      ensures SortedBy(StringLe, s.assignments[w].nodes)
      ensures multiset(s.assignments[w].nodes) == multiset(b[w])
      ensures s.assignments[w].predictedSeconds == SumOf(CostOf(h), s.assignments[w].nodes)
    {
      SortedShareMembers(h, nodes, workers, w);
      StringOrder();
      SortSorts(StringLe, b[w]);
      BucketSum(CostOf(h), ranked, g, workers, w);
      SumPermutes(CostOf(h), s.assignments[w].nodes, b[w]);
    }
    BucketsConserve(ranked, g, workers);
    SortPermutes(RankOrder(h), nodes);
    FlattenSorted(Map((a: Assignment) => a.nodes, s.assignments), b);
    forall w, n | 0 <= w < workers && n in nodes
      ensures n in s.assignments[w].nodes <==> s.WorkerFor(n) == Ok(s.assignments[w].workerId)
    {
      OwnerIsHolder(nodes, workers, h, w, n);
    }
  }

  /** A node with one holder, the workers named apart: its owner's name is the holder's. */
  lemma UniqueHolder(assignments: seq<Assignment>, holder: nat, w: nat, node: string)
    requires holder < |assignments| && w < |assignments|
    requires forall v :: 0 <= v < |assignments| ==> (node in assignments[v].nodes <==> v == holder)
    requires assignments[w].workerId == assignments[holder].workerId ==> w == holder
    ensures node in assignments[w].nodes <==> FirstOwner(assignments, node) == Ok(assignments[w].workerId)
  {
    FirstOwnerIs(assignments, holder, node);
  }

  lemma OwnerIsHolder(nodes: seq<string>, workers: int, h: History, w: nat, n: string)
    requires Balanced(nodes, workers, h).Ok? && w < workers && n in nodes
    ensures var s := Balanced(nodes, workers, h).value;
            n in s.assignments[w].nodes <==> s.WorkerFor(n) == Ok(s.assignments[w].workerId)
  {
    var assignments := Balanced(nodes, workers, h).value.assignments;
    RankedOnce(h, nodes);
    var i :| 0 <= i < |Ranked(h, nodes)| && Ranked(h, nodes)[i] == n;
    var holder := G.Place(RankedCosts(h, nodes), workers)[i];
    forall v | 0 <= v < workers ensures n in assignments[v].nodes <==> v == holder {
      HolderOf(h, nodes, workers, v, n, i);
    }
    WorkerIdsDiffer(w, holder);
    UniqueHolder(assignments, holder, w, n);
  }

  lemma HolderOf(h: History, nodes: seq<string>, workers: nat, v: nat, n: string, i: nat)
    requires v < workers && i < |Ranked(h, nodes)| && Ranked(h, nodes)[i] == n
    requires forall j, k :: 0 <= j < k < |Ranked(h, nodes)| ==> Ranked(h, nodes)[j] != Ranked(h, nodes)[k]
    ensures n in Share(h, nodes, workers, v).nodes <==> v == G.Place(RankedCosts(h, nodes), workers)[i]
  {
    BucketOf(Ranked(h, nodes), G.Place(RankedCosts(h, nodes), workers), workers, v, i);
    SortedShareMembers(h, nodes, workers, v);
  }

  lemma WorkerIdsDiffer(v: nat, w: nat)
    ensures WorkerId(v) == WorkerId(w) <==> v == w
  {
    assert WorkerId(v)[1..] == Digits(v) && WorkerId(w)[1..] == Digits(w);
    if WorkerId(v) == WorkerId(w) {
      DigitsInjective(v, w);
    }
  }

  /** The schedule is a function of the collection: no arrangement of it changes anything. */
  lemma BalanceIgnoresOrder(a: seq<string>, b: seq<string>, workers: int, h: History)
    requires multiset(a) == multiset(b)
    ensures Balanced(a, workers, h) == Balanced(b, workers, h)
  {
    RankOrderTotal(h);
    SortCanonical(RankOrder(h), a, b);
    assert forall n :: n in a <==> n in multiset(a);
    assert forall n :: n in b <==> n in multiset(b);
    assert |a| == |multiset(a)| == |b|;
    assert Duplicates(a) == Duplicates(b);
    if Balanced(a, workers, h).Ok? {
      assert Balanced(a, workers, h).value.assignments == Balanced(b, workers, h).value.assignments;
    }
  }

  lemma RankedCostsDescend(h: History, nodes: seq<string>)
    ensures G.Descending(RankedCosts(h, nodes)) && G.NonNegative(RankedCosts(h, nodes))
  {
    RankOrderTotal(h);
    SortSorts(RankOrder(h), nodes);
    var r := Ranked(h, nodes);
    forall i | 0 <= i < |r| ensures RankedCosts(h, nodes)[i] >= 0.0 {
      CostPositive(h, r[i]);
    }
    forall i, j | 0 <= i < j < |r| ensures RankedCosts(h, nodes)[i] >= RankedCosts(h, nodes)[j] {
      assert RankOrder(h)(r[i], r[j]);
    }
  }

  /** What worker `w` would carry if the nodes were dealt by `alt` instead. */
  function AlternativeLoad(h: History, nodes: seq<string>, alt: string -> nat, w: nat): real {
    SumOf(Portion(CostOf(h), alt, w), nodes)
  }

  /**
   * The deterministic schedule is near-optimal: against every other assignment `alt` of the same
   * nodes, no worker's prediction exceeds 4/3 - 1/(3 * workers) times that assignment's ceiling.
   */
  lemma BalanceIsNearOptimal(nodes: seq<string>, workers: int, h: History, alt: string -> nat, t: real, w: nat)
    requires Balanced(nodes, workers, h).Ok? && w < workers
    requires forall n :: n in nodes ==> alt(n) < workers
    requires forall v: nat :: v < workers ==> AlternativeLoad(h, nodes, alt, v) <= t
    ensures G.WithinGraham(workers, Balanced(nodes, workers, h).value.assignments[w].predictedSeconds, t)
  {
    var ranked, costs := Ranked(h, nodes), RankedCosts(h, nodes);
    var f := Map(alt, ranked);
    RankedCostsDescend(h, nodes);
    SortPermutes(RankOrder(h), nodes);
    forall i | 0 <= i < |f| ensures f[i] < workers {
      assert ranked[i] in multiset(ranked);
    }
    forall v | 0 <= v < workers ensures G.Load(costs, f, v) <= t {
      PortionIsLoad(CostOf(h), alt, ranked, v);
      SumPermutes(Portion(CostOf(h), alt, v), ranked, nodes);
      assert AlternativeLoad(h, nodes, alt, v) <= t;
    }
    G.LongestFirstBound(costs, f, workers, t, w);
  }

  /** And no worker exceeds the average by more than (workers - 1) / workers of the largest cost. */
  lemma BalanceIsNearAverage(nodes: seq<string>, workers: int, h: History, largest: real, w: nat)
    requires Balanced(nodes, workers, h).Ok? && w < workers
    requires forall n :: n in nodes ==> h.Cost(n) <= largest
    ensures G.WithinListBound(workers, Balanced(nodes, workers, h).value.assignments[w].predictedSeconds,
                              SumOf(CostOf(h), nodes), largest)
  {
    var ranked, costs := Ranked(h, nodes), RankedCosts(h, nodes);
    RankedCostsDescend(h, nodes);
    SortPermutes(RankOrder(h), nodes);
    forall i | 0 <= i < |costs| ensures costs[i] <= largest {
      assert ranked[i] in multiset(ranked);
    }
    CostPositive(h, nodes[0]);
    TotalIsSum(CostOf(h), ranked);
    SumPermutes(CostOf(h), ranked, nodes);
    G.ListSchedulingBound(costs, workers, largest, w);
  }
}
