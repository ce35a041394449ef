/** The lifecycle comparison's own copy of the longest-first rule, and its agreement with `balance`. */
module CriticalPath {
  import opened Common
  import opened Ordering
  import opened Shares
  import opened Scheduler
  import G = Greedy

  type Timing = (string, real)

  function Clamp(seconds: real): real {
    if seconds > 0.0 then seconds else 0.0
  }

  function Seconds(t: Timing): real { Clamp(t.1) }

  function Name(t: Timing): string { t.0 }

  /** Descending duration, then ascending node ID. */
  predicate TimingLe(a: Timing, b: Timing) {
    Seconds(a) > Seconds(b) || (Seconds(a) == Seconds(b) && StringLe(a.0, b.0))
  }

  function SerialCriticalPath(durations: seq<Timing>): real {
    SumOf(Seconds, durations)
  }

  function MaxOf(loads: seq<real>): (max: real)
    requires loads != []
    ensures max in loads && forall x :: x in loads ==> x <= max
  {
    var n := |loads| - 1;
    if n == 0 then loads[0]
    else
      var rest := MaxOf(loads[..n]);
      assert loads == loads[..n] + [loads[n]];
      if loads[n] > rest then loads[n] else rest
  }

  datatype Refused = NonPositiveWorkers(workers: int)

  function Ordered(durations: seq<Timing>): seq<Timing> {
    Sort(TimingLe, durations)
  }

  function OrderedSeconds(durations: seq<Timing>): seq<real> {
    Map(Seconds, Ordered(durations))
  }

  function Placement(durations: seq<Timing>, workers: nat): (g: seq<nat>)
    requires workers > 0
    ensures |g| == |Ordered(durations)| && forall i :: 0 <= i < |g| ==> g[i] < workers
  {
    G.Place(OrderedSeconds(durations), workers)
  }

  function Balanced(durations: seq<Timing>, workers: int): Result<real, Refused> {
    if workers < 1 then Err(NonPositiveWorkers(workers))
    else if durations == [] then Ok(0.0)
    else if workers == 1 then Ok(SerialCriticalPath(durations))
    else Ok(MaxOf(G.Loads(OrderedSeconds(durations), Placement(durations, workers), workers)))
  }

  function Plan(durations: seq<Timing>, workers: int): Result<seq<seq<string>>, Refused> {
    if workers < 1 then Err(NonPositiveWorkers(workers))
    else Ok(Buckets(Map(Name, Ordered(durations)), Placement(durations, workers), workers))
  }

  method BalancedCriticalPath(durations: seq<Timing>, workers: int) returns (r: Result<real, Refused>)
    ensures r == Balanced(durations, workers)
  {
    if workers < 1 {
      return Err(NonPositiveWorkers(workers));
    }
    if durations == [] {
      return Ok(0.0);
    }
    if workers == 1 {
      return Ok(SerialCriticalPath(durations));
    }
    var ordered, costs := Ordered(durations), OrderedSeconds(durations);
    ghost var plan: seq<seq<Timing>> := seq(workers, _ => []);
    var bins := seq(workers, _ => 0.0);
    var i := 0;
    while i < |ordered|
      invariant 0 <= i <= |ordered|
      invariant Dealt(ordered, costs, workers, i, bins, plan)
    {
      var target := G.LeastLoaded(bins);
      DealOne(ordered, costs, workers, i, bins, plan, target);
      plan := plan[target := plan[target] + [ordered[i]]];
      bins := bins[target := bins[target] + costs[i]];
      i := i + 1;
    }
    assert costs[..i] == costs;
    return Ok(MaxOf(bins));
  }

  method Assignments(durations: seq<Timing>, workers: int) returns (r: Result<seq<seq<string>>, Refused>)
    ensures r == Plan(durations, workers)
  {
    if workers < 1 {
      return Err(NonPositiveWorkers(workers));
    }
    var names, costs := Map(Name, Ordered(durations)), OrderedSeconds(durations);
    var bins := seq(workers, _ => 0.0);
    var plan: seq<seq<string>> := seq(workers, _ => []);
    var i := 0;
    while i < |names|
      invariant 0 <= i <= |names|
      invariant Dealt(names, costs, workers, i, bins, plan)
    {
      var target := G.LeastLoaded(bins);
      DealOne(names, costs, workers, i, bins, plan, target);
      bins := bins[target := bins[target] + costs[i]];
      plan := plan[target := plan[target] + [names[i]]];
      i := i + 1;
    }
    assert costs[..i] == costs && names[..i] == names;
    return Ok(plan);
  }

  // --- the two copies agree ---

  /** Every duration is positive and is exactly what the history predicts for its node. */
  ghost predicate Predicted(durations: seq<Timing>, h: History) {
    forall i :: 0 <= i < |durations| ==> durations[i].1 > 0.0 && h.Cost(durations[i].0) == durations[i].1
  }

  lemma SameCosts(s: seq<Timing>, h: History)
    requires Predicted(s, h)
    ensures Map(Seconds, s) == Map(CostOf(h), Map(Name, s))
  {
    forall i | 0 <= i < |s| ensures Map(Seconds, s)[i] == Map(CostOf(h), Map(Name, s))[i] {
      assert Map(Name, s)[i] == Name(s[i]) == s[i].0;
      assert Map(Seconds, s)[i] == Seconds(s[i]);
    }
  }

  lemma SameOrder(durations: seq<Timing>, h: History)
    requires Predicted(durations, h)
    ensures Map(Name, Ordered(durations)) == Ranked(h, Map(Name, durations))
    ensures OrderedSeconds(durations) == RankedCosts(h, Map(Name, durations))
  {
    SortMaps(Name, TimingLe, RankOrder(h), durations);
    SortPermutes(TimingLe, durations);
    var ordered := Ordered(durations);
    forall i | 0 <= i < |ordered| ensures ordered[i].1 > 0.0 && h.Cost(ordered[i].0) == ordered[i].1 {
      assert ordered[i] in multiset(ordered);
      assert ordered[i] in durations;
    }
    SameCosts(ordered, h);
  }

  function Predictions(s: Schedule): (p: seq<real>)
    ensures |p| == |s.assignments|
  {
    Map((a: Assignment) => a.predictedSeconds, s.assignments)
  }

  /** What each worker carries under `assignments`. */
  function WorkerLoads(durations: seq<Timing>, workers: nat): (loads: seq<real>)
    requires workers > 0
    ensures |loads| == workers
  {
    G.Loads(OrderedSeconds(durations), Placement(durations, workers), workers)
  }

  /**
   * On a duplicate-free cohort whose positive durations are what the history predicts, the two
   * implementations deal the same shares, and the slowest predicted worker is the balanced
   * critical path, whether or not the one-worker shortcut is taken.
   */
  lemma BalanceRefinesAssignments(durations: seq<Timing>, workers: int, h: History)
    requires Predicted(durations, h)
    requires Scheduler.Balanced(Map(Name, durations), workers, h).Ok?
    ensures var s := Scheduler.Balanced(Map(Name, durations), workers, h).value;
            && Plan(durations, workers).Ok? && Balanced(durations, workers).Ok?
            && |s.assignments| == workers == |Plan(durations, workers).value|
            && (forall w :: 0 <= w < workers ==>
                  s.assignments[w].nodes == Sort(StringLe, Plan(durations, workers).value[w]))
            && Predictions(s) == WorkerLoads(durations, workers)
            && Balanced(durations, workers).value == MaxOf(Predictions(s))
  {
    var s := Scheduler.Balanced(Map(Name, durations), workers, h).value;
    SameOrder(durations, h);
    assert Predictions(s) == WorkerLoads(durations, workers);
    BalancedIsLargest(durations, workers);
  }

  /**
   * Without the hypothesis they part: a node recorded at zero seconds is free to the lifecycle
   * comparison but costs the fallback to the scheduler.
   */
  lemma ZeroDurationDiverges()
    ensures var h, durations := History([("a", 0.0)]), [("a", 0.0)];
            && Balanced(durations, 1) == Ok(0.0)
            && Scheduler.Balanced(Map(Name, durations), 1, h).Ok?
            && Scheduler.Balanced(Map(Name, durations), 1, h).value.assignments[0].predictedSeconds == 1.0
  {
    var h, nodes := History([("a", 0.0)]), ["a"];
    assert Map(Name, [("a", 0.0)])[0] == "a";
    assert Map(Name, [("a", 0.0)]) == nodes;
    assert SumOf(Seconds, [("a", 0.0)][..0]) == 0.0;
    assert h.Cost("a") == 1.0;
    assert Duplicates(nodes) == {};
    assert Ranked(h, nodes) == nodes by {
      SortFixes(RankOrder(h), nodes);
    }
    var costs := RankedCosts(h, nodes);
    assert costs == [1.0];
    assert G.Place(costs, 1)[..0] == [] && costs[..0] == [];
    assert G.Load(costs, G.Place(costs, 1), 0) == 1.0;
  }

  /** Every worker gets the same share and the same load from both copies. */
  predicate CopiesAgree(durations: seq<Timing>, workers: int, h: History)
    requires workers >= 1 && Scheduler.Balanced(Map(Name, durations), workers, h).Ok?
  {
    var s := Scheduler.Balanced(Map(Name, durations), workers, h).value;
    && Predictions(s) == WorkerLoads(durations, workers)
    && |Plan(durations, workers).value| == workers
    && forall w :: 0 <= w < workers ==> s.assignments[w].nodes == Sort(StringLe, Plan(durations, workers).value[w])
  }

  predicate AllPositive(durations: seq<Timing>) {
    forall i :: 0 <= i < |durations| ==> durations[i].1 > 0.0
  }

  /** A recorded node costs what is recorded, unless that is not positive: then it costs more. */
  lemma RecordedCost(h: History, i: nat)
    requires h.Valid() && i < |h.durations|
    ensures h.durations[i].1 > 0.0 ==> h.Cost(h.durations[i].0) == h.durations[i].1
    ensures h.durations[i].1 <= 0.0 ==> h.Cost(h.durations[i].0) > Seconds(h.durations[i])
  {
    var (node, x) := h.durations[i];
    assert (node, x) in h.durations;
    RecordedIs(h.durations, node);
    CostPositive(h, node);
  }

  lemma {:induction false} CostsExceed(h: History, s: seq<Timing>)
    requires forall i :: 0 <= i < |s| ==>
               h.Cost(s[i].0) >= Seconds(s[i]) && (s[i].1 <= 0.0 ==> h.Cost(s[i].0) > Seconds(s[i]))
    ensures SumOf(CostOf(h), Map(Name, s)) >= SumOf(Seconds, s)
    ensures !AllPositive(s) ==> SumOf(CostOf(h), Map(Name, s)) > SumOf(Seconds, s)
  {
    if s != [] {
      var n := |s| - 1;
      CostsExceed(h, s[..n]);
      assert Map(Name, s)[..n] == Map(Name, s[..n]) && Map(Name, s)[n] == s[n].0;
    }
  }

  lemma {:induction false} SumLoadsSame(p: seq<real>, f: seq<nat>, q: seq<real>, g: seq<nat>, workers: nat)
    requires |f| == |p| && |g| == |q| && forall w :: 0 <= w < workers ==> G.Load(p, f, w) == G.Load(q, g, w)
    ensures G.SumLoads(p, f, workers) == G.SumLoads(q, g, workers)
  {
    if workers > 0 {
      SumLoadsSame(p, f, q, g, workers - 1);
    }
  }

  /** Equal loads mean equal total costs. */
  lemma AgreeingTotals(durations: seq<Timing>, workers: int, h: History)
    requires workers >= 1 && Scheduler.Balanced(Map(Name, durations), workers, h).Ok?
    requires Predictions(Scheduler.Balanced(Map(Name, durations), workers, h).value) == WorkerLoads(durations, workers)
    ensures SumOf(CostOf(h), Map(Name, durations)) == SumOf(Seconds, durations)
  {
    var nodes := Map(Name, durations);
    var s := Scheduler.Balanced(nodes, workers, h).value;
    var costs, seconds := RankedCosts(h, nodes), OrderedSeconds(durations);
    var g := G.Place(costs, workers);
    forall w | 0 <= w < workers ensures G.Load(costs, g, w) == G.Load(seconds, Placement(durations, workers), w) {
      assert Predictions(s)[w] == s.assignments[w].predictedSeconds == G.Load(costs, g, w);
      assert WorkerLoads(durations, workers)[w] == G.Load(seconds, Placement(durations, workers), w);
    }
    SumLoadsSame(costs, g, seconds, Placement(durations, workers), workers);
    G.LoadsConserve(costs, g, workers);
    G.LoadsConserve(seconds, Placement(durations, workers), workers);
    TotalIsSum(CostOf(h), Ranked(h, nodes));
    TotalIsSum(Seconds, Ordered(durations));
    SortPermutes(RankOrder(h), nodes);
    SortPermutes(TimingLe, durations);
    SumPermutes(CostOf(h), Ranked(h, nodes), nodes);
    SumPermutes(Seconds, Ordered(durations), durations);
  }

  /**
   * When the history is the durations themselves, the two copies give every worker the same share and
   * the same load exactly when every recorded duration is positive.
   */
  lemma CopiesAgreeExactly(durations: seq<Timing>, workers: int)
    requires History(durations).Valid() && workers >= 1
    requires Scheduler.Balanced(Map(Name, durations), workers, History(durations)).Ok?
    ensures CopiesAgree(durations, workers, History(durations)) <==> AllPositive(durations)
  {
    var h := History(durations);
    forall i | 0 <= i < |durations|
      ensures durations[i].1 > 0.0 ==> h.Cost(durations[i].0) == durations[i].1
      ensures durations[i].1 <= 0.0 ==> h.Cost(durations[i].0) > Seconds(durations[i])
    {
      RecordedCost(h, i);
    }
    if AllPositive(durations) {
      BalanceRefinesAssignments(durations, workers, h);
    }
    if CopiesAgree(durations, workers, h) {
      AgreeingTotals(durations, workers, h);
      CostsExceed(h, durations);
    }
  }

  lemma OrderedDescends(durations: seq<Timing>)
    ensures G.Descending(OrderedSeconds(durations)) && G.NonNegative(OrderedSeconds(durations))
  {
    var ordered, costs := Ordered(durations), OrderedSeconds(durations);
    TimingOrder();
    SortSorts(TimingLe, durations);
    forall i | 0 <= i < |costs| ensures costs[i] >= 0.0 {
      assert costs[i] == Seconds(ordered[i]);
    }
    forall i, j | 0 <= i < j < |costs| ensures costs[i] >= costs[j] {
      assert TimingLe(ordered[i], ordered[j]);
      assert costs[i] == Seconds(ordered[i]) && costs[j] == Seconds(ordered[j]);
    }
  }

  lemma TimingOrder()
    ensures TotalPreorder(TimingLe)
  {
    StringOrder();
    forall a, b, c | TimingLe(a, b) && TimingLe(b, c) ensures TimingLe(a, c) {
      if StringLe(a.0, b.0) && StringLe(b.0, c.0) {
        StringLeTransitive(a.0, b.0, c.0);
      }
    }
  }

  // --- the bound, against every assignment of the positions ---

  /** A timing and the worker some assignment sends it to. */
  type Placed = (Timing, nat)

  function TimingOf(p: Placed): Timing { p.0 }

  function TargetOf(p: Placed): nat { p.1 }

  function PlacedSeconds(p: Placed): real { Seconds(p.0) }

  predicate PlacedLe(a: Placed, b: Placed) {
    TimingLe(a.0, b.0)
  }

  function Zip(durations: seq<Timing>, f: seq<nat>): seq<Placed>
    requires |f| == |durations|
  {
    seq(|durations|, i requires 0 <= i < |durations| => (durations[i], f[i]))
  }

  /** An assignment carries over to the sorted timings: every worker keeps its load. */
  lemma AssignmentSorts(durations: seq<Timing>, f: seq<nat>, workers: nat, t: real) returns (sorted: seq<nat>)
    requires G.Assigns(Map(Seconds, durations), f, workers) && G.UnderCeiling(Map(Seconds, durations), f, workers, t)
    ensures G.Assigns(OrderedSeconds(durations), sorted, workers) && G.UnderCeiling(OrderedSeconds(durations), sorted, workers, t)
  {
    var placed := Zip(durations, f);
    var ordered := Sort(PlacedLe, placed);
    sorted := Map(TargetOf, ordered);
    SortMaps(TimingOf, PlacedLe, TimingLe, placed);
    SortPermutes(PlacedLe, placed);
    assert Map(TimingOf, placed) == durations && Map(TargetOf, placed) == f && Map(PlacedSeconds, placed) == Map(Seconds, durations);
    assert Map(PlacedSeconds, ordered) == OrderedSeconds(durations) by {
      assert Map(TimingOf, ordered) == Ordered(durations);
    }
    forall i | 0 <= i < |sorted| ensures sorted[i] < workers {
      assert ordered[i] in multiset(placed);
      var k :| 0 <= k < |placed| && placed[k] == ordered[i];
    }
    forall w | 0 <= w < workers ensures G.Load(OrderedSeconds(durations), sorted, w) <= t {
      PortionIsLoad(PlacedSeconds, TargetOf, ordered, w);
      PortionIsLoad(PlacedSeconds, TargetOf, placed, w);
      SumPermutes(Portion(PlacedSeconds, TargetOf, w), ordered, placed);
    }
  }

  /** The balanced critical path is the largest of the workers' loads, one worker included. */
  lemma BalancedIsLargest(durations: seq<Timing>, workers: int)
    requires workers >= 1 && durations != []
    ensures Balanced(durations, workers) == Ok(MaxOf(WorkerLoads(durations, workers)))
  {
    if workers == 1 {
      var costs, loads := OrderedSeconds(durations), WorkerLoads(durations, 1);
      G.LoadsConserve(costs, G.Place(costs, 1), 1);
      assert G.SumLoads(costs, G.Place(costs, 1), 1) == G.SumLoads(costs, G.Place(costs, 1), 0) + loads[0];
      TotalIsSum(Seconds, Ordered(durations));
      SortPermutes(TimingLe, durations);
      SumPermutes(Seconds, Ordered(durations), durations);
      assert loads == [loads[0]];
    }
  }

  /**
   * The critical path is near-optimal: it is within 4/3 - 1/(3 * workers) of the ceiling of any other
   * assignment `f` of the timings, equal timings sent to different workers included.
   */
  lemma CriticalPathIsNearOptimal(durations: seq<Timing>, workers: int, f: seq<nat>, t: real)
    requires workers >= 1 && durations != []
    requires G.Assigns(Map(Seconds, durations), f, workers) && G.UnderCeiling(Map(Seconds, durations), f, workers, t)
    ensures G.WithinGraham(workers, Balanced(durations, workers).value, t)
  {
    var costs, loads := OrderedSeconds(durations), WorkerLoads(durations, workers);
    var sorted := AssignmentSorts(durations, f, workers, t);
    OrderedDescends(durations);
    BalancedIsLargest(durations, workers);
    var w :| 0 <= w < workers && loads[w] == MaxOf(loads);
    G.LongestFirstBound(costs, sorted, workers, t, w);
  }
}
