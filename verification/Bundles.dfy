/**
 * Bundles: a comparison written with its timings rounded and its verdict spelled out, and read back
 * from the raw runs alone.
 */
module Bundles {
  import opened Common
  import opened Ordering
  import opened Sequences
  import opened Shares
  import opened CriticalPath
  import opened Comparison
  import opened Stability
  import D = Delta
  import G = Greedy

  /** `round(x, 4)` and `round(x, 2)`: what is rounded already stays. */
  datatype Rounding = Rounding(four: real -> real, two: real -> real) {
    ghost predicate Idempotent() {
      forall x :: four(four(x)) == four(x) && two(two(x)) == two(x)
    }
  }

  /** `ceiling` is None for the infinite default. */
  datatype Gates = Gates(floor: real, ceiling: Option<real>, requiredRuns: int)

  datatype Reason = BelowFloor | AboveCeiling

  datatype Figures = Figures(best: real, worst: real) {
    function Reduction(): real {
      best - worst
    }
  }

  datatype Compared = Compared(
    before: seq<Run>,
    after: seq<Run>,
    beforeCommit: string,
    afterCommit: string,
    cohortDigest: string,
    gates: Gates,
    notes: seq<string>)

  /** A run in a bundle has the fields of a run. */
  datatype Bundle = Bundle(
    beforeCommit: string,
    afterCommit: string,
    cohortDigest: string,
    gates: Gates,
    best: real,
    worst: real,
    reduction: real,
    outcome: Outcome,
    reasons: seq<Reason>,
    runs: seq<Run>,
    notes: seq<string>,
    checksum: string)

  /** What the checksum covers: never the verdict. */
  datatype Raw = Raw(beforeCommit: string, afterCommit: string, cohortDigest: string, runs: seq<Run>)

  datatype Failure = NoFigures | BadSide(side: string)

  // --- the verdict ---

  function CriticalPaths(runs: seq<Run>): Option<seq<real>> {
    if runs == [] then Some([])
    else
      match (runs[0].CriticalPathSeconds(), CriticalPaths(runs[1..]))
      case (Ok(x), Some(later)) => Some([x] + later)
      case (_, _) => None
  }

  function MinOf(loads: seq<real>): (min: real)
    requires loads != []
    ensures min in loads && forall x :: x in loads ==> min <= x
  {
    var n := |loads| - 1;
    if n == 0 then loads[0]
    else
      var rest := MinOf(loads[..n]);
      assert loads == loads[..n] + [loads[n]];
      if loads[n] < rest then loads[n] else rest
  }

  /** None when a side is empty or a run's worker count is not positive. */
  function FiguresOf(c: Compared): Option<Figures> {
    match (CriticalPaths(c.before), CriticalPaths(c.after))
    case (Some(b), Some(a)) => if b == [] || a == [] then None else Some(Figures(MinOf(b), MaxOf(a)))
    case (_, _) => None
  }

  function OutcomeOf(f: Figures, gates: Gates): Outcome {
    if f.Reduction() >= gates.floor && (gates.ceiling.Some? ==> f.worst <= gates.ceiling.value) then Retained else Reverted
  }

  function ReasonsOf(f: Figures, gates: Gates): seq<Reason> {
    (if f.Reduction() < gates.floor then [BelowFloor] else [])
      + if gates.ceiling.Some? && f.worst > gates.ceiling.value then [AboveCeiling] else []
  }

  /** A reverted outcome always has a reason, a retained one never. */
  lemma RevertedForAReason(f: Figures, gates: Gates)
    ensures OutcomeOf(f, gates).Reverted? <==> ReasonsOf(f, gates) != []
  {
  }

  /**
   * Numbers and delta together: the label the numbers license passes the check on the source delta
   * exactly when a cleared change touches something in scope and nothing beyond it, and a refused one
   * touches nothing but the measurement.
   */
  lemma LicensedLabelPasses(f: Figures, gates: Gates, scope: seq<string>, entries: seq<D.DeltaEntry>,
                            c: D.Classification)
    requires D.Classifies(scope, entries, c)
    ensures var cleared := f.Reduction() >= gates.floor && (gates.ceiling.Some? ==> f.worst <= gates.ceiling.value);
            D.Consistent(OutcomeOf(f, gates), c) <==>
              if cleared then
                && (forall i :: 0 <= i < |entries| ==> !D.CategoryOf(scope, entries[i].path).OutOfScope?)
                && (exists i :: 0 <= i < |entries| && entries[i].path !in D.MEASUREMENT_ONLY_PATHS)
              else forall i :: 0 <= i < |entries| ==> entries[i].path in D.MEASUREMENT_ONLY_PATHS
  {
    D.LabelPassesExactly(scope, entries, c);
  }

  // --- writing and reading ---

  function WriteTiming(r: Rounding, t: ModuleTiming): ModuleTiming {
    ModuleTiming(t.path, r.four(t.setup), r.four(t.call), r.four(t.teardown))
  }

  predicate ModuleLe(a: ModuleTiming, b: ModuleTiming) {
    StringLe(a.path, b.path)
  }

  function WriteRun(r: Rounding, run: Run): Run {
    run.(timings := Map(t => WriteTiming(r, t), Sort(ModuleLe, run.timings)),
         wall := r.four(run.wall),
         loadBefore := r.two(run.loadBefore),
         loadAfter := r.two(run.loadAfter))
  }

  function WriteRuns(r: Rounding, runs: seq<Run>): (written: seq<Run>)
    ensures |written| == |runs| && forall i :: 0 <= i < |runs| ==> written[i] == WriteRun(r, runs[i])
  {
    Map(run => WriteRun(r, run), runs)
  }

  function Checksum(hash: Raw -> string, r: Rounding, c: Compared): string {
    hash(Raw(c.beforeCommit, c.afterCommit, c.cohortDigest, WriteRuns(r, c.before + c.after)))
  }

  function WriteBundle(hash: Raw -> string, r: Rounding, c: Compared): Result<Bundle, Failure> {
    match FiguresOf(c)
    case None => Err(NoFigures)
    case Some(f) =>
      Ok(Bundle(c.beforeCommit, c.afterCommit, c.cohortDigest, c.gates,
                r.four(f.best), r.four(f.worst), r.four(f.Reduction()), OutcomeOf(f, c.gates), ReasonsOf(f, c.gates),
                WriteRuns(r, c.before + c.after), c.notes, Checksum(hash, r, c)))
  }

  /** The rebuilt comparison and the recorded checksum. */
  function LoadBundle(b: Bundle): Result<(Compared, string), Failure> {
    if i :| 0 <= i < |b.runs| && !OnASide(b.runs[i]) && forall j :: 0 <= j < i ==> OnASide(b.runs[j])
      then Err(BadSide(b.runs[i].side))
    else Ok((Compared(Side(b.runs, BEFORE), Side(b.runs, AFTER), b.beforeCommit, b.afterCommit,
                      b.cohortDigest, b.gates, b.notes), b.checksum))
  }

  /** The shape validation leaves: each side's runs, by ascending index. */
  ghost predicate Settled(c: Compared) {
    && (forall i :: 0 <= i < |c.before| ==> c.before[i].side == BEFORE)
    && (forall i :: 0 <= i < |c.after| ==> c.after[i].side == AFTER)
    && SortedBy(IndexLe, c.before) && SortedBy(IndexLe, c.after)
  }

  /** What validation returns is settled. */
  lemma ValidatedIsSettled(runs: seq<Run>, c: Compared)
    requires c.before == Side(runs, BEFORE) && c.after == Side(runs, AFTER)
    ensures Settled(c)
  {
    SortSorts(IndexLe, OfSide(runs, BEFORE));
    SortSorts(IndexLe, OfSide(runs, AFTER));
    forall i | 0 <= i < |c.before| ensures c.before[i].side == BEFORE {
      SideMembers(runs, BEFORE, c.before[i]);
    }
    forall i | 0 <= i < |c.after| ensures c.after[i].side == AFTER {
      SideMembers(runs, AFTER, c.after[i]);
    }
  }

  // --- the round trip ---

  /** The comparison with every run as a bundle holds it. */
  function Rounded(r: Rounding, c: Compared): Compared {
    c.(before := WriteRuns(r, c.before), after := WriteRuns(r, c.after))
  }

  lemma ModuleOrder()
    ensures TotalPreorder(ModuleLe)
  {
    StringOrder();
  }

  lemma WriteRunTwice(r: Rounding, run: Run)
    requires r.Idempotent()
    ensures WriteRun(r, WriteRun(r, run)) == WriteRun(r, run)
  {
    var sorted := Sort(ModuleLe, run.timings);
    var once := Map(t => WriteTiming(r, t), sorted);
    ModuleOrder();
    SortSorts(ModuleLe, run.timings);
    assert SortedBy(ModuleLe, once);
    SortFixes(ModuleLe, once);
    assert Map(t => WriteTiming(r, t), once) == once;
  }

  lemma WriteRunsTwice(r: Rounding, runs: seq<Run>)
    requires r.Idempotent()
    ensures WriteRuns(r, WriteRuns(r, runs)) == WriteRuns(r, runs)
  {
    forall i | 0 <= i < |runs| ensures WriteRun(r, WriteRun(r, runs[i])) == WriteRun(r, runs[i]) {
      WriteRunTwice(r, runs[i]);
    }
  }

  lemma WriteRunsConcat(r: Rounding, a: seq<Run>, b: seq<Run>)
    ensures WriteRuns(r, a + b) == WriteRuns(r, a) + WriteRuns(r, b)
  {
  }

  lemma RoundedIsSettled(r: Rounding, c: Compared)
    requires Settled(c)
    ensures Settled(Rounded(r, c))
  {
  }

  lemma OfSideAll(runs: seq<Run>, other: seq<Run>, side: string)
    requires forall i :: 0 <= i < |runs| ==> runs[i].side == side
    requires forall i :: 0 <= i < |other| ==> other[i].side != side
    ensures OfSide(runs + other, side) == runs && OfSide(other + runs, side) == runs
  {
    OfSideConcat(runs, other, side);
    OfSideConcat(other, runs, side);
    OfSideSame(runs, side);
    OfSideNone(other, side);
  }

  lemma {:induction false} OfSideSame(runs: seq<Run>, side: string)
    requires forall i :: 0 <= i < |runs| ==> runs[i].side == side
    ensures OfSide(runs, side) == runs
  {
    if runs != [] {
      OfSideSame(runs[1..], side);
      HeadAndTail(runs);
    }
  }

  lemma {:induction false} OfSideNone(runs: seq<Run>, side: string)
    requires forall i :: 0 <= i < |runs| ==> runs[i].side != side
    ensures OfSide(runs, side) == []
  {
    if runs != [] {
      OfSideNone(runs[1..], side);
    }
  }

  lemma {:induction false} OfSideConcat(a: seq<Run>, b: seq<Run>, side: string)
    ensures OfSide(a + b, side) == OfSide(a, side) + OfSide(b, side)
  {
    if a == [] {
      assert a + b == b;
    } else {
      OfSideConcat(a[1..], b, side);
      TailOfConcat(a, b);
      if a[0].side == side {
        Associate([a[0]], OfSide(a[1..], side), OfSide(b, side));
      }
    }
  }

  /** Splitting the written runs gives the sides back. */
  lemma SidesComeBack(c: Compared)
    requires Settled(c)
    ensures Side(c.before + c.after, BEFORE) == c.before && Side(c.before + c.after, AFTER) == c.after
    ensures forall i :: 0 <= i < |c.before + c.after| ==> OnASide((c.before + c.after)[i])
  {
    assert BEFORE[0] != AFTER[0];
    OfSideAll(c.before, c.after, BEFORE);
    OfSideAll(c.after, c.before, AFTER);
    SortFixes(IndexLe, c.before);
    SortFixes(IndexLe, c.after);
  }

  /**
   * Writing and reading back gives the comparison with its runs rounded, and the recorded checksum is
   * both the one of the comparison written and the one of the comparison read.
   */
  lemma LoadOfWritten(hash: Raw -> string, r: Rounding, c: Compared)
    requires r.Idempotent() && Settled(c) && WriteBundle(hash, r, c).Ok?
    ensures LoadBundle(WriteBundle(hash, r, c).value) == Ok((Rounded(r, c), Checksum(hash, r, c)))
    ensures Checksum(hash, r, Rounded(r, c)) == Checksum(hash, r, c)
  {
    WriteRunsConcat(r, c.before, c.after);
    RoundedIsSettled(r, c);
    SidesComeBack(Rounded(r, c));
    WriteRunsConcat(r, Rounded(r, c).before, Rounded(r, c).after);
    WriteRunsTwice(r, c.before);
    WriteRunsTwice(r, c.after);
  }

  lemma {:induction false} PathsDefined(runs: seq<Run>)
    ensures CriticalPaths(runs).Some? <==> forall i :: 0 <= i < |runs| ==> runs[i].CriticalPathSeconds().Ok?
    ensures CriticalPaths(runs).Some? ==> |CriticalPaths(runs).value| == |runs|
  {
    if runs != [] {
      PathsDefined(runs[1..]);
      HeadAndTail(runs);
    }
  }

  lemma PathsStayDefined(r: Rounding, runs: seq<Run>)
    ensures CriticalPaths(WriteRuns(r, runs)).Some? <==> CriticalPaths(runs).Some?
    ensures CriticalPaths(runs).Some? ==> |CriticalPaths(runs).value| == |runs|
    ensures CriticalPaths(WriteRuns(r, runs)).Some? ==> |CriticalPaths(WriteRuns(r, runs)).value| == |runs|
  {
    PathsDefined(runs);
    PathsDefined(WriteRuns(r, runs));
    forall i | 0 <= i < |runs|
      ensures WriteRuns(r, runs)[i].CriticalPathSeconds().Ok? <==> runs[i].CriticalPathSeconds().Ok?
    {
      PathStaysDefined(r, runs[i]);
    }
  }

  lemma PathStaysDefined(r: Rounding, run: Run)
    ensures WriteRun(r, run).CriticalPathSeconds().Ok? <==> run.CriticalPathSeconds().Ok?
  {
  }

  /** The comparison read is a fixed point: writing and reading it again changes nothing, checksum included. */
  lemma LoadedIsFixedPoint(hash: Raw -> string, r: Rounding, c: Compared)
    requires r.Idempotent() && Settled(c) && WriteBundle(hash, r, c).Ok?
    ensures var loaded := LoadBundle(WriteBundle(hash, r, c).value).value;
            && WriteBundle(hash, r, loaded.0).Ok?
            && LoadBundle(WriteBundle(hash, r, loaded.0).value) == Ok(loaded)
  {
    LoadOfWritten(hash, r, c);
    RoundedIsSettled(r, c);
    PathsStayDefined(r, c.before);
    PathsStayDefined(r, c.after);
    LoadOfWritten(hash, r, Rounded(r, c));
    WriteRunsTwice(r, c.before);
    WriteRunsTwice(r, c.after);
  }

  // --- what rounding can do to the verdict ---

  /** The outcome is read off unrounded figures when written and off rounded runs when read: it can change. */
  lemma OutcomeCanFlip(r: Rounding, p: Provenance)
    requires r.four(1.99996) == 2.0 && r.four(1.0) == 1.0 && r.four(0.0) == 0.0 && p.workerTopology == 1
    ensures var c := Compared([Run(BEFORE, "a", 1, p, [ModuleTiming("m", 1.99996, 0.0, 0.0)], 2.0, 0.0, 0.0)],
                              [Run(AFTER, "b", 1, p, [ModuleTiming("m", 1.0, 0.0, 0.0)], 1.0, 0.0, 0.0)],
                              "a", "b", "d", Gates(1.0, None, 1), []);
            && FiguresOf(c).Some? && OutcomeOf(FiguresOf(c).value, c.gates) == Reverted
            && FiguresOf(Rounded(r, c)).Some? && OutcomeOf(FiguresOf(Rounded(r, c)).value, c.gates) == Retained
  {
    OneModuleRun(r, Run(BEFORE, "a", 1, p, [ModuleTiming("m", 1.99996, 0.0, 0.0)], 2.0, 0.0, 0.0));
    OneModuleRun(r, Run(AFTER, "b", 1, p, [ModuleTiming("m", 1.0, 0.0, 0.0)], 1.0, 0.0, 0.0));
  }

  lemma OneModuleRun(r: Rounding, run: Run)
    requires |run.timings| == 1 && run.provenance.workerTopology == 1
    ensures CriticalPaths([run]) == Some([Clamp(run.timings[0].Total())])
    ensures CriticalPaths(WriteRuns(r, [run])) == Some([Clamp(WriteTiming(r, run.timings[0]).Total())])
  {
    var t := run.timings[0];
    assert run.timings == [t] && Sort(ModuleLe, [t]) == [t];
    OneDuration(run, t);
    OneDuration(WriteRun(r, run), WriteTiming(r, t));
    assert WriteRuns(r, [run]) == [WriteRun(r, run)];
  }

  lemma OneDuration(run: Run, t: ModuleTiming)
    requires run.timings == [t] && run.provenance.workerTopology == 1
    ensures CriticalPaths([run]) == Some([Clamp(t.Total())])
  {
    assert run.Durations() == [DurationOf(t)];
    assert SumOf(Seconds, [DurationOf(t)]) == Seconds(DurationOf(t));
    assert run.CriticalPathSeconds() == Ok(Clamp(t.Total()));
    assert [run][1..] == [] && CriticalPaths([run][1..]) == Some([]);
    assert [Clamp(t.Total())] + [] == [Clamp(t.Total())];
  }

  /** No figure is rounded by more than `eps`. */
  ghost predicate RoundsWithin(r: Rounding, eps: real) {
    eps >= 0.0 && forall x :: x - eps <= r.four(x) <= x + eps
  }

  /** What rounding can do to a run of `n` modules: three figures each. */
  function Slack(eps: real, n: nat): real {
    Drift(3.0 * eps, n)
  }

  lemma TimingIsNear(r: Rounding, eps: real, t: ModuleTiming)
    requires RoundsWithin(r, eps)
    ensures Near(Seconds(DurationOf(t)), Seconds(DurationOf(WriteTiming(r, t))), 3.0 * eps)
  {
  }

  /** The costs handed out are the seconds of the durations, largest first, however the durations stand. */
  lemma OrderedSecondsAre(durations: seq<Timing>, other: seq<Timing>)
    requires multiset(durations) == multiset(other)
    ensures OrderedSeconds(durations) == Sort(RealGe, Map(Seconds, other))
  {
    SortPermutes(TimingLe, durations);
    MapMultiset(Seconds, Ordered(durations), other);
    OrderedDescends(durations);
    DescendingIsSorted(OrderedSeconds(durations), Map(Seconds, other));
  }

  lemma CostsAreNear(r: Rounding, eps: real, run: Run)
    requires RoundsWithin(r, eps)
    ensures Close(OrderedSeconds(run.Durations()), OrderedSeconds(WriteRun(r, run).Durations()), 3.0 * eps)
    ensures |OrderedSeconds(run.Durations())| == |run.timings|
  {
    var sorted := Sort(ModuleLe, run.timings);
    var written := Map(t => WriteTiming(r, t), sorted);
    SortPermutes(ModuleLe, run.timings);
    MapMultiset(DurationOf, run.timings, sorted);
    OrderedSecondsAre(run.Durations(), Map(DurationOf, sorted));
    OrderedSecondsAre(WriteRun(r, run).Durations(), Map(DurationOf, written));
    var before, after := Map(Seconds, Map(DurationOf, sorted)), Map(Seconds, Map(DurationOf, written));
    forall i | 0 <= i < |sorted| ensures Near(before[i], after[i], 3.0 * eps) {
      TimingIsNear(r, eps, sorted[i]);
    }
    SortNear(before, after, 3.0 * eps);
    SortPermutes(RealGe, before);
  }

  lemma LargestIsNear(p: seq<real>, q: seq<real>, workers: nat, d: real)
    requires workers > 0 && d >= 0.0 && Close(p, q, d)
    ensures Near(MaxOf(G.Loads(p, G.Place(p, workers), workers)), MaxOf(G.Loads(q, G.Place(q, workers), workers)), Drift(d, |p|))
  {
    LoadsNear(p, q, workers, d);
    LargestIsFirst(G.Loads(p, G.Place(p, workers), workers));
    LargestIsFirst(G.Loads(q, G.Place(q, workers), workers));
  }

  lemma BalancedIsNear(a: seq<Timing>, b: seq<Timing>, workers: int, d: real)
    requires workers >= 1 && d >= 0.0 && |a| == |b| && Close(OrderedSeconds(a), OrderedSeconds(b), d)
    ensures Near(Balanced(a, workers).value, Balanced(b, workers).value, Drift(d, |a|))
  {
    if a != [] {
      SortPermutes(TimingLe, a);
      BalancedIsLargest(a, workers);
      BalancedIsLargest(b, workers);
      LargestIsNear(OrderedSeconds(a), OrderedSeconds(b), workers, d);
    }
  }

  lemma RunsAreNear(run: Run, written: Run, d: real)
    requires d >= 0.0 && run.CriticalPathSeconds().Ok?
    requires written.provenance == run.provenance && |written.timings| == |run.timings|
    requires Close(OrderedSeconds(run.Durations()), OrderedSeconds(written.Durations()), d)
    ensures written.CriticalPathSeconds().Ok?
    ensures Near(run.CriticalPathSeconds().value, written.CriticalPathSeconds().value, Drift(d, |run.timings|))
  {
    BalancedIsNear(run.Durations(), written.Durations(), run.provenance.workerTopology, d);
  }

  lemma WriteRunKeeps(r: Rounding, run: Run)
    ensures WriteRun(r, run).provenance == run.provenance && |WriteRun(r, run).timings| == |run.timings|
  {
    SortPermutes(ModuleLe, run.timings);
  }

  /** At every worker count the critical path of a run moves by at most the slack of its modules. */
  lemma RunIsNear(r: Rounding, eps: real, run: Run)
    requires RoundsWithin(r, eps) && run.CriticalPathSeconds().Ok?
    ensures WriteRun(r, run).CriticalPathSeconds().Ok?
    ensures Near(run.CriticalPathSeconds().value, WriteRun(r, run).CriticalPathSeconds().value, Slack(eps, |run.timings|))
  {
    WriteRunKeeps(r, run);
    CostsAreNear(r, eps, run);
    RunsAreNear(run, WriteRun(r, run), 3.0 * eps);
  }

  /** No run has more modules than the margin covers. */
  ghost predicate Covers(eps: real, margin: real, runs: seq<Run>) {
    forall i :: 0 <= i < |runs| ==> Slack(eps, |runs[i].timings|) <= margin
  }

  /** The critical paths of two lists of runs whose own are near. */
  lemma {:induction false} PathsStayNear(runs: seq<Run>, written: seq<Run>, margin: real)
    requires |written| == |runs| && CriticalPaths(runs).Some?
    requires forall i :: 0 <= i < |runs| ==> PathNear(runs[i], written[i], margin)
    ensures CriticalPaths(written).Some? && |CriticalPaths(runs).value| == |runs|
    ensures Close(CriticalPaths(runs).value, CriticalPaths(written).value, margin)
  {
    if runs != [] {
      PathsStayNear(runs[1..], written[1..], margin);
      assert PathNear(runs[0], written[0], margin);
      CloseCons(runs[0].CriticalPathSeconds().value, written[0].CriticalPathSeconds().value,
                CriticalPaths(runs[1..]).value, CriticalPaths(written[1..]).value, margin);
    }
  }

  /** If the run has a critical path, the written one has a near one. */
  predicate PathNear(run: Run, written: Run, margin: real) {
    var (x, y) := (run.CriticalPathSeconds(), written.CriticalPathSeconds());
    x.Ok? ==> y.Ok? && Near(x.value, y.value, margin)
  }

  lemma CloseCons(x: real, y: real, a: seq<real>, b: seq<real>, margin: real)
    requires Near(x, y, margin) && Close(a, b, margin)
    ensures Close([x] + a, [y] + b, margin)
  {
  }

  lemma PathsAreNear(r: Rounding, eps: real, margin: real, runs: seq<Run>)
    requires RoundsWithin(r, eps) && Covers(eps, margin, runs) && CriticalPaths(runs).Some?
    ensures CriticalPaths(WriteRuns(r, runs)).Some? && |CriticalPaths(runs).value| == |runs|
    ensures Close(CriticalPaths(runs).value, CriticalPaths(WriteRuns(r, runs)).value, margin)
  {
    var written := WriteRuns(r, runs);
    forall i | 0 <= i < |runs| ensures PathNear(runs[i], written[i], margin) {
      if runs[i].CriticalPathSeconds().Ok? {
        RunIsNear(r, eps, runs[i]);
      }
    }
    PathsStayNear(runs, written, margin);
  }

  lemma ExtremesAreNear(x: seq<real>, y: seq<real>, margin: real)
    requires x != [] && Close(x, y, margin)
    ensures Near(MinOf(x), MinOf(y), margin) && Near(MaxOf(x), MaxOf(y), margin)
  {
    var i :| 0 <= i < |x| && x[i] == MinOf(x);
    var j :| 0 <= j < |y| && y[j] == MinOf(y);
    var k :| 0 <= k < |x| && x[k] == MaxOf(x);
    var l :| 0 <= l < |y| && y[l] == MaxOf(y);
    assert Near(x[i], y[i], margin) && Near(x[j], y[j], margin) && Near(x[k], y[k], margin) && Near(x[l], y[l], margin);
    assert y[i] in y && x[j] in x && y[k] in y && x[l] in x;
  }

  /** The figures `g` are within `margin` of `f`. */
  predicate CloseFigures(f: Figures, g: Figures, margin: real) {
    Near(f.best, g.best, margin) && Near(f.worst, g.worst, margin)
  }

  /**
   * No close call: a retained verdict clears both gates with room to spare, and a reverted one misses
   * at least one of them by more than the figures can move. The reduction moves by twice the margin.
   */
  predicate Decided(f: Figures, gates: Gates, margin: real) {
    if OutcomeOf(f, gates).Retained? then
      && f.Reduction() >= gates.floor + 2.0 * margin
      && (gates.ceiling.Some? ==> f.worst <= gates.ceiling.value - margin)
    else
      || f.Reduction() < gates.floor - 2.0 * margin
      || (gates.ceiling.Some? && f.worst > gates.ceiling.value + margin)
  }

  lemma DecidedOutcome(f: Figures, g: Figures, gates: Gates, margin: real)
    requires CloseFigures(f, g, margin) && Decided(f, gates, margin)
    ensures OutcomeOf(g, gates) == OutcomeOf(f, gates)
  {
    assert Near(f.Reduction(), g.Reduction(), 2.0 * margin);
  }

  /** A verdict is no close call exactly when all figures within the margin have it. */
  lemma DecidedExactly(f: Figures, gates: Gates, margin: real)
    requires margin >= 0.0
    ensures Decided(f, gates, margin) <==> forall g :: CloseFigures(f, g, margin) ==> OutcomeOf(g, gates) == OutcomeOf(f, gates)
  {
    forall g | Decided(f, gates, margin) && CloseFigures(f, g, margin) ensures OutcomeOf(g, gates) == OutcomeOf(f, gates) {
      DecidedOutcome(f, g, gates, margin);
    }
    var poorer, better := Figures(f.best - margin, f.worst + margin), Figures(f.best + margin, f.worst - margin);
    assert CloseFigures(f, poorer, margin) && CloseFigures(f, better, margin);
    assert poorer.Reduction() == f.Reduction() - 2.0 * margin && better.Reduction() == f.Reduction() + 2.0 * margin;
  }

  /**
   * A verdict that is not a close call survives the bundle, at every worker count: each figure moves
   * by at most three roundings per module, and the reduction by twice that.
   */
  lemma DecidedOutcomeSurvives(r: Rounding, eps: real, margin: real, c: Compared)
    requires RoundsWithin(r, eps) && Covers(eps, margin, c.before) && Covers(eps, margin, c.after)
    requires FiguresOf(c).Some?
    ensures FiguresOf(Rounded(r, c)).Some?
    ensures var (f, g) := (FiguresOf(c).value, FiguresOf(Rounded(r, c)).value);
            && CloseFigures(f, g, margin)
            && (Decided(f, c.gates, margin) ==> OutcomeOf(g, c.gates) == OutcomeOf(f, c.gates))
  {
    PathsAreNear(r, eps, margin, c.before);
    PathsAreNear(r, eps, margin, c.after);
    ExtremesAreNear(CriticalPaths(c.before).value, CriticalPaths(WriteRuns(r, c.before)).value, margin);
    ExtremesAreNear(CriticalPaths(c.after).value, CriticalPaths(WriteRuns(r, c.after)).value, margin);
    var f, g := FiguresOf(c).value, FiguresOf(Rounded(r, c)).value;
    if Decided(f, c.gates, margin) {
      DecidedOutcome(f, g, c.gates, margin);
    }
  }
}
