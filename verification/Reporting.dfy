/**
 * The worker's half of the disclosure protocol, and its composition with the reconciler: which
 * hook traces produce a stream the parent accepts, and what the parent then concludes.
 */
module Reporting {
  import opened Common
  import opened Scheduler
  import opened Reconciliation
  import opened Sequences

  datatype When = Setup | Call | Teardown

  datatype Result = PassedReport | FailedReport | SkippedReport

  datatype Report = Report(when: When, result: Result)

  /** One call pytest makes on the plugin, with the node it is about. */
  datatype Hook = LogStart(node: string) | LogReport(node: string, report: Report) | LogFinish(node: string)

  function Rank(o: Outcome): nat {
    match o
    case Passed => 0
    case Skipped => 1
    case Failed => 2
    case Error => 3
    case Missing => 4
  }

  /** What a single report says about its node, if anything: a pass counts only in the call phase. */
  function Verdict(r: Report): Option<Outcome> {
    match r.result
    case FailedReport => Some(if r.when == Call then Failed else Error)
    case SkippedReport => Some(Skipped)
    case PassedReport => if r.when == Call then Some(Passed) else None
  }

  /** The reporter's fields, the stream being what it has written so far. */
  datatype ReporterState = ReporterState(sequence: nat, started: set<string>, result: map<string, Outcome>,
                                         stream: seq<Event>)

  const SILENT := ReporterState(0, {}, map[], [])

  function Emitted(worker: string, s: ReporterState, node: string, outcome: Option<Outcome>,
                   started: bool): ReporterState {
    s.(sequence := s.sequence + 1,
       stream := s.stream + [Event(worker, s.sequence + 1, node, outcome, started)])
  }

  function Promoted(result: map<string, Outcome>, node: string, candidate: Outcome): map<string, Outcome> {
    if node !in result || Rank(candidate) > Rank(result[node]) then result[node := candidate] else result
  }

  function Apply(worker: string, s: ReporterState, hook: Hook): ReporterState {
    match hook
    case LogStart(n) =>
      if n in s.started then s else Emitted(worker, s.(started := s.started + {n}), n, None, true)
    case LogReport(n, r) =>
      if Verdict(r).None? then s else s.(result := Promoted(s.result, n, Verdict(r).value))
    case LogFinish(n) =>
      if n !in s.result then s
      else Emitted(worker, s.(result := s.result - {n}), n, Some(s.result[n]), false)
  }

  class WorkerReporter {
    const workerId: string
    var sequence: nat
    var started: set<string>
    var result: map<string, Outcome>
    var stream: seq<Event>

    constructor (workerId: string)
      ensures this.workerId == workerId && Current() == SILENT
    {
      this.workerId := workerId;
      sequence, started, result, stream := 0, {}, map[], [];
    }

    function Current(): ReporterState
      reads this
    {
      ReporterState(sequence, started, result, stream)
    }

    method Emit(node: string, outcome: Option<Outcome>, start: bool)
      modifies this
      ensures Current() == Emitted(workerId, old(Current()), node, outcome, start)
    {
      sequence := sequence + 1;
      stream := stream + [Event(workerId, sequence, node, outcome, start)];
    }

    method Promote(node: string, candidate: Outcome)
      modifies this`result
      ensures result == Promoted(old(result), node, candidate)
    {
      if node !in result || Rank(candidate) > Rank(result[node]) {
        result := result[node := candidate];
      }
    }

    method OnLogStart(node: string)
      modifies this
      ensures Current() == Apply(workerId, old(Current()), LogStart(node))
    {
      if node in started {
        return;
      }
      started := started + {node};
      Emit(node, None, true);
    }

    method OnLogReport(node: string, report: Report)
      modifies this
      ensures Current() == Apply(workerId, old(Current()), LogReport(node, report))
    {
      if report.result == FailedReport {
        Promote(node, if report.when == Call then Failed else Error);
      } else if report.result == SkippedReport {
        Promote(node, Skipped);
      } else if report.when == Call {
        Promote(node, Passed);
      }
    }

    method OnLogFinish(node: string)
      modifies this
      ensures Current() == Apply(workerId, old(Current()), LogFinish(node))
    {
      if node !in result {
        return;
      }
      var outcome := result[node];
      result := result - {node};
      Emit(node, Some(outcome), false);
    }
  }

  // --- traces, read without the reporter ---

  /** The worst-ranked verdict of some reports, if any of them has one. */
  function Worst(reports: seq<Report>): Option<Outcome> {
    if reports == [] then None
    else
      var worst, last := Worst(reports[..|reports| - 1]), Verdict(reports[|reports| - 1]);
      if last.None? then worst
      else if worst.None? || Rank(last.value) > Rank(worst.value) then last
      else worst
  }

  /** `o` is the verdict of some report and no report's verdict outranks it. */
  ghost predicate IsWorst(reports: seq<Report>, o: Outcome) {
    && (exists r :: r in reports && Verdict(r) == Some(o))
    && (forall r :: r in reports && Verdict(r).Some? ==> Rank(Verdict(r).value) <= Rank(o))
  }

  lemma {:induction false} WorstFound(reports: seq<Report>)
    ensures Worst(reports).None? ==> forall r :: r in reports ==> Verdict(r).None?
    ensures Worst(reports).Some? ==> IsWorst(reports, Worst(reports).value)
  {
    if reports != [] {
      var before, last := reports[..|reports| - 1], reports[|reports| - 1];
      WorstFound(before);
      assert reports == before + [last];
      if Worst(reports).Some? {
        if Worst(reports) == Worst(before) {
          var r :| r in before && Verdict(r) == Worst(before);
          assert r in reports;
        } else {
          assert last in reports && Verdict(last) == Worst(reports);
        }
      }
    }
  }

  /** The outcome is the worst-ranked verdict, which says nothing about the order of the reports. */
  lemma WorstIsWorst(reports: seq<Report>)
    ensures forall o :: Worst(reports) == Some(o) <==> IsWorst(reports, o)
    ensures Worst(reports).Some? <==> exists r :: r in reports && Verdict(r).Some?
  {
    WorstFound(reports);
    forall o | IsWorst(reports, o) ensures Worst(reports) == Some(o) {
      var r :| r in reports && Verdict(r) == Some(o);
      assert Rank(Worst(reports).value) == Rank(o);
    }
  }

  lemma WorstIgnoresOrder(a: seq<Report>, b: seq<Report>)
    requires multiset(a) == multiset(b)
    ensures Worst(a) == Worst(b)
  {
    WorstIsWorst(a);
    WorstIsWorst(b);
    forall r ensures r in a <==> r in b {
      assert r in a <==> r in multiset(a);
      assert r in b <==> r in multiset(b);
    }
    if Worst(a).Some? {
      assert IsWorst(a, Worst(a).value) && IsWorst(b, Worst(a).value);
    }
  }

  /** The reports for `node` since its last finish. */
  function ReportsSince(trace: seq<Hook>, node: string): seq<Report> {
    if trace == [] then []
    else
      var before, hook := ReportsSince(trace[..|trace| - 1], node), trace[|trace| - 1];
      if hook.node != node || hook.LogStart? then before
      else if hook.LogFinish? then []
      else before + [hook.report]
  }

  /** What a finish of `node` would disclose after this trace. */
  function Pending(trace: seq<Hook>, node: string): Option<Outcome> {
    Worst(ReportsSince(trace, node))
  }

  /** The first outcome the trace discloses for `node`: at a finish with something pending. */
  function Disclosure(trace: seq<Hook>, node: string): Option<Outcome> {
    if trace == [] then None
    else
      var before, hook := trace[..|trace| - 1], trace[|trace| - 1];
      if Disclosure(before, node).Some? then Disclosure(before, node)
      else if hook == LogFinish(node) then Pending(before, node)
      else None
  }

  /** Every finish with something pending comes after a start of its node and discloses first. */
  predicate Disciplined(trace: seq<Hook>) {
    trace == [] ||
    var before, hook := trace[..|trace| - 1], trace[|trace| - 1];
    && Disciplined(before)
    && (hook.LogFinish? && Pending(before, hook.node).Some? ==>
          LogStart(hook.node) in before && Disclosure(before, hook.node).None?)
  }

  function Observe(worker: string, trace: seq<Hook>): ReporterState {
    if trace == [] then SILENT
    else Apply(worker, Observe(worker, trace[..|trace| - 1]), trace[|trace| - 1])
  }

  function Stream(worker: string, trace: seq<Hook>): seq<Event> {
    Observe(worker, trace).stream
  }

  ghost predicate Owned(schedule: Schedule, worker: string, trace: seq<Hook>) {
    forall h :: h in trace ==> schedule.WorkerFor(h.node) == Ok(worker)
  }

  lemma ReportsSinceStep(trace: seq<Hook>, h: Hook, n: string)
    ensures ReportsSince(trace + [h], n) ==
              if h.node != n || h.LogStart? then ReportsSince(trace, n)
              else if h.LogFinish? then []
              else ReportsSince(trace, n) + [h.report]
  {
    assert (trace + [h])[..|trace|] == trace;
  }

  /** What is pending for a node after a hook. */
  function PendingAfter(pending: Option<Outcome>, h: Hook, n: string): Option<Outcome> {
    if h.node != n || h.LogStart? then pending
    else if h.LogFinish? then None
    else
      var last := Verdict(h.report);
      if last.None? then pending
      else if pending.None? || Rank(last.value) > Rank(pending.value) then last
      else pending
  }

  lemma PendingStep(trace: seq<Hook>, h: Hook, n: string)
    ensures Pending(trace + [h], n) == PendingAfter(Pending(trace, n), h, n)
  {
    ReportsSinceStep(trace, h, n);
    if h.node == n && h.LogReport? {
      assert (ReportsSince(trace, n) + [h.report])[..|ReportsSince(trace, n)|] == ReportsSince(trace, n);
    }
  }

  function Held(r: ReporterState, n: string): Option<Outcome> {
    if n in r.result then Some(r.result[n]) else None
  }

  lemma HookUpdates(worker: string, r: ReporterState, h: Hook, n: string)
    ensures n in Apply(worker, r, h).started <==> n in r.started || h == LogStart(n)
    ensures Held(Apply(worker, r, h), n) == PendingAfter(Held(r, n), h, n)
  {
  }

  /** The reporter's result map holds exactly what is pending, its started set what was started. */
  lemma {:induction false} ReporterTracksNode(worker: string, trace: seq<Hook>, n: string)
    ensures var r := Observe(worker, trace);
            && (n in r.started <==> LogStart(n) in trace)
            && Pending(trace, n) == Held(r, n)
  {
    if trace != [] {
      var before, h := trace[..|trace| - 1], trace[|trace| - 1];
      ReporterTracksNode(worker, before, n);
      assert trace == before + [h];
      PendingStep(before, h, n);
      HookUpdates(worker, Observe(worker, before), h, n);
    }
  }

  lemma {:induction false} StreamNumbered(worker: string, trace: seq<Hook>)
    ensures Observe(worker, trace).sequence == |Stream(worker, trace)|
    ensures forall i :: 0 <= i < |Stream(worker, trace)| ==>
              Stream(worker, trace)[i].workerId == worker && Stream(worker, trace)[i].sequence == i + 1
  {
    if trace != [] {
      StreamNumbered(worker, trace[..|trace| - 1]);
    }
  }

  /** What the parent, having accepted the stream so far, knows about a node. */
  predicate KnowsNode(s: State, trace: seq<Hook>, n: string) {
    && (n in s.started <==> LogStart(n) in trace)
    && Disclosure(trace, n) == (if n in s.resolved then Some(s.resolved[n]) else None)
  }

  ghost predicate ParentKnows(schedule: Schedule, worker: string, trace: seq<Hook>) {
    var s := Replay(schedule, Stream(worker, trace));
    s.LastOf(worker) == Observe(worker, trace).sequence && forall n :: KnowsNode(s, trace, n)
  }

  lemma {:induction false} WorstReportable(reports: seq<Report>)
    ensures Worst(reports).Some? ==> Reportable(Worst(reports).value)
  {
    if reports != [] {
      WorstReportable(reports[..|reports| - 1]);
    }
  }

  /** One hook that emits nothing. */
  lemma SilentHook(schedule: Schedule, worker: string, trace: seq<Hook>, h: Hook)
    requires ParentKnows(schedule, worker, trace) && Observe(worker, trace + [h]).stream == Stream(worker, trace)
    ensures ParentKnows(schedule, worker, trace + [h])
    ensures h.LogFinish? ==> Pending(trace, h.node).None?
  {
    assert (trace + [h])[..|trace|] == trace;
    ReporterTracksNode(worker, trace, h.node);
    var s := Replay(schedule, Stream(worker, trace));
    forall n ensures KnowsNode(s, trace + [h], n) {
      assert KnowsNode(s, trace, n);
    }
  }

  /** The hooks that emit an event: a first start, and a finish with something pending. */
  predicate Speaks(trace: seq<Hook>, h: Hook) {
    match h
    case LogStart(_) => h !in trace
    case LogReport(_, _) => false
    case LogFinish(n) => Pending(trace, n).Some?
  }

  /** The event a speaking hook emits. */
  lemma SpeakingHookEmits(worker: string, trace: seq<Hook>, h: Hook)
    requires Observe(worker, trace + [h]).stream != Stream(worker, trace)
    ensures Stream(worker, trace + [h]) == Stream(worker, trace) + [Speech(worker, trace, h)]
    ensures Speaks(trace, h)
  {
    ObserveOneMore(worker, trace, h);
    ReporterTracksNode(worker, trace, h.node);
  }

  lemma ObserveOneMore(worker: string, trace: seq<Hook>, h: Hook)
    ensures Observe(worker, trace + [h]) == Apply(worker, Observe(worker, trace), h)
  {
    DropLast(trace, h);
  }

  /** The parent's checks, on the event of a speaking hook. */
  lemma SpeechJudged(schedule: Schedule, worker: string, s: State, trace: seq<Hook>, h: Hook)
    requires schedule.WorkerFor(h.node) == Ok(worker) && KnowsNode(s, trace, h.node)
    requires s.LastOf(worker) == Observe(worker, trace).sequence
    requires Speaks(trace, h)
    ensures Check(schedule, s, Speech(worker, trace, h)).None? <==>
              (h.LogFinish? ==> LogStart(h.node) in trace && Disclosure(trace, h.node).None?)
  {
    WorstReportable(ReportsSince(trace, h.node));
  }

  /** What the parent makes of the event of a speaking hook. */
  lemma SpeakingHook(schedule: Schedule, worker: string, trace: seq<Hook>, h: Hook)
    requires schedule.WorkerFor(h.node) == Ok(worker) && ParentKnows(schedule, worker, trace)
    requires Observe(worker, trace + [h]).stream != Stream(worker, trace)
    ensures var s, e := Replay(schedule, Stream(worker, trace)), Speech(worker, trace, h);
            && Stream(worker, trace + [h]) == Stream(worker, trace) + [e]
            && (Check(schedule, s, e).None? <==>
                  (h.LogFinish? ==> LogStart(h.node) in trace && Disclosure(trace, h.node).None?))
            && (h.LogFinish? ==> Pending(trace, h.node).Some?)
            && (Check(schedule, s, e).None? ==> ParentKnows(schedule, worker, trace + [h]))
  {
    SpeakingHookEmits(worker, trace, h);
    SpeechJudged(schedule, worker, Replay(schedule, Stream(worker, trace)), trace, h);
    if Check(schedule, Replay(schedule, Stream(worker, trace)), Speech(worker, trace, h)).None? {
      ParentLearns(schedule, worker, trace, h);
    }
  }

  lemma ParentLearns(schedule: Schedule, worker: string, trace: seq<Hook>, h: Hook)
    requires ParentKnows(schedule, worker, trace) && Observe(worker, trace + [h]).stream != Stream(worker, trace)
    requires Check(schedule, Replay(schedule, Stream(worker, trace)), Speech(worker, trace, h)).None?
    ensures ParentKnows(schedule, worker, trace + [h])
  {
    var s, e, t := Replay(schedule, Stream(worker, trace)), Speech(worker, trace, h), trace + [h];
    assert t[..|trace|] == trace;
    SpeakingHookEmits(worker, trace, h);
    ReporterTracksNode(worker, trace, h.node);
    Snoc(schedule, Stream(worker, trace), e);
    forall n ensures KnowsNode(Record(schedule, s, e), t, n) {
      assert KnowsNode(s, trace, n);
    }
  }

  function Speech(worker: string, trace: seq<Hook>, h: Hook): Event {
    Event(worker, Observe(worker, trace).sequence + 1, h.node,
          if h.LogFinish? then Pending(trace, h.node) else None, h.LogStart?)
  }

  /**
   * The parent accepts a worker's stream exactly when the hooks were disciplined, and it then
   * knows exactly the nodes started and the outcomes disclosed.
   */
  lemma {:induction false} StreamAcceptedExactly(schedule: Schedule, worker: string, trace: seq<Hook>)
    requires Owned(schedule, worker, trace)
    ensures Accepts(schedule, Stream(worker, trace)) <==> Disciplined(trace)
    ensures Disciplined(trace) ==> ParentKnows(schedule, worker, trace)
  {
    if trace != [] {
      var before, h := trace[..|trace| - 1], trace[|trace| - 1];
      assert trace == before + [h];
      StreamAcceptedExactly(schedule, worker, before);
      if Disciplined(before) {
        if Stream(worker, trace) == Stream(worker, before) {
          SilentHook(schedule, worker, before, h);
        } else {
          SpeakingHook(schedule, worker, before, h);
          Snoc(schedule, Stream(worker, before), Speech(worker, before, h));
        }
      } else if Stream(worker, trace) != Stream(worker, before) {
        var stream := Stream(worker, trace);
        assert stream[..|stream| - 1] == Stream(worker, before);
      }
    }
  }

  // --- pytest's own discipline, and the whole run ---

  function ReportsOf(trace: seq<Hook>, node: string): seq<Report> {
    if trace == [] then []
    else
      var before, hook := trace[..|trace| - 1], trace[|trace| - 1];
      ReportsOf(before, node) + if hook.node == node && hook.LogReport? then [hook.report] else []
  }

  /** Hook `a` starts the node, hook `b` finishes it, and only its reports come between. */
  predicate Visit(trace: seq<Hook>, node: string, a: nat, b: nat) {
    && a < b < |trace| && trace[a] == LogStart(node) && trace[b] == LogFinish(node)
    && forall i :: 0 <= i < |trace| && trace[i].node == node && i != a && i != b ==> a < i < b && trace[i].LogReport?
  }

  /** The hooks give each node the worker owns one start, then its reports, then one finish. */
  ghost predicate WellFormed(schedule: Schedule, worker: string, trace: seq<Hook>) {
    && Owned(schedule, worker, trace)
    && forall n :: schedule.WorkerFor(n) == Ok(worker) ==> exists a: nat, b: nat :: Visit(trace, n, a, b)
  }

  /** Hook `k` of a visited trace: before the finish no finish, after it nothing more of the node. */
  predicate HookFits(trace: seq<Hook>, n: string, b: nat, k: nat)
    requires k < |trace|
  {
    if k < b then trace[k] != LogFinish(n) else if k == b then trace[k] == LogFinish(n) else trace[k].node != n
  }

  ghost predicate HooksFit(trace: seq<Hook>, n: string, b: nat) {
    forall k: nat :: k < |trace| ==> HookFits(trace, n, b, k)
  }

  lemma VisitFits(trace: seq<Hook>, n: string, a: nat, b: nat)
    requires Visit(trace, n, a, b)
    ensures HooksFit(trace, n, b)
  {
  }

  lemma DisclosureStep(trace: seq<Hook>, h: Hook, n: string)
    ensures Disclosure(trace + [h], n)
         == if Disclosure(trace, n).Some? then Disclosure(trace, n) else if h == LogFinish(n) then Pending(trace, n) else None
  {
    DropLast(trace, h);
  }

  lemma ReportsOfStep(trace: seq<Hook>, h: Hook, n: string)
    ensures h.node == n && h.LogReport? ==> ReportsOf(trace + [h], n) == ReportsOf(trace, n) + [h.report]
    ensures !(h.node == n && h.LogReport?) ==> ReportsOf(trace + [h], n) == ReportsOf(trace, n)
  {
    DropLast(trace, h);
  }

  lemma {:induction false} VisitReports(trace: seq<Hook>, n: string, b: nat, k: nat)
    requires HooksFit(trace, n, b) && k <= |trace|
    ensures ReportsSince(trace[..k], n) == if k <= b then ReportsOf(trace[..k], n) else []
  {
    if k > 0 {
      VisitReports(trace, n, b, k - 1);
      assert HookFits(trace, n, b, k - 1);
      OneMore(trace, k - 1);
      ReportsSinceStep(trace[..k - 1], trace[k - 1], n);
      ReportsOfStep(trace[..k - 1], trace[k - 1], n);
    }
  }

  /** One hook more: `since` and `all` are the reports pending and the reports so far. */
  lemma DisclosureFits(before: seq<Hook>, h: Hook, n: string, all: seq<Report>, finished: bool)
    requires all == ReportsOf(before, n) && Disclosure(before, n) == if finished then Worst(all) else None
    requires finished ==> h.node != n
    requires !finished ==> ReportsSince(before, n) == all
    ensures h.node == n && h.LogFinish? ==> Disclosure(before + [h], n) == Worst(all)
    ensures !(h.node == n && h.LogFinish?) ==> Disclosure(before + [h], n) == Disclosure(before, n)
    ensures !(h.node == n && h.LogReport?) ==> ReportsOf(before + [h], n) == all
  {
    DisclosureStep(before, h, n);
    ReportsOfStep(before, h, n);
  }

  lemma {:induction false} VisitDisclosure(trace: seq<Hook>, n: string, b: nat, k: nat)
    requires HooksFit(trace, n, b) && k <= |trace|
    ensures Disclosure(trace[..k], n) == if k <= b then None else Worst(ReportsOf(trace[..k], n))
  {
    if k > 0 {
      var before := trace[..k - 1];
      VisitDisclosure(trace, n, b, k - 1);
      VisitReports(trace, n, b, k - 1);
      assert HookFits(trace, n, b, k - 1);
      OneMore(trace, k - 1);
      DisclosureFits(before, trace[k - 1], n, ReportsOf(before, n), k - 1 > b);
    }
  }

  /** After `k` hooks of a visit, what has been started, what is pending and what is disclosed. */
  lemma VisitProgress(trace: seq<Hook>, n: string, a: nat, b: nat, k: nat)
    requires Visit(trace, n, a, b) && k <= |trace|
    ensures LogStart(n) in trace[..k] <==> a < k
    ensures ReportsSince(trace[..k], n) == if k <= b then ReportsOf(trace[..k], n) else []
    ensures Disclosure(trace[..k], n) == if k <= b then None else Worst(ReportsOf(trace[..k], n))
  {
    VisitFits(trace, n, a, b);
    VisitReports(trace, n, b, k);
    VisitDisclosure(trace, n, b, k);
    if a < k {
      assert trace[..k][a] == LogStart(n);
    }
  }

  lemma {:induction false} WellFormedDisciplined(schedule: Schedule, worker: string, trace: seq<Hook>, k: nat)
    requires WellFormed(schedule, worker, trace) && k <= |trace|
    ensures Disciplined(trace[..k])
  {
    if k > 0 {
      WellFormedDisciplined(schedule, worker, trace, k - 1);
      if trace[k - 1].LogFinish? {
        FinishIsDue(schedule, worker, trace, k - 1);
      }
      OneMore(trace, k - 1);
      DisciplinedStep(trace[..k - 1], trace[k - 1]);
    }
  }

  lemma DisciplinedStep(trace: seq<Hook>, h: Hook)
    requires Disciplined(trace)
    requires h.LogFinish? ==> LogStart(h.node) in trace && Disclosure(trace, h.node).None?
    ensures Disciplined(trace + [h])
  {
    assert (trace + [h])[..|trace|] == trace;
  }

  lemma FinishIsDue(schedule: Schedule, worker: string, trace: seq<Hook>, k: nat)
    requires WellFormed(schedule, worker, trace) && k < |trace| && trace[k].LogFinish?
    ensures LogStart(trace[k].node) in trace[..k] && Disclosure(trace[..k], trace[k].node).None?
  {
    var n := trace[k].node;
    assert trace[k] in trace;
    var a: nat, b: nat :| Visit(trace, n, a, b);
    VisitProgress(trace, n, a, b, k);
  }

  /** Each worker's hooks are well formed and `log` interleaves exactly the streams they emit. */
  ghost predicate Interleaves(schedule: Schedule, traces: map<string, seq<Hook>>, log: seq<Event>) {
    && (forall n :: schedule.WorkerFor(n).Ok? ==> schedule.WorkerFor(n).value in traces)
    && (forall w :: w in traces ==> WellFormed(schedule, w, traces[w]))
    && (forall w :: ByWorker(log, w) == if w in traces then Stream(w, traces[w]) else [])
  }

  /** What a well-formed run says about a node: the worst verdict among its reports. */
  function RunVerdict(schedule: Schedule, traces: map<string, seq<Hook>>, node: string): Option<Outcome> {
    var owner := schedule.WorkerFor(node);
    if owner.Ok? && owner.value in traces then Worst(ReportsOf(traces[owner.value], node)) else None
  }

  lemma RunKnowsNode(schedule: Schedule, traces: map<string, seq<Hook>>, log: seq<Event>, n: string)
    requires Interleaves(schedule, traces, log) && Accepts(schedule, log) && n in schedule.Nodes()
    ensures var s := Replay(schedule, log);
            RunVerdict(schedule, traces, n) == if n in s.resolved then Some(s.resolved[n]) else None
  {
    OwnedIsScheduled(schedule, n);
    var w := schedule.WorkerFor(n).value;
    ProjectionAgrees(schedule, log, w);
    StreamAcceptedExactly(schedule, w, traces[w]);
    assert KnowsNode(Replay(schedule, Stream(w, traces[w])), traces[w], n);
    WellFormedDiscloses(schedule, w, traces[w], n);
  }

  /** Over a whole well-formed trace, what is disclosed of an owned node is its worst report. */
  lemma WellFormedDiscloses(schedule: Schedule, worker: string, trace: seq<Hook>, n: string)
    requires WellFormed(schedule, worker, trace) && schedule.WorkerFor(n) == Ok(worker)
    ensures Disclosure(trace, n) == Worst(ReportsOf(trace, n))
  {
    var a: nat, b: nat :| Visit(trace, n, a, b);
    VisitFits(trace, n, a, b);
    VisitDisclosure(trace, n, b, |trace|);
    assert trace[..|trace|] == trace;
  }

  /** Some report of the node failed, was skipped, or passed its call. */
  predicate SaysSomething(h: Hook, n: string) {
    h.LogReport? && h.node == n && (h.report.result != PassedReport || h.report.when == Call)
  }

  ghost predicate Spoken(schedule: Schedule, traces: map<string, seq<Hook>>, n: string) {
    var owner := schedule.WorkerFor(n);
    owner.Ok? && owner.value in traces && exists h :: h in traces[owner.value] && SaysSomething(h, n)
  }

  lemma {:induction false} SomethingSaid(trace: seq<Hook>, n: string)
    ensures Worst(ReportsOf(trace, n)).Some? <==> exists h :: h in trace && SaysSomething(h, n)
  {
    if trace != [] {
      var before, h := trace[..|trace| - 1], trace[|trace| - 1];
      OneMore(trace, |trace| - 1);
      assert trace == before + [h];
      SomethingSaid(before, n);
      ReportsOfStep(before, h, n);
      if h.LogReport? && h.node == n {
        WorstOneMore(ReportsOf(before, n), h.report);
      }
      SaidOneMore(before, h, n);
    }
  }

  lemma WorstOneMore(reports: seq<Report>, r: Report)
    ensures Worst(reports + [r]).Some? <==> Worst(reports).Some? || Verdict(r).Some?
  {
    DropLast(reports, r);
  }

  lemma SaidOneMore(trace: seq<Hook>, h: Hook, n: string)
    ensures (exists g :: g in trace + [h] && SaysSomething(g, n)) <==> SaysSomething(h, n) || exists g :: g in trace && SaysSomething(g, n)
  {
    assert forall g :: g in trace + [h] <==> g in trace || g == h;
  }

  lemma FinalizedNeedsAll(schedule: Schedule, s: State)
    requires s.resolved.Keys <= set n | n in schedule.Nodes()
    ensures Finalized(schedule, s).Ok? <==> forall n :: n in schedule.Nodes() ==> n in s.resolved
    ensures Finalized(schedule, s).Ok? ==> s.resolved.Keys == set n | n in schedule.Nodes()
  {
    if Finalized(schedule, s).Ok? {
      forall n | n in schedule.Nodes() ensures n in s.resolved {
        assert n !in (set n | n in schedule.Nodes()) - s.resolved.Keys;
      }
    }
  }

  lemma EveryInterleavingAccepted(schedule: Schedule, traces: map<string, seq<Hook>>, log: seq<Event>)
    requires Interleaves(schedule, traces, log)
    ensures Accepts(schedule, log)
  {
    forall w ensures Accepts(schedule, ByWorker(log, w)) {
      if w in traces {
        StreamAcceptedExactly(schedule, w, traces[w]);
        WellFormedDisciplined(schedule, w, traces[w], |traces[w]|);
        assert traces[w][..|traces[w]|] == traces[w];
      }
    }
    AcceptedByWorker(schedule, log);
  }

  /**
   * The protocol composes: whatever the interleaving, the parent accepts every event of a run
   * whose workers' hooks are well formed; it finalizes exactly when every scheduled node had a
   * failed, skipped or call-passed report; and the outcome of each node is then its worst-ranked
   * report, whatever order the reports came in.
   */
  lemma EveryInterleavingReconciles(schedule: Schedule, traces: map<string, seq<Hook>>, log: seq<Event>)
    requires Interleaves(schedule, traces, log)
    ensures Accepts(schedule, log)
    ensures var r := Finalized(schedule, Replay(schedule, log));
            && (r.Ok? <==> forall n :: n in schedule.Nodes() ==> Spoken(schedule, traces, n))
            && (r.Ok? ==>
                  && r.value.Keys == (set n | n in schedule.Nodes())
                  && forall n :: n in r.value ==> Some(r.value[n]) == RunVerdict(schedule, traces, n))
  {
    EveryInterleavingAccepted(schedule, traces, log);
    var s := Replay(schedule, log);
    ReplayConsistent(schedule, log);
    forall n | n in schedule.Nodes()
      ensures n in s.resolved <==> Spoken(schedule, traces, n)
      ensures n in s.resolved ==> Some(s.resolved[n]) == RunVerdict(schedule, traces, n)
    {
      OwnedIsScheduled(schedule, n);
      RunKnowsNode(schedule, traces, log, n);
      SomethingSaid(traces[schedule.WorkerFor(n).value], n);
    }
    FinalizedNeedsAll(schedule, s);
  }
}
