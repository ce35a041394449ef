/**
 * The parent's half of the disclosure protocol: every scheduled node must be started once and
 * resolved once, in per-worker streams numbered without a gap.
 */
module Reconciliation {
  import opened Common
  import opened Scheduler
  import opened Sequences
  import opened Shares

  datatype Outcome = Passed | Failed | Error | Skipped | Missing

  predicate Reportable(o: Outcome) { o != Missing }

  datatype Event = Event(workerId: string, sequence: int, node: string, outcome: Option<Outcome>, started: bool)

  datatype Refusal =
    | NotScheduled(node: string)
    | WrongWorker(event: Event, owner: string)
    | DuplicateSequence(event: Event)
    | SequenceGap(event: Event, expected: int)
    | DuplicateStart(node: string)
    | NoOutcome(node: string)
    | NotReportable(node: string, outcome: Outcome)
    | NeverStarted(node: string)
    | DuplicateOutcome(node: string)
    | Undisclosed(nodes: set<string>)

  /** The reconciler's four fields. */
  datatype State = State(started: map<string, Event>, resolved: map<string, Outcome>,
                         last: map<string, int>, events: seq<Event>) {
    function LastOf(worker: string): int {
      if worker in last then last[worker] else 0
    }
  }

  const EMPTY := State(map[], map[], map[], [])

  /** The first check an event fails, in the order the checks are made. */
  function Check(schedule: Schedule, s: State, e: Event): Option<Refusal> {
    var owner := schedule.WorkerFor(e.node);
    if owner.Err? then Some(Refusal.NotScheduled(e.node))
    else if owner.value != e.workerId then Some(WrongWorker(e, owner.value))
    else if e.sequence == s.LastOf(e.workerId) then Some(DuplicateSequence(e))
    else if e.sequence != s.LastOf(e.workerId) + 1 then Some(SequenceGap(e, s.LastOf(e.workerId) + 1))
    else if e.started then
      if e.node in s.started then Some(DuplicateStart(e.node)) else None
    else if e.outcome.None? then Some(NoOutcome(e.node))
    else if !Reportable(e.outcome.value) then Some(NotReportable(e.node, e.outcome.value))
    else if e.node !in s.started then Some(NeverStarted(e.node))
    else if e.node in s.resolved then Some(DuplicateOutcome(e.node))
    else None
  }

  /** The state after `record`, which is the old state when the event is refused. */
  function Record(schedule: Schedule, s: State, e: Event): State {
    if Check(schedule, s, e).Some? then s
    else
      State(if e.started then s.started[e.node := e] else s.started,
            if !e.started && e.outcome.Some? then s.resolved[e.node := e.outcome.value] else s.resolved,
            s.last[e.workerId := e.sequence],
            s.events + [e])
  }

  function Finalized(schedule: Schedule, s: State): Result<map<string, Outcome>, Refusal> {
    var undisclosed := (set n | n in schedule.Nodes()) - s.resolved.Keys;
    if undisclosed != {} then Err(Undisclosed(undisclosed)) else Ok(s.resolved)
  }

  class Reconciler {
    const schedule: Schedule
    var started: map<string, Event>
    var resolved: map<string, Outcome>
    var lastSequence: map<string, int>
    var events: seq<Event>

    constructor (schedule: Schedule)
      ensures this.schedule == schedule && Current() == EMPTY
    {
      this.schedule := schedule;
      started, resolved, lastSequence, events := map[], map[], map[], [];
    }

    function Current(): State
      reads this
    {
      State(started, resolved, lastSequence, events)
    }

    method RecordEvent(event: Event) returns (refusal: Option<Refusal>)
      modifies this
      ensures refusal == Check(schedule, old(Current()), event)
      ensures Current() == Record(schedule, old(Current()), event)
      ensures refusal.Some? ==> Current() == old(Current())
    {
      var owner := schedule.WorkerFor(event.node);
      if owner.Err? {
        return Some(Refusal.NotScheduled(event.node));
      }
      if owner.value != event.workerId {
        return Some(WrongWorker(event, owner.value));
      }
      var previous := if event.workerId in lastSequence then lastSequence[event.workerId] else 0;
      if event.sequence == previous {
        return Some(DuplicateSequence(event));
      }
      if event.sequence != previous + 1 {
        return Some(SequenceGap(event, previous + 1));
      }
      if event.started {
        if event.node in started {
          return Some(DuplicateStart(event.node));
        }
        started := started[event.node := event];
      } else {
        if event.outcome.None? {
          return Some(NoOutcome(event.node));
        }
        if !Reportable(event.outcome.value) {
          return Some(NotReportable(event.node, event.outcome.value));
        }
        if event.node !in started {
          return Some(NeverStarted(event.node));
        }
        if event.node in resolved {
          return Some(DuplicateOutcome(event.node));
        }
        resolved := resolved[event.node := event.outcome.value];
      }
      lastSequence := lastSequence[owner.value := event.sequence];
      events := events + [event];
      return None;
    }

    method Finalize() returns (r: Result<map<string, Outcome>, Refusal>)
      ensures r == Finalized(schedule, Current())
    {
      var undisclosed := (set n | n in schedule.Nodes()) - resolved.Keys;
      if undisclosed != {} {
        return Err(Undisclosed(undisclosed));
      }
      return Ok(resolved);
    }

    /** The failure path's map: what was resolved, and every other scheduled node as missing. */
    method OutcomesWithMissing() returns (all: map<string, Outcome>)
      ensures all.Keys == resolved.Keys + set n | n in schedule.Nodes()
      ensures forall n :: n in all ==> all[n] == if n in resolved then resolved[n] else Missing
    {
      all := resolved;
      var nodes := schedule.Nodes();
      var i := 0;
      while i < |nodes|
        invariant 0 <= i <= |nodes|
        invariant all.Keys == resolved.Keys + set n | n in nodes[..i]
        invariant forall n :: n in all ==> all[n] == if n in resolved then resolved[n] else Missing
      {
        assert nodes[..i + 1] == nodes[..i] + [nodes[i]];
        if nodes[i] !in all {
          all := all[nodes[i] := Missing];
        }
        i := i + 1;
      }
      assert nodes[..i] == nodes;
    }
  }

  // --- runs of the reconciler ---

  /** The state after a log of `record` calls, refused ones included. */
  function Replay(schedule: Schedule, log: seq<Event>): State {
    if log == [] then EMPTY
    else Record(schedule, Replay(schedule, log[..|log| - 1]), log[|log| - 1])
  }

  /** No event of the log is refused. */
  predicate Accepts(schedule: Schedule, log: seq<Event>) {
    log == [] ||
    var n := |log| - 1;
    Accepts(schedule, log[..n]) && Check(schedule, Replay(schedule, log[..n]), log[n]).None?
  }

  function ByWorker(log: seq<Event>, worker: string): seq<Event> {
    if log == [] then []
    else
      var n := |log| - 1;
      ByWorker(log[..n], worker) + if log[n].workerId == worker then [log[n]] else []
  }

  function ByNode(log: seq<Event>, node: string): seq<Event> {
    if log == [] then []
    else
      var n := |log| - 1;
      ByNode(log[..n], node) + if log[n].node == node then [log[n]] else []
  }

  /** A worker's accepted events are numbered 1, 2, 3, ... */
  predicate Numbered(stream: seq<Event>) {
    forall i :: 0 <= i < |stream| ==> stream[i].sequence == i + 1
  }

  /** A node's accepted events are a start and then at most one terminal event. */
  predicate NodeHistory(s: State, node: string) {
    var h := ByNode(s.events, node);
    if node !in s.started then h == [] && node !in s.resolved
    else if node !in s.resolved then h == [s.started[node]] && h[0].started
    else
      && |h| == 2 && h[0] == s.started[node] && h[0].started && !h[1].started
      && h[1].outcome == Some(s.resolved[node]) && Reportable(s.resolved[node])
  }

  ghost predicate Consistent(schedule: Schedule, s: State) {
    && s.resolved.Keys <= s.started.Keys
    && (forall n :: n in s.started ==> schedule.WorkerFor(n).Ok? && n in schedule.Nodes())
    && (forall n :: NodeHistory(s, n))
    && (forall w :: Numbered(ByWorker(s.events, w)) && s.LastOf(w) == |ByWorker(s.events, w)|)
    && (forall w :: w in s.last ==> s.last[w] > 0)
    && (forall e :: e in s.events ==> schedule.WorkerFor(e.node) == Ok(e.workerId))
  }

  lemma {:induction false} OwnerExists(assignments: seq<Assignment>, node: string)
    ensures FirstOwner(assignments, node).Ok? <==> exists w :: 0 <= w < |assignments| && node in assignments[w].nodes
  {
    if assignments != [] && node !in assignments[0].nodes {
      OwnerExists(assignments[1..], node);
      if FirstOwner(assignments[1..], node).Ok? {
        var w :| 0 <= w < |assignments[1..]| && node in assignments[1..][w].nodes;
        assert node in assignments[w + 1].nodes;
      }
      if w :| 0 <= w < |assignments| && node in assignments[w].nodes {
        assert node in assignments[1..][w - 1].nodes;
      }
    }
  }

  /** A node is scheduled exactly when some worker owns it. */
  lemma OwnedIsScheduled(schedule: Schedule, node: string)
    ensures schedule.WorkerFor(node).Ok? <==> node in schedule.Nodes()
  {
    var shares := Map((a: Assignment) => a.nodes, schedule.assignments);
    OwnerExists(schedule.assignments, node);
    InFlatten(shares, node);
    if w :| 0 <= w < |shares| && node in shares[w] {
      assert node in schedule.assignments[w].nodes;
    }
    if w :| 0 <= w < |shares| && node in schedule.assignments[w].nodes {
      assert node in shares[w];
    }
  }

  lemma RecordKeepsHistory(schedule: Schedule, s: State, e: Event, n: string)
    requires Check(schedule, s, e).None? && NodeHistory(s, n)
    ensures NodeHistory(Record(schedule, s, e), n)
  {
    ByNodeOneMore(s.events, e, n);
    if e.node == n {
      var t, h := Record(schedule, s, e), ByNode(s.events, n);
      assert ByNode(t.events, n) == h + [e];
      if e.started {
        assert h == [] && t.started[n] == e && n !in t.resolved;
      } else {
        assert h == [s.started[n]] && t.started == s.started && t.resolved[n] == e.outcome.value;
      }
    } else {
      HistoryElsewhere(schedule, s, e, n);
    }
  }

  lemma HistoryElsewhere(schedule: Schedule, s: State, e: Event, n: string)
    requires Check(schedule, s, e).None? && NodeHistory(s, n) && e.node != n
    requires ByNode(s.events + [e], n) == ByNode(s.events, n)
    ensures NodeHistory(Record(schedule, s, e), n)
  {
    var t := Record(schedule, s, e);
    assert (n in t.started <==> n in s.started) && (n in t.resolved <==> n in s.resolved);
  }

  lemma ByNodeOneMore(log: seq<Event>, e: Event, n: string)
    ensures e.node == n ==> ByNode(log + [e], n) == ByNode(log, n) + [e]
    ensures e.node != n ==> ByNode(log + [e], n) == ByNode(log, n)
  {
    DropLast(log, e);
  }

  /** What an accepted event does to the log and to the numbers. */
  lemma RecordAccepted(schedule: Schedule, s: State, e: Event, w: string)
    requires Check(schedule, s, e).None?
    ensures Record(schedule, s, e).events == s.events + [e] && e.sequence == s.LastOf(e.workerId) + 1
    ensures Record(schedule, s, e).LastOf(w) == if e.workerId == w then e.sequence else s.LastOf(w)
  {
  }

  lemma RecordKeepsNumbers(schedule: Schedule, s: State, e: Event, w: string)
    requires Check(schedule, s, e).None?
    requires Numbered(ByWorker(s.events, w)) && s.LastOf(w) == |ByWorker(s.events, w)|
    ensures Numbered(ByWorker(Record(schedule, s, e).events, w))
    ensures Record(schedule, s, e).LastOf(w) == |ByWorker(Record(schedule, s, e).events, w)|
  {
    RecordAccepted(schedule, s, e, w);
    ByWorkerOneMore(s.events, e, w);
    if e.workerId == w {
      NumberedOneMore(ByWorker(s.events, w), e);
    }
  }

  lemma NumberedOneMore(stream: seq<Event>, e: Event)
    requires Numbered(stream) && e.sequence == |stream| + 1
    ensures Numbered(stream + [e])
  {
  }

  lemma ByWorkerOneMore(log: seq<Event>, e: Event, w: string)
    ensures e.workerId == w ==> ByWorker(log + [e], w) == ByWorker(log, w) + [e]
    ensures e.workerId != w ==> ByWorker(log + [e], w) == ByWorker(log, w)
  {
    DropLast(log, e);
  }

  lemma RecordKeepsConsistent(schedule: Schedule, s: State, e: Event)
    requires Consistent(schedule, s)
    ensures Consistent(schedule, Record(schedule, s, e))
  {
    if Check(schedule, s, e).None? {
      var t := Record(schedule, s, e);
      forall n ensures NodeHistory(t, n) {
        RecordKeepsHistory(schedule, s, e, n);
      }
      forall w ensures Numbered(ByWorker(t.events, w)) && t.LastOf(w) == |ByWorker(t.events, w)| {
        RecordKeepsNumbers(schedule, s, e, w);
      }
      assert s.LastOf(e.workerId) == |ByWorker(s.events, e.workerId)|;
      OwnedIsScheduled(schedule, e.node);
    }
  }

  /**
   * After any sequence of calls, refused ones included: resolved nodes are started, started nodes
   * are scheduled, every node has a start and then at most one terminal event, each worker's
   * accepted events are numbered 1..k, and every accepted event came from the node's owner.
   */
  lemma {:induction false} ReplayConsistent(schedule: Schedule, log: seq<Event>)
    ensures Consistent(schedule, Replay(schedule, log))
  {
    if log != [] {
      ReplayConsistent(schedule, log[..|log| - 1]);
      RecordKeepsConsistent(schedule, Replay(schedule, log[..|log| - 1]), log[|log| - 1]);
    }
  }

  /** The node was started once and then resolved once, and the outcome is the one disclosed. */
  predicate DisclosedOnce(s: State, node: string) {
    var h := ByNode(s.events, node);
    |h| == 2 && h[0].started && !h[1].started && h[1].outcome.Some?
  }

  /**
   * `finalize` returns exactly when every scheduled node has one accepted start followed by one
   * accepted terminal event, and what it returns is those outcomes and nothing else.
   */
  lemma FinalizeIsExact(schedule: Schedule, log: seq<Event>)
    ensures var s := Replay(schedule, log);
            && (Finalized(schedule, s).Ok? <==> forall n :: n in schedule.Nodes() ==> DisclosedOnce(s, n))
            && (Finalized(schedule, s).Ok? ==>
                  var outcomes := Finalized(schedule, s).value;
                  && outcomes.Keys == (set n | n in schedule.Nodes())
                  && forall n :: n in outcomes ==> Some(outcomes[n]) == ByNode(s.events, n)[1].outcome)
  {
    var s := Replay(schedule, log);
    ReplayConsistent(schedule, log);
    forall n ensures n in s.resolved <==> DisclosedOnce(s, n) {
      assert NodeHistory(s, n);
    }
    if Finalized(schedule, s).Ok? {
      forall n | n in schedule.Nodes() ensures n in s.resolved {
        assert n !in (set n | n in schedule.Nodes()) - s.resolved.Keys;
      }
      assert s.resolved.Keys == set n | n in schedule.Nodes();
      forall n | n in s.resolved ensures Some(s.resolved[n]) == ByNode(s.events, n)[1].outcome {
        assert NodeHistory(s, n);
      }
    }
  }

  // --- interleavings ---

  /** The two states hold the same facts about worker `w` and the nodes it owns. */
  ghost predicate Agree(schedule: Schedule, w: string, s: State, t: State) {
    && (w in s.last <==> w in t.last) && s.LastOf(w) == t.LastOf(w)
    && forall n :: schedule.WorkerFor(n) == Ok(w) ==>
         && (n in s.started <==> n in t.started) && (n in s.started ==> s.started[n] == t.started[n])
         && (n in s.resolved <==> n in t.resolved) && (n in s.resolved ==> s.resolved[n] == t.resolved[n])
  }

  lemma AgreeDecides(schedule: Schedule, s: State, t: State, e: Event)
    requires Agree(schedule, e.workerId, s, t)
    ensures Check(schedule, s, e).None? <==> Check(schedule, t, e).None?
    ensures Agree(schedule, e.workerId, Record(schedule, s, e), Record(schedule, t, e))
  {
  }

  lemma AgreeElsewhere(schedule: Schedule, w: string, s: State, t: State, e: Event)
    requires Agree(schedule, w, s, t) && e.workerId != w
    ensures Agree(schedule, w, Record(schedule, s, e), t)
  {
  }

  lemma Snoc(schedule: Schedule, log: seq<Event>, e: Event)
    ensures Accepts(schedule, log + [e]) <==>
              Accepts(schedule, log) && Check(schedule, Replay(schedule, log), e).None?
    ensures Replay(schedule, log + [e]) == Record(schedule, Replay(schedule, log), e)
  {
    assert (log + [e])[..|log|] == log;
  }

  /** A worker's stream, replayed alone, is accepted too and leaves the same facts about it. */
  lemma {:induction false} ProjectionAgrees(schedule: Schedule, log: seq<Event>, w: string)
    requires Accepts(schedule, log)
    ensures Accepts(schedule, ByWorker(log, w))
    ensures Agree(schedule, w, Replay(schedule, log), Replay(schedule, ByWorker(log, w)))
  {
    if log != [] {
      var before, e := log[..|log| - 1], log[|log| - 1];
      ProjectionAgrees(schedule, before, w);
      if e.workerId == w {
        AgreeDecides(schedule, Replay(schedule, before), Replay(schedule, ByWorker(before, w)), e);
        Snoc(schedule, ByWorker(before, w), e);
        assert ByWorker(log, w) == ByWorker(before, w) + [e];
      } else {
        AgreeElsewhere(schedule, w, Replay(schedule, before), Replay(schedule, ByWorker(before, w)), e);
        assert ByWorker(log, w) == ByWorker(before, w);
      }
    }
  }

  /** A refused log has a worker whose own stream is refused. */
  lemma {:induction false} RefusedByWorker(schedule: Schedule, log: seq<Event>) returns (w: string)
    requires !Accepts(schedule, log)
    ensures !Accepts(schedule, ByWorker(log, w))
  {
    var before, e := log[..|log| - 1], log[|log| - 1];
    if Accepts(schedule, before) {
      w := e.workerId;
      ProjectionAgrees(schedule, before, w);
      AgreeDecides(schedule, Replay(schedule, before), Replay(schedule, ByWorker(before, w)), e);
    } else {
      w := RefusedByWorker(schedule, before);
    }
    Snoc(schedule, ByWorker(before, w), e);
    assert ByWorker(log, w) == ByWorker(before, w) + if e.workerId == w then [e] else [];
    assert e.workerId != w ==> ByWorker(log, w) == ByWorker(before, w);
  }

  /** A log is accepted exactly when every worker's own stream is. */
  lemma AcceptedByWorker(schedule: Schedule, log: seq<Event>)
    ensures Accepts(schedule, log) <==> forall w :: Accepts(schedule, ByWorker(log, w))
  {
    if Accepts(schedule, log) {
      forall w ensures Accepts(schedule, ByWorker(log, w)) {
        ProjectionAgrees(schedule, log, w);
      }
    } else {
      var w := RefusedByWorker(schedule, log);
    }
  }

  /** `log` and `log'` interleave the same per-worker streams. */
  ghost predicate SameStreams(log: seq<Event>, log': seq<Event>) {
    forall w :: ByWorker(log, w) == ByWorker(log', w)
  }

  /**
   * Confluence: the verdict and the outcome map depend only on the per-worker streams. Two
   * interleavings of the same streams are both accepted or both refused, and when accepted they
   * leave the same starts, outcomes and sequence numbers, and the same answer from `finalize`.
   */
  lemma InterleavingIrrelevant(schedule: Schedule, log: seq<Event>, log': seq<Event>)
    requires SameStreams(log, log')
    ensures Accepts(schedule, log) <==> Accepts(schedule, log')
    ensures Accepts(schedule, log) ==>
              var s, s' := Replay(schedule, log), Replay(schedule, log');
              && s.started == s'.started && s.resolved == s'.resolved && s.last == s'.last
              && Finalized(schedule, s) == Finalized(schedule, s')
  {
    if Accepts(schedule, log) != Accepts(schedule, log') {
      var refused := if Accepts(schedule, log) then log' else log;
      var accepted := if Accepts(schedule, log) then log else log';
      var w := RefusedByWorker(schedule, refused);
      assert ByWorker(log, w) == ByWorker(log', w);
      ProjectionAgrees(schedule, accepted, w);
    }
    if Accepts(schedule, log) {
      SameStreamsSameFacts(schedule, log, log');
    }
  }

  lemma SameStreamsSameFacts(schedule: Schedule, log: seq<Event>, log': seq<Event>)
    requires SameStreams(log, log') && Accepts(schedule, log) && Accepts(schedule, log')
    ensures var s, s' := Replay(schedule, log), Replay(schedule, log');
            s.started == s'.started && s.resolved == s'.resolved && s.last == s'.last
  {
    var s, s' := Replay(schedule, log), Replay(schedule, log');
    ReplayConsistent(schedule, log);
    ReplayConsistent(schedule, log');
    forall w ensures Agree(schedule, w, s, s') {
      assert ByWorker(log, w) == ByWorker(log', w);
      ProjectionAgrees(schedule, log, w);
      ProjectionAgrees(schedule, log', w);
    }
    SameFacts(schedule, s, s');
  }

  lemma SameFacts(schedule: Schedule, s: State, s': State)
    requires Consistent(schedule, s) && Consistent(schedule, s')
    requires forall w :: Agree(schedule, w, s, s')
    ensures s.started == s'.started && s.resolved == s'.resolved && s.last == s'.last
  {
    forall n ensures n in s.started <==> n in s'.started
             ensures n in s.started ==> s.started[n] == s'.started[n]
             ensures n in s.resolved <==> n in s'.resolved
             ensures n in s.resolved ==> s.resolved[n] == s'.resolved[n] {
      if schedule.WorkerFor(n).Ok? {
        assert Agree(schedule, schedule.WorkerFor(n).value, s, s');
      }
    }
    forall w ensures w in s.last <==> w in s'.last
             ensures w in s.last ==> s.last[w] == s'.last[w] {
      assert Agree(schedule, w, s, s');
    }
  }
}
