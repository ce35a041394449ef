/**
 * The interval watchdog: three ordered, non-borrowable intervals inside one internal total, a
 * clock that never runs backwards, and a first-violation latch that records whether or not the
 * run is enforcing.
 */
module Watchdog {
  import opened Common

  const PROVISIONING_MAX_SECONDS := 8.0
  const EXECUTION_MAX_SECONDS := 47.0
  const TEARDOWN_MAX_SECONDS := 4.0
  const INTERNAL_MAX_SECONDS := 59.0
  const EXTERNAL_MAX_SECONDS := 60.0
  const CONTIGUITY_TOLERANCE := 0.000001

  datatype Phase = Provisioning | Execution | Teardown

  const PHASE_ORDER := [Provisioning, Execution, Teardown]

  function Maximum(p: Phase): real {
    match p
    case Provisioning => PROVISIONING_MAX_SECONDS
    case Execution => EXECUTION_MAX_SECONDS
    case Teardown => TEARDOWN_MAX_SECONDS
  }

  datatype Interval = Interval(phase: Phase, startedAt: real, endedAt: real) {
    function Duration(): real { endedAt - startedAt }
  }

  datatype Boundary = IntervalOf(phase: Phase) | InternalTotal

  datatype Violation = Violation(phase: Option<Phase>, boundary: Boundary, limit: real, observed: real)

  datatype Fault =
    | AllComplete
    | OutOfOrder(expected: Phase)
    | StillOpen(current: Phase)
    | NotOpen
    | DeadlineExceeded(violation: Violation)
    | Incomplete(intervals: nat)
    | Unaccounted(wall: real, intervalSum: real)

  /** The watchdog's fields; `current` pairs the open phase with when it was entered. */
  datatype State = State(enforcing: bool, startedAt: real, records: seq<Interval>,
                         current: Option<(Phase, real)>, violation: Option<Violation>)

  /** `_fail`: latch the first violation; the run stops only when it is enforcing. */
  function Fail(s: State, v: Violation): (State, Option<Fault>) {
    (if s.violation.None? then s.(violation := Some(v)) else s,
     if s.enforcing then Some(DeadlineExceeded(v)) else None)
  }

  function OpenViolation(s: State, now: real): Option<Violation> {
    if s.current.Some? && now - s.current.value.1 > Maximum(s.current.value.0) then
      var p := s.current.value.0;
      Some(Violation(Some(p), IntervalOf(p), Maximum(p), now - s.current.value.1))
    else None
  }

  function TotalViolation(s: State, now: real): Option<Violation> {
    if now - s.startedAt > INTERNAL_MAX_SECONDS then
      Some(Violation(if s.current.Some? then Some(s.current.value.0) else None, InternalTotal,
                     INTERNAL_MAX_SECONDS, now - s.startedAt))
    else None
  }

  function FailIf(s: State, v: Option<Violation>): (State, Option<Fault>) {
    if v.Some? then Fail(s, v.value) else (s, None)
  }

  /** The open interval is judged before the internal total. */
  function Checked(s: State, now: real): (State, Option<Fault>) {
    var (judged, fault) := FailIf(s, OpenViolation(s, now));
    if fault.Some? then (judged, fault) else FailIf(judged, TotalViolation(judged, now))
  }

  function Entered(s: State, phase: Phase, now: real): (State, Option<Fault>) {
    if |s.records| >= |PHASE_ORDER| then (s, Some(AllComplete))
    else if phase != PHASE_ORDER[|s.records|] then (s, Some(OutOfOrder(PHASE_ORDER[|s.records|])))
    else if s.current.Some? then (s, Some(StillOpen(s.current.value.0)))
    else (s.(current := Some((phase, now))), None)
  }

  function Closed(s: State, ended: real): State
    requires s.current.Some?
  {
    s.(current := None, records := s.records + [Interval(s.current.value.0, s.current.value.1, ended)])
  }

  /** Closes the interval at `ended`; the internal total is judged at a later reading, `now`. */
  function Left(s: State, phase: Phase, ended: real, now: real): (State, Option<Fault>) {
    if s.current.None? || s.current.value.0 != phase then (s, Some(NotOpen))
    else
      var (failed, fault) := FailIf(Closed(s, ended), OpenViolation(s, ended));
      if fault.Some? then (failed, fault) else Checked(failed, now)
  }

  function SumDurations(records: seq<Interval>): real {
    if records == [] then 0.0 else SumDurations(records[..|records| - 1]) + records[|records| - 1].Duration()
  }

  function Abs(x: real): real { if x < 0.0 then -x else x }

  function InternalTotalOf(s: State): Result<real, Fault> {
    if |s.records| != |PHASE_ORDER| then Err(Incomplete(|s.records|))
    else
      var sum := SumDurations(s.records);
      var wall := s.records[|s.records| - 1].endedAt - s.startedAt;
      if Abs(wall - sum) > CONTIGUITY_TOLERANCE then Err(Unaccounted(wall, sum)) else Ok(sum)
  }

  class IntervalWatchdog {
    var enforcing: bool
    const startedAt: real
    var records: seq<Interval>
    var current: Option<Phase>
    var currentStartedAt: Option<real>
    var violation: Option<Violation>

    ghost predicate Valid()
      reads this
    {
      current.Some? <==> currentStartedAt.Some?
    }

    function Current(): State
      requires Valid()
      reads this
    {
      State(enforcing, startedAt, records,
            if current.Some? then Some((current.value, currentStartedAt.value)) else None, violation)
    }

    constructor (now: real, enforce: bool)
      ensures Valid() && Current() == State(enforce, now, [], None, None)
    {
      enforcing, startedAt := enforce, now;
      records, current, currentStartedAt, violation := [], None, None, None;
    }

    method SetEnforcing(value: bool)
      requires Valid()
      modifies this`enforcing
      ensures Valid() && Current() == old(Current()).(enforcing := value)
    {
      enforcing := value;
    }

    method Enter(phase: Phase, now: real) returns (fault: Option<Fault>)
      requires Valid()
      modifies this
      ensures Valid() && (Current(), fault) == Entered(old(Current()), phase, now)
    {
      var expectedIndex := |records|;
      if expectedIndex >= |PHASE_ORDER| {
        return Some(AllComplete);
      }
      var expected := PHASE_ORDER[expectedIndex];
      if phase != expected {
        return Some(OutOfOrder(expected));
      }
      if current.Some? {
        return Some(StillOpen(current.value));
      }
      current, currentStartedAt := Some(phase), Some(now);
      return None;
    }

    method FailWith(v: Violation) returns (fault: Option<Fault>)
      requires Valid()
      modifies this`violation
      ensures Valid() && (Current(), fault) == Fail(old(Current()), v)
    {
      if violation.None? {
        violation := Some(v);
      }
      return if enforcing then Some(DeadlineExceeded(v)) else None;
    }

    method Check(now: real) returns (fault: Option<Fault>)
      requires Valid()
      modifies this`violation
      ensures Valid() && (Current(), fault) == Checked(old(Current()), now)
    {
      if current.Some? {
        var limit, observed := Maximum(current.value), now - currentStartedAt.value;
        if observed > limit {
          fault := FailWith(Violation(current, IntervalOf(current.value), limit, observed));
          if fault.Some? {
            return;
          }
        }
      }
      var internalSeconds := now - startedAt;
      if internalSeconds > INTERNAL_MAX_SECONDS {
        fault := FailWith(Violation(current, InternalTotal, INTERNAL_MAX_SECONDS, internalSeconds));
        return;
      }
      return None;
    }

    method Leave(phase: Phase, ended: real, now: real) returns (fault: Option<Fault>)
      requires Valid()
      modifies this
      ensures Valid() && (Current(), fault) == Left(old(Current()), phase, ended, now)
    {
      if current != Some(phase) || currentStartedAt.None? {
        return Some(NotOpen);
      }
      var record := Interval(phase, currentStartedAt.value, ended);
      current, currentStartedAt := None, None;
      records := records + [record];
      if record.Duration() > Maximum(phase) {
        fault := FailWith(Violation(Some(phase), IntervalOf(phase), Maximum(phase), record.Duration()));
        if fault.Some? {
          return;
        }
      }
      fault := Check(now);
    }

    method TotalSeconds() returns (r: Result<real, Fault>)
      requires Valid()
      ensures r == InternalTotalOf(Current())
    {
      if |records| != |PHASE_ORDER| {
        return Err(Incomplete(|records|));
      }
      var intervalSum := 0.0;
      var i := 0;
      while i < |records|
        invariant 0 <= i <= |records| && intervalSum == SumDurations(records[..i])
      {
        assert records[..i + 1][..i] == records[..i];
        intervalSum := intervalSum + records[i].Duration();
        i := i + 1;
      }
      assert records[..i] == records;
      var wall := records[|records| - 1].endedAt - startedAt;
      if Abs(wall - intervalSum) > CONTIGUITY_TOLERANCE {
        return Err(Unaccounted(wall, intervalSum));
      }
      return Ok(intervalSum);
    }
  }

  // --- eligibility ---

  datatype Miss = IntervalMiss(phase: Phase, duration: real) | InternalMiss(seconds: real) | ExternalMiss(seconds: real)

  function IntervalMisses(intervals: seq<Interval>): seq<Miss> {
    if intervals == [] then []
    else
      var before, last := IntervalMisses(intervals[..|intervals| - 1]), intervals[|intervals| - 1];
      before + if last.Duration() > Maximum(last.phase) then [IntervalMiss(last.phase, last.Duration())] else []
  }

  function Misses(intervals: seq<Interval>, internalTotal: real, externalReal: real): seq<Miss> {
    IntervalMisses(intervals)
    + (if internalTotal > INTERNAL_MAX_SECONDS then [InternalMiss(internalTotal)] else [])
    + (if !(externalReal < EXTERNAL_MAX_SECONDS) then [ExternalMiss(externalReal)] else [])
  }

  method Eligible(intervals: seq<Interval>, internalTotal: real, externalReal: real)
    returns (verdict: bool, misses: seq<Miss>)
    ensures misses == Misses(intervals, internalTotal, externalReal)
    ensures verdict <==> misses == []
    ensures verdict <==>
              && (forall i :: 0 <= i < |intervals| ==> intervals[i].Duration() <= Maximum(intervals[i].phase))
              && internalTotal <= INTERNAL_MAX_SECONDS && externalReal < EXTERNAL_MAX_SECONDS
  {
    misses := [];
    var i := 0;
    while i < |intervals|
      invariant 0 <= i <= |intervals| && misses == IntervalMisses(intervals[..i])
      invariant misses == [] <==> forall k :: 0 <= k < i ==> intervals[k].Duration() <= Maximum(intervals[k].phase)
    {
      assert intervals[..i + 1][..i] == intervals[..i];
      var record := intervals[i];
      if record.Duration() > Maximum(record.phase) {
        misses := misses + [IntervalMiss(record.phase, record.Duration())];
      }
      i := i + 1;
    }
    assert intervals[..i] == intervals;
    if internalTotal > INTERNAL_MAX_SECONDS {
      misses := misses + [InternalMiss(internalTotal)];
    }
    if !(externalReal < EXTERNAL_MAX_SECONDS) {
      misses := misses + [ExternalMiss(externalReal)];
    }
    verdict := misses == [];
  }

  // --- runs under a monotone clock ---

  /** One call, with the clock readings it takes. */
  datatype Call =
    | EnterCall(phase: Phase, now: real)
    | CheckCall(now: real)
    | LeaveCall(phase: Phase, ended: real, now: real)
    | EnforceCall(value: bool)

  function Readings(c: Call): seq<real> {
    match c
    case EnterCall(_, now) => [now]
    case CheckCall(now) => [now]
    case LeaveCall(_, ended, now) => [ended, now]
    case EnforceCall(_) => []
  }

  function Step(s: State, c: Call): State {
    match c
    case EnterCall(p, now) => Entered(s, p, now).0
    case CheckCall(now) => Checked(s, now).0
    case LeaveCall(p, ended, now) => Left(s, p, ended, now).0
    case EnforceCall(v) => s.(enforcing := v)
  }

  function Run(start: State, calls: seq<Call>): State {
    if calls == [] then start else Step(Run(start, calls[..|calls| - 1]), calls[|calls| - 1])
  }

  /** The last clock reading of a run that began at `start`. */
  function LastReading(start: real, calls: seq<Call>): real {
    if calls == [] then start
    else
      var r := Readings(calls[|calls| - 1]);
      if r == [] then LastReading(start, calls[..|calls| - 1]) else r[|r| - 1]
  }

  /** The clock never runs backwards, within a call or from one call to the next. */
  predicate Monotone(start: real, calls: seq<Call>) {
    calls == [] ||
    var before, c := calls[..|calls| - 1], calls[|calls| - 1];
    && Monotone(start, before)
    && (Readings(c) == [] || LastReading(start, before) <= Readings(c)[0])
    && (c.LeaveCall? ==> c.ended <= c.now)
  }

  function Start(now: real, enforce: bool): State {
    State(enforce, now, [], None, None)
  }

  /** The time call `c` finds or leaves outside every interval, the clock last read at `last`. */
  function Gap(s: State, last: real, c: Call): real {
    match c
    case EnterCall(_, now) => if s.current.None? then now - last else 0.0
    case CheckCall(now) => if s.current.None? then now - last else 0.0
    case LeaveCall(p, ended, now) =>
      if s.current.None? then now - last else if s.current.value.0 == p then now - ended else 0.0
    case EnforceCall(_) => 0.0
  }

  /**
   * The time a run spent outside every interval, added up reading by reading. A `leave` that
   * closes the interval spends the time between its two readings outside.
   */
  function OutsideTime(s0: State, calls: seq<Call>): real {
    if calls == [] then 0.0
    else
      var before, c := calls[..|calls| - 1], calls[|calls| - 1];
      OutsideTime(s0, before) + Gap(Run(s0, before), LastReading(s0.startedAt, before), c)
  }

  /** How long the open interval has been running at time `now`. */
  function OpenTime(s: State, now: real): real {
    if s.current.Some? then now - s.current.value.1 else 0.0
  }

  lemma SumSnoc(records: seq<Interval>, r: Interval)
    ensures SumDurations(records + [r]) == SumDurations(records) + r.Duration()
  {
    assert (records + [r])[..|records|] == records;
  }

  function Index(p: Phase): nat {
    match p
    case Provisioning => 0
    case Execution => 1
    case Teardown => 2
  }

  predicate InOrder(s: State) {
    && |s.records| <= 3 && (forall i :: 0 <= i < |s.records| ==> s.records[i].phase == PHASE_ORDER[i])
    && (s.current.Some? ==> |s.records| == Index(s.current.value.0))
  }

  /** Interval `p` has overrun: it was closed too late, or is still open too late at `now`. */
  predicate Overran(s: State, p: Phase, now: real) {
    || (Index(p) < |s.records| && s.records[Index(p)].Duration() > Maximum(p))
    || (s.current.Some? && s.current.value.0 == p && OpenTime(s, now) > Maximum(p))
  }

  predicate WithinBudgets(s: State) {
    forall i :: 0 <= i < |s.records| ==> s.records[i].Duration() <= Maximum(s.records[i].phase)
  }

  /** What a latched violation implies about the run so far. */
  predicate Explained(s: State, now: real, outside: real) {
    match s.violation
    case None => WithinBudgets(s)
    case Some(v) =>
      match v.boundary
      case IntervalOf(p) => Overran(s, p, now)
      case InternalTotal => outside >= v.observed - INTERNAL_MAX_SECONDS > 0.0
  }

  predicate Sound(s0: State, s: State, now: real, outside: real) {
    && s.startedAt == s0.startedAt && InOrder(s) && outside >= 0.0
    && (s.current.Some? ==> s.current.value.1 <= now)
    && now - s.startedAt == SumDurations(s.records) + OpenTime(s, now) + outside
    && Explained(s, now, outside)
  }

  /** The three non-borrowable maxima sum to the internal total, so any excess lies outside them. */
  lemma BudgetsSumToTotal(s: State, now: real)
    requires InOrder(s) && WithinBudgets(s) && (s.current.Some? ==> OpenTime(s, now) <= Maximum(s.current.value.0))
    ensures SumDurations(s.records) + OpenTime(s, now) <= INTERNAL_MAX_SECONDS
  {
    var r := s.records;
    if |r| >= 1 {
      assert r[0].Duration() <= Maximum(Provisioning);
      assert r[..1] == [] + [r[0]];
      SumSnoc([], r[0]);
    }
    if |r| >= 2 {
      assert r[1].Duration() <= Maximum(Execution);
      assert r[..2] == r[..1] + [r[1]];
      SumSnoc(r[..1], r[1]);
    }
    if |r| == 3 {
      assert r[2].Duration() <= Maximum(Teardown);
      assert r[..3] == r[..2] + [r[2]];
      SumSnoc(r[..2], r[2]);
    }
    assert r[..|r|] == r;
  }

  lemma CheckKeepsSound(s0: State, s: State, now: real, outside: real)
    requires Sound(s0, s, now, outside)
    ensures Sound(s0, Checked(s, now).0, now, outside)
  {
    if s.violation.None? && OpenViolation(s, now).None? && TotalViolation(s, now).Some? {
      BudgetsSumToTotal(s, now);
    }
  }

  lemma TimePasses(s0: State, s: State, last: real, outside: real, now: real)
    requires Sound(s0, s, last, outside) && last <= now
    ensures Sound(s0, s, now, if s.current.None? then outside + (now - last) else outside)
  {
  }

  lemma CloseKeepsSound(s0: State, s: State, ended: real, outside: real)
    requires Sound(s0, s, ended, outside) && s.current.Some?
    ensures Sound(s0, FailIf(Closed(s, ended), OpenViolation(s, ended)).0, ended, outside)
  {
    var (p, entered) := s.current.value;
    SumSnoc(s.records, Interval(p, entered, ended));
    CloseKeepsOrder(s, ended);
    CloseKeepsExplained(s, ended, outside);
  }

  lemma CloseKeepsExplained(s: State, ended: real, outside: real)
    requires InOrder(s) && s.current.Some? && Explained(s, ended, outside)
    ensures Explained(FailIf(Closed(s, ended), OpenViolation(s, ended)).0, ended, outside)
  {
    CloseKeepsOrder(s, ended);
    if s.violation.Some? && s.violation.value.boundary.IntervalOf? {
      CloseKeepsOverrun(s, ended, s.violation.value.boundary.phase);
    }
  }

  lemma CloseKeepsOrder(s: State, ended: real)
    requires InOrder(s) && s.current.Some?
    ensures var t, p := Closed(s, ended), s.current.value.0;
            InOrder(t) && Index(p) < |t.records| && t.records[Index(p)] == Interval(p, s.current.value.1, ended)
    ensures WithinBudgets(s) && OpenViolation(s, ended).None? ==> WithinBudgets(Closed(s, ended))
  {
  }

  lemma CloseKeepsOverrun(s: State, ended: real, q: Phase)
    requires InOrder(s) && s.current.Some? && Overran(s, q, ended)
    ensures Overran(Closed(s, ended), q, ended)
  {
    CloseKeepsOrder(s, ended);
    var p := s.current.value.0;
    assert q != p && Index(q) < |s.records| ==> Closed(s, ended).records[Index(q)] == s.records[Index(q)];
  }

  lemma LeaveKeepsSound(s0: State, s: State, p: Phase, last: real, ended: real, now: real, outside: real)
    requires Sound(s0, s, last, outside) && last <= ended <= now
    ensures Sound(s0, Left(s, p, ended, now).0, now,
                  outside + if s.current.None? then now - last else if s.current.value.0 == p then now - ended else 0.0)
  {
    if s.current.None? || s.current.value.0 != p {
      TimePasses(s0, s, last, outside, now);
    } else {
      var (failed, fault) := FailIf(Closed(s, ended), OpenViolation(s, ended));
      assert Sound(s0, failed, ended, outside) by {
        TimePasses(s0, s, last, outside, ended);
        CloseKeepsSound(s0, s, ended, outside);
      }
      TimePasses(s0, failed, ended, outside, now);
      if fault.None? {
        CheckKeepsSound(s0, failed, now, outside + (now - ended));
      }
    }
  }

  lemma EnterKeepsSound(s0: State, s: State, p: Phase, last: real, now: real, outside: real)
    requires Sound(s0, s, last, outside) && last <= now
    ensures Sound(s0, Entered(s, p, now).0, now, outside + if s.current.None? then now - last else 0.0)
  {
    TimePasses(s0, s, last, outside, now);
    if Entered(s, p, now).1.None? {
      assert Index(p) == |s.records|;
    }
  }

  lemma StepKeepsSound(s0: State, s: State, last: real, outside: real, c: Call)
    requires Sound(s0, s, last, outside)
    requires (Readings(c) == [] || last <= Readings(c)[0]) && (c.LeaveCall? ==> c.ended <= c.now)
    ensures Sound(s0, Step(s, c), if Readings(c) == [] then last else Readings(c)[|Readings(c)| - 1],
                  outside + Gap(s, last, c))
  {
    match c
    case EnterCall(p, now) => EnterKeepsSound(s0, s, p, last, now, outside);
    case CheckCall(now) =>
      TimePasses(s0, s, last, outside, now);
      CheckKeepsSound(s0, s, now, outside + Gap(s, last, c));
    case LeaveCall(p, ended, now) => LeaveKeepsSound(s0, s, p, last, ended, now, outside);
    case EnforceCall(v) =>
  }

  /** Every run under a monotone clock is accounted for and its violation explained. */
  lemma {:induction false} RunSound(start: real, enforce: bool, calls: seq<Call>)
    requires Monotone(start, calls)
    ensures var s0 := Start(start, enforce);
            Sound(s0, Run(s0, calls), LastReading(start, calls), OutsideTime(s0, calls))
  {
    if calls != [] {
      var before := calls[..|calls| - 1];
      var s0 := Start(start, enforce);
      RunSound(start, enforce, before);
      StepKeepsSound(s0, Run(s0, before), LastReading(start, before), OutsideTime(s0, before), calls[|calls| - 1]);
    }
  }

  /** The latch: once recorded, a violation survives every later call, enforcing or not. */
  lemma {:induction false} ViolationLatches(s0: State, calls: seq<Call>, more: seq<Call>)
    requires Run(s0, calls).violation.Some?
    ensures Run(s0, calls + more).violation == Run(s0, calls).violation
  {
    if more == [] {
      assert calls + more == calls;
    } else {
      ViolationLatches(s0, calls, more[..|more| - 1]);
      assert (calls + more)[..|calls + more| - 1] == calls + more[..|more| - 1];
    }
  }

  /**
   * The internal total is blamed only when at least the excess over 59 seconds was spent outside
   * every interval: slack in one interval is never lent to another.
   */
  lemma TotalBlamedOnlyForGaps(start: real, enforce: bool, calls: seq<Call>)
    requires Monotone(start, calls)
    ensures var s0 := Start(start, enforce);
            var v := Run(s0, calls).violation;
            v.Some? && v.value.boundary == InternalTotal ==>
              OutsideTime(s0, calls) >= v.value.observed - INTERNAL_MAX_SECONDS > 0.0
  {
    RunSound(start, enforce, calls);
  }

  lemma {:induction false} NoMissesIffWithinBudgets(intervals: seq<Interval>)
    ensures IntervalMisses(intervals) == [] <==>
              forall i :: 0 <= i < |intervals| ==> intervals[i].Duration() <= Maximum(intervals[i].phase)
  {
    if intervals != [] {
      var n := |intervals| - 1;
      NoMissesIffWithinBudgets(intervals[..n]);
      assert intervals == intervals[..n] + [intervals[n]];
    }
  }

  /** A completed run with no violation, an accepted total and a fast enough outside is eligible. */
  lemma CleanRunIsEligible(start: real, enforce: bool, calls: seq<Call>, externalReal: real)
    requires Monotone(start, calls)
    requires var s := Run(Start(start, enforce), calls); s.violation.None? && InternalTotalOf(s).Ok?
    requires externalReal < EXTERNAL_MAX_SECONDS
    ensures var s := Run(Start(start, enforce), calls);
            Misses(s.records, InternalTotalOf(s).value, externalReal) == []
  {
    RunSound(start, enforce, calls);
    var s := Run(Start(start, enforce), calls);
    NoMissesIffWithinBudgets(s.records);
    assert s.current.None?;
    BudgetsSumToTotal(s, 0.0);
  }

  /** An eligible completed run carries no violation of its own intervals, whenever it was judged. */
  lemma EligibleRunBlamesOnlyTotal(start: real, enforce: bool, calls: seq<Call>, total: real, externalReal: real)
    requires Monotone(start, calls)
    requires var s := Run(Start(start, enforce), calls);
             |s.records| == |PHASE_ORDER| && Misses(s.records, total, externalReal) == []
    ensures var v := Run(Start(start, enforce), calls).violation;
            v.None? || v.value.boundary == InternalTotal
  {
    RunSound(start, enforce, calls);
    NoMissesIffWithinBudgets(Run(Start(start, enforce), calls).records);
  }

  /** An accepted internal total leaves at most one tick unaccounted for before the last interval closed. */
  lemma AcceptedTotalBoundsGaps(start: real, enforce: bool, calls: seq<Call>)
    requires Monotone(start, calls)
    requires InternalTotalOf(Run(Start(start, enforce), calls)).Ok?
    ensures var s0 := Start(start, enforce);
            var s := Run(s0, calls);
            var afterwards := LastReading(start, calls) - s.records[|s.records| - 1].endedAt;
            OutsideTime(s0, calls) - afterwards <= CONTIGUITY_TOLERANCE
  {
    RunSound(start, enforce, calls);
  }

  /** The reading at which call `c` judges the internal total: a check's, or the second of a closing leave. */
  function JudgedAt(s: State, c: Call): Option<real> {
    match c
    case CheckCall(now) => Some(now)
    case LeaveCall(p, _, now) => if s.current.Some? && s.current.value.0 == p then Some(now) else None
    case _ => None
  }

  /** Some reading that judges the internal total came more than 59 seconds after the start. */
  predicate JudgedLate(s0: State, calls: seq<Call>) {
    calls != [] &&
    var before, c := calls[..|calls| - 1], calls[|calls| - 1];
    var reading := JudgedAt(Run(s0, before), c);
    || JudgedLate(s0, before)
    || (reading.Some? && reading.value - s0.startedAt > INTERNAL_MAX_SECONDS)
  }

  lemma CheckedLate(s: State, now: real)
    ensures Checked(s, now).0.startedAt == s.startedAt
    ensures now - s.startedAt > INTERNAL_MAX_SECONDS ==> Checked(s, now).0.violation.Some?
    ensures (s.violation.None? && Checked(s, now).0.violation.Some?
             && Checked(s, now).0.violation.value.boundary == InternalTotal) ==> now - s.startedAt > INTERNAL_MAX_SECONDS
    ensures s.violation.Some? ==> Checked(s, now).0.violation == s.violation
  {
  }

  lemma StepJudges(s: State, c: Call)
    ensures var t, reading := Step(s, c), JudgedAt(s, c);
            && t.startedAt == s.startedAt
            && (reading.Some? && reading.value - s.startedAt > INTERNAL_MAX_SECONDS ==> t.violation.Some?)
            && (s.violation.Some? ==> t.violation == s.violation)
            && (s.violation.None? && t.violation.Some? && t.violation.value.boundary == InternalTotal ==>
                  reading.Some? && reading.value - s.startedAt > INTERNAL_MAX_SECONDS)
  {
    match c
    case CheckCall(now) => CheckedLate(s, now);
    case LeaveCall(p, ended, now) =>
      if s.current.Some? && s.current.value.0 == p {
        CheckedLate(FailIf(Closed(s, ended), OpenViolation(s, ended)).0, now);
      }
    case _ =>
  }

  /** A late judgement always leaves a violation, and the internal total is blamed only after one. */
  lemma {:induction false} LateJudgements(s0: State, calls: seq<Call>)
    requires s0.violation.None?
    ensures Run(s0, calls).startedAt == s0.startedAt
    ensures JudgedLate(s0, calls) ==> Run(s0, calls).violation.Some?
    ensures Run(s0, calls).violation.Some? && Run(s0, calls).violation.value.boundary == InternalTotal ==> JudgedLate(s0, calls)
  {
    if calls != [] {
      var before := calls[..|calls| - 1];
      LateJudgements(s0, before);
      StepJudges(Run(s0, before), calls[|calls| - 1]);
    }
  }

  /**
   * When an eligible run carries a violation all the same: exactly when some reading that judges the
   * internal total came more than 59 seconds after the start, and it is then the total that is blamed.
   */
  lemma EligibleRunViolatesExactly(start: real, enforce: bool, calls: seq<Call>, total: real, externalReal: real)
    requires Monotone(start, calls)
    requires var s := Run(Start(start, enforce), calls);
             |s.records| == |PHASE_ORDER| && Misses(s.records, total, externalReal) == []
    ensures var v := Run(Start(start, enforce), calls).violation;
            && (v.Some? <==> JudgedLate(Start(start, enforce), calls))
            && (v.Some? ==> v.value.boundary == InternalTotal)
  {
    LateJudgements(Start(start, enforce), calls);
    EligibleRunBlamesOnlyTotal(start, enforce, calls, total, externalReal);
  }

  const FIRST_HALF: seq<Call> := [EnterCall(Provisioning, 0.0), LeaveCall(Provisioning, 8.0, 8.0),
                                  EnterCall(Execution, 8.0), LeaveCall(Execution, 55.0, 55.0)]

  /** Three back-to-back intervals of exactly their maxima, the clock read once more at the end. */
  const CONTIGUOUS: seq<Call> := FIRST_HALF + [EnterCall(Teardown, 55.0)] + [LeaveCall(Teardown, 59.0, 59.1)]

  lemma FirstHalf()
    ensures Run(Start(0.0, false), FIRST_HALF) ==
              Start(0.0, false).(records := [Interval(Provisioning, 0.0, 8.0), Interval(Execution, 8.0, 55.0)])
    ensures Monotone(0.0, FIRST_HALF) && LastReading(0.0, FIRST_HALF) == 55.0
  {
    var s0 := Start(0.0, false);
    var c1 := [] + [EnterCall(Provisioning, 0.0)];
    var c2 := c1 + [LeaveCall(Provisioning, 8.0, 8.0)];
    var c3 := c2 + [EnterCall(Execution, 8.0)];
    CallSnoc(s0, [], EnterCall(Provisioning, 0.0));
    CallSnoc(s0, c1, LeaveCall(Provisioning, 8.0, 8.0));
    CallSnoc(s0, c2, EnterCall(Execution, 8.0));
    CallSnoc(s0, c3, LeaveCall(Execution, 55.0, 55.0));
    LeaveWithinBudget(Run(s0, c1), 8.0, 8.0);
    LeaveWithinBudget(Run(s0, c3), 55.0, 55.0);
    assert c3 + [LeaveCall(Execution, 55.0, 55.0)] == FIRST_HALF;
  }

  /**
   * The remaining gap is real: a contiguous 59-second run is eligible, yet the reading taken just
   * after its last interval closed latches an internal-total violation.
   */
  lemma EligibleRunCanBlameTotal()
    ensures var s := Run(Start(0.0, false), CONTIGUOUS);
            && Monotone(0.0, CONTIGUOUS) && InternalTotalOf(s) == Ok(59.0) && Misses(s.records, 59.0, 59.5) == []
            && s.violation == Some(Violation(None, InternalTotal, 59.0, 59.1))
  {
    var s0 := Start(0.0, false);
    FirstHalf();
    var c5 := FIRST_HALF + [EnterCall(Teardown, 55.0)];
    CallSnoc(s0, FIRST_HALF, EnterCall(Teardown, 55.0));
    CallSnoc(s0, c5, LeaveCall(Teardown, 59.0, 59.1));
    LeaveWithinBudget(Run(s0, c5), 59.0, 59.1);
    var r1 := [] + [Interval(Provisioning, 0.0, 8.0)];
    var r2 := r1 + [Interval(Execution, 8.0, 55.0)];
    assert r2 == [Interval(Provisioning, 0.0, 8.0), Interval(Execution, 8.0, 55.0)];
    ContiguousTotal(Run(s0, CONTIGUOUS), r1, r2, r2 + [Interval(Teardown, 55.0, 59.0)]);
  }

  lemma ContiguousTotal(s: State, r1: seq<Interval>, r2: seq<Interval>, r3: seq<Interval>)
    requires r1 == [] + [Interval(Provisioning, 0.0, 8.0)] && r2 == r1 + [Interval(Execution, 8.0, 55.0)]
    requires r3 == r2 + [Interval(Teardown, 55.0, 59.0)] && s.records == r3 && s.startedAt == 0.0
    ensures InternalTotalOf(s) == Ok(59.0) && Misses(r3, 59.0, 59.5) == []
  {
    SumSnoc([], Interval(Provisioning, 0.0, 8.0));
    SumSnoc(r1, Interval(Execution, 8.0, 55.0));
    SumSnoc(r2, Interval(Teardown, 55.0, 59.0));
    NoMissesIffWithinBudgets(r3);
  }

  /** Closing an interval within its budget in an unviolated, non-enforcing run. */
  lemma LeaveWithinBudget(s: State, ended: real, now: real)
    requires s.current.Some? && s.violation.None? && !s.enforcing
    requires ended - s.current.value.1 <= Maximum(s.current.value.0)
    ensures var (p, entered) := s.current.value;
            Left(s, p, ended, now).0 ==
              s.(current := None, records := s.records + [Interval(p, entered, ended)],
                 violation := if now - s.startedAt > INTERNAL_MAX_SECONDS
                              then Some(Violation(None, InternalTotal, INTERNAL_MAX_SECONDS, now - s.startedAt)) else None)
  {
  }

  lemma CallSnoc(s0: State, calls: seq<Call>, c: Call)
    ensures Run(s0, calls + [c]) == Step(Run(s0, calls), c)
    ensures LastReading(s0.startedAt, calls + [c]) ==
              if Readings(c) == [] then LastReading(s0.startedAt, calls) else Readings(c)[|Readings(c)| - 1]
    ensures Monotone(s0.startedAt, calls + [c]) <==>
              && Monotone(s0.startedAt, calls)
              && (Readings(c) == [] || LastReading(s0.startedAt, calls) <= Readings(c)[0])
              && (c.LeaveCall? ==> c.ended <= c.now)
  {
    assert (calls + [c])[..|calls|] == calls;
  }
}
