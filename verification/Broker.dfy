/**
 * Single-use controls. The class is the broker as one caller sees it; the transition system below
 * it interleaves any number of handler threads, over any number of brokers sharing one marker
 * directory, with files that change under them and a clock that may read anything.
 */
module Broker {
  import opened Common

  const REQUIRED_MODE := 0x180 // octal 0600

  datatype Value = Null | Text(text: string) | Number(number: real) | Other(json: string)

  type Fields = map<string, Value>

  /** The library calls authentication rests on, as parameters. */
  datatype Primitives = Primitives(
    mac: (string, string) -> string,        // secret, payload
    digest: string -> string,               // payload
    parse: string -> Option<Fields>,        // json.loads of a payload; None when it raises
    asNumber: Value -> Option<real>)        // float(); None when it raises

  datatype Content = Unreadable | NotAMapping | Document(payload: Option<string>, mac: Option<string>)

  datatype File = File(regular: bool, mode: nat, content: Content)

  datatype Reason =
    | AdmissionClosed | NoControl | NotRegular | WrongMode | Unreadable' | Malformed
    | BadMac | Expired | OtherChild | Replayed

  /** `Crashed` is an exception other than a refusal: nobody is admitted, nothing is consumed. */
  datatype Verdict = Accepted(payload: string, mac: string, judgedAt: real) | Rejected(reason: Reason) | Crashed

  function Get(bound: Fields, name: string): Value {
    if name in bound then bound[name] else Null
  }

  predicate Matches(bound: Fields, expectations: Fields) {
    forall name :: name in expectations ==> Get(bound, name) == expectations[name]
  }

  function ExpiresAt(p: Primitives, payload: string): Option<real> {
    var bound := p.parse(payload);
    if bound.None? || "expires_at" !in bound.value then None else p.asNumber(bound.value["expires_at"])
  }

  /** Comparing in constant time raises on anything but ASCII. */
  predicate Comparable(mac: string) {
    forall i :: 0 <= i < |mac| ==> mac[i] < 128 as char
  }

  predicate Authentic(p: Primitives, secret: string, payload: string, mac: string) {
    Comparable(mac) && mac == p.mac(secret, payload)
  }

  predicate Unexpired(p: Primitives, payload: string, judgedAt: real) {
    ExpiresAt(p, payload).Some? && judgedAt <= ExpiresAt(p, payload).value
  }

  predicate Bound(p: Primitives, payload: string, expectations: Fields) {
    p.parse(payload).Some? && Matches(p.parse(payload).value, expectations)
  }

  // --- the broker, one call at a time ---

  /** The verdict of one call; the first check that fails decides it, and only the last one leaves a mark. */
  function Judged(p: Primitives, secret: string, open: bool, files: map<string, File>, markers: set<string>,
                  path: string, expectations: Fields, now: real): Verdict {
    if !open then Rejected(AdmissionClosed)
    else if path !in files then Rejected(NoControl)
    else if !files[path].regular then Rejected(NotRegular)
    else if files[path].mode != REQUIRED_MODE then Rejected(WrongMode)
    else
      match files[path].content
      case Unreadable => Rejected(Unreadable')
      case NotAMapping => Crashed
      case Document(payload, mac) =>
        if payload.None? || mac.None? then Rejected(Malformed)
        else if !Comparable(mac.value) then Crashed
        else if !Authentic(p, secret, payload.value, mac.value) then Rejected(BadMac)
        else if ExpiresAt(p, payload.value).None? then Crashed
        else if now > ExpiresAt(p, payload.value).value then Rejected(Expired)
        else if !Matches(p.parse(payload.value).value, expectations) then Rejected(OtherChild)
        else if p.digest(payload.value) in markers then Rejected(Replayed)
        else Accepted(payload.value, mac.value, now)
  }

  /** The durable half of consumption: one marker file per digest, created exclusively. */
  class MarkerDirectory {
    var markers: set<string>

    constructor ()
      ensures markers == {}
    {
      markers := {};
    }

    method CreateExclusively(digest: string) returns (created: bool)
      modifies this
      ensures created <==> digest !in old(markers)
      ensures markers == old(markers) + {digest}
    {
      created := digest !in markers;
      markers := markers + {digest};
    }
  }

  class ControlBroker {
    const secret: string
    const consumedRoot: MarkerDirectory
    var admissionOpen: bool
    var consumed: set<string>

    constructor (secret: string, consumedRoot: MarkerDirectory)
      ensures this.secret == secret && this.consumedRoot == consumedRoot
      ensures admissionOpen && consumed == {}
    {
      this.secret, this.consumedRoot := secret, consumedRoot;
      admissionOpen, consumed := true, {};
    }

    method CloseAdmission()
      modifies this`admissionOpen
      ensures !admissionOpen
    {
      admissionOpen := false;
    }

    method Authenticate(p: Primitives, files: map<string, File>, path: string, expectations: Fields, now: real)
      returns (v: Verdict)
      modifies this`consumed, consumedRoot
      ensures v == Judged(p, secret, old(admissionOpen), files, old(consumedRoot.markers), path, expectations, now)
      ensures consumedRoot.markers == old(consumedRoot.markers) + if v.Accepted? then {p.digest(v.payload)} else {}
      ensures consumed == old(consumed) + if v.Accepted? then {p.digest(v.payload)} else {}
    {
      if !admissionOpen {
        return Rejected(AdmissionClosed);
      }
      if path !in files {
        return Rejected(NoControl);
      }
      var file := files[path];
      if !file.regular {
        return Rejected(NotRegular);
      }
      if file.mode != REQUIRED_MODE {
        return Rejected(WrongMode);
      }
      if file.content == Unreadable {
        return Rejected(Unreadable');
      }
      if file.content == NotAMapping {
        return Crashed;
      }
      if file.content.payload.None? || file.content.mac.None? {
        return Rejected(Malformed);
      }
      var payload, mac := file.content.payload.value, file.content.mac.value;
      if !Comparable(mac) {
        return Crashed;
      }
      if mac != p.mac(secret, payload) {
        return Rejected(BadMac);
      }
      var bound, expiresAt := p.parse(payload), ExpiresAt(p, payload);
      if expiresAt.None? {
        return Crashed;
      }
      if now > expiresAt.value {
        return Rejected(Expired);
      }
      if !Matches(bound.value, expectations) {
        return Rejected(OtherChild);
      }
      var created := consumedRoot.CreateExclusively(p.digest(payload));
      if !created {
        assert consumedRoot.markers == old(consumedRoot.markers);
        return Rejected(Replayed);
      }
      consumed := consumed + {p.digest(payload)};
      return Accepted(payload, mac, now);
    }
  }

  // --- handler threads, interleaved ---

  /** Where a handler thread stands inside `authenticate`; each stop is one atomic step. */
  datatype Stage =
    | AtAdmission | AtExists | AtStat | AtRead
    | AtMac(payload: string, mac: string)
    | AtExpiry(payload: string, mac: string)
    | AtBinding(payload: string, mac: string, judgedAt: real)
    | AtConsume(payload: string, mac: string, judgedAt: real)
    | Done(verdict: Verdict)

  datatype Thread = Thread(broker: nat, path: string, expectations: Fields, stage: Stage)

  datatype BrokerState = BrokerState(secret: string, open: bool)

  datatype State = State(brokers: map<nat, BrokerState>, files: map<string, File>, markers: set<string>,
                         threads: map<nat, Thread>)

  datatype Action =
    | Spawn(id: nat, broker: nat, path: string, expectations: Fields)
    | Advance(id: nat, now: real)
    | Close(broker: nat)
    | Touch(path: string, file: Option<File>)

  /** The next stage of a thread that is not about to consume. */
  function NextStage(p: Primitives, b: BrokerState, files: map<string, File>, t: Thread, now: real): Stage {
    match t.stage
    case AtAdmission => if b.open then AtExists else Done(Rejected(AdmissionClosed))
    case AtExists => if t.path in files then AtStat else Done(Rejected(NoControl))
    case AtStat =>
      if t.path !in files then Done(Crashed)
      else if !files[t.path].regular then Done(Rejected(NotRegular))
      else if files[t.path].mode != REQUIRED_MODE then Done(Rejected(WrongMode))
      else AtRead
    case AtRead =>
      if t.path !in files then Done(Rejected(Unreadable'))
      else (match files[t.path].content
        case Unreadable => Done(Rejected(Unreadable'))
        case NotAMapping => Done(Crashed)
        case Document(payload, mac) =>
          if payload.None? || mac.None? then Done(Rejected(Malformed)) else AtMac(payload.value, mac.value))
    case AtMac(payload, mac) =>
      if !Comparable(mac) then Done(Crashed)
      else if Authentic(p, b.secret, payload, mac) then AtExpiry(payload, mac) else Done(Rejected(BadMac))
    case AtExpiry(payload, mac) =>
      if ExpiresAt(p, payload).None? then Done(Crashed)
      else if now > ExpiresAt(p, payload).value then Done(Rejected(Expired))
      else AtBinding(payload, mac, now)
    case AtBinding(payload, mac, at) =>
      if Bound(p, payload, t.expectations) then AtConsume(payload, mac, at) else Done(Rejected(OtherChild))
    case AtConsume(_, _, _) => t.stage
    case Done(_) => t.stage
  }

  function Next(p: Primitives, s: State, a: Action): State {
    match a
    case Spawn(id, b, path, expectations) =>
      if id in s.threads || b !in s.brokers then s
      else s.(threads := s.threads[id := Thread(b, path, expectations, AtAdmission)])
    case Advance(id, now) =>
      if id !in s.threads || s.threads[id].broker !in s.brokers then s
      else
        var t := s.threads[id];
        if t.stage.AtConsume? then
          var d := p.digest(t.stage.payload);
          if d in s.markers then s.(threads := s.threads[id := t.(stage := Done(Rejected(Replayed)))])
          else s.(markers := s.markers + {d},
                  threads := s.threads[id := t.(stage := Done(Accepted(t.stage.payload, t.stage.mac, t.stage.judgedAt)))])
        else s.(threads := s.threads[id := t.(stage := NextStage(p, s.brokers[t.broker], s.files, t, now))])
    case Close(b) =>
      if b in s.brokers then s.(brokers := s.brokers[b := s.brokers[b].(open := false)]) else s
    case Touch(path, file) =>
      s.(files := if file.Some? then s.files[path := file.value] else s.files - {path})
  }

  function Run(p: Primitives, s0: State, actions: seq<Action>): State {
    if actions == [] then s0
    else Next(p, Run(p, s0, actions[..|actions| - 1]), actions[|actions| - 1])
  }

  /** No thread has been spawned yet; the marker directory may already hold markers. */
  predicate Initial(s: State) {
    s.threads == map[]
  }

  /** Thread `t`'s stage carries the evidence for every check it has passed. */
  predicate Vetted(p: Primitives, secret: string, t: Thread) {
    match t.stage
    case AtExpiry(payload, mac) => Authentic(p, secret, payload, mac)
    case AtBinding(payload, mac, at) => Authentic(p, secret, payload, mac) && Unexpired(p, payload, at)
    case AtConsume(payload, mac, at) => Deserved(p, secret, t.expectations, payload, mac, at)
    case Done(Accepted(payload, mac, at)) => Deserved(p, secret, t.expectations, payload, mac, at)
    case _ => true
  }

  /** Authentic under the secret, judged no later than its expiry, and bound to the expected child. */
  predicate Deserved(p: Primitives, secret: string, expectations: Fields, payload: string, mac: string,
                     judgedAt: real) {
    Authentic(p, secret, payload, mac) && Unexpired(p, payload, judgedAt) && Bound(p, payload, expectations)
  }

  function Admitted(t: Thread): Option<string> {
    if t.stage.Done? && t.stage.verdict.Accepted? then Some(t.stage.verdict.payload) else None
  }

  predicate AdmittedDigest(p: Primitives, s: State, id: nat, d: string) {
    id in s.threads && Admitted(s.threads[id]).Some? && p.digest(Admitted(s.threads[id]).value) == d
  }

  ghost predicate AllVetted(p: Primitives, s0: State, s: State) {
    && s.brokers.Keys == s0.brokers.Keys
    && (forall b :: b in s.brokers ==> s.brokers[b].secret == s0.brokers[b].secret)
    && (forall id :: id in s.threads ==>
          s.threads[id].broker in s0.brokers && Vetted(p, s0.brokers[s.threads[id].broker].secret, s.threads[id]))
  }

  /** The markers are the old ones and the admitted digests; no digest is admitted by two threads. */
  ghost predicate MarkersExact(p: Primitives, s0: State, s: State) {
    && s0.markers <= s.markers
    && (forall d :: d in s.markers - s0.markers ==> exists id: nat :: AdmittedDigest(p, s, id, d))
    && (forall id: nat, d :: AdmittedDigest(p, s, id, d) ==> d in s.markers - s0.markers)
    && (forall i: nat, j: nat, d :: AdmittedDigest(p, s, i, d) && AdmittedDigest(p, s, j, d) ==> i == j)
  }

  lemma StageKeepsVetted(p: Primitives, b: BrokerState, files: map<string, File>, t: Thread, now: real)
    requires Vetted(p, b.secret, t)
    ensures Vetted(p, b.secret, t.(stage := NextStage(p, b, files, t, now)))
  {
  }

  lemma NextKeepsVetted(p: Primitives, s0: State, s: State, a: Action)
    requires AllVetted(p, s0, s)
    ensures AllVetted(p, s0, Next(p, s, a))
  {
    forall id | id in Next(p, s, a).threads
      ensures Next(p, s, a).threads[id].broker in s0.brokers
      ensures Vetted(p, s0.brokers[Next(p, s, a).threads[id].broker].secret, Next(p, s, a).threads[id])
    {
      ThreadStaysVetted(p, s0, s, a, id);
    }
  }

  lemma ThreadStaysVetted(p: Primitives, s0: State, s: State, a: Action, id: nat)
    requires AllVetted(p, s0, s) && id in Next(p, s, a).threads
    ensures var t := Next(p, s, a).threads[id]; t.broker in s0.brokers && Vetted(p, s0.brokers[t.broker].secret, t)
  {
    if a.Advance? && a.id == id && id in s.threads {
      var t := s.threads[id];
      StageKeepsVetted(p, s.brokers[t.broker], s.files, t, a.now);
    }
  }

  /** The admitted digests after a step: only a winning exclusive create adds one. */
  lemma NextAdmits(p: Primitives, s: State, a: Action, id: nat, d: string)
    ensures AdmittedDigest(p, Next(p, s, a), id, d) <==>
              AdmittedDigest(p, s, id, d) || (a.Advance? && a.id == id && Wins(p, s, id, d))
    ensures d in Next(p, s, a).markers <==> d in s.markers || (a.Advance? && Wins(p, s, a.id, d))
  {
  }

  /** Thread `id` is about to create the marker for `d`, and no one has yet. */
  predicate Wins(p: Primitives, s: State, id: nat, d: string) {
    && id in s.threads && s.threads[id].broker in s.brokers && s.threads[id].stage.AtConsume?
    && d == p.digest(s.threads[id].stage.payload) && d !in s.markers
  }

  lemma NextKeepsMarkersExact(p: Primitives, s0: State, s: State, a: Action)
    requires MarkersExact(p, s0, s)
    ensures MarkersExact(p, s0, Next(p, s, a))
  {
    var s' := Next(p, s, a);
    forall id: nat, d
      ensures AdmittedDigest(p, s', id, d) <==> AdmittedDigest(p, s, id, d) || (a.Advance? && a.id == id && Wins(p, s, id, d))
      ensures d in s'.markers <==> d in s.markers || (a.Advance? && Wins(p, s, a.id, d))
    {
      NextAdmits(p, s, a, id, d);
    }
    forall d ensures d in s'.markers <==> d in s.markers || (a.Advance? && Wins(p, s, a.id, d)) {
      NextAdmits(p, s, a, 0, d);
    }
    forall d | d in s'.markers - s0.markers ensures exists id: nat :: AdmittedDigest(p, s', id, d) {
      if d in s.markers {
        assert d in s.markers - s0.markers;
        var id: nat :| AdmittedDigest(p, s, id, d);
        assert AdmittedDigest(p, s', id, d);
      } else {
        assert AdmittedDigest(p, s', a.id, d);
      }
    }
  }

  lemma {:induction false} RunSafe(p: Primitives, s0: State, actions: seq<Action>)
    requires Initial(s0)
    ensures AllVetted(p, s0, Run(p, s0, actions)) && MarkersExact(p, s0, Run(p, s0, actions))
  {
    if actions != [] {
      var before, a := actions[..|actions| - 1], actions[|actions| - 1];
      RunSafe(p, s0, before);
      NextKeepsVetted(p, s0, Run(p, s0, before), a);
      NextKeepsMarkersExact(p, s0, Run(p, s0, before), a);
    }
  }

  /**
   * Over every interleaving of threads and brokers on one marker directory, a control digest is
   * accepted at most once, and never if it was already marked when the run began.
   */
  lemma DigestAcceptedOnce(p: Primitives, s0: State, actions: seq<Action>, i: nat, j: nat, d: string)
    requires Initial(s0)
    requires AdmittedDigest(p, Run(p, s0, actions), i, d) && AdmittedDigest(p, Run(p, s0, actions), j, d)
    ensures i == j && d !in s0.markers && d in Run(p, s0, actions).markers
  {
    RunSafe(p, s0, actions);
  }

  /**
   * A marker that a run adds belongs to exactly one accepting thread, whose control was authentic
   * under its broker's secret, unexpired when judged, and bound to the child that broker expected.
   */
  lemma MarkersAreDeserved(p: Primitives, s0: State, actions: seq<Action>, d: string)
    requires Initial(s0)
    ensures var s := Run(p, s0, actions);
            d in s.markers - s0.markers <==> exists id: nat :: AdmittedDigest(p, s, id, d)
    ensures var s := Run(p, s0, actions);
            forall id: nat :: AdmittedDigest(p, s, id, d) ==>
              && s.threads[id].broker in s0.brokers
              && var v := s.threads[id].stage.verdict;
                 Deserved(p, s0.brokers[s.threads[id].broker].secret, s.threads[id].expectations, v.payload, v.mac, v.judgedAt)
  {
    RunSafe(p, s0, actions);
    var s := Run(p, s0, actions);
    forall id: nat | AdmittedDigest(p, s, id, d)
      ensures s.threads[id].broker in s0.brokers
      ensures var v := s.threads[id].stage.verdict;
              Deserved(p, s0.brokers[s.threads[id].broker].secret, s.threads[id].expectations, v.payload, v.mac, v.judgedAt)
    {
      assert Vetted(p, s0.brokers[s.threads[id].broker].secret, s.threads[id]);
    }
  }

  // --- a thread alone is the sequential call, and refusal does not consume ---

  /** The state after thread `id` takes `steps` steps with nothing else moving and the clock at `now`. */
  function Alone(p: Primitives, s: State, id: nat, now: real, steps: nat): State {
    if steps == 0 then s else Next(p, Alone(p, s, id, now, steps - 1), Advance(id, now))
  }

  /** The stage a thread reaches from the admission check after `steps` stages that do not consume. */
  function StageAfter(p: Primitives, b: BrokerState, files: map<string, File>, t: Thread, now: real,
                      steps: nat): Stage {
    if steps == 0 then AtAdmission
    else NextStage(p, b, files, t.(stage := StageAfter(p, b, files, t, now, steps - 1)), now)
  }

  /** Where a thread stands once it has read the file, if nothing else moved. */
  function Loaded(b: BrokerState, files: map<string, File>, path: string): Stage {
    if !b.open then Done(Rejected(AdmissionClosed))
    else if path !in files then Done(Rejected(NoControl))
    else if !files[path].regular then Done(Rejected(NotRegular))
    else if files[path].mode != REQUIRED_MODE then Done(Rejected(WrongMode))
    else
      var c := files[path].content;
      if c == Unreadable then Done(Rejected(Unreadable'))
      else if c == NotAMapping then Done(Crashed)
      else if c.payload.None? || c.mac.None? then Done(Rejected(Malformed))
      else AtMac(c.payload.value, c.mac.value)
  }

  lemma LoadsInFourStages(p: Primitives, b: BrokerState, files: map<string, File>, t: Thread, now: real)
    ensures StageAfter(p, b, files, t, now, 4) == Loaded(b, files, t.path)
    ensures forall k: nat :: k <= 4 ==> !StageAfter(p, b, files, t, now, k).AtConsume?
  {
    var s1 := StageAfter(p, b, files, t, now, 1);
    var s2 := StageAfter(p, b, files, t, now, 2);
    var s3 := StageAfter(p, b, files, t, now, 3);
    assert StageAfter(p, b, files, t, now, 0) == AtAdmission;
    assert s1 == NextStage(p, b, files, t.(stage := AtAdmission), now);
    assert s2 == NextStage(p, b, files, t.(stage := s1), now);
    assert s3 == NextStage(p, b, files, t.(stage := s2), now);
    assert StageAfter(p, b, files, t, now, 4) == NextStage(p, b, files, t.(stage := s3), now);
  }

  /** The two stages after the file is read, and the one the verdict is settled at. */
  function Settled(p: Primitives, b: BrokerState, files: map<string, File>, t: Thread, now: real,
                   loaded: Stage): (Stage, Stage, Stage) {
    var s5 := NextStage(p, b, files, t.(stage := loaded), now);
    var s6 := NextStage(p, b, files, t.(stage := s5), now);
    (s5, s6, NextStage(p, b, files, t.(stage := s6), now))
  }

  /** The last stage says what the sequential call says, the marker aside. */
  predicate Settles(p: Primitives, markers: set<string>, v: Verdict, s: (Stage, Stage, Stage)) {
    && !s.0.AtConsume? && !s.1.AtConsume?
    && if s.2.AtConsume? then
         v == if p.digest(s.2.payload) in markers then Rejected(Replayed) else Accepted(s.2.payload, s.2.mac, s.2.judgedAt)
       else s.2 == Done(v) && !v.Accepted?
  }

  /** From the text of the control to the verdict. */
  lemma JudgedFromText(p: Primitives, b: BrokerState, files: map<string, File>, t: Thread, now: real,
                       markers: set<string>,
                       payload: string, mac: string)
    requires Loaded(b, files, t.path) == AtMac(payload, mac)
    ensures Settles(p, markers, Judged(p, b.secret, b.open, files, markers, t.path, t.expectations, now),
                    Settled(p, b, files, t, now, AtMac(payload, mac)))
  {
  }

  /** From the file read to the verdict, or to the point of consuming. */
  lemma JudgedFromLoaded(p: Primitives, b: BrokerState, files: map<string, File>, t: Thread, now: real,
                         markers: set<string>)
    ensures Settles(p, markers, Judged(p, b.secret, b.open, files, markers, t.path, t.expectations, now),
                    Settled(p, b, files, t, now, Loaded(b, files, t.path)))
  {
    var loaded := Loaded(b, files, t.path);
    if loaded.AtMac? {
      JudgedFromText(p, b, files, t, now, markers, loaded.payload, loaded.mac);
    }
  }

  lemma StagesInOrder(p: Primitives, b: BrokerState, files: map<string, File>, t: Thread, now: real,
                      markers: set<string>)
    ensures forall k: nat :: k < 7 ==> !StageAfter(p, b, files, t, now, k).AtConsume?
    ensures var v := Judged(p, b.secret, b.open, files, markers, t.path, t.expectations, now);
            match StageAfter(p, b, files, t, now, 7)
            case AtConsume(payload, mac, at) =>
              v == if p.digest(payload) in markers then Rejected(Replayed) else Accepted(payload, mac, at)
            case Done(w) => v == w && !w.Accepted?
            case _ => false
  {
    LoadsInFourStages(p, b, files, t, now);
    JudgedFromLoaded(p, b, files, t, now, markers);
    var s5 := StageAfter(p, b, files, t, now, 5);
    var s6 := StageAfter(p, b, files, t, now, 6);
    assert s5 == NextStage(p, b, files, t.(stage := Loaded(b, files, t.path)), now);
    assert s6 == NextStage(p, b, files, t.(stage := s5), now);
    assert StageAfter(p, b, files, t, now, 7) == NextStage(p, b, files, t.(stage := s6), now);
  }

  /** The state with one thread moved to another stage. */
  function AtStage(s: State, id: nat, stage: Stage): State
    requires id in s.threads
  {
    s.(threads := s.threads[id := s.threads[id].(stage := stage)])
  }

  lemma AdvanceAlone(p: Primitives, s: State, id: nat, now: real, stage: Stage)
    requires id in s.threads && s.threads[id].broker in s.brokers && !stage.AtConsume?
    ensures var t := s.threads[id];
            Next(p, AtStage(s, id, stage), Advance(id, now))
              == AtStage(s, id, NextStage(p, s.brokers[t.broker], s.files, t.(stage := stage), now))
  {
    var t := s.threads[id];
    var moved := t.(stage := NextStage(p, s.brokers[t.broker], s.files, t.(stage := stage), now));
    assert s.threads[id := t.(stage := stage)][id := moved] == s.threads[id := moved];
  }

  lemma {:induction false} AloneStages(p: Primitives, s: State, id: nat, now: real, k: nat)
    requires id in s.threads && s.threads[id].stage == AtAdmission && s.threads[id].broker in s.brokers && k <= 7
    ensures var t := s.threads[id];
            Alone(p, s, id, now, k) == AtStage(s, id, StageAfter(p, s.brokers[t.broker], s.files, t, now, k))
  {
    var t := s.threads[id];
    if k == 0 {
      assert s.threads[id := t] == s.threads;
    } else {
      AloneStages(p, s, id, now, k - 1);
      StagesInOrder(p, s.brokers[t.broker], s.files, t, now, {});
      AdvanceAlone(p, s, id, now, StageAfter(p, s.brokers[t.broker], s.files, t, now, k - 1));
    }
  }

  /** Undisturbed, a handler thread does exactly what one call of `authenticate` does. */
  lemma AloneIsAuthenticate(p: Primitives, s: State, id: nat, now: real)
    requires id in s.threads && s.threads[id].stage == AtAdmission && s.threads[id].broker in s.brokers
    ensures var t := s.threads[id];
            var b := s.brokers[t.broker];
            var v := Judged(p, b.secret, b.open, s.files, s.markers, t.path, t.expectations, now);
            Alone(p, s, id, now, 8) ==
              s.(threads := s.threads[id := t.(stage := Done(v))],
                 markers := s.markers + if v.Accepted? then {p.digest(v.payload)} else {})
  {
    var t := s.threads[id];
    StagesInOrder(p, s.brokers[t.broker], s.files, t, now, s.markers);
    AloneStages(p, s, id, now, 7);
    assert Alone(p, s, id, now, 8) == Next(p, Alone(p, s, id, now, 7), Advance(id, now));
  }

  ghost predicate Injective(f: string -> string) {
    forall a, b :: f(a) == f(b) ==> a == b
  }

  /** The control at `path` deserves admission by broker `b` for these expectations at `now`. */
  predicate Presentable(p: Primitives, s: State, b: nat, path: string, expectations: Fields, payload: string,
                        mac: string, now: real) {
    && b in s.brokers && s.brokers[b].open
    && path in s.files && s.files[path] == File(true, REQUIRED_MODE, Document(Some(payload), Some(mac)))
    && Deserved(p, s.brokers[b].secret, expectations, payload, mac, now)
  }

  lemma MarkedMeansAdmitted(p: Primitives, s0: State, s: State, payload: string)
    requires MarkersExact(p, s0, s) && Injective(p.digest) && p.digest(payload) !in s0.markers
    ensures p.digest(payload) in s.markers ==> exists i :: i in s.threads && Admitted(s.threads[i]) == Some(payload)
  {
    if p.digest(payload) in s.markers {
      assert p.digest(payload) in s.markers - s0.markers;
      var i: nat :| AdmittedDigest(p, s, i, p.digest(payload));
      assert Admitted(s.threads[i]) == Some(payload);
    }
  }

  /**
   * Being refused never spends a control. After any run in which no thread was admitted with it,
   * an unmarked control is still admitted when it is presented to an open broker that expects it
   * before it expires, however often it was refused on the way.
   */
  lemma RefusedControlStillWorks(p: Primitives, s0: State, actions: seq<Action>, id: nat, b: nat, path: string,
                                 expectations: Fields, payload: string, mac: string, now: real)
    requires Initial(s0) && Injective(p.digest) && p.digest(payload) !in s0.markers
    requires var s := Run(p, s0, actions);
             && id !in s.threads && Presentable(p, s, b, path, expectations, payload, mac, now)
             && (forall i :: i in s.threads ==> Admitted(s.threads[i]) != Some(payload))
    ensures var s := Alone(p, Next(p, Run(p, s0, actions), Spawn(id, b, path, expectations)), id, now, 8);
            && id in s.threads && s.threads[id].stage == Done(Accepted(payload, mac, now))
            && p.digest(payload) in s.markers
  {
    var s := Run(p, s0, actions);
    RunSafe(p, s0, actions);
    MarkedMeansAdmitted(p, s0, s, payload);
    AloneIsAuthenticate(p, Next(p, s, Spawn(id, b, path, expectations)), id, now);
  }

  // --- closing admission ---

  /** Broker `b` is closed and thread `id`, if it exists, has not passed its admission check. */
  predicate ShutOut(s: State, b: nat, id: nat) {
    && b in s.brokers && !s.brokers[b].open
    && (id in s.threads ==>
          s.threads[id].broker == b ==> s.threads[id].stage == AtAdmission || s.threads[id].stage == Done(Rejected(AdmissionClosed)))
  }

  lemma NextShutsOut(p: Primitives, s: State, a: Action, b: nat, id: nat)
    requires ShutOut(s, b, id)
    ensures ShutOut(Next(p, s, a), b, id)
  {
  }

  /** Once admission is closed no later presentation is admitted, whatever else runs. */
  lemma {:induction false} ClosedBrokerAdmitsNobodyNew(p: Primitives, s: State, actions: seq<Action>, b: nat, id: nat)
    requires ShutOut(s, b, id)
    ensures ShutOut(Run(p, s, actions), b, id)
  {
    if actions != [] {
      ClosedBrokerAdmitsNobodyNew(p, s, actions[..|actions| - 1], b, id);
      NextShutsOut(p, Run(p, s, actions[..|actions| - 1]), actions[|actions| - 1], b, id);
    }
  }
}
