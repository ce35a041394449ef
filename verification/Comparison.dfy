/**
 * The before/after comparison: runs are split into sides and refused unless they can be compared,
 * and the outcome is read off the fastest run before and the slowest run after.
 */
module Comparison {
  import opened Common
  import opened Ordering
  import opened Sequences
  import opened Shares
  import opened CriticalPath

  const BEFORE := "before"
  const AFTER := "after"

  datatype Provenance = Provenance(
    provider: string,
    hostDigest: string,
    workerTopology: int,
    warmStateDigest: string,
    schemaFingerprint: string,
    canonicalSchemaDigest: string,
    cohortDigest: string,
    durationHistoryDigest: string)

  datatype ModuleTiming = ModuleTiming(path: string, setup: real, call: real, teardown: real) {
    function Total(): real {
      setup + call + teardown
    }
  }

  function DurationOf(t: ModuleTiming): Timing {
    (t.path, t.Total())
  }

  datatype Run = Run(
    side: string,
    commit: string,
    index: int,
    provenance: Provenance,
    timings: seq<ModuleTiming>,
    wall: real,
    loadBefore: real,
    loadAfter: real)
  {
    function Modules(): set<string> {
      set i | 0 <= i < |timings| :: timings[i].path
    }

    function Durations(): seq<Timing> {
      Map(DurationOf, timings)
    }

    function CriticalPathSeconds(): Result<real, Refused> {
      Balanced(Durations(), provenance.workerTopology)
    }
  }

  datatype Outcome = Retained | Reverted

  datatype Fault =
    | SameCommit
    | RunCount(side: string, found: nat)
    | WrongCommit(side: string)
    | RunIndexes(side: string)
    | MissingModules(side: string, index: int)
    | ExtraModules(side: string, index: int)
    | NoRuns
    | Provenance(side: string, index: int)

  predicate IndexLe(a: Run, b: Run) {
    a.index <= b.index
  }

  function OfSide(runs: seq<Run>, side: string): seq<Run> {
    if runs == [] then []
    else (if runs[0].side == side then [runs[0]] else []) + OfSide(runs[1..], side)
  }

  /** One side's runs by ascending index. */
  function Side(runs: seq<Run>, side: string): seq<Run> {
    Sort(IndexLe, OfSide(runs, side))
  }

  predicate IntLe(a: int, b: int) {
    a <= b
  }

  function IndexOf(run: Run): int { run.index }

  /** 1, 2, ..., n. */
  function UpTo(n: nat): seq<int> {
    seq(n, i => i + 1)
  }

  function SideFault(side: string, runs: seq<Run>, commit: string, required: int): Option<Fault> {
    if |runs| != required then Some(RunCount(side, |runs|))
    else if exists i :: 0 <= i < |runs| && runs[i].commit != commit then Some(WrongCommit(side))
    else if Sort(IntLe, Map(IndexOf, runs)) != UpTo(|runs|) then Some(RunIndexes(side))
    else None
  }

  function CohortFault(run: Run, wanted: set<string>): Option<Fault> {
    if wanted - run.Modules() != {} then Some(MissingModules(run.side, run.index))
    else if run.Modules() - wanted != {} then Some(ExtraModules(run.side, run.index))
    else None
  }

  function ConditionFault(run: Run, reference: Provenance): Option<Fault> {
    if run.provenance != reference then Some(Fault.Provenance(run.side, run.index)) else None
  }

  /** Every run covers exactly the wanted modules. */
  function CohortCheck(wanted: set<string>): Run -> Option<Fault> {
    r => CohortFault(r, wanted)
  }

  /** Every run was taken under the conditions of the reference. */
  function ConditionCheck(reference: Provenance): Run -> Option<Fault> {
    r => ConditionFault(r, reference)
  }

  /** The first run a check refuses decides the error. */
  function FirstFault(runs: seq<Run>, check: Run -> Option<Fault>): Option<Fault> {
    if runs == [] then None else if check(runs[0]).Some? then check(runs[0]) else FirstFault(runs[1..], check)
  }

  datatype Request = Request(beforeCommit: string, afterCommit: string, modules: set<string>, required: int)

  function SidesFault(q: Request, before: seq<Run>, after: seq<Run>): Option<Fault> {
    if q.beforeCommit == q.afterCommit then Some(SameCommit)
    else if SideFault(BEFORE, before, q.beforeCommit, q.required).Some? then SideFault(BEFORE, before, q.beforeCommit, q.required)
    else if SideFault(AFTER, after, q.afterCommit, q.required).Some? then SideFault(AFTER, after, q.afterCommit, q.required)
    else if FirstFault(before + after, CohortCheck(q.modules)).Some?
      then FirstFault(before + after, CohortCheck(q.modules))
    else if before == [] then Some(NoRuns)
    else FirstFault(before + after, ConditionCheck(before[0].provenance))
  }

  /** One pass over the runs, stopped by the first refusal. */
  method CheckRuns(runs: seq<Run>, check: Run -> Option<Fault>) returns (fault: Option<Fault>)
    ensures fault == FirstFault(runs, check)
  {
    for i := 0 to |runs|
      invariant FirstFault(runs[i..], check) == FirstFault(runs, check)
    {
      fault := check(runs[i]);
      if fault.Some? {
        return;
      }
    }
    fault := None;
  }

  /** Checked in the source's order: commits, then each side, then each run's modules, then conditions. */
  method ValidateSides(runs: seq<Run>, q: Request) returns (r: Result<(seq<Run>, seq<Run>), Fault>)
    ensures var (before, after) := (Side(runs, BEFORE), Side(runs, AFTER));
            match SidesFault(q, before, after)
            case Some(f) => r == Err(f)
            case None => r == Ok((before, after))
  {
    if q.beforeCommit == q.afterCommit {
      return Err(SameCommit);
    }
    var before, after := Side(runs, BEFORE), Side(runs, AFTER);
    var fault := SideFault(BEFORE, before, q.beforeCommit, q.required);
    if fault.Some? {
      return Err(fault.value);
    }
    fault := SideFault(AFTER, after, q.afterCommit, q.required);
    if fault.Some? {
      return Err(fault.value);
    }
    fault := CheckRuns(before + after, CohortCheck(q.modules));
    if fault.Some? {
      return Err(fault.value);
    }
    if before == [] {
      return Err(NoRuns);
    }
    fault := CheckRuns(before + after, ConditionCheck(before[0].provenance));
    if fault.Some? {
      return Err(fault.value);
    }
    return Ok((before, after));
  }

  // --- what is accepted ---

  predicate CompleteSide(runs: seq<Run>, side: string, commit: string, required: nat) {
    && (forall r :: r in runs && r.side == side ==> r.commit == commit)
    && multiset(Map(IndexOf, OfSide(runs, side))) == multiset(UpTo(required))
  }

  predicate OnASide(r: Run) {
    r.side == BEFORE || r.side == AFTER
  }

  /** Both sides complete, on their commits, over the same modules, under the same conditions. */
  ghost predicate Comparable(runs: seq<Run>, q: Request) {
    && q.beforeCommit != q.afterCommit && q.required > 0
    && CompleteSide(runs, BEFORE, q.beforeCommit, q.required)
    && CompleteSide(runs, AFTER, q.afterCommit, q.required)
    && (forall r :: r in runs && OnASide(r) ==> r.Modules() == q.modules)
    && (forall r, t :: r in runs && t in runs && OnASide(r) && OnASide(t) ==> r.provenance == t.provenance)
  }

  lemma {:induction false} OfSideCount(runs: seq<Run>, side: string, r: Run)
    ensures multiset(OfSide(runs, side))[r] == if r.side == side then multiset(runs)[r] else 0
  {
    if runs != [] {
      OfSideCount(runs[1..], side, r);
      assert runs == [runs[0]] + runs[1..];
    }
  }

  lemma SideMembers(runs: seq<Run>, side: string, r: Run)
    ensures r in Side(runs, side) <==> r in runs && r.side == side
    ensures r in OfSide(runs, side) <==> r in runs && r.side == side
  {
    OfSideCount(runs, side, r);
    SortPermutes(IndexLe, OfSide(runs, side));
    assert r in Side(runs, side) <==> r in multiset(Side(runs, side));
    assert r in OfSide(runs, side) <==> r in multiset(OfSide(runs, side));
    assert r in runs <==> r in multiset(runs);
  }

  /** Being 1 to n in some order is what sorting to 1 to n tests. */
  lemma IndexTest(indexes: seq<int>, n: nat)
    ensures Sort(IntLe, indexes) == UpTo(n) <==> multiset(indexes) == multiset(UpTo(n))
  {
    SortPermutes(IntLe, indexes);
    SortSorts(IntLe, indexes);
    if multiset(indexes) == multiset(UpTo(n)) {
      SortedUnique(IntLe, UpTo(n), Sort(IntLe, indexes));
    }
  }

  lemma CommitTest(runs: seq<Run>, side: string, commit: string)
    ensures (exists i :: 0 <= i < |Side(runs, side)| && Side(runs, side)[i].commit != commit)
       <==> exists r :: r in runs && r.side == side && r.commit != commit
  {
    forall r ensures r in Side(runs, side) <==> r in runs && r.side == side {
      SideMembers(runs, side, r);
    }
    forall r | r in runs && r.side == side && r.commit != commit
      ensures exists i :: 0 <= i < |Side(runs, side)| && Side(runs, side)[i].commit != commit
    {
      var i :| 0 <= i < |Side(runs, side)| && Side(runs, side)[i] == r;
    }
  }

  lemma SideIndexTest(runs: seq<Run>, side: string, required: int)
    ensures |Side(runs, side)| == required && Sort(IntLe, Map(IndexOf, Side(runs, side))) == UpTo(required)
       <==> required >= 0 && multiset(Map(IndexOf, OfSide(runs, side))) == multiset(UpTo(required))
  {
    var sorted := Side(runs, side);
    SortPermutes(IndexLe, OfSide(runs, side));
    MapMultiset(IndexOf, sorted, OfSide(runs, side));
    if required >= 0 {
      IndexTest(Map(IndexOf, sorted), required);
      assert |sorted| == |multiset(Map(IndexOf, sorted))| && |multiset(UpTo(required))| == required;
    }
  }

  lemma SideFaultExactly(runs: seq<Run>, side: string, commit: string, required: int)
    ensures SideFault(side, Side(runs, side), commit, required).None?
       <==> required >= 0 && CompleteSide(runs, side, commit, required)
  {
    SideIndexTest(runs, side, required);
    CommitTest(runs, side, commit);
  }

  lemma {:induction false} NoFaultExactly(runs: seq<Run>, check: Run -> Option<Fault>)
    ensures FirstFault(runs, check).None? <==> forall r :: r in runs ==> check(r).None?
  {
    if runs != [] {
      NoFaultExactly(runs[1..], check);
      assert runs == [runs[0]] + runs[1..];
    }
  }

  lemma BothSides(runs: seq<Run>, r: Run)
    ensures r in Side(runs, BEFORE) + Side(runs, AFTER) <==> r in runs && OnASide(r)
  {
    SideMembers(runs, BEFORE, r);
    SideMembers(runs, AFTER, r);
  }

  lemma CohortTest(runs: seq<Run>, wanted: set<string>)
    ensures FirstFault(Side(runs, BEFORE) + Side(runs, AFTER), CohortCheck(wanted)).None?
       <==> forall r :: r in runs && OnASide(r) ==> r.Modules() == wanted
  {
    NoFaultExactly(Side(runs, BEFORE) + Side(runs, AFTER), CohortCheck(wanted));
    forall r ensures r in Side(runs, BEFORE) + Side(runs, AFTER) <==> r in runs && OnASide(r) {
      BothSides(runs, r);
    }
    forall r: Run ensures CohortFault(r, wanted).None? <==> r.Modules() == wanted {
    }
  }

  lemma ConditionTest(runs: seq<Run>)
    requires Side(runs, BEFORE) != []
    ensures FirstFault(Side(runs, BEFORE) + Side(runs, AFTER), ConditionCheck(Side(runs, BEFORE)[0].provenance)).None?
       <==> forall r, t :: r in runs && t in runs && OnASide(r) && OnASide(t) ==> r.provenance == t.provenance
  {
    var first := Side(runs, BEFORE)[0];
    NoFaultExactly(Side(runs, BEFORE) + Side(runs, AFTER), ConditionCheck(first.provenance));
    forall r ensures r in Side(runs, BEFORE) + Side(runs, AFTER) <==> r in runs && OnASide(r) {
      BothSides(runs, r);
    }
    assert first in Side(runs, BEFORE) + Side(runs, AFTER);
  }

  /** Validation accepts exactly the comparable collections of runs. */
  lemma AcceptedExactly(runs: seq<Run>, q: Request)
    ensures SidesFault(q, Side(runs, BEFORE), Side(runs, AFTER)).None? <==> Comparable(runs, q)
  {
    SideFaultExactly(runs, BEFORE, q.beforeCommit, q.required);
    SideFaultExactly(runs, AFTER, q.afterCommit, q.required);
    SideIndexTest(runs, BEFORE, q.required);
    CohortTest(runs, q.modules);
    if Side(runs, BEFORE) != [] {
      ConditionTest(runs);
    }
  }

  lemma IndexesSeparate(runs: seq<Run>, n: nat)
    requires multiset(Map(IndexOf, runs)) == multiset(UpTo(n))
    ensures Separates(IndexLe, runs)
  {
    forall i, j | 0 <= i < j < |runs| ensures runs[i].index != runs[j].index {
      UpToOnce(n, runs[i].index);
      if runs[i].index == runs[j].index {
        TwiceCounts(Map(IndexOf, runs), i, j);
        assert false;
      }
    }
  }

  lemma {:induction false} UpToOnce(n: nat, k: int)
    ensures multiset(UpTo(n))[k] <= 1
  {
    if n > 0 {
      UpToOnce(n - 1, k);
      assert UpTo(n) == UpTo(n - 1) + [n];
    }
  }

  /** The order the runs are handed over in does not matter. */
  lemma ValidationIgnoresOrder(a: seq<Run>, b: seq<Run>, q: Request)
    requires multiset(a) == multiset(b) && Comparable(a, q)
    ensures Comparable(b, q) && Side(a, BEFORE) == Side(b, BEFORE) && Side(a, AFTER) == Side(b, AFTER)
  {
    forall r ensures r in a <==> r in b {
      assert r in a <==> r in multiset(a);
    }
    forall side ensures multiset(OfSide(a, side)) == multiset(OfSide(b, side)) {
      forall r ensures multiset(OfSide(a, side))[r] == multiset(OfSide(b, side))[r] {
        OfSideCount(a, side, r);
        OfSideCount(b, side, r);
      }
    }
    forall side | side == BEFORE || side == AFTER
      ensures Side(a, side) == Side(b, side) && multiset(Map(IndexOf, OfSide(a, side))) == multiset(Map(IndexOf, OfSide(b, side)))
    {
      IndexesSeparate(OfSide(a, side), q.required);
      SortCanonical(IndexLe, OfSide(a, side), OfSide(b, side));
      MapMultiset(IndexOf, OfSide(a, side), OfSide(b, side));
    }
  }
}
