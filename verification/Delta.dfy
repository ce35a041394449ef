/**
 * What changed between two commits: `git diff --raw -z` output read into entries, the changed paths
 * dealt to four lists, and what each outcome label allows those lists to hold.
 */
module Delta {
  import opened Common
  import opened Ordering
  import opened Sequences
  import opened Text
  import opened Comparison

  datatype DeltaEntry = DeltaEntry(path: string, status: string, beforeBlob: string, afterBlob: string)

  datatype Fault = TruncatedRecord

  const NUL: char := '\0'

  predicate PathLe(a: DeltaEntry, b: DeltaEntry) {
    StringLe(a.path, b.path)
  }

  // --- reading ---

  /** The entries in the order read; fields that do not open a record are passed over. */
  function Entries(fields: seq<string>): Result<seq<DeltaEntry>, Fault>
    decreases |fields|
  {
    if fields == [] then Ok([])
    else if fields[0] == "" || fields[0][0] != ':' then Entries(fields[1..])
    else if |Words(fields[0])| < 5 then Err(TruncatedRecord)
    else
      var words := Words(fields[0]);
      var entry := DeltaEntry(if |fields| > 1 then fields[1] else "", words[4], words[2], words[3]);
      match Entries(if |fields| > 1 then fields[2..] else [])
      case Ok(later) => Ok([entry] + later)
      case Err(e) => Err(e)
  }

  function InOrder(entries: Result<seq<DeltaEntry>, Fault>): Result<seq<DeltaEntry>, Fault> {
    match entries
    case Ok(found) => Ok(Sort(PathLe, found))
    case Err(e) => Err(e)
  }

  /** `pre` has been read; what `later` gives comes after it. */
  function After(pre: seq<DeltaEntry>, later: Result<seq<DeltaEntry>, Fault>): Result<seq<DeltaEntry>, Fault> {
    match later
    case Ok(found) => Ok(pre + found)
    case Err(e) => Err(e)
  }

  function From(fields: seq<string>, index: nat): seq<string> {
    if index < |fields| then fields[index..] else []
  }

  /** Reading on: a field that opens no record is passed over. */
  lemma PassOver(fields: seq<string>, index: nat)
    requires index < |fields| && (fields[index] == "" || fields[index][0] != ':')
    ensures Entries(From(fields, index)) == Entries(From(fields, index + 1))
  {
    assert From(fields, index)[1..] == From(fields, index + 1);
  }

  /** Reading on: a record takes its own field and the path's. */
  lemma TakeRecord(fields: seq<string>, index: nat, entry: DeltaEntry)
    requires index < |fields| && fields[index] != "" && fields[index][0] == ':' && |Words(fields[index])| >= 5
    requires var parts := Words(fields[index]);
             entry == DeltaEntry(if index + 1 < |fields| then fields[index + 1] else "", parts[4], parts[2], parts[3])
    ensures Entries(From(fields, index)) == After([entry], Entries(From(fields, index + 2)))
  {
    var from := From(fields, index);
    assert (if |from| > 1 then from[2..] else []) == From(fields, index + 2);
  }

  lemma AfterMore(read: seq<DeltaEntry>, entry: DeltaEntry, later: Result<seq<DeltaEntry>, Fault>)
    ensures After(read, After([entry], later)) == After(read + [entry], later)
  {
    if later.Ok? {
      Associate(read, [entry], later.value);
    }
  }

  method SourceDeltaManifest(raw: string) returns (r: Result<seq<DeltaEntry>, Fault>)
    ensures r == InOrder(Entries(SplitOn(raw, NUL)))
  {
    var fields := SplitOn(raw, NUL);
    var entries: seq<DeltaEntry> := [];
    var index := 0;
    assert From(fields, 0) == fields;
    assert forall found: seq<DeltaEntry> :: [] + found == found;
    while index < |fields|
      invariant index >= 0
      invariant After(entries, Entries(From(fields, index))) == Entries(fields)
    {
      var meta := fields[index];
      if meta == "" || meta[0] != ':' {
        PassOver(fields, index);
        index := index + 1;
        continue;
      }
      var parts := Words(meta);
      if |parts| < 5 {
        return Err(TruncatedRecord);
      }
      var path := if index + 1 < |fields| then fields[index + 1] else "";
      var entry := DeltaEntry(path, parts[4], parts[2], parts[3]);
      TakeRecord(fields, index, entry);
      AfterMore(entries, entry, Entries(From(fields, index + 2)));
      entries := entries + [entry];
      index := index + 2;
    }
    assert entries + [] == entries;
    return Ok(Sort(PathLe, entries));
  }

  // --- writing, as Git does ---

  /** A record as Git prints it: the two file modes come first and are not kept. */
  datatype Record = Record(beforeMode: string, afterMode: string, entry: DeltaEntry)

  predicate Token(s: string) {
    s != "" && Solid(s) && NUL !in s
  }

  /** Modes, blob IDs and statuses are words; a path is anything without NUL. */
  predicate WellFormed(r: Record) {
    && Token(r.beforeMode) && Token(r.afterMode)
    && Token(r.entry.beforeBlob) && Token(r.entry.afterBlob) && Token(r.entry.status)
    && NUL !in r.entry.path
  }

  function MetaWords(r: Record): seq<string> {
    [":" + r.beforeMode, r.afterMode, r.entry.beforeBlob, r.entry.afterBlob, r.entry.status]
  }

  function Meta(r: Record): string {
    JoinWords(MetaWords(r))
  }

  function Render(records: seq<Record>): string {
    if records == [] then ""
    else Meta(records[0]) + [NUL] + (records[0].entry.path + [NUL] + Render(records[1..]))
  }

  function EntriesOf(records: seq<Record>): (entries: seq<DeltaEntry>)
    ensures |entries| == |records|
  {
    seq(|records|, i requires 0 <= i < |records| => records[i].entry)
  }

  /** The first field of a record splits into its five words, and nothing in it ends the field early. */
  lemma MetaIsOneField(r: Record)
    requires WellFormed(r)
    ensures Words(Meta(r)) == MetaWords(r)
    ensures NUL !in Meta(r) && Meta(r) != "" && Meta(r)[0] == ':'
  {
    WordsOfJoined(MetaWords(r));
    JoinedAvoids(MetaWords(r), NUL);
  }

  /** Reading undoes writing, record by record: a path that looks like a record is never taken for one. */
  lemma {:induction false} EntriesOfRendered(records: seq<Record>)
    requires forall r :: r in records ==> WellFormed(r)
    ensures Entries(SplitOn(Render(records), NUL)) == Ok(EntriesOf(records))
  {
    if records == [] {
      assert Entries([""][1..]) == Ok([]);
    } else {
      var r, later := records[0], records[1..];
      RenderedFields(r, Render(later));
      EntriesOfRendered(later);
      EntryOfFields(r, SplitOn(Render(later), NUL));
      assert EntriesOf(records) == [r.entry] + EntriesOf(later);
    }
  }

  lemma RenderedFields(r: Record, rest: string)
    requires WellFormed(r)
    ensures SplitOn(Meta(r) + [NUL] + (r.entry.path + [NUL] + rest), NUL) == [Meta(r)] + ([r.entry.path] + SplitOn(rest, NUL))
  {
    MetaIsOneField(r);
    SplitFirst(Meta(r), NUL, r.entry.path + [NUL] + rest);
    SplitFirst(r.entry.path, NUL, rest);
  }

  lemma EntryOfFields(r: Record, later: seq<string>)
    requires WellFormed(r)
    ensures Entries([Meta(r)] + ([r.entry.path] + later)) == After([r.entry], Entries(later))
  {
    MetaIsOneField(r);
    var fields := [Meta(r)] + ([r.entry.path] + later);
    assert fields[2..] == later;
  }

  predicate DistinctPaths(entries: seq<DeltaEntry>) {
    forall i, j :: 0 <= i < j < |entries| ==> entries[i].path != entries[j].path
  }

  /** Paths ascend strictly. */
  predicate Ascending(entries: seq<DeltaEntry>) {
    forall i, j :: 0 <= i < j < |entries| ==> PathLe(entries[i], entries[j]) && entries[i].path != entries[j].path
  }

  lemma PathOrder(entries: seq<DeltaEntry>)
    requires DistinctPaths(entries)
    ensures TotalPreorder(PathLe) && Separates(PathLe, entries)
  {
    StringOrder();
  }

  lemma {:induction false} AtMostOnce(entries: seq<DeltaEntry>, x: DeltaEntry)
    requires DistinctPaths(entries)
    ensures multiset(entries)[x] <= 1
  {
    if entries != [] {
      AtMostOnce(entries[1..], x);
      assert entries == [entries[0]] + entries[1..];
      assert entries[0] !in entries[1..];
    }
  }

  lemma DistinctByCount(entries: seq<DeltaEntry>, other: seq<DeltaEntry>)
    requires multiset(entries) == multiset(other) && DistinctPaths(entries)
    ensures DistinctPaths(other)
  {
    forall i, j | 0 <= i < j < |other| ensures other[i].path != other[j].path {
      assert other[i] in multiset(entries) && other[j] in multiset(entries);
      AtMostOnce(entries, other[i]);
      if other[i] == other[j] {
        TwiceCounts(other, i, j);
        assert false;
      }
    }
  }

  /**
   * Whatever order the records come in, reading them gives exactly their entries, by ascending path:
   * a path may hold spaces or begin with ':', and is never split or taken for a record.
   */
  lemma ManifestRoundTrip(records: seq<Record>)
    requires forall r :: r in records ==> WellFormed(r)
    requires DistinctPaths(EntriesOf(records))
    ensures var r := InOrder(Entries(SplitOn(Render(records), NUL)));
            r.Ok? && multiset(r.value) == multiset(EntriesOf(records)) && Ascending(r.value)
  {
    EntriesOfRendered(records);
    PathOrder(EntriesOf(records));
    SortPermutes(PathLe, EntriesOf(records));
    SortSorts(PathLe, EntriesOf(records));
    DistinctByCount(EntriesOf(records), Sort(PathLe, EntriesOf(records)));
  }

  lemma ManifestIgnoresOrder(a: seq<Record>, b: seq<Record>)
    requires forall r :: r in a || r in b ==> WellFormed(r)
    requires DistinctPaths(EntriesOf(a)) && multiset(EntriesOf(a)) == multiset(EntriesOf(b))
    ensures InOrder(Entries(SplitOn(Render(a), NUL))) == InOrder(Entries(SplitOn(Render(b), NUL)))
  {
    EntriesOfRendered(a);
    EntriesOfRendered(b);
    PathOrder(EntriesOf(a));
    SortCanonical(PathLe, EntriesOf(a), EntriesOf(b));
  }

  // --- classification ---

  const MEASUREMENT_ONLY_PATHS: set<string> := {
    "scripts/lifecycle_measurement.py",
    "scripts/run_integration_lifecycle_comparison.py",
    "scripts/verify_integration_lifecycle_comparison.py",
    "tests/helpers/lifecycle_measurement.py",
    "tests/unit/test_lifecycle_measurement.py"
  }

  const LIFECYCLE_OWNED_PATHS: set<string> := {
    "tests/conftest.py",
    "tests/integration/conftest.py",
    "tests/helpers/auth_harness.py"
  }

  const IMPLEMENTATION_ADDITION_PATHS: set<string> := {
    "tests/helpers/async_db.py",
    "tests/unit/test_async_db.py",
    "tests/unit/test_auth_harness.py",
    "tests/unit/test_integration_async_fixture_scopes.py"
  }

  datatype Category = MeasurementOnly | Addition | Owned | OutOfScope

  predicate IsPrefix(s: string) {
    s != "" && s[|s| - 1] == '/'
  }

  predicate StartsWithAny(path: string, prefixes: seq<string>) {
    exists i :: 0 <= i < |prefixes| && prefixes[i] <= path
  }

  /** A scope names files exactly and directories by a trailing '/'. */
  predicate InScope(scope: seq<string>, path: string) {
    || (!IsPrefix(path) && path in scope)
    || exists i :: 0 <= i < |scope| && IsPrefix(scope[i]) && scope[i] <= path
  }

  function CategoryOf(scope: seq<string>, path: string): Category {
    if path in MEASUREMENT_ONLY_PATHS then MeasurementOnly
    else if path in IMPLEMENTATION_ADDITION_PATHS then Addition
    else if path in LIFECYCLE_OWNED_PATHS || InScope(scope, path) then Owned
    else OutOfScope
  }

  datatype Classification = Classification(
    measurementOnly: seq<string>,
    lifecycleOwned: seq<string>,
    implementationAdditions: seq<string>,
    outOfScope: seq<string>)

  function InCategory(c: Classification, category: Category): seq<string> {
    match category
    case MeasurementOnly => c.measurementOnly
    case Addition => c.implementationAdditions
    case Owned => c.lifecycleOwned
    case OutOfScope => c.outOfScope
  }

  /** The paths of one category, in the order of the entries. */
  function Selected(scope: seq<string>, entries: seq<DeltaEntry>, category: Category): seq<string> {
    if entries == [] then []
    else
      var path := entries[|entries| - 1].path;
      Selected(scope, entries[..|entries| - 1], category)
        + if CategoryOf(scope, path) == category then [path] else []
  }

  method ClassifyDelta(entries: seq<DeltaEntry>, scope: seq<string>) returns (c: Classification)
    ensures Classifies(scope, entries, c)
  {
    var prefixes := Kept(scope, true);
    var exact := Kept(scope, false);
    var measurement, lifecycle, additions, outside: seq<string> := [], [], [], [];
    for i := 0 to |entries|
      invariant measurement == Selected(scope, entries[..i], MeasurementOnly)
      invariant additions == Selected(scope, entries[..i], Addition)
      invariant lifecycle == Selected(scope, entries[..i], Owned)
      invariant outside == Selected(scope, entries[..i], OutOfScope)
    {
      assert entries[..i + 1][..i] == entries[..i];
      var path := entries[i].path;
      KeptIsInScope(scope, path);
      if path in MEASUREMENT_ONLY_PATHS {
        measurement := measurement + [path];
      } else if path in IMPLEMENTATION_ADDITION_PATHS {
        additions := additions + [path];
      } else if path in LIFECYCLE_OWNED_PATHS || path in exact || StartsWithAny(path, prefixes) {
        lifecycle := lifecycle + [path];
      } else {
        outside := outside + [path];
      }
    }
    assert entries[..|entries|] == entries;
    c := Classification(Sort(StringLe, measurement), Sort(StringLe, lifecycle),
                        Sort(StringLe, additions), Sort(StringLe, outside));
  }

  function Kept(scope: seq<string>, prefixes: bool): seq<string> {
    if scope == [] then []
    else (if IsPrefix(scope[0]) == prefixes then [scope[0]] else []) + Kept(scope[1..], prefixes)
  }

  lemma {:induction false} KeptMembers(scope: seq<string>, prefixes: bool, s: string)
    ensures s in Kept(scope, prefixes) <==> s in scope && IsPrefix(s) == prefixes
  {
    if scope != [] {
      KeptMembers(scope[1..], prefixes, s);
    }
  }

  lemma KeptIsInScope(scope: seq<string>, path: string)
    ensures path in Kept(scope, false) || StartsWithAny(path, Kept(scope, true))
       <==> InScope(scope, path)
  {
    KeptMembers(scope, false, path);
    if i :| 0 <= i < |Kept(scope, true)| && Kept(scope, true)[i] <= path {
      KeptMembers(scope, true, Kept(scope, true)[i]);
      var k :| 0 <= k < |scope| && scope[k] == Kept(scope, true)[i];
    }
    if k :| 0 <= k < |scope| && IsPrefix(scope[k]) && scope[k] <= path {
      KeptMembers(scope, true, scope[k]);
      var i :| 0 <= i < |Kept(scope, true)| && Kept(scope, true)[i] == scope[k];
    }
  }

  function Paths(entries: seq<DeltaEntry>): seq<string> {
    if entries == [] then [] else Paths(entries[..|entries| - 1]) + [entries[|entries| - 1].path]
  }

  /** Each list of `c` holds the paths of its category, sorted. */
  predicate Classifies(scope: seq<string>, entries: seq<DeltaEntry>, c: Classification) {
    forall category :: InCategory(c, category) == Sort(StringLe, Selected(scope, entries, category))
  }

  lemma {:induction false} SelectedCount(scope: seq<string>, entries: seq<DeltaEntry>, category: Category, path: string)
    ensures multiset(Selected(scope, entries, category))[path]
         == if CategoryOf(scope, path) == category then multiset(Paths(entries))[path] else 0
  {
    if entries != [] {
      SelectedCount(scope, entries[..|entries| - 1], category, path);
    }
  }

  /** Every changed path stands in the list of its own category, as often as it changed, and in no other. */
  lemma EveryPathInOneList(scope: seq<string>, entries: seq<DeltaEntry>, c: Classification, category: Category,
                           path: string)
    requires Classifies(scope, entries, c)
    ensures multiset(InCategory(c, category))[path]
         == if CategoryOf(scope, path) == category then multiset(Paths(entries))[path] else 0
  {
    SelectedCount(scope, entries, category, path);
    SortPermutes(StringLe, Selected(scope, entries, category));
  }

  // --- what an outcome label may claim ---

  datatype Inconsistency = OutsideScope | LifecycleChanged | AdditionsPresent | NothingMaterial

  method OutcomeConsistencyFailures(outcome: Outcome, c: Classification) returns (failures: seq<Inconsistency>)
    ensures OutsideScope in failures <==> c.outOfScope != []
    ensures LifecycleChanged in failures <==> outcome.Reverted? && c.lifecycleOwned != []
    ensures AdditionsPresent in failures <==> outcome.Reverted? && c.implementationAdditions != []
    ensures NothingMaterial in failures <==> outcome.Retained? && c.lifecycleOwned == [] && c.implementationAdditions == []
    ensures failures == [] <==> Consistent(outcome, c)
  {
    failures := [];
    if c.outOfScope != [] {
      failures := failures + [OutsideScope];
    }
    if outcome.Reverted? {
      if c.lifecycleOwned != [] {
        failures := failures + [LifecycleChanged];
      }
      if c.implementationAdditions != [] {
        failures := failures + [AdditionsPresent];
      }
    } else if c.lifecycleOwned == [] && c.implementationAdditions == [] {
      failures := failures + [NothingMaterial];
    }
  }

  predicate Consistent(outcome: Outcome, c: Classification) {
    && c.outOfScope == []
    && (outcome.Reverted? <==> c.lifecycleOwned == [] && c.implementationAdditions == [])
  }

  lemma EmptyExactly(scope: seq<string>, entries: seq<DeltaEntry>, c: Classification, category: Category)
    requires Classifies(scope, entries, c)
    ensures InCategory(c, category) == [] <==> forall i :: 0 <= i < |entries| ==> CategoryOf(scope, entries[i].path) != category
  {
    forall i | 0 <= i < |entries| && CategoryOf(scope, entries[i].path) == category ensures InCategory(c, category) != [] {
      PathsHold(entries, i);
      EveryPathInOneList(scope, entries, c, category, entries[i].path);
      assert entries[i].path in multiset(InCategory(c, category));
    }
    if InCategory(c, category) != [] {
      var path := InCategory(c, category)[0];
      assert path in multiset(InCategory(c, category));
      EveryPathInOneList(scope, entries, c, category, path);
      assert path in multiset(Paths(entries));
      PathsCome(entries, path);
    }
  }

  lemma {:induction false} PathsHold(entries: seq<DeltaEntry>, i: nat)
    requires i < |entries|
    ensures entries[i].path in multiset(Paths(entries))
  {
    if i < |entries| - 1 {
      PathsHold(entries[..|entries| - 1], i);
    }
  }

  lemma {:induction false} PathsCome(entries: seq<DeltaEntry>, path: string)
    requires path in multiset(Paths(entries))
    ensures exists i :: 0 <= i < |entries| && entries[i].path == path
  {
    if entries != [] && entries[|entries| - 1].path != path {
      PathsCome(entries[..|entries| - 1], path);
    }
  }

  /**
   * From Git's output to the verdict: `reverted` passes exactly when every changed path belongs to
   * the measurement itself, `retained` exactly when none is out of scope and one is not measurement.
   */
  lemma LabelPassesExactly(scope: seq<string>, entries: seq<DeltaEntry>, c: Classification)
    requires Classifies(scope, entries, c)
    ensures Consistent(Reverted, c) <==> forall i :: 0 <= i < |entries| ==> entries[i].path in MEASUREMENT_ONLY_PATHS
    ensures Consistent(Retained, c) <==>
              && (forall i :: 0 <= i < |entries| ==> !CategoryOf(scope, entries[i].path).OutOfScope?)
              && (exists i :: 0 <= i < |entries| && entries[i].path !in MEASUREMENT_ONLY_PATHS)
  {
    EmptyExactly(scope, entries, c, Owned);
    EmptyExactly(scope, entries, c, Addition);
    EmptyExactly(scope, entries, c, OutOfScope);
  }
}
