/**
 * How a body is cut into the chunks that get a vector each: overlapping windows of words, as wide as
 * the model can consume and never further apart than they are wide.
 */
module ChunkPlan {
  import opened Common
  import opened Sequences
  import opened Text

  const CHUNK_TOKENS := 400
  const SPECIAL_TOKEN_BUDGET := 2
  const DEFAULT_MAX_SEQ_LENGTH := 256

  datatype Entry = Entry(index: nat, start: nat, end: nat, text: string)

  function Min(a: int, b: int): int { if a < b then a else b }

  function Max(a: int, b: int): int { if a > b then a else b }

  /** The widest window the model consumes whole, two word pieces to a word; `declared` is the manifest's limit. */
  function MaxPlanWords(declared: Option<int>): (words: nat)
    ensures words > 0
  {
    var length := if declared.Some? && declared.value > SPECIAL_TOKEN_BUDGET then declared.value else DEFAULT_MAX_SEQ_LENGTH;
    Max(1, (length - SPECIAL_TOKEN_BUDGET) / 2)
  }

  function Window(chunkTokens: int, cap: nat): (window: nat)
    requires cap > 0
    ensures 0 < window <= cap
  {
    Max(1, Min(chunkTokens, cap))
  }

  function Stride(window: nat, asked: Option<int>): (stride: nat)
    requires window > 0
    ensures 0 < stride <= window
  {
    Max(1, Min(if asked.Some? then asked.value else Max(1, window / 2), window))
  }

  function EntryAt(tokens: seq<string>, window: nat, start: nat, index: nat): Entry
    requires start < |tokens|
  {
    var end := Min(start + window, |tokens|);
    Entry(index, start, end, JoinWords(tokens[start..end]))
  }

  /** The windows from one start on; the first to reach the end is the last. */
  function Entries(tokens: seq<string>, window: nat, stride: nat, start: nat, index: nat): seq<Entry>
    requires stride > 0
    decreases |tokens| - start
  {
    if start >= |tokens| then []
    else
      var entry := EntryAt(tokens, window, start, index);
      [entry] + if entry.end >= |tokens| then [] else Entries(tokens, window, stride, start + stride, index + 1)
  }

  function Plan(body: string, chunkTokens: int, asked: Option<int>, cap: nat): seq<Entry>
    requires cap > 0
  {
    var window := Window(chunkTokens, cap);
    if Words(body) == [] then [Entry(0, 0, 0, "")] else Entries(Words(body), window, Stride(window, asked), 0, 0)
  }

  /** The loop, as it stands with some entries read. */
  function ReadOn(read: seq<Entry>, tokens: seq<string>, window: nat, stride: nat, start: nat, index: nat): seq<Entry>
    requires stride > 0
    decreases |tokens| - start
  {
    if start >= |tokens| then read
    else
      var entry := EntryAt(tokens, window, start, index);
      if entry.end >= |tokens| then read + [entry]
      else ReadOn(read + [entry], tokens, window, stride, start + stride, index + 1)
  }

  lemma {:induction false} ReadOnReads(read: seq<Entry>, tokens: seq<string>, window: nat, stride: nat, start: nat, index: nat)
    requires stride > 0
    ensures ReadOn(read, tokens, window, stride, start, index) == read + Entries(tokens, window, stride, start, index)
    decreases |tokens| - start
  {
    if start < |tokens| {
      var entry := EntryAt(tokens, window, start, index);
      if entry.end < |tokens| {
        ReadOnReads(read + [entry], tokens, window, stride, start + stride, index + 1);
        Associate(read, [entry], Entries(tokens, window, stride, start + stride, index + 1));
      }
    }
  }

  /** The loop over the windows, from the first word on. */
  method ReadWindows(tokens: seq<string>, window: nat, stride: nat) returns (entries: seq<Entry>)
    requires stride > 0
    ensures entries == Entries(tokens, window, stride, 0, 0)
  {
    ReadOnReads([], tokens, window, stride, 0, 0);
    entries := [];
    var index, start := 0, 0;
    while start < |tokens|
      invariant ReadOn(entries, tokens, window, stride, start, index) == ReadOn([], tokens, window, stride, 0, 0)
      decreases |tokens| - start
    {
      var entry := EntryAt(tokens, window, start, index);
      entries := entries + [entry];
      if entry.end >= |tokens| {
        break;
      }
      start := start + stride;
      index := index + 1;
    }
  }

  method MakeChunkPlan(body: string, chunkTokens: int, asked: Option<int>, cap: nat) returns (entries: seq<Entry>)
    requires cap > 0
    ensures entries == Plan(body, chunkTokens, asked, cap)
  {
    var window := Window(chunkTokens, cap);
    var stride := Stride(window, asked);
    var tokens := Words(body);
    if tokens == [] {
      return [Entry(0, 0, 0, "")];
    }
    entries := ReadWindows(tokens, window, stride);
  }

  // --- what a plan promises ---

  /** Each window holds its words, is as wide as allowed or ends the body, and the next begins inside or at its end. */
  ghost predicate Covers(p: seq<Entry>, tokens: seq<string>, window: nat, stride: nat, start: nat, index: nat) {
    && p != [] && p[0].start == start && p[|p| - 1].end == |tokens|
    && (forall i :: 0 <= i < |p| ==> InPlace(p[i], tokens, window) && p[i].index == index + i)
    && (forall i :: 0 <= i < |p| - 1 ==> InStep(p, i, window, stride))
  }

  predicate InStep(p: seq<Entry>, i: nat, window: nat, stride: nat)
    requires i < |p| - 1
  {
    p[i + 1].start == p[i].start + stride && p[i].end == p[i].start + window
  }

  predicate InPlace(e: Entry, tokens: seq<string>, window: nat) {
    e.start < e.end <= |tokens| && e.end - e.start <= window && e.text == JoinWords(tokens[e.start..e.end])
  }

  lemma {:induction false} EntriesCover(tokens: seq<string>, window: nat, stride: nat, start: nat, index: nat)
    requires 0 < stride <= window && start < |tokens|
    ensures Covers(Entries(tokens, window, stride, start, index), tokens, window, stride, start, index)
    decreases |tokens| - start
  {
    var entry := EntryAt(tokens, window, start, index);
    EntryIsInPlace(tokens, window, start, index);
    if entry.end >= |tokens| {
      OneEntryCovers(entry, tokens, window, stride, start, index);
    } else {
      EntriesCover(tokens, window, stride, start + stride, index + 1);
      CoversCons(entry, Entries(tokens, window, stride, start + stride, index + 1), tokens, window, stride, start, index);
    }
  }

  lemma EntryIsInPlace(tokens: seq<string>, window: nat, start: nat, index: nat)
    requires start < |tokens| && window > 0
    ensures var e := EntryAt(tokens, window, start, index);
            InPlace(e, tokens, window) && e.start == start && e.index == index && (e.end < |tokens| ==> e.end == start + window)
  {
  }

  lemma OneEntryCovers(e: Entry, tokens: seq<string>, window: nat, stride: nat, start: nat, index: nat)
    requires InPlace(e, tokens, window) && e.start == start && e.end == |tokens| && e.index == index
    ensures Covers([e], tokens, window, stride, start, index)
  {
  }

  lemma CoversCons(e: Entry, p: seq<Entry>, tokens: seq<string>, window: nat, stride: nat, start: nat, index: nat)
    requires Covers(p, tokens, window, stride, start + stride, index + 1)
    requires InPlace(e, tokens, window) && e.start == start && e.end == start + window && e.index == index
    ensures Covers([e] + p, tokens, window, stride, start, index)
  {
    var q := [e] + p;
    assert q[|q| - 1] == p[|p| - 1];
    forall i | 0 <= i < |q| - 1 ensures InStep(q, i, window, stride) {
      if i > 0 {
        assert InStep(p, i - 1, window, stride);
      }
    }
  }

  /** Every body, the empty one too, gets at least one chunk, and the chunks are numbered from zero. */
  lemma PlanIsNumbered(body: string, chunkTokens: int, asked: Option<int>, cap: nat)
    requires cap > 0
    ensures Plan(body, chunkTokens, asked, cap) != []
    ensures forall i :: 0 <= i < |Plan(body, chunkTokens, asked, cap)| ==> Plan(body, chunkTokens, asked, cap)[i].index == i
  {
    if Words(body) != [] {
      var window := Window(chunkTokens, cap);
      EntriesCover(Words(body), window, Stride(window, asked), 0, 0);
    }
  }

  /** Token `k` stands in window `i`. */
  predicate Holds(p: seq<Entry>, i: nat, k: nat) {
    i < |p| && p[i].start <= k < p[i].end
  }

  ghost predicate IsCovered(p: seq<Entry>, k: nat) {
    exists i: nat :: Holds(p, i, k)
  }

  lemma {:induction false} TokenIsCovered(p: seq<Entry>, tokens: seq<string>, window: nat, stride: nat, start: nat, index: nat, k: nat)
    requires Covers(p, tokens, window, stride, start, index) && stride <= window && start <= k < |tokens|
    ensures IsCovered(p, k)
    decreases |p|
  {
    if k < p[0].end {
      assert Holds(p, 0, k);
    } else {
      assert |p| > 1 && InStep(p, 0, window, stride);
      var rest := p[1..];
      assert rest[|rest| - 1] == p[|p| - 1];
      forall i | 0 <= i < |rest| - 1 ensures InStep(rest, i, window, stride) {
        assert InStep(p, i + 1, window, stride);
      }
      TokenIsCovered(rest, tokens, window, stride, start + stride, index + 1, k);
      var i: nat :| Holds(rest, i, k);
      assert Holds(p, i + 1, k);
    }
  }

  /**
   * No word of the body is lost: every one stands in some chunk, no chunk is wider than the model
   * consumes, and a chunk's text splits back into exactly the words it was made from.
   */
  lemma EveryWordIsEmbedded(body: string, chunkTokens: int, asked: Option<int>, cap: nat)
    requires cap > 0
    ensures var p, tokens := Plan(body, chunkTokens, asked, cap), Words(body);
            && (forall k :: 0 <= k < |tokens| ==> IsCovered(p, k))
            && (forall i :: 0 <= i < |p| ==>
                  && p[i].start <= p[i].end <= |tokens| && p[i].end - p[i].start <= cap
                  && Words(p[i].text) == tokens[p[i].start..p[i].end])
  {
    var p, tokens, window := Plan(body, chunkTokens, asked, cap), Words(body), Window(chunkTokens, cap);
    var stride := Stride(window, asked);
    WordsAreWords(body);
    if tokens != [] {
      EntriesCover(tokens, window, stride, 0, 0);
      forall k | 0 <= k < |tokens| ensures IsCovered(p, k) {
        TokenIsCovered(p, tokens, window, stride, 0, 0, k);
      }
      forall i | 0 <= i < |p| ensures Words(p[i].text) == tokens[p[i].start..p[i].end] {
        assert InPlace(p[i], tokens, window);
        WordsOfJoined(tokens[p[i].start..p[i].end]);
      }
    }
  }

  /** A body is one chunk exactly when its words fit one window. */
  lemma OneChunkExactly(body: string, chunkTokens: int, asked: Option<int>, cap: nat)
    requires cap > 0
    ensures |Plan(body, chunkTokens, asked, cap)| == 1 <==> |Words(body)| <= Window(chunkTokens, cap)
  {
    var window := Window(chunkTokens, cap);
    if Words(body) != [] {
      EntriesCover(Words(body), window, Stride(window, asked), 0, 0);
    }
  }
}
