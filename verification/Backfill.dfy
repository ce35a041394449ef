/**
 * The resumable embedding backfill: pages of unembedded facts past a keyset cursor, one
 * transaction per fact, the cursor saved once per page, and a crash possible between any two steps.
 */
module Backfill {
  import opened Common
  import opened Sequences
  import C = ChunkPlan

  const NULL_CURSOR := 0

  /**
   * The fixed facts, in ID order, with the chunk indices each one's plan asks for and the number of
   * vectors the embedder returns for it: every plan has a chunk, and every chunk its vector. IDs are
   * UUIDs read as numbers; the null UUID is 0.
   */
  datatype World = World(ids: seq<nat>, plan: map<nat, seq<int>>, vectors: map<nat, nat>, batch: nat) {
    ghost predicate Valid() {
      && batch > 0
      && Ascends(ids)
      && (forall i :: 0 <= i < |ids| ==> ids[i] in plan && ids[i] in vectors)
      && (forall id :: id in plan && id in vectors ==> plan[id] != [] && vectors[id] == |plan[id]|)
    }

    /** The chunks that get a vector: `zip` stops at the shorter of the two. No fact, no chunks. */
    function Chunks(id: nat): seq<int> {
      if id !in plan || id !in vectors then []
      else if vectors[id] < |plan[id]| then plan[id][..vectors[id]] else plan[id]
    }
  }

  function Indexes(plan: seq<C.Entry>): (indexes: seq<int>)
    ensures |indexes| == |plan|
  {
    seq(|plan|, i requires 0 <= i < |plan| => plan[i].index)
  }

  function Texts(plan: seq<C.Entry>): (texts: seq<string>)
    ensures |texts| == |plan|
  {
    seq(|plan|, i requires 0 <= i < |plan| => plan[i].text)
  }

  /** The plan of a fact's body, a missing body counting as an empty one. */
  function PlanOf(declared: Option<int>, body: Option<string>): seq<C.Entry> {
    C.Plan(if body.Some? then body.value else "", C.CHUNK_TOKENS, None, C.MaxPlanWords(declared))
  }

  /** The facts as they stand in the database, planned and embedded; `encode` counts the vectors it answers. */
  function WorldOf(ids: seq<nat>, bodies: map<nat, Option<string>>, declared: Option<int>, encode: seq<string> -> nat,
                   batch: nat): World {
    World(ids,
          map id | id in bodies :: Indexes(PlanOf(declared, bodies[id])),
          map id | id in bodies :: encode(Texts(PlanOf(declared, bodies[id]))),
          batch)
  }

  /**
   * Whatever the bodies, empty and missing ones included: with an embedder that answers one vector per
   * text, every fact has chunks to embed, and they are numbered from zero.
   */
  lemma PlannedFactsAreValid(ids: seq<nat>, bodies: map<nat, Option<string>>, declared: Option<int>, encode: seq<string> -> nat,
                             batch: nat, id: nat)
    requires batch > 0 && Ascends(ids) && (forall k :: k in ids ==> k in bodies) && id in ids
    requires forall texts :: encode(texts) == |texts|
    ensures var w := WorldOf(ids, bodies, declared, encode, batch);
            && w.Valid() && w.Chunks(id) != [] && |w.Chunks(id)| == |PlanOf(declared, bodies[id])|
            && forall i :: 0 <= i < |w.Chunks(id)| ==> w.Chunks(id)[i] == i
  {
    forall k | k in bodies ensures PlanOf(declared, bodies[k]) != [] {
      PlanNumbered(declared, bodies[k]);
    }
    PlanNumbered(declared, bodies[id]);
  }

  lemma PlanNumbered(declared: Option<int>, body: Option<string>)
    ensures PlanOf(declared, body) != []
    ensures forall i :: 0 <= i < |PlanOf(declared, body)| ==> Indexes(PlanOf(declared, body))[i] == i
  {
    C.PlanIsNumbered(if body.Some? then body.value else "", C.CHUNK_TOKENS, None, C.MaxPlanWords(declared));
  }

  lemma ChunksOfFact(w: World, id: nat)
    requires w.Valid() && id in w.ids
    ensures id in w.plan && id in w.vectors && w.Chunks(id) == w.plan[id] != []
  {
    var i :| 0 <= i < |w.ids| && w.ids[i] == id;
    assert w.ids[i] in w.plan;
  }

  /** Embedding rows of one model: fact and chunk index, with their multiplicity. */
  type Rows = multiset<(nat, int)>

  predicate Embedded(rows: Rows, id: nat) {
    exists r :: r in rows && r.0 == id
  }

  /** One `INSERT ... WHERE NOT EXISTS` per chunk. */
  function Inserted(rows: Rows, id: nat, chunks: seq<int>): Rows {
    if chunks == [] then rows
    else
      var before, c := Inserted(rows, id, chunks[..|chunks| - 1]), chunks[|chunks| - 1];
      if (id, c) in before then before else before + multiset{(id, c)}
  }

  /** The facts past the cursor with no row yet, in ID order. */
  function Pending(ids: seq<nat>, rows: Rows, cursor: nat): (p: seq<nat>)
    ensures forall id :: id in p <==> id in ids && id > cursor && !Embedded(rows, id)
  {
    if ids == [] then []
    else
      var rest := Pending(ids[1..], rows, cursor);
      assert ids == [ids[0]] + ids[1..];
      if ids[0] > cursor && !Embedded(rows, ids[0]) then [ids[0]] + rest else rest
  }

  function Page(w: World, rows: Rows, cursor: nat): seq<nat> {
    var p := Pending(w.ids, rows, cursor);
    if |p| <= w.batch then p else p[..w.batch]
  }

  ghost predicate Ascends(p: seq<nat>) {
    forall i, j :: 0 <= i < j < |p| ==> p[i] < p[j]
  }

  lemma {:induction false} PendingAscends(ids: seq<nat>, rows: Rows, cursor: nat)
    requires Ascends(ids)
    ensures Ascends(Pending(ids, rows, cursor))
  {
    if ids != [] {
      PendingAscends(ids[1..], rows, cursor);
      var rest := Pending(ids[1..], rows, cursor);
      forall i | 0 <= i < |rest| ensures ids[0] < rest[i] {
        assert rest[i] in rest;
        var k :| 0 <= k < |ids[1..]| && ids[1..][k] == rest[i];
        assert ids[k + 1] == rest[i];
      }
    }
  }

  /** Everything in an ascending sequence up to the end of a prefix is in the prefix. */
  lemma PrefixHolds(p: seq<nat>, n: nat, id: nat)
    requires Ascends(p) && 0 < n <= |p| && id in p && id < p[n - 1]
    ensures id in p[..n]
  {
    var i :| 0 <= i < |p| && p[i] == id;
    assert !(p[n - 1] < p[i]) && i < n;
    assert p[..n][i] == id;
  }

  // --- what it means for a fact to be settled ---

  ghost predicate Untouched(rows0: Rows, rows: Rows, id: nat) {
    forall r: (nat, int) :: r.0 == id ==> rows[r] == rows0[r]
  }

  /** The fact had no row and now has exactly one for each of its chunks. */
  ghost predicate Filled(w: World, rows0: Rows, rows: Rows, id: nat) {
    && id in w.plan && id in w.vectors
    && forall r: (nat, int) :: r.0 == id ==> rows0[r] == 0 && rows[r] == if r.1 in w.Chunks(id) then 1 else 0
  }

  /** Nothing is left to do for the fact: it had rows already, or has all of its own. */
  ghost predicate Settled(w: World, rows0: Rows, rows: Rows, id: nat) {
    (Embedded(rows0, id) && Untouched(rows0, rows, id)) || Filled(w, rows0, rows, id)
  }

  /** Every fact is as it was or completely filled: no transaction is ever seen half done. */
  ghost predicate AllOrNothing(w: World, rows0: Rows, rows: Rows) {
    forall id: nat :: Untouched(rows0, rows, id) || Filled(w, rows0, rows, id)
  }

  ghost predicate SettledUpTo(w: World, rows0: Rows, rows: Rows, cursor: nat) {
    forall id :: id in w.ids && NULL_CURSOR < id <= cursor ==> Settled(w, rows0, rows, id)
  }

  ghost predicate NoDuplicates(rows: Rows) {
    forall r :: r in rows ==> rows[r] == 1
  }

  lemma {:induction false} InsertedRows(rows: Rows, id: nat, chunks: seq<int>)
    ensures forall r :: Inserted(rows, id, chunks)[r] ==
              if r.0 == id && r.1 in chunks && rows[r] == 0 then 1 else rows[r]
  {
    if chunks != [] {
      var n := |chunks| - 1;
      InsertedRows(rows, id, chunks[..n]);
      assert chunks == chunks[..n] + [chunks[n]];
    }
  }

  /** One transaction settles its fact, disturbs no other, and adds no duplicate. */
  lemma InsertSettles(w: World, rows0: Rows, rows: Rows, id: nat)
    requires w.Valid() && id in w.ids && AllOrNothing(w, rows0, rows) && !Embedded(rows, id)
    ensures var rows' := Inserted(rows, id, w.Chunks(id));
            && AllOrNothing(w, rows0, rows') && Settled(w, rows0, rows', id)
            && (forall k: nat :: Settled(w, rows0, rows, k) ==> Settled(w, rows0, rows', k))
            && (forall k: nat :: k != id ==> Untouched(rows, rows', k))
            && (NoDuplicates(rows) ==> NoDuplicates(rows'))
  {
    var rows' := Inserted(rows, id, w.Chunks(id));
    InsertedRows(rows, id, w.Chunks(id));
    assert Untouched(rows0, rows, id) || Filled(w, rows0, rows, id);
    forall r: (nat, int) | r.0 == id ensures rows[r] == 0 && rows0[r] == 0 {
      assert r !in rows;
    }
    assert Filled(w, rows0, rows', id);
    forall k: nat | k != id ensures Untouched(rows, rows', k) {
    }
    forall k: nat ensures Untouched(rows0, rows', k) || Filled(w, rows0, rows', k) {
      if k != id {
        assert Untouched(rows0, rows, k) || Filled(w, rows0, rows, k);
      }
    }
    forall k: nat | Settled(w, rows0, rows, k) ensures Settled(w, rows0, rows', k) {
      if k != id {
        assert Untouched(rows, rows', k);
      }
    }
  }

  /** A fact that has rows is settled. */
  lemma EmbeddedIsSettled(w: World, rows0: Rows, rows: Rows, id: nat)
    requires AllOrNothing(w, rows0, rows) && Embedded(rows, id)
    ensures Settled(w, rows0, rows, id)
  {
    if Untouched(rows0, rows, id) {
      var r :| r in rows && r.0 == id;
      assert rows[r] == rows0[r];
    }
  }

  // --- a run, step by step, with crashes ---

  datatype Stage =
    | Fetching
    | Working(todo: seq<nat>)
    | Truncating
    | Writing
    | Exited

  /** A running process: its cursor and count, and where it stands. */
  datatype Process = Process(cursor: nat, total: nat, stage: Stage)

  /** `saved` is the cursor file; a truncated or missing file loads as the null cursor. */
  datatype State = State(rows: Rows, saved: Option<nat>, process: Option<Process>)

  function Loaded(saved: Option<nat>): nat {
    if saved.Some? then saved.value else NULL_CURSOR
  }

  datatype Event = Start | Tick | Crash

  ghost function Ticked(w: World, s: State): State
    requires w.Valid()
  {
    if s.process.None? then s
    else
      var p := s.process.value;
      match p.stage
      case Fetching =>
        var page := Page(w, s.rows, p.cursor);
        s.(process := Some(p.(stage := if page == [] then Exited else Working(page))))
      case Working(todo) =>
        if todo == [] then s.(process := Some(p.(stage := Truncating)))
        else if todo[0] !in w.ids then s
        else
          s.(rows := Inserted(s.rows, todo[0], w.Chunks(todo[0])),
             process := Some(Process(todo[0], p.total + 1, Working(todo[1..]))))
      case Truncating => s.(saved := None, process := Some(p.(stage := Writing)))
      case Writing => s.(saved := Some(p.cursor), process := Some(p.(stage := Fetching)))
      case Exited => s
  }

  ghost function Step(w: World, s: State, e: Event): State
    requires w.Valid()
  {
    match e
    case Start => if s.process.Some? then s else s.(process := Some(Process(Loaded(s.saved), 0, Fetching)))
    case Tick => Ticked(w, s)
    case Crash => s.(process := None)
  }

  ghost function Run(w: World, s: State, events: seq<Event>): State
    requires w.Valid()
  {
    if events == [] then s else Step(w, Run(w, s, events[..|events| - 1]), events[|events| - 1])
  }

  /** A page in hand: unembedded facts past the cursor, in order, and nothing skipped on the way. */
  ghost predicate PageInHand(w: World, rows: Rows, cursor: nat, todo: seq<nat>) {
    && (forall i :: 0 <= i < |todo| ==> todo[i] in w.ids && todo[i] > cursor && !Embedded(rows, todo[i]))
    && Ascends(todo)
    && (todo != [] ==> forall id :: id in w.ids && cursor < id < todo[|todo| - 1] ==> id in todo || Embedded(rows, id))
  }

  ghost predicate Sound(w: World, rows0: Rows, s: State) {
    && AllOrNothing(w, rows0, s.rows)
    && SettledUpTo(w, rows0, s.rows, Loaded(s.saved))
    && (NoDuplicates(rows0) ==> NoDuplicates(s.rows))
    && (s.process.Some? ==>
          var p := s.process.value;
          && SettledUpTo(w, rows0, s.rows, p.cursor)
          && (p.stage.Working? ==> PageInHand(w, s.rows, p.cursor, p.stage.todo))
          && (p.stage.Exited? ==> Page(w, s.rows, p.cursor) == []))
  }

  lemma PageIsInHand(w: World, rows: Rows, cursor: nat)
    requires w.Valid()
    ensures PageInHand(w, rows, cursor, Page(w, rows, cursor))
    ensures Page(w, rows, cursor) == [] ==> forall id :: id in w.ids && id > cursor ==> Embedded(rows, id)
  {
    PendingAscends(w.ids, rows, cursor);
    var p, page := Pending(w.ids, rows, cursor), Page(w, rows, cursor);
    forall id | id in w.ids && page != [] && cursor < id < page[|page| - 1] && !Embedded(rows, id) ensures id in page {
      assert id in p;
      PrefixHolds(p, |page|, id);
    }
    PrefixMembers(p, page);
  }

  lemma PrefixMembers(p: seq<nat>, q: seq<nat>)
    requires q <= p
    ensures forall i :: 0 <= i < |q| ==> q[i] in p
    ensures Ascends(p) ==> Ascends(q)
  {
  }

  /** Processing the head of the page keeps the rest of it in hand and settles everything up to it. */
  lemma WorkKeepsSound(w: World, rows0: Rows, s: State)
    requires w.Valid() && Sound(w, rows0, s) && s.process.Some? && s.process.value.stage.Working?
    requires s.process.value.stage.todo != []
    ensures Sound(w, rows0, Ticked(w, s))
  {
    var p := s.process.value;
    var id, rows' := p.stage.todo[0], Inserted(s.rows, p.stage.todo[0], w.Chunks(p.stage.todo[0]));
    InsertSettles(w, rows0, s.rows, id);
    WorkSettles(w, rows0, s.rows, p.cursor, p.stage.todo);
    WorkKeepsHand(w, s.rows, p.cursor, p.stage.todo);
  }

  /** Everything up to the fact just worked is settled: what lies between was embedded already. */
  lemma WorkSettles(w: World, rows0: Rows, rows: Rows, cursor: nat, todo: seq<nat>)
    requires w.Valid() && AllOrNothing(w, rows0, rows) && SettledUpTo(w, rows0, rows, cursor)
    requires PageInHand(w, rows, cursor, todo) && todo != []
    ensures SettledUpTo(w, rows0, Inserted(rows, todo[0], w.Chunks(todo[0])), todo[0])
  {
    var id, rows' := todo[0], Inserted(rows, todo[0], w.Chunks(todo[0]));
    InsertSettles(w, rows0, rows, id);
    forall k | k in w.ids && NULL_CURSOR < k <= id ensures Settled(w, rows0, rows', k) {
      if cursor < k < id {
        assert k !in todo by {
          assert forall i :: 0 <= i < |todo| ==> id <= todo[i];
        }
        EmbeddedIsSettled(w, rows0, rows, k);
      }
    }
  }

  lemma WorkKeepsHand(w: World, rows: Rows, cursor: nat, todo: seq<nat>)
    requires PageInHand(w, rows, cursor, todo) && todo != []
    ensures PageInHand(w, Inserted(rows, todo[0], w.Chunks(todo[0])), todo[0], todo[1..])
  {
    var id, rest, rows' := todo[0], todo[1..], Inserted(rows, todo[0], w.Chunks(todo[0]));
    forall k: nat ensures k != id ==> (Embedded(rows', k) <==> Embedded(rows, k)) {
      InsertedEmbeds(rows, id, w.Chunks(id), k);
    }
    if rest != [] {
      assert rest[|rest| - 1] == todo[|todo| - 1];
      forall k | k in w.ids && id < k < rest[|rest| - 1] ensures k in rest || Embedded(rows', k) {
        assert k in todo ==> k in rest by { HeadAndTail(todo); }
      }
    }
  }

  lemma StepKeepsSound(w: World, rows0: Rows, s: State, e: Event)
    requires w.Valid() && Sound(w, rows0, s)
    ensures Sound(w, rows0, Step(w, s, e))
  {
    if e == Tick && s.process.Some? {
      var p := s.process.value;
      if p.stage.Fetching? {
        PageIsInHand(w, s.rows, p.cursor);
      } else if p.stage.Working? && p.stage.todo != [] {
        WorkKeepsSound(w, rows0, s);
      }
    }
  }

  /**
   * Every crash and restart schedule from the null cursor keeps this: no fact is ever half embedded,
   * no row is duplicated, and every fact at or below the saved cursor is settled.
   */
  lemma {:induction false} ScheduleSound(w: World, rows0: Rows, events: seq<Event>)
    requires w.Valid()
    ensures Sound(w, rows0, Run(w, State(rows0, None, None), events))
  {
    if events != [] {
      ScheduleSound(w, rows0, events[..|events| - 1]);
      StepKeepsSound(w, rows0, Run(w, State(rows0, None, None), events[..|events| - 1]), events[|events| - 1]);
    } else {
      assert forall id: nat :: Untouched(rows0, rows0, id);
    }
  }

  /**
   * When a process exits normally, whatever crashed before it, every fact but the null-ID one is
   * embedded: completely if it had no row to begin with. The null-ID fact is never past any cursor, so
   * it is embedded exactly when it already was.
   */
  lemma NormalExitIsComplete(w: World, rows0: Rows, events: seq<Event>, id: nat)
    requires w.Valid() && id in w.ids
    requires var s := Run(w, State(rows0, None, None), events); s.process.Some? && s.process.value.stage.Exited?
    ensures var rows := Run(w, State(rows0, None, None), events).rows;
            && (Embedded(rows, id) <==> id != NULL_CURSOR || Embedded(rows0, id))
            && (id != NULL_CURSOR ==> Settled(w, rows0, rows, id))
  {
    ScheduleSound(w, rows0, events);
    var s := Run(w, State(rows0, None, None), events);
    var cursor := s.process.value.cursor;
    if id == NULL_CURSOR {
      NullFactUntouched(w, rows0, events);
      assert Untouched(rows0, s.rows, 0);
      forall r: (nat, int) | r.0 == 0 ensures r in s.rows <==> r in rows0 {
        assert s.rows[r] == rows0[r];
      }
    } else {
      if id > cursor {
        PageIsInHand(w, s.rows, cursor);
        EmbeddedIsSettled(w, rows0, s.rows, id);
      }
      ChunksOfFact(w, id);
      SettledIsEmbedded(w, rows0, s.rows, id);
    }
  }

  lemma SettledIsEmbedded(w: World, rows0: Rows, rows: Rows, id: nat)
    requires Settled(w, rows0, rows, id) && id in w.plan && id in w.vectors && w.Chunks(id) != []
    ensures Embedded(rows, id)
  {
    if Filled(w, rows0, rows, id) {
      var c := w.Chunks(id)[0];
      assert c in w.Chunks(id) && rows[(id, c)] == 1;
      assert (id, c) in rows && (id, c).0 == id;
    } else {
      var r :| r in rows0 && r.0 == id;
      assert rows[r] == rows0[r];
    }
  }

  /** No schedule ever touches the rows of the null-ID fact, and pages never hold it. */
  lemma {:induction false} NullFactUntouched(w: World, rows0: Rows, events: seq<Event>)
    requires w.Valid()
    ensures Untouched(rows0, Run(w, State(rows0, None, None), events).rows, NULL_CURSOR)
  {
    if events != [] {
      var s := Run(w, State(rows0, None, None), events[..|events| - 1]);
      NullFactUntouched(w, rows0, events[..|events| - 1]);
      ScheduleSound(w, rows0, events[..|events| - 1]);
      if s.process.Some? && s.process.value.stage.Working? && s.process.value.stage.todo != [] {
        InsertedRows(s.rows, s.process.value.stage.todo[0], w.Chunks(s.process.value.stage.todo[0]));
      }
    }
  }

  // --- the script itself ---

  /** The rows once every fact of `p` has had its transaction. */
  ghost function Worked(w: World, rows: Rows, p: seq<nat>): Rows
  {
    if p == [] then rows
    else
      var n := |p| - 1;
      Inserted(Worked(w, rows, p[..n]), p[n], w.Chunks(p[n]))
  }

  lemma {:induction false} WorkedConcat(w: World, rows: Rows, p: seq<nat>, q: seq<nat>)
    ensures Worked(w, rows, p + q) == Worked(w, Worked(w, rows, p), q)
  {
    if q == [] {
      assert p + q == p;
    } else {
      var n := |q| - 1;
      WorkedConcat(w, rows, p, q[..n]);
      assert (p + q)[..|p + q| - 1] == p + q[..n];
    }
  }

  /** A fact is embedded afterwards if it was before, or was worked and had a chunk to embed. */
  lemma {:induction false} WorkedEmbeds(w: World, rows: Rows, p: seq<nat>, id: nat)
    ensures Embedded(Worked(w, rows, p), id) <==> Embedded(rows, id) || (id in p && w.Chunks(id) != [])
  {
    if p != [] {
      var n := |p| - 1;
      WorkedEmbeds(w, rows, p[..n], id);
      InsertedEmbeds(Worked(w, rows, p[..n]), p[n], w.Chunks(p[n]), id);
      assert p == p[..n] + [p[n]];
    }
  }

  lemma InsertedEmbeds(rows: Rows, id: nat, chunks: seq<int>, k: nat)
    ensures Embedded(Inserted(rows, id, chunks), k) <==> Embedded(rows, k) || (k == id && chunks != [])
  {
    var rows' := Inserted(rows, id, chunks);
    InsertedRows(rows, id, chunks);
    if Embedded(rows, k) {
      var r :| r in rows && r.0 == k;
      assert r in rows';
    }
    if k == id && chunks != [] {
      assert (id, chunks[0]) in rows' && (id, chunks[0]).0 == id;
    }
    if Embedded(rows', k) {
      var r :| r in rows' && r.0 == k;
      assert rows'[r] == if r.0 == id && r.1 in chunks && rows[r] == 0 then 1 else rows[r];
    }
  }

  /** Working one fact of a page off, from the point of view of the loop. */
  lemma FactOfPage(w: World, rows0: Rows, rows: Rows, file: Option<nat>, cursor: nat, total: nat, page: seq<nat>)
    requires w.Valid() && page != []
    requires Sound(w, rows0, State(rows, file, Some(Process(cursor, total, Working(page)))))
    ensures page[0] in w.ids && page[0] > cursor
    ensures Sound(w, rows0, State(Inserted(rows, page[0], w.Chunks(page[0])), file,
                                  Some(Process(page[0], total + 1, Working(page[1..])))))
  {
    assert PageInHand(w, rows, cursor, page);
    WorkKeepsSound(w, rows0, State(rows, file, Some(Process(cursor, total, Working(page)))));
  }

  /** Working a whole page off. */
  lemma {:induction false} PageKeepsSound(w: World, rows0: Rows, rows: Rows, file: Option<nat>, cursor: nat,
                                          total: nat, page: seq<nat>)
    requires w.Valid() && page != []
    requires Sound(w, rows0, State(rows, file, Some(Process(cursor, total, Working(page)))))
    ensures Sound(w, rows0, State(Worked(w, rows, page), Some(page[|page| - 1]),
                                  Some(Process(page[|page| - 1], total + |page|, Fetching))))
    ensures page[|page| - 1] in w.ids && page[|page| - 1] > cursor
    decreases |page|
  {
    FactOfPage(w, rows0, rows, file, cursor, total, page);
    WorkedHead(w, rows, page);
    var rows' := Inserted(rows, page[0], w.Chunks(page[0]));
    if |page| > 1 {
      PageKeepsSound(w, rows0, rows', file, page[0], total + 1, page[1..]);
    } else {
      assert page[1..] == [];
      SavedIsSound(w, rows0, rows', file, page[0], total + 1);
    }
  }

  /** The last fact of a page is worked: the cursor may be saved. */
  lemma SavedIsSound(w: World, rows0: Rows, rows: Rows, file: Option<nat>, cursor: nat, total: nat)
    requires w.Valid() && Sound(w, rows0, State(rows, file, Some(Process(cursor, total, Working([])))))
    ensures Sound(w, rows0, State(rows, Some(cursor), Some(Process(cursor, total, Fetching))))
  {
  }

  lemma WorkedHead(w: World, rows: Rows, page: seq<nat>)
    requires page != []
    ensures Worked(w, rows, page) == Worked(w, Inserted(rows, page[0], w.Chunks(page[0])), page[1..])
  {
    assert Worked(w, rows, [page[0]]) == Inserted(rows, page[0], w.Chunks(page[0])) by {
      assert [page[0]][..0] == [];
    }
    HeadAndTail(page);
    WorkedConcat(w, rows, [page[0]], page[1..]);
  }

  // --- what the count counts ---

  /** Ascending sequences with the same members are the same. */
  lemma {:induction false} AscendingUnique(p: seq<nat>, q: seq<nat>)
    requires Ascends(p) && Ascends(q) && forall id :: id in p <==> id in q
    ensures p == q
  {
    if p != [] || q != [] {
      assert (p != [] ==> p[0] in q) && (q != [] ==> q[0] in p);
      var i :| 0 <= i < |q| && q[i] == p[0];
      var j :| 0 <= j < |p| && p[j] == q[0];
      assert p[0] == q[0];
      forall id ensures id in p[1..] <==> id in q[1..] {
        TailMembers(p, id);
        TailMembers(q, id);
      }
      AscendingUnique(p[1..], q[1..]);
      assert p == [p[0]] + p[1..] && q == [q[0]] + q[1..];
    }
  }

  lemma TailMembers(p: seq<nat>, id: nat)
    requires p != [] && Ascends(p)
    ensures id in p[1..] <==> id in p && id != p[0]
  {
    assert p == [p[0]] + p[1..];
    assert forall i :: 0 <= i < |p[1..]| ==> p[1..][i] == p[i + 1] > p[0];
  }

  /** After a page, what is still pending past its last fact is what was pending past the page. */
  lemma PendingAfterPage(w: World, rows: Rows, cursor: nat, page: seq<nat>, rest: seq<nat>)
    requires w.Valid() && page != [] && Pending(w.ids, rows, cursor) == page + rest
    ensures Pending(w.ids, Worked(w, rows, page), page[|page| - 1]) == rest
  {
    var p, last := page + rest, page[|page| - 1];
    var rows' := Worked(w, rows, page);
    PendingAscends(w.ids, rows, cursor);
    PendingAscends(w.ids, rows', last);
    assert last in p;
    forall id ensures id in Pending(w.ids, rows', last) <==> id in rest {
      PageDivides(page, rest, id);
      WorkedEmbeds(w, rows, page, id);
    }
    assert rest == p[|page|..];
    AscendingUnique(Pending(w.ids, rows', last), rest);
  }

  /** The last fact of the page divides what was pending. */
  lemma PageDivides(page: seq<nat>, rest: seq<nat>, id: nat)
    requires page != [] && Ascends(page + rest)
    ensures id in rest <==> id in page + rest && id > page[|page| - 1]
    ensures id in page ==> id <= page[|page| - 1]
  {
    var p, n := page + rest, |page|;
    assert p[..n] == page && p[n..] == rest && p[n - 1] == page[n - 1];
    SuffixMembers(p, n, id);
    PrefixBelow(p, n, id);
  }

  lemma SuffixMembers(p: seq<nat>, n: nat, id: nat)
    requires Ascends(p) && 0 < n <= |p|
    ensures id in p[n..] <==> id in p && id > p[n - 1]
  {
    if id in p && id > p[n - 1] {
      var i :| 0 <= i < |p| && p[i] == id;
      assert i >= n && p[n..][i - n] == id;
    }
  }

  lemma PrefixBelow(p: seq<nat>, n: nat, id: nat)
    requires Ascends(p) && 0 < n <= |p|
    ensures id in p[..n] ==> id <= p[n - 1]
  {
  }

  /** The facts without a row before and with one after. */
  ghost function NewlyEmbedded(w: World, before: Rows, after: Rows): set<nat> {
    set id | id in w.ids && !Embedded(before, id) && Embedded(after, id)
  }

  ghost function Members(p: seq<nat>): set<nat> {
    set id | id in p
  }

  lemma {:induction false} AscendingCount(p: seq<nat>)
    requires Ascends(p)
    ensures |Members(p)| == |p|
  {
    if p != [] {
      var n := |p| - 1;
      AscendingCount(p[..n]);
      assert p == p[..n] + [p[n]];
      assert Members(p) == Members(p[..n]) + {p[n]};
      assert p[n] !in p[..n];
    }
  }

  /**
   * Working everything pending off newly embeds exactly the facts that were pending, so the number
   * worked is the number of facts newly embedded.
   */
  lemma WorkedCount(w: World, rows: Rows, cursor: nat)
    requires w.Valid()
    ensures var p := Pending(w.ids, rows, cursor);
            var added := NewlyEmbedded(w, rows, Worked(w, rows, p));
            added == Members(p) && |added| == |p|
  {
    var p := Pending(w.ids, rows, cursor);
    PendingAscends(w.ids, rows, cursor);
    forall id ensures id in NewlyEmbedded(w, rows, Worked(w, rows, p)) <==> id in Members(p) {
      WorkedEmbeds(w, rows, p, id);
      if id in p {
        ChunksOfFact(w, id);
      }
    }
    AscendingCount(p);
  }

  // --- one page, for the loop ---

  /** Working off what is still pending leads where working off everything pending at the start leads. */
  ghost predicate Progress(w: World, start: Rows, pending: seq<nat>, total: nat, rows: Rows, cursor: nat) {
    var left := Pending(w.ids, rows, cursor);
    Worked(w, rows, left) == Worked(w, start, pending) && total + |left| == |pending|
  }

  lemma PageProgress(w: World, start: Rows, pending: seq<nat>, total: nat, rows: Rows, cursor: nat, page: seq<nat>)
    requires w.Valid() && Progress(w, start, pending, total, rows, cursor)
    requires page == Page(w, rows, cursor) && page != []
    ensures Progress(w, start, pending, total + |page|, Worked(w, rows, page), page[|page| - 1])
  {
    var left := Pending(w.ids, rows, cursor);
    var rest := left[|page|..];
    assert left == page + rest;
    PendingAfterPage(w, rows, cursor, page, rest);
    WorkedConcat(w, rows, page, rest);
  }

  /** The loop's state: sound, and so far along. */
  ghost predicate Underway(w: World, rows0: Rows, start: Rows, pending: seq<nat>, rows: Rows, file: Option<nat>,
                           cursor: nat, total: nat) {
    && Sound(w, rows0, State(rows, file, Some(Process(cursor, total, Fetching))))
    && Progress(w, start, pending, total, rows, cursor)
  }

  lemma OnePage(w: World, rows0: Rows, start: Rows, pending: seq<nat>, rows: Rows, file: Option<nat>, cursor: nat,
                total: nat, page: seq<nat>)
    requires w.Valid() && Underway(w, rows0, start, pending, rows, file, cursor, total)
    requires page == Page(w, rows, cursor) && page != []
    ensures page[|page| - 1] in w.ids && page[|page| - 1] > cursor
    ensures Underway(w, rows0, start, pending, Worked(w, rows, page), Some(page[|page| - 1]), page[|page| - 1], total + |page|)
  {
    PageIsInHand(w, rows, cursor);
    PageKeepsSound(w, rows0, rows, file, cursor, total, page);
    PageProgress(w, start, pending, total, rows, cursor, page);
  }

  /** Where the loop stops, everything pending has been worked and every fact but the null one is settled. */
  lemma NothingLeft(w: World, rows0: Rows, start: Rows, pending: seq<nat>, rows: Rows, file: Option<nat>,
                    cursor: nat, total: nat)
    requires w.Valid() && Underway(w, rows0, start, pending, rows, file, cursor, total) && Page(w, rows, cursor) == []
    ensures total == |pending| && rows == Worked(w, start, pending)
    ensures Sound(w, rows0, State(rows, file, None))
    ensures forall id :: id in w.ids && id != NULL_CURSOR ==> Settled(w, rows0, rows, id)
  {
    PageIsInHand(w, rows, cursor);
    assert Pending(w.ids, rows, cursor) == [];
    forall id | id in w.ids && id != NULL_CURSOR ensures Settled(w, rows0, rows, id) {
      if id > cursor {
        EmbeddedIsSettled(w, rows0, rows, id);
      }
    }
  }

  class BackfillScript {
    const w: World
    var rows: Rows
    var cursorFile: Option<nat>

    constructor (w: World, rows: Rows, cursorFile: Option<nat>)
      ensures this.w == w && this.rows == rows && this.cursorFile == cursorFile
    {
      this.w, this.rows, this.cursorFile := w, rows, cursorFile;
    }

    method InsertChunks(id: nat, chunks: seq<int>)
      modifies this`rows
      ensures rows == Inserted(old(rows), id, chunks)
    {
      var i := 0;
      while i < |chunks|
        invariant 0 <= i <= |chunks| && rows == Inserted(old(rows), id, chunks[..i])
      {
        assert chunks[..i + 1][..i] == chunks[..i];
        if (id, chunks[i]) !in rows {
          rows := rows + multiset{(id, chunks[i])};
        }
        i := i + 1;
      }
      assert chunks[..i] == chunks;
    }

    /** Embed and insert one page, one transaction per fact. */
    method WorkThroughPage(cursor0: nat, total0: nat, page: seq<nat>) returns (cursor: nat, total: nat)
      requires page != []
      modifies this`rows
      ensures rows == Worked(w, old(rows), page)
      ensures cursor == page[|page| - 1] && total == total0 + |page|
    {
      cursor, total := cursor0, total0;
      for i := 0 to |page|
        invariant total == total0 + i && rows == Worked(w, old(rows), page[..i])
        invariant i > 0 ==> cursor == page[i - 1]
      {
        assert page[..i + 1][..i] == page[..i];
        assert page[i] in page;
        InsertChunks(page[i], w.Chunks(page[i]));
        total := total + 1;
        cursor := page[i];
      }
      assert page[..|page|] == page;
    }

    /** One turn of the loop: work the page off, then save the cursor. */
    method WorkAndSave(ghost rows0: Rows, ghost start: Rows, ghost pending: seq<nat>, cursor0: nat, total0: nat,
                       page: seq<nat>)
      returns (cursor: nat, total: nat)
      requires w.Valid() && Underway(w, rows0, start, pending, rows, cursorFile, cursor0, total0)
      requires page == Page(w, rows, cursor0) && page != []
      modifies this
      ensures Underway(w, rows0, start, pending, rows, cursorFile, cursor, total)
      ensures cursorFile == Some(cursor) && rows == Worked(w, old(rows), page)
      ensures cursor == page[|page| - 1] && total == total0 + |page|
      ensures Remaining(w.ids, cursor) < Remaining(w.ids, cursor0)
    {
      OnePage(w, rows0, start, pending, rows, cursorFile, cursor0, total0, page);
      RemainingFalls(w.ids, cursor0, page[|page| - 1]);
      cursor, total := WorkThroughPage(cursor0, total0, page);
      cursorFile := Some(cursor);
    }

    /**
     * One undisturbed run. From any sound starting point, in particular the one any crash leaves, it
     * ends, every fact past the null ID is settled, and the count is that of the facts newly embedded,
     * which are those that were pending past the loaded cursor.
     */
    method RunBackfill(ghost rows0: Rows) returns (total: nat)
      requires w.Valid() && Sound(w, rows0, State(rows, cursorFile, None))
      modifies this
      ensures Sound(w, rows0, State(rows, cursorFile, None))
      ensures forall id :: id in w.ids && id != NULL_CURSOR ==> Settled(w, rows0, rows, id)
      ensures var pending := Pending(w.ids, old(rows), Loaded(old(cursorFile)));
              && rows == Worked(w, old(rows), pending) && total == |pending|
              && NewlyEmbedded(w, old(rows), rows) == Members(pending)
      ensures total == |NewlyEmbedded(w, old(rows), rows)|
    {
      var cursor: nat := if cursorFile.Some? then cursorFile.value else NULL_CURSOR;
      total := 0;
      ghost var pending := Pending(w.ids, rows, cursor);
      while true
        invariant Underway(w, rows0, old(rows), pending, rows, cursorFile, cursor, total)
        decreases Remaining(w.ids, cursor)
      {
        var page := Page(w, rows, cursor);
        if page == [] {
          break;
        }
        cursor, total := WorkAndSave(rows0, old(rows), pending, cursor, total, page);
      }
      NothingLeft(w, rows0, old(rows), pending, rows, cursorFile, cursor, total);
      WorkedCount(w, old(rows), Loaded(old(cursorFile)));
    }
  }

  /** How many facts lie past the cursor. */
  ghost function Remaining(ids: seq<nat>, cursor: nat): nat {
    if ids == [] then 0 else Remaining(ids[1..], cursor) + if ids[0] > cursor then 1 else 0
  }

  lemma {:induction false} RemainingFalls(ids: seq<nat>, a: nat, b: nat)
    requires a <= b
    ensures Remaining(ids, b) <= Remaining(ids, a)
    ensures a < b && b in ids ==> Remaining(ids, b) < Remaining(ids, a)
  {
    if ids != [] {
      RemainingFalls(ids[1..], a, b);
      assert ids == [ids[0]] + ids[1..];
    }
  }
}
