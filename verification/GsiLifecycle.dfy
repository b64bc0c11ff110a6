/** The lifecycle of a DualWrite index from creation to `active`: every interleaving of writers,
    chunks, phase changes, failures, crashes and restarts, and the worker code itself. */
module GsiLifecycle {
  import opened Values
  import opened Storage
  import opened GsiBackfill
  import opened GsiPreconditions

  // ----- the protocol as a state machine ---------------------------------------------

  /** Where the index's one worker task stands; `Filling` carries its in-memory cursor. */
  datatype Worker = Idle | Filling(cursor: Option<Key>) | Filled | Building | Stopped

  datatype Sys = Sys(db: Db, worker: Worker)

  /** `Refill` is a chunk of another index's worker, which sets that index's columns on some rows;
      `DropInvalid` clears the way for the second build; `Fail` ends the worker and marks the row; `Halt` ends it without managing to. */
  datatype Event =
    | Write(op: WriterOp)
    | Refill(keys: set<Key>, specs: seq<ColSpec>)
    | Spawn
    | Chunk(sel: set<Key>, during: seq<WriterOp>, n: nat)
    | BeginIndex
    | DropInvalid
    | Promote
    | Fail
    | Halt
    | Crash

  predicate InFlightCreate(p: Phase) {
    p in {Declared, AddingColumn, Backfilling, Indexing}
  }

  function WithPhase(d: Db, p: Phase): Db {
    if d.state.Some? then d.(state := Some(d.state.value.(phase := p))) else d
  }

  /** `CREATE INDEX IF NOT EXISTS` on the columns the state row names. */
  function Built(d: Db): Option<seq<string>>
    requires d.state.Some?
  {
    if d.index.Some? then d.index else Some(ColNames(d.state.value.specs))
  }

  /** A built and valid index. */
  function Promoted(d: Db): Db
    requires d.state.Some?
  {
    WithPhase(d, Active).(index := Built(d))
  }

  ghost predicate Next(c: Config, s: Sys, s': Sys, e: Event) {
    match e
    case Write(op) => KeyedOps(c, [op]) && s' == s.(db := s.db.(rows := DoOp(c.shape, s.db.rows, op)))
    case Refill(keys, specs) =>
      && DistinctCols(specs) && HasColumns(s.db.columns, specs) && (forall x :: x in specs ==> x in c.shape)
      && s' == s.(db := s.db.(rows := Fill(s.db.rows, specs, keys)))
    case Crash => s' == s.(worker := Idle)
    case Spawn =>
      && s.worker.Idle? && s.db.state.Some? && InFlightCreate(s.db.state.value.phase)
      && s' == s.(worker := if s.db.state.value.phase == Backfilling
                            then Filling(s.db.state.value.lastPkCopied) else Filled)
    case Chunk(sel, during, n) =>
      && s.worker.Filling? && s.db.state.Some? && s.db.state.value.specs != []
      && exists cursor' ::
           && ChunkStep(Working(c, s.db), s.db, s'.db, s.worker.cursor, cursor', sel, during, n)
           && s'.worker == if n == 0 then Filled else Filling(cursor')
    case BeginIndex =>
      && s.worker.Filled? && s.db.state.Some?
      && s' == if s.db.state.value.phase in {Backfilling, Indexing}
               then Sys(WithPhase(s.db, Indexing), Building) else s.(worker := Stopped)
    case DropInvalid => s.worker.Building? && s' == s.(db := s.db.(index := None))
    case Promote => s.worker.Building? && s.db.state.Some? && s' == Sys(Promoted(s.db), Stopped)
    case Fail => !s.worker.Idle? && !s.worker.Stopped? && s' == Sys(WithPhase(s.db, Failed), Stopped)
    case Halt => !s.worker.Idle? && s' == s.(worker := Stopped)
  }

  ghost predicate IsRunFrom(c: Config, d: Db, states: seq<Sys>, events: seq<Event>) {
    && |states| == |events| + 1
    && states[0] == Sys(d, Idle)
    && forall i :: 0 <= i < |events| ==> Next(c, states[i], states[i + 1], events[i])
  }

  /** A chunk that selected rows and lost them all to concurrent deletes left nothing stale outside, and
      another index's worker that takes a row out of this backfill's sight leaves it up to date. */
  ghost predicate Harmless(s: Sys, e: Event) {
    s.db.state.Some? && s.db.state.value.specs != [] ==>
      var specs := s.db.state.value.specs;
      && (e.Chunk? && e.n == 0 && e.sel != {} ==> StaleInside(s.db.rows, specs, e.sel))
      && (e.Refill? && s.db.state.value.phase == Backfilling ==>
            forall k :: k in e.keys && k in s.db.rows && Pending(s.db.rows[k], specs) ==>
              var row := Rewritten(s.db.rows[k].cols, s.db.rows[k].data, e.specs);
              Pending(row, specs) || Consistent(row, specs))
  }

  /** The worker's columns all exist; without one, its first statement raises. */
  predicate CanFill(d: Db) { d.state.Some? && HasColumns(d.columns, d.state.value.specs) }

  ghost predicate Inv(c: Config, s: Sys)
    requires c.specs != []
  {
    && s.db.state.Some?
    && var st := s.db.state.value;
    && st.phase != Declared && st.phase != AddingColumn && st.specs != []
    && if !CanFill(s.db) then st.phase in {Backfilling, Failed} && !s.worker.Filled? && !s.worker.Building?
       else
         && st.specs == c.specs
         && (st.phase == Backfilling ==> RowsInv(c, s.db.rows, st.lastPkCopied))
         && (st.phase in {Indexing, Active} ==> AllConsistent(s.db.rows, c.specs))
         && (s.db.index.Some? ==> s.db.index.value == ColNames(c.specs))
         && (st.phase == Active ==> s.db.index.Some?)
         && (s.worker.Filling? ==> st.phase == Backfilling && s.worker.cursor == st.lastPkCopied)
         && (s.worker.Filled? && st.phase == Backfilling ==> AllConsistent(s.db.rows, c.specs))
         && (s.worker.Building? ==> st.phase == Indexing)
  }

  /** What a client may rely on: no half-created phase is ever committed; once the index is being
      built or served, every row's columns say what its payload says; and a served index and its
      state row are on the index's own columns. */
  ghost predicate Safe(c: Config, s: Sys) {
    s.db.state.Some? ==>
      && s.db.state.value.phase != Declared && s.db.state.value.phase != AddingColumn
      && (s.db.state.value.phase in {Indexing, Active} ==> AllConsistent(s.db.rows, c.specs))
      && (s.db.state.value.phase == Active ==> s.db.state.value.specs == c.specs && s.db.index == Some(ColNames(c.specs)))
  }

  lemma CreationEstablishesInv(c: Config, rows: Table, f: Found)
    requires ValidConfig(c) && ValidFound(c, f) && AsFound(c, rows, f) && SafeToCreate(c.specs, f)
    ensures Inv(c, Sys(CreateTx(f.With(rows), c.specs), Idle))
  {
    if StoredSpecs(c.specs, f.state) == c.specs {
      SafeCreateEstablishesRowsInv(c, rows, f);
    }
  }

  lemma WriteKeepsInv(c: Config, s: Sys, op: WriterOp)
    requires ValidConfig(c) && Inv(c, s) && KeyedOps(c, [op])
    ensures Inv(c, s.(db := s.db.(rows := DoOp(c.shape, s.db.rows, op))))
  {
    assert DoOps(c.shape, s.db.rows, [op]) == DoOp(c.shape, s.db.rows, op) by {
      assert [op][..0] == [];
    }
    if CanFill(s.db) && s.db.state.value.phase == Backfilling {
      WritersKeepRowsInv(c, s.db.rows, [op], s.db.state.value.lastPkCopied);
    }
    if AllConsistent(s.db.rows, c.specs) {
      WritersKeepAllConsistent(c, s.db.rows, [op]);
    }
  }

  lemma RefillKeepsConsistent(c: Config, row: Row, specs: seq<ColSpec>)
    requires ValidConfig(c) && DistinctCols(specs) && (forall x :: x in specs ==> x in c.shape)
    requires Consistent(row, c.specs)
    ensures Consistent(Rewritten(row.cols, row.data, specs), c.specs)
  {
    forall x | x in c.specs
      ensures Cell(Rewritten(row.cols, row.data, specs), x.col) == Extract(row.data, x.attr, x.keyType)
    {
      RewrittenCell(row, specs, c.shape, x);
    }
  }

  lemma RefillKeepsInv(c: Config, s: Sys, keys: set<Key>, specs: seq<ColSpec>)
    requires ValidConfig(c) && Inv(c, s) && Harmless(s, Refill(keys, specs))
    requires DistinctCols(specs) && (forall x :: x in specs ==> x in c.shape)
    ensures Inv(c, s.(db := s.db.(rows := Fill(s.db.rows, specs, keys))))
  {
    forall k | k in s.db.rows && Consistent(s.db.rows[k], c.specs)
      ensures Consistent(Fill(s.db.rows, specs, keys)[k], c.specs)
    {
      RefillKeepsConsistent(c, s.db.rows[k], specs);
    }
  }

  /** The condition on another index's chunk is exact: it is harmless just when the row invariant
      survives it. */
  lemma RefillExactlyHarmless(c: Config, s: Sys, keys: set<Key>, specs: seq<ColSpec>)
    requires ValidConfig(c) && Inv(c, s) && CanFill(s.db) && s.db.state.value.phase == Backfilling
    requires DistinctCols(specs) && (forall x :: x in specs ==> x in c.shape)
    ensures Harmless(s, Refill(keys, specs)) <==> RowsInv(c, Fill(s.db.rows, specs, keys), s.db.state.value.lastPkCopied)
  {
    if Harmless(s, Refill(keys, specs)) {
      RefillKeepsInv(c, s, keys, specs);
    } else {
      var k :| && k in keys && k in s.db.rows
               && var row := Rewritten(s.db.rows[k].cols, s.db.rows[k].data, specs);
                  !Pending(row, c.specs) && !Consistent(row, c.specs);
      assert k in Fill(s.db.rows, specs, keys);
    }
  }

  lemma ChunkKeepsInv(c: Config, s: Sys, s': Sys, cursor': Option<Key>, sel: set<Key>, during: seq<WriterOp>, n: nat)
    requires ValidConfig(c) && CursorSafe(c) && Inv(c, s) && s.worker.Filling?
    requires ChunkStep(Working(c, s.db), s.db, s'.db, s.worker.cursor, cursor', sel, during, n)
    requires s'.worker == if n == 0 then Filled else Filling(cursor')
    requires n == 0 && sel != {} ==> StaleInside(s.db.rows, s.db.state.value.specs, sel)
    ensures Inv(c, s')
  {
    assert Working(c, s.db) == c;
    if sel == {} { ShortChunkTakesAll(c, s.db.rows, s.worker.cursor, sel); }
    ChunkKeepsRowsInv(c, s.db, s'.db, s.worker.cursor, cursor', sel, during, n);
    if n == 0 {
      ZeroRowChunkMeansDone(c, s.db, s'.db, s.worker.cursor, cursor', sel, during);
    }
  }

  lemma NextKeepsInv(c: Config, s: Sys, s': Sys, e: Event)
    requires ValidConfig(c) && CursorSafe(c)
    requires Inv(c, s) && Next(c, s, s', e) && Harmless(s, e)
    ensures Inv(c, s')
  {
    match e
    case Write(op) => WriteKeepsInv(c, s, op);
    case Refill(keys, specs) => RefillKeepsInv(c, s, keys, specs);
    case Chunk(sel, during, n) =>
      var cursor' :|
        && ChunkStep(Working(c, s.db), s.db, s'.db, s.worker.cursor, cursor', sel, during, n)
        && s'.worker == if n == 0 then Filled else Filling(cursor');
      ChunkKeepsInv(c, s, s', cursor', sel, during, n);
    case _ =>
  }

  lemma {:induction false} RunKeepsInv(c: Config, d: Db, states: seq<Sys>, events: seq<Event>, k: nat)
    requires ValidConfig(c) && CursorSafe(c) && Inv(c, Sys(d, Idle))
    requires IsRunFrom(c, d, states, events) && k < |states|
    requires forall i :: 0 <= i < |events| ==> Harmless(states[i], events[i])
    ensures Inv(c, states[k])
  {
    if k > 0 {
      RunKeepsInv(c, d, states, events, k - 1);
      NextKeepsInv(c, states[k - 1], states[k], events[k - 1]);
    }
  }

  lemma InvIsSafe(c: Config, s: Sys)
    requires c.specs != [] && Inv(c, s)
    ensures Safe(c, s)
  {
  }

  /** Safety over whole runs, with crashes and restarts anywhere: from a safe creation, as long as every
      event is harmless, every state is safe. */
  lemma EveryReachableStateIsSafe(c: Config, rows: Table, f: Found, states: seq<Sys>, events: seq<Event>)
    requires ValidConfig(c) && CursorSafe(c)
    requires ValidFound(c, f) && AsFound(c, rows, f) && SafeToCreate(c.specs, f)
    requires IsRunFrom(c, CreateTx(f.With(rows), c.specs), states, events)
    requires forall i :: 0 <= i < |events| ==> Harmless(states[i], events[i])
    ensures forall i :: 0 <= i < |states| ==> Inv(c, states[i]) && Safe(c, states[i])
  {
    CreationEstablishesInv(c, rows, f);
    forall i | 0 <= i < |states|
      ensures Inv(c, states[i]) && Safe(c, states[i])
    {
      RunKeepsInv(c, CreateTx(f.With(rows), c.specs), states, events, i);
      InvIsSafe(c, states[i]);
    }
  }

  /** A chunk that was not full, or during which no delete committed, is never lost harmfully; another
      index that does not share the first column, or that has all of this one's columns, does no harm. */
  lemma MostEventsAreHarmless(c: Config, s: Sys, s': Sys, e: Event)
    requires ValidConfig(c) && Inv(c, s) && Next(c, s, s', e)
    requires e.Chunk? ==> |e.sel| < c.chunkSize || DeleteFree(e.during)
    requires e.Refill? ==> CanFill(s.db) && (c.specs[0] !in e.specs || forall x :: x in c.specs ==> x in e.specs)
    ensures Harmless(s, e)
  {
    if e.Refill? {
      forall k | k in s.db.rows
        ensures var row := Rewritten(s.db.rows[k].cols, s.db.rows[k].data, e.specs);
          Pending(row, c.specs) == Pending(s.db.rows[k], c.specs) || Consistent(row, c.specs)
      {
        forall x | x in c.specs
          ensures Cell(Rewritten(s.db.rows[k].cols, s.db.rows[k].data, e.specs), x.col)
               == if x in e.specs then Extract(s.db.rows[k].data, x.attr, x.keyType) else Cell(s.db.rows[k], x.col)
        {
          RewrittenCell(s.db.rows[k], e.specs, c.shape, x);
        }
      }
    }
    if e.Chunk? && e.n == 0 {
      if DeleteFree(e.during) { assert Survivors(e.sel, e.during) == e.sel; }
      assert CanFill(s.db) && Working(c, s.db) == c;
      ShortChunkTakesAll(c, s.db.rows, s.worker.cursor, e.sel);
    }
  }

  /** A served index answers lookups as the base table would: the rows selected by its columns are
      the rows whose payload holds those attribute values. */
  lemma LookupByColumnsIsLookupByPayload(c: Config, rows: Table, want: map<string, ColVal>)
    requires AllConsistent(rows, c.specs)
    ensures (set k | k in rows && forall s :: s in c.specs && s.col in want ==>
                       Cell(rows[k], s.col) == Some(want[s.col]))
         == (set k | k in rows && forall s :: s in c.specs && s.col in want ==>
                       Extract(rows[k].data, s.attr, s.keyType) == Some(want[s.col]))
  {
  }

  // ----- runs that go wrong ------------------------------------------------------------------

  /** The shortest run to `active`: one chunk that touches nothing, then the build. */
  function QuickStates(d: Db, d': Db, cursor: Option<Key>): seq<Sys>
    requires d'.state.Some?
  {
    [Sys(d, Idle), Sys(d, Filling(cursor)), Sys(d', Filled), Sys(WithPhase(d', Indexing), Building),
     Sys(Promoted(WithPhase(d', Indexing)), Stopped)]
  }

  function QuickEvents(sel: set<Key>, during: seq<WriterOp>): seq<Event> {
    [Spawn, Chunk(sel, during, 0), BeginIndex, Promote]
  }

  lemma ChunkIsNext(c: Config, d: Db, d': Db, cursor: Option<Key>, cursor': Option<Key>, sel: set<Key>, during: seq<WriterOp>, n: nat)
    requires d.state.Some? && d.state.value.specs != []
    requires ChunkStep(Working(c, d), d, d', cursor, cursor', sel, during, n)
    ensures Next(c, Sys(d, Filling(cursor)), Sys(d', if n == 0 then Filled else Filling(cursor')), Chunk(sel, during, n))
  {
  }

  lemma QuickRun(c: Config, d: Db, d': Db, sel: set<Key>, during: seq<WriterOp>)
    requires d.state.Some? && d.state.value.phase == Backfilling && d.state.value.specs != []
    requires ChunkStep(Working(c, d), d, d', d.state.value.lastPkCopied, d.state.value.lastPkCopied, sel, during, 0)
    ensures IsRunFrom(c, d, QuickStates(d, d', d.state.value.lastPkCopied), QuickEvents(sel, during))
  {
    var states, events := QuickStates(d, d', d.state.value.lastPkCopied), QuickEvents(sel, during);
    assert Next(c, states[1], states[2], events[1]) by {
      ChunkIsNext(c, d, d', d.state.value.lastPkCopied, d.state.value.lastPkCopied, sel, during, 0);
    }
    assert Next(c, states[2], states[3], events[2]);
    assert Next(c, states[3], states[4], events[3]);
  }

  lemma EmptyChunk(w: Config, d: Db, cursor: Option<Key>)
    requires w.specs != [] && w.chunkSize > 0 && CanFill(d) && d.state.value.specs == w.specs
    requires Eligible(d.rows, w.specs, w.ord, cursor) == {}
    ensures ChunkStep(w, d, d, cursor, cursor, {}, [], 0)
  {
    assert IsChunk({}, d.rows, w.specs, w.ord, cursor, w.chunkSize);
    assert Fill(d.rows, w.specs, {}) == d.rows;
    assert Survivors({}, []) == {};
  }

  /** With nothing to select, the worker goes straight to `active`. */
  lemma NothingEligible(c: Config, d: Db)
    requires ValidConfig(c) && CanFill(d) && d.state.value.specs != [] && d.state.value.phase == Backfilling
    requires Eligible(d.rows, d.state.value.specs, c.ord, d.state.value.lastPkCopied) == {}
    ensures IsRunFrom(c, d, QuickStates(d, d, d.state.value.lastPkCopied), QuickEvents({}, []))
  {
    EmptyChunk(Working(c, d), d, d.state.value.lastPkCopied);
    QuickRun(c, d, d, {}, []);
  }

  /** The condition on chunks is needed, for every chunk size: stale rows `q` filling one chunk, one
      more stale row `b` after them, and deletes of all of `q` that commit inside the chunk's
      statement. The index reaches `active` with a row its columns do not describe. */
  lemma LostChunkReachesActive(c: Config, q: set<Key>, b: Key) returns (rows: Table, states: seq<Sys>, events: seq<Event>)
    requires ValidConfig(c) && |q| == c.chunkSize && Below(c.ord, q, b)
    requires c.keys(b) && forall k :: k in q ==> c.keys(k)
    ensures AsFound(c, rows, FRESH) && SafeToCreate(c.specs, FRESH)
    ensures IsRunFrom(c, CreateTx(FRESH.With(rows), c.specs), states, events)
    ensures var last := states[|states| - 1];
      last.db.state.Some? && last.db.state.value.phase == Active && !Safe(c, last)
  {
    SampleItemExtracts(c.specs, c.specs[0]);
    rows := StaleTable(c.specs, q + {b});
    var d1 := CreateTx(FRESH.With(rows), c.specs);
    var d2 := d1.(rows := StaleTable(c.specs, {b}));
    var list := SeqOfSet(q);
    LostChunk(c, d1, d2, q, b, list);
    QuickRun(c, d1, d2, q, Deletes(list));
    states, events := QuickStates(d1, d2, None), QuickEvents(q, Deletes(list));
    assert b in d2.rows && !Consistent(d2.rows[b], c.specs);
  }

  lemma LostChunk(c: Config, d: Db, d': Db, q: set<Key>, b: Key, list: seq<Key>)
    requires ValidConfig(c) && |q| == c.chunkSize && Below(c.ord, q, b) && c.keys(b) && IsReturning(list, q)
    requires d.state.Some? && d.state.value.specs == c.specs && HasColumns(d.columns, c.specs)
    requires d.rows == StaleTable(c.specs, q + {b}) && d' == d.(rows := StaleTable(c.specs, {b}))
    ensures ChunkStep(c, d, d', None, None, q, Deletes(list), 0)
  {
    var during := Deletes(list);
    assert b !in q;
    assert Eligible(d.rows, c.specs, c.ord, None) == q + {b};
    forall k | k in q
      ensures Delete(k) in during
    {
      var i :| 0 <= i < |list| && list[i] == k;
      assert during[i] == Delete(k);
    }
    assert Survivors(q, during) == {};
    DeletesRemoveExactly(c.shape, d.rows, list);
    assert (set k | k in list) == q;
    assert Fill(d.rows - q, c.specs, {}) == d'.rows;
  }

  // ----- creation, exactly -------------------------------------------------------------------

  /** An index re-created under the name of an earlier one, whose state row still names other columns:
      with the old columns still there, the worker goes by them. It reaches `active` with its index on
      the old columns, and a new column is NULL in every old row whose payload has the attribute. */
  lemma StaleSpecsReachActive(c: Config, f: Found, rows: Table)
    requires ValidConfig(c) && ValidFound(c, f) && StoredSpecs(c.specs, f.state) != c.specs
    requires HasColumns(f.columns + ColSet(c.specs), StoredSpecs(c.specs, f.state))
    requires Eligible(rows, StoredSpecs(c.specs, f.state), c.ord, StartCursor(f.state)) == {}
    ensures var d := CreateTx(f.With(rows), c.specs);
      var states := QuickStates(d, d, StartCursor(f.state));
      && IsRunFrom(c, d, states, QuickEvents({}, [])) && !Safe(c, states[4])
      && states[4].db.state.value.phase == Active && states[4].db.rows == rows
      && (f.index.None? ==> states[4].db.index == Some(ColNames(StoredSpecs(c.specs, f.state))) != Some(ColNames(c.specs)))
  {
    NothingEligible(c, CreateTx(f.With(rows), c.specs));
    OtherSpecsOtherNames(c, f);
  }

  lemma OtherSpecsOtherNames(c: Config, f: Found)
    requires ValidConfig(c) && ValidFound(c, f) && StoredSpecs(c.specs, f.state) != c.specs
    requires HasColumns(f.columns + ColSet(c.specs), StoredSpecs(c.specs, f.state))
    ensures ColNames(StoredSpecs(c.specs, f.state)) != ColNames(c.specs)
  {
    var w := StoredSpecs(c.specs, f.state);
    if ColNames(w) == ColNames(c.specs) {
      assert |ColNames(w)| == |w| && |ColNames(c.specs)| == |c.specs|;
      forall i | 0 <= i < |w|
        ensures w[i] == c.specs[i]
      {
        assert ColNames(w)[i] == ColNames(c.specs)[i];
        assert w[i] in c.shape && c.specs[i] in c.shape;
        var x, y :| 0 <= x < |c.shape| && c.shape[x] == w[i] && 0 <= y < |c.shape| && c.shape[y] == c.specs[i];
      }
    }
  }

  /** The history behind it: an index on column `a` created on an empty table and removed while
      another index still names `a`, then created anew on column `b`. */
  lemma RecreatedOnAnotherColumn(keys: Key -> bool, ord: KeyOrders, chunkSize: nat, k: Key)
    returns (c: Config, f: Found, rows: Table)
    requires StrictTotalOn(keys, ord.native) && StrictTotalOn(keys, ord.text) && chunkSize > 0 && keys(k)
    ensures ValidConfig(c) && c.keys == keys && c.ord == ord && c.chunkSize == chunkSize
    ensures ValidFound(c, f) && AsFound(c, rows, f) && c.specs[0].col !in f.columns
    ensures StartCursor(f.state) == None && f.index == None
    ensures k in rows && !Consistent(rows[k], c.specs)
    ensures var d := CreateTx(f.With(rows), c.specs); IsRunFrom(c, d, QuickStates(d, d, None), QuickEvents({}, []))
  {
    var a, b := ColSpec("a", "a", KeyS), ColSpec("b", "b", KeyS);
    c := Config([b], [a, b], keys, ord, chunkSize);
    f := Found({"a"}, {"a"}, Some(StateRow([a], Gone, None)), None);
    var row := Row(map["a" := S("x"), "b" := S("y")], map["a" := Text("x")]);
    rows := map[k := row];
    assert !Pending(row, [a]);
    assert Eligible(rows, [a], ord, None) == {};
    assert Extract(row.data, "b", KeyS) == Some(Text("y"));
    StaleSpecsReachActive(c, f, rows);
  }

  /** A Postgres index of that name on other columns, as another index of the table may have: the build is
      skipped, and the new index is served on the other's columns. */
  lemma TakenNameReachesActive(c: Config, f: Found)
    requires ValidConfig(c) && StoredSpecs(c.specs, f.state) == c.specs && f.index.Some? && f.index.value != ColNames(c.specs)
    ensures AsFound(c, map[], f)
    ensures var d := CreateTx(f.With(map[]), c.specs);
      var states := QuickStates(d, d, StartCursor(f.state));
      && IsRunFrom(c, d, states, QuickEvents({}, [])) && !Safe(c, states[4])
      && states[4].db.state.value.phase == Active && states[4].db.index == f.index
  {
    var d := CreateTx(f.With(map[]), c.specs);
    assert Eligible(d.rows, c.specs, c.ord, StartCursor(f.state)) == {};
    NothingEligible(c, d);
  }

  /** A two-column index `[a, b]` and a row with both attributes, in which only the columns of `cols` are
      filled. */
  function PairConfig(keys: Key -> bool, ord: KeyOrders, chunkSize: nat): Config {
    var pair := [ColSpec("a", "a", KeyS), ColSpec("b", "b", KeyS)];
    Config(pair, pair, keys, ord, chunkSize)
  }

  function PairRow(cols: map<string, ColVal>): Row { Row(map["a" := S("x"), "b" := S("y")], cols) }

  lemma PairIsValid(c: Config, keys: Key -> bool, ord: KeyOrders, k: Key)
    requires StrictTotalOn(keys, ord.native) && StrictTotalOn(keys, ord.text) && keys(k)
    requires c.chunkSize > 0 && c == PairConfig(keys, ord, c.chunkSize)
    ensures ValidConfig(c) && DistinctAttrs(c.specs)
    ensures !Consistent(PairRow(map["a" := Text("x")]), c.specs) && !Pending(PairRow(map["a" := Text("x")]), c.specs)
  {
    assert c.specs[1] in c.specs;
    assert Extract(PairRow(map[]).data, "b", KeyS) == Some(Text("y"));
  }

  /** Created while an index on `a` is active and one on `b` has not finished: a row filled in `a` only
      is never selected, and the new index is served with `b` NULL in it. */
  lemma HalfFilledRowReachesActive(keys: Key -> bool, ord: KeyOrders, chunkSize: nat, k: Key)
    returns (c: Config, f: Found, rows: Table)
    requires StrictTotalOn(keys, ord.native) && StrictTotalOn(keys, ord.text) && chunkSize > 0 && keys(k)
    ensures ValidConfig(c) && c == PairConfig(keys, ord, chunkSize)
    ensures f == Found({"a", "b"}, {"a"}, None, None) && rows == map[k := PairRow(map["a" := Text("x")])]
    ensures ValidFound(c, f) && AsFound(c, rows, f)
    ensures var d := CreateTx(f.With(rows), c.specs); var states := QuickStates(d, d, None);
      IsRunFrom(c, d, states, QuickEvents({}, [])) && states[4].db.state.value.phase == Active && !Safe(c, states[4])
  {
    c := PairConfig(keys, ord, chunkSize);
    PairIsValid(c, keys, ord, k);
    f := Found({"a", "b"}, {"a"}, None, None);
    rows := map[k := PairRow(map["a" := Text("x")])];
    assert Eligible(rows, c.specs, ord, None) == {};
    assert k in rows && !Consistent(rows[k], c.specs);
    StaleRowReachesActive(c, f, rows);
  }

  lemma EventFirst(c: Config, d: Db, d': Db, e: Event, states: seq<Sys>, events: seq<Event>)
    requires Next(c, Sys(d, Idle), Sys(d', Idle), e) && IsRunFrom(c, d', states, events)
    ensures IsRunFrom(c, d, [Sys(d, Idle)] + states, [e] + events)
  {
    var s, v := [Sys(d, Idle)] + states, [e] + events;
    forall i | 0 <= i < |v|
      ensures Next(c, s[i], s[i + 1], v[i])
    {
      if i > 0 { assert Next(c, states[i - 1], states[i], events[i - 1]); }
    }
  }

  /** Created safely, with both columns new; then the worker of a later index on `a` alone reaches the row
      first. The row is no longer NULL in `a`, so this backfill never selects it. */
  lemma SharedFirstColumnReachesActive(keys: Key -> bool, ord: KeyOrders, chunkSize: nat, k: Key)
    returns (c: Config, rows: Table, states: seq<Sys>, events: seq<Event>)
    requires StrictTotalOn(keys, ord.native) && StrictTotalOn(keys, ord.text) && chunkSize > 0 && keys(k)
    ensures ValidConfig(c) && c == PairConfig(keys, ord, chunkSize) && rows == map[k := PairRow(map[])]
    ensures AsFound(c, rows, FRESH) && SafeToCreate(c.specs, FRESH)
    ensures IsRunFrom(c, CreateTx(FRESH.With(rows), c.specs), states, events) && |states| == 6
    ensures events == [Refill({k}, [ColSpec("a", "a", KeyS)])] + QuickEvents({}, [])
    ensures states[5].db.state.Some? && states[5].db.state.value.phase == Active && !Safe(c, states[5])
  {
    c := PairConfig(keys, ord, chunkSize);
    PairIsValid(c, keys, ord, k);
    rows := map[k := PairRow(map[])];
    var refill := Refill({k}, [ColSpec("a", "a", KeyS)]);
    var d1 := CreateTx(FRESH.With(rows), c.specs);
    var d2 := d1.(rows := map[k := PairRow(map["a" := Text("x")])]);
    assert Fill(d1.rows, refill.specs, {k}) == d2.rows by { FirstColumnAlone(k); }
    assert Eligible(d2.rows, c.specs, ord, None) == {};
    NothingEligible(c, d2);
    EventFirst(c, d1, d2, refill, QuickStates(d2, d2, None), QuickEvents({}, []));
    states, events := [Sys(d1, Idle)] + QuickStates(d2, d2, None), [refill] + QuickEvents({}, []);
    assert states[5] == QuickStates(d2, d2, None)[4];
    assert k in d2.rows && !Consistent(d2.rows[k], c.specs);
  }

  lemma FirstColumnAlone(k: Key)
    ensures Fill(map[k := PairRow(map[])], [ColSpec("a", "a", KeyS)], {k}) == map[k := PairRow(map["a" := Text("x")])]
  {
    var a := ColSpec("a", "a", KeyS);
    assert [a][..0] == [];
    assert WriteCols(map[], PairRow(map[]).data, [a]) == map["a" := Text("x")];
  }

  /** A stale row that no chunk will select, given the columns filled in it: it sits at the leftover
      cursor, or its first column is filled. */
  lemma UnselectedRow(c: Config, cursor: Option<Key>, k: Key, present: set<string>, s: ColSpec) returns (rows: Table)
    requires ValidConfig(c) && DistinctAttrs(c.specs) && c.keys(k) && s in c.specs && s.col !in present
    requires cursor == Some(k) || c.specs[0].col in present
    ensures rows == map[k := SampleRow(c.specs, present)] && !AllConsistent(rows, c.specs)
    ensures Eligible(rows, c.specs, c.ord, cursor) == {}
  {
    rows := map[k := SampleRow(c.specs, present)];
    SampleRowIsStale(c.specs, present, s);
    assert k in rows && !Consistent(rows[k], c.specs);
  }

  /** Behind a leftover cursor such a row exists if some column is not filled. */
  lemma RowAtCursor(c: Config, f: Found, k: Key) returns (rows: Table)
    requires ValidConfig(c) && DistinctAttrs(c.specs) && c.keys(k) && f.filled <= f.columns && !HasColumns(f.filled, c.specs)
    ensures AsFound(c, rows, f) && !AllConsistent(rows, c.specs) && Eligible(rows, c.specs, c.ord, Some(k)) == {}
  {
    var s :| s in c.specs && s.col !in f.filled;
    rows := UnselectedRow(c, Some(k), k, f.filled, s);
    SampleRowAsFound(c, f, k, f.filled);
  }

  /** Without one it exists if the first column is there and a later one is not filled. */
  lemma RowFilledFirst(c: Config, f: Found) returns (rows: Table)
    requires ValidConfig(c) && DistinctAttrs(c.specs) && f.filled <= f.columns
    requires c.specs[0].col in f.columns && !HasColumns(f.filled, c.specs[1..])
    ensures AsFound(c, rows, f) && !AllConsistent(rows, c.specs) && Eligible(rows, c.specs, c.ord, None) == {}
  {
    var i :| 1 <= i < |c.specs| && c.specs[i].col !in f.filled;
    var k :| c.keys(k);
    rows := UnselectedRow(c, None, k, f.filled + {c.specs[0].col}, c.specs[i]);
    SampleRowAsFound(c, f, k, f.filled + {c.specs[0].col});
  }

  lemma SampleRowAsFound(c: Config, f: Found, k: Key, present: set<string>)
    requires ValidConfig(c) && DistinctAttrs(c.specs) && c.keys(k) && f.filled <= present <= f.columns
    ensures AsFound(c, map[k := SampleRow(c.specs, present)], f)
  {
  }

  lemma StaleRowReachesActive(c: Config, f: Found, rows: Table)
    requires ValidConfig(c) && StoredSpecs(c.specs, f.state) == c.specs && !AllConsistent(rows, c.specs)
    requires Eligible(rows, c.specs, c.ord, StartCursor(f.state)) == {}
    ensures var d := CreateTx(f.With(rows), c.specs); var states := QuickStates(d, d, StartCursor(f.state));
      IsRunFrom(c, d, states, QuickEvents({}, [])) && states[4].db.state.value.phase == Active && !Safe(c, states[4])
  {
    NothingEligible(c, CreateTx(f.With(rows), c.specs));
  }

  /** Whatever the table holds, every state of every run of harmless events from creation is safe. */
  ghost predicate RunsStaySafe(c: Config, f: Found) {
    forall rows, states, events ::
      && AsFound(c, rows, f)
      && IsRunFrom(c, CreateTx(f.With(rows), c.specs), states, events)
      && (forall i :: 0 <= i < |events| ==> Harmless(states[i], events[i]))
      ==> forall i :: 0 <= i < |states| ==> Safe(c, states[i])
  }

  lemma SafeCreationStaysSafe(c: Config, f: Found)
    requires ValidConfig(c) && CursorSafe(c) && ValidFound(c, f) && SafeToCreate(c.specs, f)
    ensures RunsStaySafe(c, f)
  {
    forall rows, states, events |
      && AsFound(c, rows, f)
      && IsRunFrom(c, CreateTx(f.With(rows), c.specs), states, events)
      && (forall i :: 0 <= i < |events| ==> Harmless(states[i], events[i]))
      ensures forall i :: 0 <= i < |states| ==> Safe(c, states[i])
    {
      EveryReachableStateIsSafe(c, rows, f, states, events);
    }
  }

  /** Creation is safe for every table contents and every run exactly when `SafeToCreate` holds of what it
      finds. */
  lemma CreateExactlySafe(c: Config, f: Found)
    requires ValidConfig(c) && CursorSafe(c) && DistinctAttrs(c.specs) && ValidFound(c, f)
    ensures SafeToCreate(c.specs, f) <==> RunsStaySafe(c, f)
  {
    if SafeToCreate(c.specs, f) {
      SafeCreationStaysSafe(c, f);
    } else {
      var rows, d := UnsafeCreationFails(c, f);
      QuickEventsAreHarmless(d, StartCursor(f.state));
    }
  }

  lemma UnsafeCreationFails(c: Config, f: Found) returns (rows: Table, d: Db)
    requires ValidConfig(c) && DistinctAttrs(c.specs) && ValidFound(c, f) && !SafeToCreate(c.specs, f)
    ensures AsFound(c, rows, f) && d == CreateTx(f.With(rows), c.specs)
    ensures IsRunFrom(c, d, QuickStates(d, d, StartCursor(f.state)), QuickEvents({}, []))
    ensures !Safe(c, QuickStates(d, d, StartCursor(f.state))[4])
  {
    rows := map[];
    if StoredSpecs(c.specs, f.state) != c.specs {
      StaleSpecsReachActive(c, f, rows);
    } else if Fillable(c.specs, f) {
      TakenNameReachesActive(c, f);
    } else {
      if StartCursor(f.state).Some? {
        rows := RowAtCursor(c, f, StartCursor(f.state).value);
      } else {
        rows := RowFilledFirst(c, f);
      }
      StaleRowReachesActive(c, f, rows);
    }
    d := CreateTx(f.With(rows), c.specs);
  }

  lemma QuickEventsAreHarmless(d: Db, cursor: Option<Key>)
    requires d.state.Some?
    ensures forall i :: 0 <= i < |QuickEvents({}, [])| ==> Harmless(QuickStates(d, d, cursor)[i], QuickEvents({}, [])[i])
  {
  }

  /** The cursor is safe exactly when creation on a table with none of the index's columns is. */
  lemma CursorExactlySafe(c: Config)
    requires ValidConfig(c)
    ensures CursorSafe(c) <==> RunsStaySafe(c, FRESH)
  {
    if CursorSafe(c) {
      SafeCreationStaysSafe(c, FRESH);
    } else {
      var q: set<Key>, a: Key, b: Key :| Hides(c, q, a, b);
      var rows, states, events := HiddenKeyReachesActive(c, q, a, b);
      assert AsFound(c, rows, FRESH);
      assert !Safe(c, states[5]);
    }
  }

  /** A hidden key is lost for good: one full chunk moves the cursor past it, the next one finds nothing,
      and the index is served with that row stale. */
  lemma HiddenKeyReachesActive(c: Config, q: set<Key>, a: Key, b: Key)
    returns (rows: Table, states: seq<Sys>, events: seq<Event>)
    requires ValidConfig(c) && Hides(c, q, a, b)
    ensures AsFound(c, rows, FRESH) && IsRunFrom(c, CreateTx(FRESH.With(rows), c.specs), states, events)
    ensures forall i :: 0 <= i < |events| ==> Harmless(states[i], events[i])
    ensures |states| == 6 && states[5].db.state.Some? && states[5].db.state.value.phase == Active
    ensures b in states[5].db.rows && !Consistent(states[5].db.rows[b], c.specs)
  {
    rows := StaleTable(c.specs, q + {b});
    var d, d' := OutOfOrderKeySkipped(c, q, a, b);
    states, events := OneChunkStates(d, d', a), OneChunkEvents(q);
    OneChunkRun(c, d, d', q, a);
  }

  /** A run to `active` of one full chunk and one that finds nothing. */
  function OneChunkStates(d: Db, d': Db, a: Key): seq<Sys>
    requires d'.state.Some?
  {
    [Sys(d, Idle), Sys(d, Filling(None)), Sys(d', Filling(Some(a))), Sys(d', Filled),
     Sys(WithPhase(d', Indexing), Building), Sys(Promoted(WithPhase(d', Indexing)), Stopped)]
  }

  function OneChunkEvents(q: set<Key>): seq<Event> {
    [Spawn, Chunk(q, [], |q|), Chunk({}, [], 0), BeginIndex, Promote]
  }

  lemma OneChunkRun(c: Config, d: Db, d': Db, q: set<Key>, a: Key)
    requires ValidConfig(c) && d.state == Some(StateRow(c.specs, Backfilling, None)) && q != {}
    requires ChunkStep(c, d, d', None, Some(a), q, [], |q|)
    requires Eligible(d'.rows, c.specs, c.ord, Some(a)) == {}
    ensures IsRunFrom(c, d, OneChunkStates(d, d', a), OneChunkEvents(q))
    ensures forall i :: 0 <= i < 5 ==> Harmless(OneChunkStates(d, d', a)[i], OneChunkEvents(q)[i])
  {
    assert Working(c, d) == c && d'.state == Some(StateRow(c.specs, Backfilling, Some(a)));
    ChunkIsNext(c, d, d', None, Some(a), q, [], |q|);
    EmptyChunkIsNext(c, d', Some(a));
    OneChunkSteps(c, d, d', q, a);
  }

  lemma OneChunkSteps(c: Config, d: Db, d': Db, q: set<Key>, a: Key)
    requires d.state == Some(StateRow(c.specs, Backfilling, None)) && d'.state == Some(StateRow(c.specs, Backfilling, Some(a)))
    requires Next(c, Sys(d, Filling(None)), Sys(d', Filling(Some(a))), Chunk(q, [], |q|)) && q != {}
    requires Next(c, Sys(d', Filling(Some(a))), Sys(d', Filled), Chunk({}, [], 0))
    ensures IsRunFrom(c, d, OneChunkStates(d, d', a), OneChunkEvents(q))
    ensures forall i :: 0 <= i < 5 ==> Harmless(OneChunkStates(d, d', a)[i], OneChunkEvents(q)[i])
  {
    var states, events := OneChunkStates(d, d', a), OneChunkEvents(q);
    assert Next(c, states[3], states[4], events[3]) && Next(c, states[4], states[5], events[4]);
    forall i | 0 <= i < 5
      ensures Next(c, states[i], states[i + 1], events[i])
    {
      if i == 1 { assert states[1] == Sys(d, Filling(None)) && states[2] == Sys(d', Filling(Some(a))); }
      if i == 2 { assert states[2] == Sys(d', Filling(Some(a))) && states[3] == Sys(d', Filled); }
    }
  }

  lemma EmptyChunkIsNext(c: Config, d: Db, cursor: Option<Key>)
    requires c.specs != [] && c.chunkSize > 0 && CanFill(d) && d.state.value.specs == c.specs
    requires Eligible(d.rows, c.specs, c.ord, cursor) == {}
    ensures Next(c, Sys(d, Filling(cursor)), Sys(d, Filled), Chunk({}, [], 0))
  {
    assert Working(c, d) == c;
    EmptyChunk(c, d, cursor);
    ChunkIsNext(c, d, d, cursor, cursor, {}, [], 0);
  }

  // ----- the worker code --------------------------------------------------------------

  lemma {:induction false} MinKey(s: set<Key>, dom: Key -> bool, lt: (Key, Key) -> bool) returns (m: Key)
    requires StrictTotalOn(dom, lt) && s != {} && forall k :: k in s ==> dom(k)
    ensures m in s && forall k :: k in s && k != m ==> lt(m, k)
  {
    var x :| x in s;
    if s == {x} {
      m := x;
    } else {
      var y := MinKey(s - {x}, dom, lt);
      m := if lt(x, y) then x else y;
      forall k | k in s && k != m
        ensures lt(m, k)
      {
        assert k == x || k == y || lt(y, k);
      }
    }
  }

  /** The chunk query always has an answer. */
  lemma {:induction false} ChunkExists(c: Config, rows: Table, cursor: Option<Key>, size: nat)
    requires ValidConfig(c) && Keyed(c, rows, cursor)
    ensures exists sel: set<Key> :: IsChunk(sel, rows, c.specs, c.ord, cursor, size)
  {
    var all := Eligible(rows, c.specs, c.ord, cursor);
    if size == 0 {
      assert IsChunk({}, rows, c.specs, c.ord, cursor, 0);
    } else {
      ChunkExists(c, rows, cursor, size - 1);
      var sel: set<Key> :| IsChunk(sel, rows, c.specs, c.ord, cursor, size - 1);
      if sel == all {
        assert IsChunk(sel, rows, c.specs, c.ord, cursor, size);
      } else {
        assert all - sel != {};
        var m := MinKey(all - sel, c.keys, c.ord.native);
        assert IsChunk(sel + {m}, rows, c.specs, c.ord, cursor, size);
      }
    }
  }

  /** Writes committing before a chunk's snapshot and between its snapshot and its commit. */
  datatype Interference = Interference(before: seq<WriterOp>, during: seq<WriterOp>)

  /** The chunk a backfill ended on: the database its statement saw, what it selected, and what committed
      inside it. */
  datatype LastChunk = LastChunk(seen: Db, sel: set<Key>, during: seq<WriterOp>)

  ghost predicate EndedWell(l: LastChunk) { Harmless(Sys(l.seen, Idle), Chunk(l.sel, l.during, 0)) }

  datatype PollAnswer = IsValid | NotYet | Vanished | DbError

  /** One poll of `indisvalid`, after the writes that committed since the last one. */
  datatype Poll = Poll(writes: seq<WriterOp>, answer: PollAnswer)

  class Orchestrator {
    const cfg: Config
    var db: Db

    constructor (cfg: Config, db: Db)
      ensures this.cfg == cfg && this.db == db
    {
      this.cfg := cfg;
      this.db := db;
    }

    /** Other connections commit `ops`. */
    method Commit(ops: seq<WriterOp>)
      modifies this
      ensures db == old(db).(rows := DoOps(cfg.shape, old(db.rows), ops))
    {
      for i := 0 to |ops|
        invariant db == old(db).(rows := DoOps(cfg.shape, old(db.rows), ops[..i]))
      {
        assert ops[..i + 1][..i] == ops[..i];
        db := db.(rows := DoOp(cfg.shape, db.rows, ops[i]));
      }
      assert ops[..|ops|] == ops;
    }

    method UpdatePhase(p: Phase)
      modifies this
      ensures db == WithPhase(old(db), p)
    {
      if db.state.Some? { db := db.(state := Some(db.state.value.(phase := p))); }
    }

    /** Creation inside UpdateTable's transaction: three phase writes, one commit. */
    method CreateDualWriteGsiInTx()
      modifies this
      ensures db == CreateTx(old(db), cfg.specs)
    {
      if db.state.None? {
        db := db.(state := Some(StateRow(cfg.specs, Declared, None)));
      }
      db := db.(columns := db.columns + set s | s in cfg.specs :: s.col);
      UpdatePhase(AddingColumn);
      UpdatePhase(Backfilling);
    }

    /** One chunk transaction on the columns the state row names; `cursor'` is the key of the last
        returned row. */
    method RunChunk(cursor: Option<Key>, during: seq<WriterOp>)
      returns (n: nat, cursor': Option<Key>, ghost sel: set<Key>)
      requires CanFill(db) && ValidConfig(Working(cfg, db)) && Keyed(cfg, db.rows, cursor) && KeyedOps(cfg, during)
      modifies this
      ensures ChunkStep(Working(cfg, old(db)), old(db), db, cursor, cursor', sel, during, n)
    {
      var specs := db.state.value.specs;
      ChunkExists(Working(cfg, db), db.rows, cursor, cfg.chunkSize);
      var picked: set<Key> :| IsChunk(picked, db.rows, specs, cfg.ord, cursor, cfg.chunkSize);
      sel := picked;
      Commit(during);
      var kept := Survivors(picked, during);
      db := db.(rows := Fill(db.rows, specs, kept));
      ghost var q := SeqOfSet(kept);
      assert IsReturning(q, kept);
      var returned: seq<Key> :| IsReturning(returned, kept);
      assert IsReturning(returned, kept);
      n := |returned|;
      cursor' := cursor;
      if n > 0 {
        cursor' := Some(returned[n - 1]);
        assert returned[n - 1] in returned;
        db := db.(state := Some(db.state.value.(lastPkCopied := cursor')));
      }
    }

    /** Chunks until one touches nothing. Ends for every finite schedule of writes; unless its last chunk
        was lost harmfully, every row is then up to date in the columns the state row names. A fault
        at chunk `faultAt`, or a missing column, aborts with an error and leaves the resumable
        invariant. */
    method RunBackfill(schedule: seq<Interference>, faultAt: Option<nat>) returns (ok: bool, ghost last: LastChunk)
      requires db.state.Some? && CursorSafe(cfg)
      requires forall i :: 0 <= i < |schedule| ==> KeyedOps(cfg, schedule[i].before) && KeyedOps(cfg, schedule[i].during)
      requires CanFill(db) ==> ValidConfig(Working(cfg, db))
      requires CanFill(db) && db.state.value.phase == Backfilling ==>
                 RowsInv(Working(cfg, db), db.rows, db.state.value.lastPkCopied)
      modifies this
      ensures db.state.Some? && db.columns == old(db.columns) && db.index == old(db.index)
      ensures db.state.value == old(db.state.value).(lastPkCopied := db.state.value.lastPkCopied)
      ensures old(db.state.value.phase) != Backfilling ==> ok && db == old(db)
      ensures old(db.state.value.phase) == Backfilling && !CanFill(old(db)) ==> !ok && db == old(db)
      ensures old(db.state.value.phase) == Backfilling && CanFill(db) ==>
                RowsInv(Working(cfg, db), db.rows, db.state.value.lastPkCopied)
      ensures old(db.state.value.phase) == Backfilling && ok ==>
                && last.seen.state == db.state
                && ChunkStep(Working(cfg, db), last.seen, db, db.state.value.lastPkCopied, db.state.value.lastPkCopied,
                             last.sel, last.during, 0)
                && (EndedWell(last) ==> AllConsistent(db.rows, db.state.value.specs))
      ensures last.during == [] || exists i :: 0 <= i < |schedule| && last.during == schedule[i].during
      ensures !EndedWell(last) ==> ok && |last.sel| == cfg.chunkSize && Survivors(last.sel, last.during) == {}
      ensures faultAt.None? && CanFill(db) ==> ok
    {
      last := LastChunk(db, {}, []);
      if db.state.value.phase != Backfilling { return true, last; }
      if !CanFill(db) { return false, last; }
      ghost var w := Working(cfg, db);
      assert CursorSafe(w) by {
        assert forall q, a, b :: Hides(w, q, a, b) == Hides(cfg, q, a, b);
      }
      var cursor := db.state.value.lastPkCopied;
      var i := 0;
      var n := 1;
      while n != 0
        invariant db.state.Some? && db.columns == old(db.columns) && db.index == old(db.index)
        invariant cursor == db.state.value.lastPkCopied && Working(cfg, db) == w && CanFill(db)
        invariant db.state.value == old(db.state.value).(lastPkCopied := cursor)
        invariant RowsInv(w, db.rows, cursor)
        invariant n == 0 ==> last.seen.state == db.state && ChunkStep(w, last.seen, db, cursor, cursor, last.sel, last.during, 0)
        invariant last.during == [] || exists j :: 0 <= j < |schedule| && last.during == schedule[j].during
        invariant n == 0 && EndedWell(last) ==> AllConsistent(db.rows, w.specs)
        invariant !EndedWell(last) ==> n == 0 && |last.sel| == cfg.chunkSize && Survivors(last.sel, last.during) == {}
        decreases n != 0, if i < |schedule| then |schedule| - i else 0, |KeysBeyond(db.rows, cfg.ord, cursor)|
      {
        if faultAt == Some(i) { return false, last; }
        var step := if i < |schedule| then schedule[i] else Interference([], []);
        WritersKeepRowsInv(w, db.rows, step.before, cursor);
        Commit(step.before);
        ghost var before, was := db, cursor;
        ghost var sel;
        n, cursor, sel := RunChunk(cursor, step.during);
        ChunkKeepsRowsInv(w, before, db, was, cursor, sel, step.during, n);
        if n == 0 {
          last := LastChunk(before, sel, step.during);
          if |sel| < cfg.chunkSize { ShortChunkTakesAll(w, before.rows, was, sel); }
          if EndedWell(last) { ZeroRowChunkMeansDone(w, before, db, was, cursor, sel, step.during); }
        } else {
          ChunkMakesProgress(w, before, db, was, cursor, sel, step.during, n);
        }
        i := i + 1;
      }
      return true, last;
    }

    /** Moves to indexing, builds the index on the columns the state row names unless one by its name is
        there, drops it and retries once if that fails, polls until it is valid, promotes. A database error while polling or promoting leaves the phase at
        indexing, for the next start to resume. Rows change only by the writers' own commits. */
    method RunIndexCreation(firstCreate: bool, secondCreate: bool, polls: seq<Poll>, promoteFails: bool) returns (ok: bool)
      requires ValidConfig(cfg) && db.state.Some?
      modifies this
      ensures db.state.Some? && db.columns == old(db.columns)
      ensures old(db.state.value.phase) == Active ==> ok && db == old(db)
      ensures old(db.state.value.phase) !in {Active, Backfilling, Indexing} ==> !ok && db == old(db)
      ensures old(db.state.value.phase) in {Backfilling, Indexing} ==>
                && db.state.value == old(db.state.value).(phase := db.state.value.phase)
                && (if ok then db.state.value.phase == Active else db.state.value.phase in {Failed, Indexing})
      ensures db.index == None || db.index == old(db.index) || db.index == Some(ColNames(db.state.value.specs))
      ensures ok && old(db.state.value.phase) != Active ==>
                && db.index == (if firstCreate then Built(old(db)) else Some(ColNames(db.state.value.specs)))
                && (firstCreate || secondCreate) && !promoteFails && exists i :: 0 <= i < |polls| && polls[i].answer == IsValid
      ensures !ok && db.state.value.phase == Indexing ==>
                promoteFails || exists i :: 0 <= i < |polls| && polls[i].answer == DbError
      ensures AllConsistent(old(db.rows), cfg.specs) ==> AllConsistent(db.rows, cfg.specs)
    {
      if db.state.value.phase == Active { return true; }
      if db.state.value.phase != Backfilling && db.state.value.phase != Indexing { return false; }
      if db.state.value.phase != Indexing { UpdatePhase(Indexing); }
      if firstCreate {
        db := db.(index := Built(db));
      } else {
        db := db.(index := None);
        if !secondCreate {
          UpdatePhase(Failed);
          return false;
        }
        db := db.(index := Built(db));
      }
      for i := 0 to |polls|
        invariant db.state == Some(old(db.state.value).(phase := Indexing)) && db.columns == old(db.columns)
        invariant db.index == if firstCreate then Built(old(db)) else Some(ColNames(db.state.value.specs))
        invariant AllConsistent(old(db.rows), cfg.specs) ==> AllConsistent(db.rows, cfg.specs)
      {
        if AllConsistent(db.rows, cfg.specs) { WritersKeepAllConsistent(cfg, db.rows, polls[i].writes); }
        Commit(polls[i].writes);
        match polls[i].answer
        case IsValid =>
          if promoteFails { return false; }
          UpdatePhase(Active);
          return true;
        case DbError => return false;
        case Vanished =>
          db := db.(index := None);
          UpdatePhase(Failed);
          return false;
        case NotYet =>
      }
      UpdatePhase(Failed);
      return false;
    }

    /** The whole worker, from any state a crash may leave: unless its backfill ended on a harmful loss,
        reaching `active` means every row is up to date and the index is on its own columns. `canMark`
        is whether a failed backfill manages to write its phase. */
    method RunLifecycleToActive(schedule: seq<Interference>, faultAt: Option<nat>, canMark: bool,
                                firstCreate: bool, secondCreate: bool, polls: seq<Poll>, promoteFails: bool)
      returns (ghost last: LastChunk)
      requires ValidConfig(cfg) && CursorSafe(cfg)
      requires Inv(cfg, Sys(db, Idle))
      requires forall i :: 0 <= i < |schedule| ==> KeyedOps(cfg, schedule[i].before) && KeyedOps(cfg, schedule[i].during)
      modifies this
      ensures db.state.Some?
      ensures EndedWell(last) ==> Inv(cfg, Sys(db, Stopped)) && Safe(cfg, Sys(db, Stopped))
      ensures last.during == [] || exists i :: 0 <= i < |schedule| && last.during == schedule[i].during
      ensures !EndedWell(last) ==> |last.sel| == cfg.chunkSize && Survivors(last.sel, last.during) == {}
      ensures (forall i :: 0 <= i < |schedule| ==> DeleteFree(schedule[i].during)) ==> EndedWell(last)
      ensures old(db.state.value.phase) in {Backfilling, Indexing} ==>
                db.state.value.phase in {Active, Failed, Backfilling, Indexing}
      ensures db.state.value.phase == Backfilling ==> !canMark
      ensures db.state.value.phase == Active && EndedWell(last) ==> AllConsistent(db.rows, cfg.specs)
    {
      assert CanFill(db) ==> Working(cfg, db) == cfg;
      var filled;
      filled, last := RunBackfill(schedule, faultAt);
      if DeleteFree(last.during) { assert Survivors(last.sel, last.during) == last.sel; }
      if !filled {
        if canMark { UpdatePhase(Failed); }
        return last;
      }
      var built := RunIndexCreation(firstCreate, secondCreate, polls, promoteFails);
    }
  }
}
