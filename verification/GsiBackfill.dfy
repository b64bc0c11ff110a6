/** The chunked backfill of a DualWrite secondary index, run while live writers keep the same
    columns up to date. One chunk is one UPDATE statement: it picks rows on a snapshot, and under
    READ COMMITTED other transactions may commit before it reaches those rows. */
module GsiBackfill {
  import opened Values
  import opened Storage

  datatype Phase =
    | Declared | AddingColumn | Backfilling | Indexing | Active
    | RemovingIndex | RemovingColumn | Gone | Degraded | Failed

  /** The `_rektifier_gsi_state` row. */
  datatype StateRow = StateRow(specs: seq<ColSpec>, phase: Phase, lastPkCopied: Option<Key>)

  /** The base table, the ordinary columns it has, the state row of the index, and the columns of the
      Postgres index by its name, if there is one. */
  datatype Db = Db(rows: Table, columns: set<string>, state: Option<StateRow>, index: Option<seq<string>>)

  /** A committed data-plane write; every update path ends as a Put of the new payload. */
  datatype WriterOp = Put(key: Key, item: Item) | Delete(key: Key)

  /** `native` is the ORDER BY order of the key columns, `text` the order of their `::text` form. */
  datatype KeyOrders = KeyOrders(native: (Key, Key) -> bool, text: (Key, Key) -> bool)

  /** The index's columns, the columns in the writers' shape, the keys the table's key columns can
      hold, the key orders, the chunk size. */
  datatype Config = Config(specs: seq<ColSpec>, shape: seq<ColSpec>, keys: Key -> bool, ord: KeyOrders, chunkSize: nat)

  ghost predicate ValidConfig(c: Config) {
    && c.specs != []
    && DistinctCols(c.specs)
    && DistinctCols(c.shape)
    && (forall s :: s in c.specs ==> s in c.shape)
    && TotalOrders(c)
    && c.chunkSize > 0
  }

  /** Both orders are total on the table's keys, of which there are some. */
  ghost predicate TotalOrders(c: Config) {
    StrictTotalOn(c.keys, c.ord.native) && StrictTotalOn(c.keys, c.ord.text) && exists k :: c.keys(k)
  }

  /** A full chunk `q` hides the later key `b`: the ORDER BY puts `b` after all of `q`, but taking `a`
      of `q` as the cursor leaves `b` behind it. */
  ghost predicate Hides(c: Config, q: set<Key>, a: Key, b: Key) {
    && (forall k :: k in q ==> c.keys(k)) && c.keys(b)
    && |q| == c.chunkSize && a in q && Below(c.ord, q, b) && !c.ord.text(a, b)
  }

  ghost predicate CursorSafe(c: Config) { forall q: set<Key>, a: Key, b: Key :: !Hides(c, q, a, b) }

  ghost predicate Below(ord: KeyOrders, q: set<Key>, b: Key) { forall k :: k in q ==> ord.native(k, b) }

  /** What the worker goes by: the columns named in the state row. */
  function Working(c: Config, d: Db): Config
    requires d.state.Some?
  {
    c.(specs := d.state.value.specs)
  }

  predicate HasColumns(columns: set<string>, specs: seq<ColSpec>) { forall s :: s in specs ==> s.col in columns }

  // ----- writers -----------------------------------------------------------------

  function DoOp(shape: seq<ColSpec>, rows: Table, op: WriterOp): Table {
    match op
    case Put(k, item) => rows[k := Rewritten(if k in rows then rows[k].cols else map[], item, shape)]
    case Delete(k) => rows - {k}
  }

  function DoOps(shape: seq<ColSpec>, rows: Table, ops: seq<WriterOp>): Table {
    if ops == [] then rows
    else DoOp(shape, DoOps(shape, rows, ops[..|ops| - 1]), ops[|ops| - 1])
  }

  /** Writers insert only keys the table's key columns can hold. */
  predicate KeyedOps(c: Config, ops: seq<WriterOp>) {
    forall op :: op in ops && op.Put? ==> c.keys(op.key)
  }

  ghost predicate Keyed(c: Config, rows: Table, cursor: Option<Key>) {
    (forall k :: k in rows ==> c.keys(k)) && (cursor.Some? ==> c.keys(cursor.value))
  }

  predicate DeleteFree(ops: seq<WriterOp>) {
    forall op :: op in ops ==> op.Put?
  }

  ghost predicate InsertFree(rows: Table, ops: seq<WriterOp>) {
    forall i :: 0 <= i < |ops| && ops[i].Put? ==> ops[i].key in rows
  }

  // ----- one chunk ---------------------------------------------------------------

  /** The CTE's NULL test: only the first column is looked at. */
  predicate Pending(row: Row, specs: seq<ColSpec>)
    requires specs != []
  {
    Cell(row, specs[0].col).None?
  }

  predicate Beyond(ord: KeyOrders, cursor: Option<Key>, k: Key) {
    cursor.None? || ord.text(cursor.value, k)
  }

  function Eligible(rows: Table, specs: seq<ColSpec>, ord: KeyOrders, cursor: Option<Key>): set<Key>
    requires specs != []
  {
    set k | k in rows && Pending(rows[k], specs) && Beyond(ord, cursor, k)
  }

  /** `SELECT … WHERE resume AND col IS NULL ORDER BY key LIMIT size`. */
  predicate IsChunk(sel: set<Key>, rows: Table, specs: seq<ColSpec>, ord: KeyOrders, cursor: Option<Key>, size: nat)
    requires specs != []
  {
    var all := Eligible(rows, specs, ord, cursor);
    && sel <= all
    && |sel| <= size
    && (|sel| < size ==> sel == all)
    && (forall k, e :: k in sel && e in all && e !in sel ==> ord.native(k, e))
  }

  /** Rows of the snapshot that the UPDATE still finds: those not deleted meanwhile. */
  function Survivors(sel: set<Key>, during: seq<WriterOp>): set<Key> {
    set k | k in sel && Delete(k) !in during
  }

  /** SET every column of the index from the current payload, on the given rows. */
  function Fill(rows: Table, specs: seq<ColSpec>, keys: set<Key>): Table {
    map k | k in rows :: if k in keys then Rewritten(rows[k].cols, rows[k].data, specs) else rows[k]
  }

  /** `returned` lists the updated rows once each, in an order RETURNING leaves open. */
  predicate IsReturning(returned: seq<Key>, keys: set<Key>) {
    && (forall k :: k in returned ==> k in keys)
    && (forall k :: k in keys ==> k in returned)
    && |returned| == |keys|
  }

  /** One chunk from a snapshot `d` to its commit `d'`. It tests and fills the columns the state row
      names; were one of them missing the statement would raise. */
  ghost predicate ChunkStep(c: Config, d: Db, d': Db, cursor: Option<Key>, cursor': Option<Key>,
                            sel: set<Key>, during: seq<WriterOp>, n: nat)
    requires c.specs != []
  {
    var kept := Survivors(sel, during);
    && IsChunk(sel, d.rows, c.specs, c.ord, cursor, c.chunkSize)
    && KeyedOps(c, during)
    && n == |kept|
    && d.state.Some? && d.state.value.specs == c.specs && HasColumns(d.columns, c.specs)
    && d'.columns == d.columns && d'.index == d.index
    && d'.rows == Fill(DoOps(c.shape, d.rows, during), c.specs, kept)
    && (n == 0 ==> cursor' == cursor && d'.state == d.state)
    && (n > 0 ==>
          && cursor'.Some? && cursor'.value in kept
          && d'.state == Some(d.state.value.(lastPkCopied := cursor')))
  }

  /** Each row is up to date, or its first column is NULL and its key lies beyond the cursor. */
  ghost predicate RowsInv(c: Config, rows: Table, cursor: Option<Key>)
    requires c.specs != []
  {
    && Keyed(c, rows, cursor)
    && forall k :: k in rows ==>
         Consistent(rows[k], c.specs) || (Pending(rows[k], c.specs) && Beyond(c.ord, cursor, k))
  }

  // ----- what writers keep --------------------------------------------------------

  /** After any writes, a row is up to date or is the row that was there before. */
  lemma {:induction false} WritersLeaveConsistentOrUntouched(c: Config, rows: Table, ops: seq<WriterOp>, k: Key)
    requires ValidConfig(c)
    requires k in DoOps(c.shape, rows, ops)
    ensures Consistent(DoOps(c.shape, rows, ops)[k], c.specs)
         || (k in rows && DoOps(c.shape, rows, ops)[k] == rows[k] && Delete(k) !in ops)
  {
    if ops != [] {
      var front, op := ops[..|ops| - 1], ops[|ops| - 1];
      var mid := DoOps(c.shape, rows, front);
      if op.key == k {
        RewrittenConsistent(if k in mid then mid[k].cols else map[], op.item, c.shape);
      } else {
        WritersLeaveConsistentOrUntouched(c, rows, front, k);
        assert ops == front + [op];
      }
    }
  }

  lemma {:induction false} WritersKeepKeys(c: Config, rows: Table, ops: seq<WriterOp>, cursor: Option<Key>)
    requires Keyed(c, rows, cursor) && KeyedOps(c, ops)
    ensures Keyed(c, DoOps(c.shape, rows, ops), cursor)
  {
    if ops != [] {
      WritersKeepKeys(c, rows, ops[..|ops| - 1], cursor);
      assert ops[|ops| - 1] in ops;
    }
  }

  lemma WritersKeepRowsInv(c: Config, rows: Table, ops: seq<WriterOp>, cursor: Option<Key>)
    requires ValidConfig(c) && RowsInv(c, rows, cursor) && KeyedOps(c, ops)
    ensures RowsInv(c, DoOps(c.shape, rows, ops), cursor)
  {
    WritersKeepKeys(c, rows, ops, cursor);
    forall k | k in DoOps(c.shape, rows, ops)
      ensures Consistent(DoOps(c.shape, rows, ops)[k], c.specs)
           || (Pending(DoOps(c.shape, rows, ops)[k], c.specs) && Beyond(c.ord, cursor, k))
    {
      WritersLeaveConsistentOrUntouched(c, rows, ops, k);
    }
  }

  lemma WritersKeepAllConsistent(c: Config, rows: Table, ops: seq<WriterOp>)
    requires ValidConfig(c) && AllConsistent(rows, c.specs)
    ensures AllConsistent(DoOps(c.shape, rows, ops), c.specs)
  {
    forall k | k in DoOps(c.shape, rows, ops)
      ensures Consistent(DoOps(c.shape, rows, ops)[k], c.specs)
    {
      WritersLeaveConsistentOrUntouched(c, rows, ops, k);
    }
  }

  lemma {:induction false} SurvivorStays(shape: seq<ColSpec>, rows: Table, ops: seq<WriterOp>, k: Key)
    requires k in rows && Delete(k) !in ops
    ensures k in DoOps(shape, rows, ops)
  {
    if ops != [] {
      assert ops == ops[..|ops| - 1] + [ops[|ops| - 1]];
      SurvivorStays(shape, rows, ops[..|ops| - 1], k);
    }
  }

  // ----- what a chunk keeps -------------------------------------------------------

  /** A chunk keeps the row invariant, whichever returned key becomes the cursor and whatever
      commits between its snapshot and its commit. */
  lemma ChunkKeepsRowsInv(c: Config, d: Db, d': Db, cursor: Option<Key>, cursor': Option<Key>,
                          sel: set<Key>, during: seq<WriterOp>, n: nat)
    requires ValidConfig(c) && CursorSafe(c)
    requires RowsInv(c, d.rows, cursor)
    requires ChunkStep(c, d, d', cursor, cursor', sel, during, n)
    ensures RowsInv(c, d'.rows, cursor')
  {
    var mid := DoOps(c.shape, d.rows, during);
    WritersKeepKeys(c, d.rows, during, cursor);
    assert Keyed(c, d'.rows, cursor');
    forall k | k in d'.rows
      ensures Consistent(d'.rows[k], c.specs)
           || (Pending(d'.rows[k], c.specs) && Beyond(c.ord, cursor', k))
    {
      if k in Survivors(sel, during) {
        RewrittenConsistent(mid[k].cols, mid[k].data, c.specs);
      } else {
        WritersLeaveConsistentOrUntouched(c, d.rows, during, k);
        if !Consistent(mid[k], c.specs) && n > 0 {
          assert k in Eligible(d.rows, c.specs, c.ord, cursor) && k !in sel;
          assert |sel| == c.chunkSize && Below(c.ord, sel, k);
          assert !Hides(c, sel, cursor'.value, k);
        }
      }
    }
  }

  /** All that is stale lies inside the selection. */
  ghost predicate StaleInside(rows: Table, specs: seq<ColSpec>, sel: set<Key>) {
    forall k :: k in rows && k !in sel ==> Consistent(rows[k], specs)
  }

  /** A chunk that did not fill its limit took everything stale. */
  lemma ShortChunkTakesAll(c: Config, rows: Table, cursor: Option<Key>, sel: set<Key>)
    requires ValidConfig(c) && RowsInv(c, rows, cursor)
    requires IsChunk(sel, rows, c.specs, c.ord, cursor, c.chunkSize) && |sel| < c.chunkSize
    ensures StaleInside(rows, c.specs, sel)
  {
  }

  /** A chunk that touched nothing means nothing is left, if nothing stale lay outside it. */
  lemma ZeroRowChunkMeansDone(c: Config, d: Db, d': Db, cursor: Option<Key>, cursor': Option<Key>,
                              sel: set<Key>, during: seq<WriterOp>)
    requires ValidConfig(c)
    requires ChunkStep(c, d, d', cursor, cursor', sel, during, 0)
    requires StaleInside(d.rows, c.specs, sel)
    ensures AllConsistent(d'.rows, c.specs)
  {
    forall k | k in d'.rows
      ensures Consistent(d'.rows[k], c.specs)
    {
      WritersLeaveConsistentOrUntouched(c, d.rows, during, k);
      assert k in sel ==> k in Survivors(sel, during) || Delete(k) in during;
    }
  }

  lemma {:induction false} SeqOfSet(s: set<Key>) returns (q: seq<Key>)
    ensures IsReturning(q, s)
  {
    if s == {} {
      q := [];
    } else {
      var k :| k in s;
      q := SeqOfSet(s - {k});
      q := q + [k];
    }
  }

  function Deletes(keys: seq<Key>): (ops: seq<WriterOp>)
    ensures |ops| == |keys|
    ensures forall i :: 0 <= i < |keys| ==> ops[i] == Delete(keys[i])
  {
    seq(|keys|, i requires 0 <= i < |keys| => Delete(keys[i]))
  }

  lemma {:induction false} DeletesRemoveExactly(shape: seq<ColSpec>, rows: Table, keys: seq<Key>)
    ensures DoOps(shape, rows, Deletes(keys)) == rows - (set k | k in keys)
  {
    if keys != [] {
      var front := keys[..|keys| - 1];
      DeletesRemoveExactly(shape, rows, front);
      assert Deletes(keys)[..|keys| - 1] == Deletes(front);
      assert keys == front + [keys[|keys| - 1]];
    }
  }

  /** When concurrent deletes can end the backfill too early: a selected chunk that loses all its
      rows reports zero, and that is safe against every interleaving exactly when no stale row lies
      outside the chunk. */
  lemma ZeroRowChunkExactlySafe(c: Config, rows: Table, cursor: Option<Key>, sel: set<Key>)
    requires ValidConfig(c) && RowsInv(c, rows, cursor)
    requires IsChunk(sel, rows, c.specs, c.ord, cursor, c.chunkSize)
    ensures (forall during :: Survivors(sel, during) == {} ==>
               AllConsistent(DoOps(c.shape, rows, during), c.specs))
       <==> StaleInside(rows, c.specs, sel)
  {
    if StaleInside(rows, c.specs, sel) {
      forall during, k | Survivors(sel, during) == {} && k in DoOps(c.shape, rows, during)
        ensures Consistent(DoOps(c.shape, rows, during)[k], c.specs)
      {
        WritersLeaveConsistentOrUntouched(c, rows, during, k);
        assert k in sel ==> k in Survivors(sel, during) || Delete(k) in during;
      }
    } else {
      var k :| k in rows && k !in sel && !Consistent(rows[k], c.specs);
      var q := SeqOfSet(sel);
      var during := Deletes(q);
      forall e | e in sel
        ensures Delete(e) in during
      {
        var i :| 0 <= i < |q| && q[i] == e;
        assert during[i] == Delete(e);
      }
      assert Survivors(sel, during) == {};
      DeletesRemoveExactly(c.shape, rows, q);
      assert k in DoOps(c.shape, rows, during) && DoOps(c.shape, rows, during)[k] == rows[k];
    }
  }

  // ----- progress ------------------------------------------------------------------

  function KeysBeyond(rows: Table, ord: KeyOrders, cursor: Option<Key>): set<Key> {
    set k | k in rows && Beyond(ord, cursor, k)
  }

  lemma {:induction false} InsertFreeKeys(shape: seq<ColSpec>, rows: Table, ops: seq<WriterOp>)
    requires InsertFree(rows, ops)
    ensures DoOps(shape, rows, ops).Keys <= rows.Keys
  {
    if ops != [] {
      InsertFreeKeys(shape, rows, ops[..|ops| - 1]);
      assert ops[|ops| - 1].Put? ==> ops[|ops| - 1].key in rows;
    }
  }

  lemma ProperSubsetSmaller<T>(a: set<T>, b: set<T>, x: T)
    requires a <= b && x in b && x !in a
    ensures |a| < |b|
  {
    assert a <= b - {x};
    SubsetCard(a, b - {x});
  }

  lemma {:induction false} SubsetCard<T>(a: set<T>, b: set<T>)
    requires a <= b
    ensures |a| <= |b|
  {
    if a != {} {
      var x :| x in a;
      SubsetCard(a - {x}, b - {x});
    }
  }

  /** A non-empty chunk moves the cursor strictly forward and leaves strictly fewer rows beyond it,
      however many of them stay NULL, as long as no new row appears meanwhile. */
  lemma ChunkMakesProgress(c: Config, d: Db, d': Db, cursor: Option<Key>, cursor': Option<Key>,
                           sel: set<Key>, during: seq<WriterOp>, n: nat)
    requires ValidConfig(c) && Keyed(c, d.rows, cursor) && n > 0
    requires ChunkStep(c, d, d', cursor, cursor', sel, during, n)
    ensures cursor'.Some? && Beyond(c.ord, cursor, cursor'.value)
    ensures InsertFree(d.rows, during) ==>
              |KeysBeyond(d'.rows, c.ord, cursor')| < |KeysBeyond(d.rows, c.ord, cursor)|
  {
    var last := cursor'.value;
    assert last in Eligible(d.rows, c.specs, c.ord, cursor);
    if InsertFree(d.rows, during) {
      InsertFreeKeys(c.shape, d.rows, during);
      ProperSubsetSmaller(KeysBeyond(d'.rows, c.ord, cursor'), KeysBeyond(d.rows, c.ord, cursor), last);
    }
  }

  /** With no write inside the statement the NULL rows beyond the cursor shrink too, including those
      whose extraction stays NULL. Writers alone can make a row beyond the cursor NULL again. */
  lemma QuietChunkShrinksPending(c: Config, d: Db, d': Db, cursor: Option<Key>, cursor': Option<Key>, sel: set<Key>, n: nat)
    requires ValidConfig(c) && Keyed(c, d.rows, cursor) && n > 0
    requires ChunkStep(c, d, d', cursor, cursor', sel, [], n)
    ensures |Eligible(d'.rows, c.specs, c.ord, cursor')| < |Eligible(d.rows, c.specs, c.ord, cursor)|
  {
    var was, now := Eligible(d.rows, c.specs, c.ord, cursor), Eligible(d'.rows, c.specs, c.ord, cursor');
    assert cursor'.value in was;
    forall k | k in now
      ensures k in was
    {
      assert k in d.rows;
      if k !in sel { assert d'.rows[k] == d.rows[k]; }
    }
    ProperSubsetSmaller(now, was, cursor'.value);
  }
}
