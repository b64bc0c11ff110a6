/** What the backfill silently relies on, stated exactly: the cursor's text order, the freshness of
    the state row, and what the index's columns already hold. */
module GsiPreconditions {
  import opened Values
  import opened Storage
  import opened GsiBackfill

  // ----- the cursor compares `key::text`, the chunk is ordered by the key -------------

  /** The row invariant survives every chunk exactly when no full chunk can hide a later key behind
      the cursor. */
  lemma TextCursorExactlySafe(c: Config)
    requires ValidConfig(c)
    ensures CursorSafe(c) <==>
      forall d: Db, d': Db, cursor, cursor', sel, during, n: nat ::
        RowsInv(c, d.rows, cursor) && ChunkStep(c, d, d', cursor, cursor', sel, during, n)
        ==> RowsInv(c, d'.rows, cursor')
  {
    if CursorSafe(c) {
      forall d: Db, d': Db, cursor, cursor', sel, during, n: nat |
        RowsInv(c, d.rows, cursor) && ChunkStep(c, d, d', cursor, cursor', sel, during, n)
        ensures RowsInv(c, d'.rows, cursor')
      {
        ChunkKeepsRowsInv(c, d, d', cursor, cursor', sel, during, n);
      }
    } else {
      var q: set<Key>, a: Key, b: Key :| Hides(c, q, a, b);
      var d, d' := OutOfOrderKeySkipped(c, q, a, b);
    }
  }

  function StaleRow(specs: seq<ColSpec>): Row { Row(SampleItem(specs), map[]) }

  function StaleTable(specs: seq<ColSpec>, keys: set<Key>): Table { map k | k in keys :: StaleRow(specs) }

  function ColSet(specs: seq<ColSpec>): set<string> { set s | s in specs :: s.col }

  function ColNames(specs: seq<ColSpec>): (r: seq<string>)
    ensures |r| == |specs|
  {
    seq(|specs|, i requires 0 <= i < |specs| => specs[i].col)
  }

  /** A full chunk of stale rows `q` and one more stale row `b` after them, which the text order puts
      before the cursor: `b` stays stale and no later chunk can select it. */
  lemma OutOfOrderKeySkipped(c: Config, q: set<Key>, a: Key, b: Key) returns (d: Db, d': Db)
    requires ValidConfig(c)
    requires Hides(c, q, a, b)
    ensures d == CreateTx(FRESH.With(StaleTable(c.specs, q + {b})), c.specs)
    ensures RowsInv(c, d.rows, None) && ChunkStep(c, d, d', None, Some(a), q, [], |q|)
    ensures b in d'.rows && !Consistent(d'.rows[b], c.specs)
    ensures Eligible(d'.rows, c.specs, c.ord, Some(a)) == {}
    ensures !RowsInv(c, d'.rows, Some(a))
  {
    SampleItemExtracts(c.specs, c.specs[0]);
    var stale := StaleRow(c.specs);
    var rows := StaleTable(c.specs, q + {b});
    d := CreateTx(FRESH.With(rows), c.specs);
    assert b !in q;
    assert Eligible(rows, c.specs, c.ord, None) == q + {b};
    assert IsChunk(q, rows, c.specs, c.ord, None, |q|);
    assert Survivors(q, []) == q;
    var after := Fill(rows, c.specs, q);
    d' := Db(after, d.columns, Some(StateRow(c.specs, Backfilling, Some(a))), None);
    assert DoOps(c.shape, rows, []) == rows;
    assert ChunkStep(c, d, d', None, Some(a), q, [], |q|);
    assert after[b] == stale && !Consistent(stale, c.specs);
    forall k | k in after
      ensures !(Pending(after[k], c.specs) && Beyond(c.ord, Some(a), k))
    {
      if k in q {
        RewrittenConsistent(stale.cols, stale.data, c.specs);
        assert Consistent(after[k], c.specs);
      }
    }
  }

  // ----- the name of the Postgres index ----------------------------------------------------

  /** Letters and digits in lower case, anything else an underscore. */
  function NameChar(c: char): char {
    if 'a' <= c <= 'z' || IsDigit(c) then c else if 'A' <= c <= 'Z' then 'a' + (c - 'A') else '_'
  }

  function TrimUnderscores(s: string): string { if s != [] && s[0] == '_' then TrimUnderscores(s[1..]) else s }

  function Sanitized(name: string): string { TrimUnderscores(seq(|name|, i requires 0 <= i < |name| => NameChar(name[i]))) }

  /** `derive_gsi_index_name`, for names short enough to need no hash. */
  function IndexName(pgTable: string, name: string): Option<string> {
    var candidate := pgTable + "_gsi_" + Sanitized(name) + "_idx";
    if |candidate| <= 63 then Some(candidate) else None
  }

  /** Two index names of one table, differing only in case or punctuation, share one Postgres index name. */
  lemma NamesCollide(pgTable: string)
    ensures IndexName(pgTable, "By-Tier") == IndexName(pgTable, "by_tier")
  {
    var a, b := seq(7, i requires 0 <= i < 7 => NameChar("By-Tier"[i])), seq(7, i requires 0 <= i < 7 => NameChar("by_tier"[i]));
    assert a == b == "by_tier";
  }

  // ----- UpdateTable creates the index ---------------------------------------------------

  /** The create transaction: state row inserted ON CONFLICT DO NOTHING, ADD COLUMN IF NOT EXISTS,
      then the phase is driven to backfilling, all committed together. */
  function CreateTx(d: Db, specs: seq<ColSpec>): (d': Db)
    ensures d'.rows == d.rows && d'.index == d.index
    ensures d'.state.Some? && d'.state.value.phase == Backfilling
    ensures d'.state.value.specs == StoredSpecs(specs, d.state)
    ensures d'.state.value.lastPkCopied == StartCursor(d.state)
  {
    var st := if d.state.Some? then d.state.value else StateRow(specs, Declared, None);
    Db(d.rows, d.columns + ColSet(specs), Some(st.(phase := Backfilling)), d.index)
  }

  /** The columns the worker will go by: those of a state row left by an earlier index of the same
      name, when there is one. */
  function StoredSpecs(specs: seq<ColSpec>, state: Option<StateRow>): seq<ColSpec> {
    if state.Some? then state.value.specs else specs
  }

  /** The cursor creation starts from: the leftover one when the state row already exists. */
  function StartCursor(state: Option<StateRow>): Option<Key> {
    if state.Some? then state.value.lastPkCopied else None
  }

  /** What creation finds besides the rows: the columns, those known to be `filled` because an index that
      names them is past its backfill, a state row and a Postgres index of the same name. */
  datatype Found = Found(columns: set<string>, filled: set<string>, state: Option<StateRow>, index: Option<seq<string>>) {
    function With(rows: Table): Db { Db(rows, columns, state, index) }
  }

  const FRESH := Found({}, {}, None, None)

  /** Rows that go with it. A column the table lacks is in no row; a filled column is up to date
      everywhere; any other, left by an index still backfilling or failed, is up to date or NULL row
      by row. */
  ghost predicate AsFound(c: Config, rows: Table, f: Found) {
    forall k :: k in rows ==>
      && c.keys(k) && rows[k].cols.Keys <= f.columns
      && forall s :: s in c.specs ==>
           || Cell(rows[k], s.col) == Extract(rows[k].data, s.attr, s.keyType)
           || (Cell(rows[k], s.col) == None && s.col !in f.filled)
  }

  predicate DistinctAttrs(specs: seq<ColSpec>) {
    forall i, j :: 0 <= i < j < |specs| ==> specs[i].attr != specs[j].attr
  }

  function Sample(t: KeyType): AttributeValue {
    match t case KeyS => S("") case KeyN => N("0") case KeyB => B([])
  }

  lemma SampleTyped(t: KeyType)
    ensures Typed(Sample(t), t).Some?
  {
    if t.KeyN? {
      assert IndexOf("0", 'e') == 1 && IndexOf("0", 'E') == 1 && IndexOf("0", '.') == 1;
      assert "0"[..1] == "0" && "0" + [] == "0";
      assert ParseMantissa("0").Some?;
      assert ParseDecimal("0").Some?;
    }
  }

  /** A payload holding a well-typed value for every attribute of the index. */
  function SampleItem(specs: seq<ColSpec>): Item {
    if specs == [] then map[]
    else SampleItem(specs[1..])[specs[0].attr := Sample(specs[0].keyType)]
  }

  lemma {:induction false} SampleItemExtracts(specs: seq<ColSpec>, s: ColSpec)
    requires s in specs
    requires s == specs[0] || DistinctAttrs(specs)
    ensures Extract(SampleItem(specs), s.attr, s.keyType).Some?
  {
    SampleTyped(s.keyType);
    if s != specs[0] {
      var i :| 0 <= i < |specs| && specs[i] == s;
      assert s == specs[1..][i - 1];
      SampleItemExtracts(specs[1..], s);
    }
  }

  /** A row holding the sample payload with exactly the columns of `present` filled. */
  ghost function SampleRow(specs: seq<ColSpec>, present: set<string>): (r: Row)
    requires DistinctCols(specs) && DistinctAttrs(specs)
    ensures r.data == SampleItem(specs)
    ensures r.cols.Keys <= present
    ensures forall s :: s in specs ==>
      Cell(r, s.col) == (if s.col in present then Extract(r.data, s.attr, s.keyType) else None)
  {
    var item := SampleItem(specs);
    forall s | s in specs ensures Extract(item, s.attr, s.keyType).Some? { SampleItemExtracts(specs, s); }
    var cols := map i | 0 <= i < |specs| && specs[i].col in present
      :: specs[i].col := Extract(item, specs[i].attr, specs[i].keyType).value;
    var r := Row(item, cols);
    forall s | s in specs
      ensures Cell(r, s.col) == (if s.col in present then Extract(item, s.attr, s.keyType) else None)
    {
      var i :| 0 <= i < |specs| && specs[i] == s;
      assert s.col in cols <==> s.col in present;
    }
    r
  }

  /** Every ordinary column is one some index of the table maintains, so a stored column that exists
      is in the writers' shape; a stored cursor was a key of the table. */
  ghost predicate ValidFound(c: Config, f: Found) {
    var w := StoredSpecs(c.specs, f.state);
    && w != [] && DistinctCols(w)
    && (forall s :: s in w && s.col in f.columns + ColSet(c.specs) ==> s in c.shape)
    && f.filled <= f.columns
    && (StartCursor(f.state).Some? ==> c.keys(StartCursor(f.state).value))
  }

  /** What a backfill from the stored cursor needs of the columns: all filled already, or no cursor left
      over and the first column new or the only one not filled. */
  predicate Fillable(specs: seq<ColSpec>, f: Found)
    requires specs != []
  {
    || HasColumns(f.filled, specs)
    || (StartCursor(f.state) == None && (specs[0].col !in f.columns || HasColumns(f.filled, specs[1..])))
  }

  /** The worker cannot run, or it goes by the index's own columns, can fill them, and no Postgres index on
      other columns has the name. All of it can be read off the catalogs and the state rows before
      creating. */
  predicate SafeToCreate(specs: seq<ColSpec>, f: Found)
    requires specs != []
  {
    || !HasColumns(f.columns + ColSet(specs), StoredSpecs(specs, f.state))
    || (&& StoredSpecs(specs, f.state) == specs && Fillable(specs, f)
        && (f.index.Some? ==> f.index.value == ColNames(specs)))
  }

  lemma SafeCreateEstablishesRowsInv(c: Config, rows: Table, f: Found)
    requires ValidConfig(c) && ValidFound(c, f) && AsFound(c, rows, f) && Fillable(c.specs, f)
    ensures RowsInv(c, rows, StartCursor(f.state))
  {
    forall k | k in rows
      ensures Consistent(rows[k], c.specs)
           || (Pending(rows[k], c.specs) && Beyond(c.ord, StartCursor(f.state), k))
    {
      if c.specs[0].col !in f.columns { assert c.specs[0].col !in rows[k].cols; }
      else if !HasColumns(f.filled, c.specs) && !Pending(rows[k], c.specs) {
        forall s | s in c.specs
          ensures Cell(rows[k], s.col) == Extract(rows[k].data, s.attr, s.keyType)
        {
          assert s == c.specs[0] || s in c.specs[1..];
        }
      }
    }
  }

  lemma SampleRowIsStale(specs: seq<ColSpec>, present: set<string>, s: ColSpec)
    requires specs != [] && DistinctCols(specs) && DistinctAttrs(specs)
    requires s in specs && s.col !in present
    ensures !Consistent(SampleRow(specs, present), specs)
    ensures specs[0].col in present ==> !Pending(SampleRow(specs, present), specs)
  {
    SampleItemExtracts(specs, s);
    SampleItemExtracts(specs, specs[0]);
    assert Cell(SampleRow(specs, present), s.col) == None;
  }
}
