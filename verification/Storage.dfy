/** The Postgres table behind one DynamoDB table: rows keyed by their GENERATED key columns,
    each holding a JSONB payload and the DualWrite columns of its secondary indexes. */
module Storage {
  import opened Values

  /** One DualWrite column: `col` holds the `attr` attribute, read as `keyType`. */
  datatype ColSpec = ColSpec(col: string, attr: string, keyType: KeyType)

  /** `cols` maps each non-NULL column to its value; a column it lacks is NULL. */
  datatype Row = Row(data: Item, cols: map<string, ColVal>)

  type Table = map<Key, Row>

  datatype KeyAttr = KeyAttr(name: string, keyType: KeyType)

  /** Key attributes plus the DualWrite columns every write statement maintains. */
  datatype Shape = Shape(pk: KeyAttr, sk: Option<KeyAttr>, dualWrite: seq<ColSpec>)

  /** The typed scalar inside a value: `v #>> '{T}'` with the cast for `T`. A literal that
      the numeric cast rejects aborts the statement in Postgres; here it reads as NULL. */
  function Typed(v: AttributeValue, t: KeyType): Option<ColVal> {
    match (t, v)
    case (KeyS, S(s)) => Some(Text(s))
    case (KeyN, N(n)) => (match ParseDecimal(n) case Some(x) => Some(Numeric(x)) case None => None)
    case (KeyB, B(b)) => Some(Bytea(b))
    case (_, _) => None
  }

  /** `data #>> '{attr,T}'`. */
  function Extract(item: Item, attr: string, t: KeyType): Option<ColVal> {
    if attr in item then Typed(item[attr], t) else None
  }

  /** The GENERATED key columns of a payload; None violates their NOT NULL constraint. */
  function KeyOf(shape: Shape, item: Item): Option<Key> {
    var pk := Extract(item, shape.pk.name, shape.pk.keyType);
    if pk.None? then None
    else if shape.sk.None? then Some(Key(pk.value, None))
    else
      var sk := Extract(item, shape.sk.value.name, shape.sk.value.keyType);
      if sk.None? then None else Some(Key(pk.value, sk))
  }

  predicate IsKeyAttr(shape: Shape, attr: string) {
    attr == shape.pk.name || (shape.sk.Some? && attr == shape.sk.value.name)
  }

  /** Every row sits at the key its payload generates. */
  ghost predicate WellKeyed(shape: Shape, rows: Table) {
    forall k :: k in rows ==> KeyOf(shape, rows[k].data) == Some(k)
  }

  function Cell(row: Row, col: string): Option<ColVal> {
    if col in row.cols then Some(row.cols[col]) else None
  }

  function SetCell(cols: map<string, ColVal>, col: string, v: Option<ColVal>): map<string, ColVal> {
    if v.Some? then cols[col := v.value] else cols - {col}
  }

  /** The SET list of a write: each listed column recomputed from the new payload. */
  function WriteCols(cols: map<string, ColVal>, item: Item, specs: seq<ColSpec>): map<string, ColVal> {
    if specs == [] then cols
    else
      var c := specs[|specs| - 1];
      SetCell(WriteCols(cols, item, specs[..|specs| - 1]), c.col, Extract(item, c.attr, c.keyType))
  }

  predicate DistinctCols(specs: seq<ColSpec>) {
    forall i, j :: 0 <= i < j < |specs| ==> specs[i].col != specs[j].col
  }

  /** Every listed column equals what its attribute extracts to, NULL included. */
  ghost predicate Consistent(row: Row, specs: seq<ColSpec>) {
    forall c :: c in specs ==> Cell(row, c.col) == Extract(row.data, c.attr, c.keyType)
  }

  ghost predicate AllConsistent(rows: Table, specs: seq<ColSpec>) {
    forall k :: k in rows ==> Consistent(rows[k], specs)
  }

  /** The row a write leaves: new payload, DualWrite columns recomputed, others kept. */
  function Rewritten(prior: map<string, ColVal>, item: Item, specs: seq<ColSpec>): (r: Row)
    ensures r.data == item
  {
    Row(item, WriteCols(prior, item, specs))
  }

  lemma {:induction false} WriteColsFrame(cols: map<string, ColVal>, item: Item, specs: seq<ColSpec>, col: string)
    requires forall c :: c in specs ==> c.col != col
    ensures Cell(Row(item, WriteCols(cols, item, specs)), col) == Cell(Row(item, cols), col)
  {
    if specs != [] { WriteColsFrame(cols, item, specs[..|specs| - 1], col); }
  }

  /** A write leaves every listed column equal to the extraction of the new payload. */
  lemma {:induction false} RewrittenConsistent(prior: map<string, ColVal>, item: Item, specs: seq<ColSpec>)
    requires DistinctCols(specs)
    ensures Consistent(Rewritten(prior, item, specs), specs)
  {
    if specs != [] {
      var front, last := specs[..|specs| - 1], specs[|specs| - 1];
      RewrittenConsistent(prior, item, front);
      forall c | c in specs
        ensures Cell(Rewritten(prior, item, specs), c.col) == Extract(item, c.attr, c.keyType)
      {
        if c != last {
          var i :| 0 <= i < |specs| && specs[i] == c;
          assert c == front[i];
        }
      }
    }
  }

  /** Recomputing some columns of one shape touches no other: a column of that shape comes out up to
      date when it is listed and as it was when it is not. */
  lemma RewrittenCell(row: Row, specs: seq<ColSpec>, shape: seq<ColSpec>, c: ColSpec)
    requires DistinctCols(specs) && DistinctCols(shape) && c in shape
    requires forall s :: s in specs ==> s in shape
    ensures Cell(Rewritten(row.cols, row.data, specs), c.col)
         == if c in specs then Extract(row.data, c.attr, c.keyType) else Cell(row, c.col)
  {
    if c in specs {
      RewrittenConsistent(row.cols, row.data, specs);
    } else {
      forall s | s in specs
        ensures s.col != c.col
      {
        var i, j :| 0 <= i < |shape| && shape[i] == c && 0 <= j < |shape| && shape[j] == s;
      }
      WriteColsFrame(row.cols, row.data, specs, c.col);
    }
  }
}
