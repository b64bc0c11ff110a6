/** Writes of many rows at once: BatchWriteItem, which runs all puts before all deletes, and
    TransactWriteItems, which runs its operations in order and keeps all or none. */
module MultiWrite {
  import opened Values
  import opened Storage
  import opened Updates

  // ----- BatchWriteItem ----------------------------------------------------------------

  datatype WriteOp = PutOp(key: Key, item: Item) | DeleteOp(key: Key)

  function DoWrite(shape: Shape, rows: Table, op: WriteOp): Table {
    match op
    case PutOp(k, item) => Store(shape, rows, k, item)
    case DeleteOp(k) => rows - {k}
  }

  /** The operations in request order. */
  function DoWrites(shape: Shape, rows: Table, ops: seq<WriteOp>): Table {
    if ops == [] then rows
    else DoWrite(shape, DoWrites(shape, rows, ops[..|ops| - 1]), ops[|ops| - 1])
  }

  function Puts(ops: seq<WriteOp>): seq<WriteOp> {
    if ops == [] then []
    else
      var front, last := Puts(ops[..|ops| - 1]), ops[|ops| - 1];
      if last.PutOp? then front + [last] else front
  }

  /** One multi-row upsert of the puts, then one multi-key delete. */
  function PutsThenDeletes(shape: Shape, rows: Table, ops: seq<WriteOp>): Table {
    DoWrites(shape, rows, Puts(ops)) - (set op | op in ops && op.DeleteOp? :: op.key)
  }

  /** `ON CONFLICT DO UPDATE` refuses to touch one row twice in a statement. */
  predicate DistinctPuts(ops: seq<WriteOp>) {
    forall i, j :: 0 <= i < j < |ops| && ops[i].PutOp? && ops[j].PutOp? ==> ops[i].key != ops[j].key
  }

  /** Every put whose key the batch also deletes is deleted after it. */
  ghost predicate DeletesComeLast(ops: seq<WriteOp>) {
    forall i :: 0 <= i < |ops| && ops[i].PutOp? && DeleteOp(ops[i].key) in ops ==>
      exists j :: i < j < |ops| && ops[j] == DeleteOp(ops[i].key)
  }

  predicate SameAt(a: Table, b: Table, k: Key) {
    (k in a <==> k in b) && (k in a ==> a[k] == b[k])
  }

  lemma {:induction false} UndeletedKeyFollowsPuts(shape: Shape, rows: Table, ops: seq<WriteOp>, k: Key)
    requires DeleteOp(k) !in ops
    ensures SameAt(DoWrites(shape, rows, ops), DoWrites(shape, rows, Puts(ops)), k)
  {
    if ops != [] {
      var front, last := ops[..|ops| - 1], ops[|ops| - 1];
      assert ops == front + [last];
      UndeletedKeyFollowsPuts(shape, rows, front, k);
      if last.PutOp? {
        assert Puts(ops)[..|Puts(ops)| - 1] == Puts(front);
      }
    }
  }

  lemma {:induction false} DeletedLastIsGone(shape: Shape, rows: Table, ops: seq<WriteOp>, k: Key, d: nat)
    requires d < |ops| && ops[d] == DeleteOp(k)
    requires forall j :: d < j < |ops| && ops[j].PutOp? ==> ops[j].key != k
    ensures k !in DoWrites(shape, rows, ops)
  {
    if d < |ops| - 1 { DeletedLastIsGone(shape, rows, ops[..|ops| - 1], k, d); }
  }

  lemma {:induction false} PutLastIsThere(shape: Shape, rows: Table, ops: seq<WriteOp>, p: nat)
    requires p < |ops| && ops[p].PutOp?
    requires forall j :: p < j < |ops| ==> ops[j] != DeleteOp(ops[p].key)
    ensures ops[p].key in DoWrites(shape, rows, ops)
  {
    if p < |ops| - 1 { PutLastIsThere(shape, rows, ops[..|ops| - 1], p); }
  }

  lemma {:induction false} LastDelete(ops: seq<WriteOp>, k: Key) returns (d: nat)
    requires DeleteOp(k) in ops
    ensures d < |ops| && ops[d] == DeleteOp(k) && forall j :: d < j < |ops| ==> ops[j] != DeleteOp(k)
  {
    d := |ops| - 1;
    if ops[d] != DeleteOp(k) {
      assert ops == ops[..d] + [ops[d]];
      d := LastDelete(ops[..d], k);
    }
  }

  /** Running all puts before all deletes is invisible exactly when no key is deleted and then put for
      good; in particular whenever the keys are pairwise distinct. */
  lemma BatchReorderingExactlyInvisible(shape: Shape, rows: Table, ops: seq<WriteOp>)
    ensures PutsThenDeletes(shape, rows, ops) == DoWrites(shape, rows, ops) <==> DeletesComeLast(ops)
  {
    var batch, inOrder := PutsThenDeletes(shape, rows, ops), DoWrites(shape, rows, ops);
    if DeletesComeLast(ops) {
      forall k
        ensures SameAt(batch, inOrder, k)
      {
        if DeleteOp(k) in ops {
          var d := LastDelete(ops, k);
          DeletedLastIsGone(shape, rows, ops, k, d);
        } else {
          UndeletedKeyFollowsPuts(shape, rows, ops, k);
        }
      }
      assert batch.Keys == inOrder.Keys by {
        forall k ensures k in batch <==> k in inOrder { assert SameAt(batch, inOrder, k); }
      }
      assert forall k :: k in batch ==> SameAt(batch, inOrder, k);
    } else {
      var p :| 0 <= p < |ops| && ops[p].PutOp? && DeleteOp(ops[p].key) in ops
               && !exists j :: p < j < |ops| && ops[j] == DeleteOp(ops[p].key);
      PutLastIsThere(shape, rows, ops, p);
    }
  }

  lemma DistinctKeysHideReordering(shape: Shape, rows: Table, ops: seq<WriteOp>)
    requires forall i, j :: 0 <= i < j < |ops| ==> ops[i].key != ops[j].key
    ensures PutsThenDeletes(shape, rows, ops) == DoWrites(shape, rows, ops)
  {
    BatchReorderingExactlyInvisible(shape, rows, ops);
    forall i | 0 <= i < |ops| && ops[i].PutOp?
      ensures DeleteOp(ops[i].key) !in ops
    {
      assert forall j :: 0 <= j < |ops| ==> ops[j] != DeleteOp(ops[i].key);
    }
  }

  /** A batch keeps the table well keyed with every DualWrite column up to date. */
  lemma {:induction false} BatchKeepsTable(shape: Shape, rows: Table, ops: seq<WriteOp>)
    requires DistinctCols(shape.dualWrite) && GoodTable(shape, rows)
    requires forall op :: op in ops && op.PutOp? ==> KeyOf(shape, op.item) == Some(op.key)
    ensures GoodTable(shape, DoWrites(shape, rows, ops))
    ensures GoodTable(shape, PutsThenDeletes(shape, rows, ops))
  {
    if ops != [] {
      var front, last := ops[..|ops| - 1], ops[|ops| - 1];
      BatchKeepsTable(shape, rows, front);
      assert last in ops;
      if last.PutOp? { StoreKeepsTable(shape, DoWrites(shape, rows, front), last.key, last.item); }
    }
    PutsKeepTable(shape, rows, ops);
  }

  lemma {:induction false} PutsKeepTable(shape: Shape, rows: Table, ops: seq<WriteOp>)
    requires DistinctCols(shape.dualWrite) && GoodTable(shape, rows)
    requires forall op :: op in ops && op.PutOp? ==> KeyOf(shape, op.item) == Some(op.key)
    ensures GoodTable(shape, DoWrites(shape, rows, Puts(ops)))
  {
    if ops != [] {
      var front, last := ops[..|ops| - 1], ops[|ops| - 1];
      PutsKeepTable(shape, rows, front);
      assert last in ops;
      if last.PutOp? {
        assert Puts(ops)[..|Puts(ops)| - 1] == Puts(front);
        StoreKeepsTable(shape, DoWrites(shape, rows, Puts(front)), last.key, last.item);
      }
    }
  }

  // ----- which batches reach it ---------------------------------------------------------------

  datatype WriteRequest = PutRequest(item: Item) | DeleteRequest(key: Item)

  function Payload(r: WriteRequest): Item { if r.PutRequest? then r.item else r.key }

  predicate SpelledAs(v: AttributeValue, t: KeyType) {
    match t case KeyS => v.S? case KeyN => v.N? case KeyB => v.B?
  }

  /** The key attributes as the request writes them; None when one is missing or of another type. */
  function Spelling(shape: Shape, item: Item): Option<(AttributeValue, Option<AttributeValue>)> {
    if shape.pk.name !in item || !SpelledAs(item[shape.pk.name], shape.pk.keyType) then None
    else if shape.sk.None? then Some((item[shape.pk.name], None))
    else if shape.sk.value.name !in item || !SpelledAs(item[shape.sk.value.name], shape.sk.value.keyType) then None
    else Some((item[shape.pk.name], Some(item[shape.sk.value.name])))
  }

  /** The translator takes well-typed keys, bare in a delete, and rejects a key spelled twice; a number
      literal Postgres cannot cast would make the statement raise. */
  predicate TranslatorAccepts(shape: Shape, reqs: seq<WriteRequest>) {
    && (forall i :: 0 <= i < |reqs| ==> Spelling(shape, Payload(reqs[i])).Some? && KeyOf(shape, Payload(reqs[i])).Some?)
    && (forall i :: 0 <= i < |reqs| && reqs[i].DeleteRequest? ==> forall n :: n in reqs[i].key ==> IsKeyAttr(shape, n))
    && (forall i, j :: 0 <= i < j < |reqs| ==> Spelling(shape, Payload(reqs[i])) != Spelling(shape, Payload(reqs[j])))
  }

  function OpOf(shape: Shape, r: WriteRequest): WriteOp
    requires KeyOf(shape, Payload(r)).Some?
  {
    var k := KeyOf(shape, Payload(r)).value;
    match r
    case PutRequest(item) => PutOp(k, item)
    case DeleteRequest(_) => DeleteOp(k)
  }

  function Translated(shape: Shape, reqs: seq<WriteRequest>): (ops: seq<WriteOp>)
    requires TranslatorAccepts(shape, reqs)
    ensures |ops| == |reqs|
  {
    seq(|reqs|, i requires 0 <= i < |reqs| => OpOf(shape, reqs[i]))
  }

  predicate HasNumericKey(shape: Shape) { shape.pk.keyType.KeyN? || (shape.sk.Some? && shape.sk.value.keyType.KeyN?) }

  lemma SpellingDecidesKey(shape: Shape, a: Item, b: Item)
    requires !HasNumericKey(shape) && KeyOf(shape, a).Some? && KeyOf(shape, a) == KeyOf(shape, b)
    requires Spelling(shape, a).Some? && Spelling(shape, b).Some?
    ensures Spelling(shape, a) == Spelling(shape, b)
  {
  }

  function KeyLiteral(t: KeyType, numeral: string): AttributeValue {
    match t case KeyS => S("") case KeyN => N(numeral) case KeyB => B([])
  }

  function NumeralKey(shape: Shape, numeral: string): Item {
    var m := map[shape.pk.name := KeyLiteral(shape.pk.keyType, numeral)];
    if shape.sk.None? then m else m[shape.sk.value.name := KeyLiteral(shape.sk.value.keyType, numeral)]
  }

  lemma NumeralKeysCoincide(shape: Shape, a: string, b: string, x: real)
    requires HasNumericKey(shape) && (shape.sk.Some? ==> shape.sk.value.name != shape.pk.name)
    requires ParseDecimal(a) == ParseDecimal(b) == Some(x) && a != b
    ensures KeyOf(shape, NumeralKey(shape, a)).Some? && KeyOf(shape, NumeralKey(shape, a)) == KeyOf(shape, NumeralKey(shape, b))
    ensures Spelling(shape, NumeralKey(shape, a)).Some? && Spelling(shape, NumeralKey(shape, b)).Some?
    ensures Spelling(shape, NumeralKey(shape, a)) != Spelling(shape, NumeralKey(shape, b))
    ensures forall n :: n in NumeralKey(shape, a) ==> IsKeyAttr(shape, n)
  {
  }

  lemma DeleteThenPutShows(shape: Shape, rows: Table, reqs: seq<WriteRequest>)
    requires TranslatorAccepts(shape, reqs) && |reqs| == 2 && reqs[0].DeleteRequest? && reqs[1].PutRequest?
    requires KeyOf(shape, reqs[0].key) == KeyOf(shape, reqs[1].item)
    ensures PutsThenDeletes(shape, rows, Translated(shape, reqs)) != DoWrites(shape, rows, Translated(shape, reqs))
  {
    var ops := Translated(shape, reqs);
    assert ops[0] == DeleteOp(ops[1].key) && ops[1].PutOp?;
    BatchReorderingExactlyInvisible(shape, rows, ops);
    assert ops[0] in ops;
  }

  lemma TwoSpellingsAccepted(shape: Shape, a: Item, b: Item)
    requires KeyOf(shape, a).Some? && KeyOf(shape, b).Some? && Spelling(shape, a).Some? && Spelling(shape, b).Some?
    requires Spelling(shape, a) != Spelling(shape, b) && forall n :: n in a ==> IsKeyAttr(shape, n)
    ensures TranslatorAccepts(shape, [DeleteRequest(a), PutRequest(b)])
  {
  }

  /** `Delete 1` and then `Put 1.0`: two spellings of one key, which the translator lets through and
      the batch turns round. */
  lemma SpelledTwiceSlipsThrough(shape: Shape, rows: Table, one: string, onePointZero: string)
    requires HasNumericKey(shape) && (shape.sk.Some? ==> shape.sk.value.name != shape.pk.name)
    requires one == "1" && onePointZero == "1.0"
    ensures var reqs := [DeleteRequest(NumeralKey(shape, one)), PutRequest(NumeralKey(shape, onePointZero))];
      && TranslatorAccepts(shape, reqs)
      && PutsThenDeletes(shape, rows, Translated(shape, reqs)) != DoWrites(shape, rows, Translated(shape, reqs))
  {
    OneIsOnePointZero();
    NumeralKeysCoincide(shape, one, onePointZero, 1.0);
    TwoSpellingsAccepted(shape, NumeralKey(shape, one), NumeralKey(shape, onePointZero));
    DeleteThenPutShows(shape, rows, [DeleteRequest(NumeralKey(shape, one)), PutRequest(NumeralKey(shape, onePointZero))]);
  }

  /** The batches the translator accepts are never reordered visibly exactly when no key attribute is a
      number. */
  lemma AcceptedBatchesReorderExactly(shape: Shape, rows: Table)
    requires shape.sk.Some? ==> shape.sk.value.name != shape.pk.name
    ensures !HasNumericKey(shape) <==> forall reqs :: TranslatorAccepts(shape, reqs) ==>
      PutsThenDeletes(shape, rows, Translated(shape, reqs)) == DoWrites(shape, rows, Translated(shape, reqs))
  {
    if HasNumericKey(shape) {
      SpelledTwiceSlipsThrough(shape, rows, "1", "1.0");
    } else {
      forall reqs | TranslatorAccepts(shape, reqs)
        ensures PutsThenDeletes(shape, rows, Translated(shape, reqs)) == DoWrites(shape, rows, Translated(shape, reqs))
      {
        TextBatchReorders(shape, rows, reqs);
      }
    }
  }

  lemma TextBatchReorders(shape: Shape, rows: Table, reqs: seq<WriteRequest>)
    requires !HasNumericKey(shape) && TranslatorAccepts(shape, reqs)
    ensures PutsThenDeletes(shape, rows, Translated(shape, reqs)) == DoWrites(shape, rows, Translated(shape, reqs))
  {
    var ops := Translated(shape, reqs);
    forall i, j | 0 <= i < j < |ops|
      ensures ops[i].key != ops[j].key
    {
      if ops[i].key == ops[j].key { SpellingDecidesKey(shape, Payload(reqs[i]), Payload(reqs[j])); }
    }
    DistinctKeysHideReordering(shape, rows, ops);
  }

  datatype BatchResult = BatchDone | MissingSortKey | UnexpectedSortKey | Raised

  /** Composite tables need a sort key on every operation, hash-only tables on none. */
  predicate WellShaped(shape: Shape, ops: seq<WriteOp>) {
    forall op :: op in ops ==> (op.key.sk.Some? <==> shape.sk.Some?)
  }

  class Writer {
    const shape: Shape
    var rows: Table

    constructor (shape: Shape, rows: Table)
      ensures this.shape == shape && this.rows == rows
    {
      this.shape, this.rows := shape, rows;
    }

    /** Partitions the batch, upserts the puts, deletes the deletes, commits. A key of the wrong shape is
        refused before anything runs; two puts of one key make the upsert raise; both leave the table as
        it was. */
    method BatchWriteRaw(ops: seq<WriteOp>) returns (r: BatchResult)
      modifies this
      ensures r.MissingSortKey? ==> shape.sk.Some? && exists op :: op in ops && op.key.sk.None?
      ensures r.UnexpectedSortKey? ==> shape.sk.None? && exists op :: op in ops && op.key.sk.Some?
      ensures r.MissingSortKey? || r.UnexpectedSortKey? <==> !WellShaped(shape, ops)
      ensures r.Raised? <==> WellShaped(shape, ops) && !DistinctPuts(ops)
      ensures rows == if r.BatchDone? then PutsThenDeletes(shape, old(rows), ops) else old(rows)
    {
      if ops == [] {
        assert PutsThenDeletes(shape, rows, ops) == rows;
        return BatchDone;
      }
      var puts: seq<WriteOp> := [];
      var deletes: set<Key> := {};
      for i := 0 to |ops|
        invariant WellShaped(shape, ops[..i]) && puts == Puts(ops[..i])
        invariant deletes == set op | op in ops[..i] && op.DeleteOp? :: op.key
      {
        assert ops[..i + 1][..i] == ops[..i] && ops[..i + 1] == ops[..i] + [ops[i]];
        if shape.sk.Some? && ops[i].key.sk.None? { return MissingSortKey; }
        if shape.sk.None? && ops[i].key.sk.Some? { return UnexpectedSortKey; }
        match ops[i]
        case PutOp(_, _) => puts := puts + [ops[i]];
        case DeleteOp(k) => deletes := deletes + {k};
      }
      assert ops[..|ops|] == ops;
      if !DistinctPuts(ops) { return Raised; }
      rows := DoWrites(shape, rows, puts) - deletes;
      return BatchDone;
    }
  }

  // ----- TransactWriteItems ---------------------------------------------------------------

  /** All tables a transaction may reach, by name. */
  type Tables = map<string, Table>

  datatype TxAction =
    | TxPut(item: Item, cond: Option<Option<Item> -> bool>)
    | TxDelete(cond: Option<Option<Item> -> bool>)
    | TxCheck(check: Option<Item> -> bool)
    | TxUpdate(decide: Option<Item> -> Decision)

  /** Each operation names its own table, with that table's shape. */
  datatype TxOp = TxOp(table: string, shape: Shape, key: Key, action: TxAction)

  datatype BackendError = CheckFailed | PgError(sqlstate: string) | TableNotFound(name: string) | OtherError(message: string)

  datatype OpResult = Applied(tables: Tables) | OpFailed(error: BackendError)

  /** One operation inside the transaction, on the tables its predecessors left. */
  function RunOp(tables: Tables, op: TxOp): OpResult {
    if op.table !in tables then OpFailed(TableNotFound(op.table))
    else
      var rows := tables[op.table];
      var row := DataAt(rows, op.key);
      match op.action
      case TxPut(item, cond) =>
        if cond.Some? && !cond.value(row) then OpFailed(CheckFailed)
        else Applied(tables[op.table := Store(op.shape, rows, op.key, item)])
      case TxDelete(cond) =>
        if cond.Some? && !cond.value(row) then OpFailed(CheckFailed) else Applied(tables[op.table := rows - {op.key}])
      case TxCheck(check) => if check(row) then Applied(tables) else OpFailed(CheckFailed)
      case TxUpdate(decide) =>
        match decide(row)
        case Fail => OpFailed(CheckFailed)
        case Abort(m) => OpFailed(OtherError(m))
        case Apply(item) => Applied(tables[op.table := Store(op.shape, rows, op.key, item)])
  }

  /** Postgres may refuse operation `i` with an error of its own, `faults[i]`. */
  function Attempt(tables: Tables, op: TxOp, fault: Option<BackendError>): OpResult {
    if fault.Some? then OpFailed(fault.value) else RunOp(tables, op)
  }

  /** The operations in request order, as far as they succeed. */
  function RunAll(tables: Tables, ops: seq<TxOp>, faults: seq<Option<BackendError>>): OpResult
    requires |ops| == |faults|
  {
    if ops == [] then Applied(tables)
    else match RunAll(tables, ops[..|ops| - 1], faults[..|ops| - 1])
      case OpFailed(e) => OpFailed(e)
      case Applied(mid) => Attempt(mid, ops[|ops| - 1], faults[|ops| - 1])
  }

  datatype Code = CodeNone | CodeConditionalCheckFailed | CodeTransactionConflict | CodeInternalServerError | CodeResourceNotFound

  function CancelCode(e: BackendError): Code {
    match e
    case CheckFailed => CodeConditionalCheckFailed
    case PgError(s) => if s == "40001" || s == "40P01" then CodeTransactionConflict else CodeInternalServerError
    case TableNotFound(_) => CodeResourceNotFound
    case OtherError(_) => CodeInternalServerError
  }

  datatype TxResult = Committed | Cancelled(reasons: seq<Code>) | CommitFailed(error: BackendError)

  /** Operation `i` is the first to fail when each runs after its predecessors. */
  predicate FailsFirst(tables: Tables, ops: seq<TxOp>, faults: seq<Option<BackendError>>, i: nat, e: BackendError)
    requires |ops| == |faults|
  {
    && i < |ops|
    && RunAll(tables, ops[..i], faults[..i]).Applied?
    && RunAll(tables, ops[..i + 1], faults[..i + 1]) == OpFailed(e)
  }

  lemma {:induction false} FailureIsFinal(tables: Tables, ops: seq<TxOp>, faults: seq<Option<BackendError>>, i: nat)
    requires |ops| == |faults| && i <= |ops|
    requires RunAll(tables, ops[..i], faults[..i]).OpFailed?
    ensures RunAll(tables, ops, faults) == RunAll(tables, ops[..i], faults[..i])
  {
    if i < |ops| {
      var n := |ops| - 1;
      assert ops[..n][..i] == ops[..i] && faults[..n][..i] == faults[..i];
      FailureIsFinal(tables, ops[..n], faults[..n], i);
    } else {
      assert ops[..i] == ops && faults[..i] == faults;
    }
  }

  /** The first failing operation is unique, so a cancellation can blame one slot only. */
  lemma FirstFailureIsUnique(tables: Tables, ops: seq<TxOp>, faults: seq<Option<BackendError>>,
                             i: nat, e: BackendError, j: nat, e': BackendError)
    requires |ops| == |faults|
    requires FailsFirst(tables, ops, faults, i, e) && FailsFirst(tables, ops, faults, j, e')
    ensures i == j && e == e'
  {
    if i < j {
      assert ops[..j][..i + 1] == ops[..i + 1] && faults[..j][..i + 1] == faults[..i + 1];
      FailureIsFinal(tables, ops[..j], faults[..j], i + 1);
    } else if j < i {
      assert ops[..i][..j + 1] == ops[..j + 1] && faults[..i][..j + 1] == faults[..j + 1];
      FailureIsFinal(tables, ops[..i], faults[..i], j + 1);
    }
  }

  class TxWriter {
    var tables: Tables

    constructor (tables: Tables)
      ensures this.tables == tables
    {
      this.tables := tables;
    }

    /** All or nothing: success is the operations in request order; cancellation leaves the table
        alone and blames exactly the first operation that fails after its predecessors. */
    method TransactWriteRaw(ops: seq<TxOp>, faults: seq<Option<BackendError>>, commitFault: Option<BackendError>)
      returns (r: TxResult, ghost at: nat, ghost error: BackendError)
      requires |ops| == |faults|
      modifies this
      ensures r.Committed? ==> RunAll(old(tables), ops, faults) == Applied(tables)
      ensures !r.Committed? ==> tables == old(tables)
      ensures r.Cancelled? ==>
        && FailsFirst(old(tables), ops, faults, at, error)
        && |r.reasons| == |ops|
        && r.reasons[at] == CancelCode(error) != CodeNone
        && forall j :: 0 <= j < |ops| && j != at ==> r.reasons[j] == CodeNone
      ensures RunAll(old(tables), ops, faults).OpFailed? <==> r.Cancelled?
      ensures r.CommitFailed? <==> RunAll(old(tables), ops, faults).Applied? && commitFault.Some?
    {
      at, error := 0, CheckFailed;
      var before := tables;
      for i := 0 to |ops|
        invariant before == old(tables)
        invariant RunAll(before, ops[..i], faults[..i]) == Applied(tables)
      {
        assert ops[..i + 1][..i] == ops[..i] && faults[..i + 1][..i] == faults[..i];
        var step := Attempt(tables, ops[i], faults[i]);
        if step.OpFailed? {
          at, error := i, step.error;
          FailureIsFinal(before, ops, faults, i + 1);
          tables := before;
          return Cancelled(seq(|ops|, _ => CodeNone)[i := CancelCode(step.error)]), at, error;
        }
        tables := step.tables;
      }
      assert ops[..|ops|] == ops && faults[..|ops|] == faults;
      if commitFault.Some? {
        tables := before;
        return CommitFailed(commitFault.value), at, error;
      }
      return Committed, at, error;
    }
  }
}
