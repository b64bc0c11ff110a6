/** UpdateItem: the general read-modify-write and the three single-statement fast paths that must
    be indistinguishable from it. */
module Updates {
  import opened Values
  import opened Storage
  import opened Expressions
  import opened ConditionSql

  // ----- update expressions -----------------------------------------------------------

  datatype SetRhs =
    | OperandRhs(operand: Operand)
    | Plus(l: Operand, r: Operand)
    | Minus(l: Operand, r: Operand)
    | IfNotExists(path: Path, otherwise: SetRhs)
    | ListAppend(x: SetRhs, y: SetRhs)

  datatype SetClause = SetClause(path: Path, value: SetRhs)

  datatype Action = Action(path: Path, value: AttributeValue)

  datatype UpdateExpression =
    UpdateExpression(setClauses: seq<SetClause>, remove: seq<Path>, add: seq<Action>, delete: seq<Action>)

  predicate IsSimpleSet(c: SetClause) {
    IsTopLevel(c.path) && c.value.OperandRhs? && c.value.operand.ValueOperand?
  }

  /** Only top-level `SET attr = literal` and `REMOVE attr`. */
  predicate IsSimple(e: UpdateExpression) {
    && e.add == [] && e.delete == []
    && (forall i :: 0 <= i < |e.setClauses| ==> IsSimpleSet(e.setClauses[i]))
    && (forall i :: 0 <= i < |e.remove| ==> IsTopLevel(e.remove[i]))
  }

  type Assignments = seq<(string, AttributeValue)>

  /** The (name, literal) pairs of a simple expression's SET clauses. */
  function SetsOf(clauses: seq<SetClause>): Assignments
    requires forall i :: 0 <= i < |clauses| ==> IsSimpleSet(clauses[i])
  {
    seq(|clauses|, i requires 0 <= i < |clauses| && IsSimpleSet(clauses[i]) =>
      (clauses[i].path.segments[0].name, clauses[i].value.operand.value))
  }

  function RemovesOf(paths: seq<Path>): seq<string>
    requires forall i :: 0 <= i < |paths| ==> IsTopLevel(paths[i])
  {
    seq(|paths|, i requires 0 <= i < |paths| && IsTopLevel(paths[i]) => paths[i].segments[0].name)
  }

  /** SET clauses in order. */
  function ApplySets(item: Item, sets: Assignments): Item {
    if sets == [] then item
    else var (n, v) := sets[|sets| - 1]; ApplySets(item, sets[..|sets| - 1])[n := v]
  }

  function ApplyRemoves(item: Item, removes: seq<string>): Item {
    if removes == [] then item
    else ApplyRemoves(item, removes[..|removes| - 1]) - {removes[|removes| - 1]}
  }

  function SetNames(sets: Assignments): set<string> { set i | 0 <= i < |sets| :: sets[i].0 }

  predicate Disjoint(sets: Assignments, removes: seq<string>) {
    forall n :: n in removes ==> n !in SetNames(sets)
  }

  /** The translator rejects any clause that touches a key attribute. */
  predicate AvoidsKey(shape: Shape, sets: Assignments, removes: seq<string>) {
    && (forall n :: n in SetNames(sets) ==> !IsKeyAttr(shape, n))
    && (forall n :: n in removes ==> !IsKeyAttr(shape, n))
  }

  // ----- the general path, as one atomic operation ---------------------------------------

  datatype Error = ConditionalCheckFailed | Other(message: string)

  datatype Outcome = Outcome(newItem: Item, oldItem: Option<Item>)

  datatype UpdateResult = Ok(outcome: Outcome) | Failed(error: Error)

  datatype Decision = Apply(item: Item) | Fail | Abort(message: string)

  function DataAt(rows: Table, k: Key): Option<Item> {
    if k in rows then Some(rows[k].data) else None
  }

  function ColsAt(rows: Table, k: Key): map<string, ColVal> {
    if k in rows then rows[k].cols else map[]
  }

  /** The row at `k` replaced, or inserted, with its DualWrite columns recomputed. */
  function Store(shape: Shape, rows: Table, k: Key, item: Item): Table {
    rows[k := Rewritten(ColsAt(rows, k), item, shape.dualWrite)]
  }

  /** Read the row, decide, write the decision back: the effect of one read-modify-write. */
  function RmwAt(shape: Shape, rows: Table, k: Key, decide: Option<Item> -> Decision): (Table, UpdateResult) {
    match decide(DataAt(rows, k))
    case Fail => (rows, Failed(ConditionalCheckFailed))
    case Abort(m) => (rows, Failed(Other(m)))
    case Apply(item) => (Store(shape, rows, k, item), Ok(Outcome(item, DataAt(rows, k))))
  }

  /** `apply_update_expression` on a simple expression: SETs then REMOVEs, on the row or the key. */
  function ApplyExpression(row: Option<Item>, key: Item, sets: Assignments, removes: seq<string>): Item {
    ApplyRemoves(ApplySets(if row.Some? then row.value else key, sets), removes)
  }

  /** The closure the slow path hands to storage. */
  function Decide(f: Float64, cond: Option<Condition>, key: Item, sets: Assignments, removes: seq<string>)
    : Option<Item> -> Decision
  {
    (row: Option<Item>) =>
      if cond.Some? && !EvaluateCondition(f, row, cond.value) then Fail
      else Apply(ApplyExpression(row, key, sets, removes))
  }

  function SlowUpdate(f: Float64, shape: Shape, rows: Table, k: Key, cond: Option<Condition>,
                      key: Item, sets: Assignments, removes: seq<string>): (Table, UpdateResult)
  {
    RmwAt(shape, rows, k, Decide(f, cond, key, sets, removes))
  }

  // ----- the fast paths' statements ---------------------------------------------------------

  /** `{key attrs} ∪ {SET literals}`: the row the INSERT branches write. */
  function InsertItem(key: Item, sets: Assignments): Item { ApplySets(key, sets) }

  /** `INSERT … ON CONFLICT DO UPDATE SET data = <chain over the stored payload>`. */
  function FastUpsert(shape: Shape, rows: Table, insertItem: Item, sets: Assignments, removes: seq<string>)
    : (Table, UpdateResult)
  {
    var k := KeyOf(shape, insertItem);
    if k.None? then (rows, Failed(Other("null key column")))
    else
      var newItem := if k.value in rows then ApplyRemoves(ApplySets(rows[k.value].data, sets), removes) else insertItem;
      (Store(shape, rows, k.value, newItem), Ok(Outcome(newItem, DataAt(rows, k.value))))
  }

  /** `INSERT … ON CONFLICT DO NOTHING`. */
  function FastInsertOnly(shape: Shape, rows: Table, insertItem: Item): (Table, UpdateResult) {
    var k := KeyOf(shape, insertItem);
    if k.None? then (rows, Failed(Other("null key column")))
    else if k.value in rows then (rows, Failed(ConditionalCheckFailed))
    else (Store(shape, rows, k.value, insertItem), Ok(Outcome(insertItem, None)))
  }

  /** `UPDATE … SET data = <chain> WHERE key AND <condition>`; `accepts` is the WHERE's verdict. */
  function FastConditional(shape: Shape, rows: Table, k: Key, sets: Assignments, removes: seq<string>,
                           accepts: Item -> Truth): (Table, UpdateResult)
  {
    if k !in rows then (rows, Failed(ConditionalCheckFailed))
    else match accepts(rows[k].data)
      case Raised => (rows, Failed(Other("statement raised")))
      case True =>
        var newItem := ApplyRemoves(ApplySets(rows[k].data, sets), removes);
        (Store(shape, rows, k, newItem), Ok(Outcome(newItem, Some(rows[k].data))))
      case _ => (rows, Failed(ConditionalCheckFailed))
  }

  // ----- one statement under READ COMMITTED -----------------------------------------------------

  /** The same answer with another old item. */
  function WithOld(r: UpdateResult, oldItem: Option<Item>): UpdateResult {
    match r
    case Ok(o) => Ok(Outcome(o.newItem, oldItem))
    case Failed(_) => r
  }

  /** An update decided on a table the others have since moved on from: one that fails leaves theirs. */
  function Landed(done: (Table, UpdateResult), others: Table): (Table, UpdateResult) {
    if done.1.Ok? then done else (others, done.1)
  }

  /** The upsert acts on the latest committed row, `at`; its `prev` CTE reads the old item from the
      statement's snapshot, `seen`. */
  function UpsertAt(shape: Shape, seen: Table, at: Table, k: Key, insertItem: Item, sets: Assignments, removes: seq<string>)
    : (Table, UpdateResult)
  {
    var (rows, r) := FastUpsert(shape, at, insertItem, sets, removes);
    (rows, WithOld(r, DataAt(seen, k)))
  }

  /** The table a conditional UPDATE decides on: its snapshot when the row does not qualify there,
      else the latest table, where the WHERE is evaluated again; a row deleted in between is not
      found, even if it was inserted anew. */
  function DecidesOn(seen: Table, at: Table, deleted: bool, k: Key, accepts: Item -> Truth): Table {
    if k !in seen || accepts(seen[k].data) != True then seen
    else if deleted then at - {k} else at
  }

  function ConditionalAt(shape: Shape, seen: Table, at: Table, deleted: bool, k: Key, sets: Assignments, removes: seq<string>,
                         accepts: Item -> Truth): (Table, UpdateResult)
  {
    var done := FastConditional(shape, DecidesOn(seen, at, deleted, k, accepts), k, sets, removes, accepts);
    var (rows, r) := Landed(done, at);
    (rows, WithOld(r, DataAt(seen, k)))
  }

  // ----- facts about SET and REMOVE ---------------------------------------------------------

  lemma {:induction false} ApplySetsOther(item: Item, sets: Assignments, n: string)
    requires n !in SetNames(sets)
    ensures n in ApplySets(item, sets) <==> n in item
    ensures n in item ==> ApplySets(item, sets)[n] == item[n]
  {
    if sets != [] {
      var front := sets[..|sets| - 1];
      forall i | 0 <= i < |front| ensures front[i].0 in SetNames(sets) { assert front[i] == sets[i]; }
      assert SetNames(front) <= SetNames(sets);
      assert sets[|sets| - 1].0 in SetNames(sets);
      ApplySetsOther(item, front, n);
    }
  }

  lemma {:induction false} ApplySetsHas(item: Item, sets: Assignments, n: string)
    requires n in SetNames(sets)
    ensures n in ApplySets(item, sets)
  {
    var front := sets[..|sets| - 1];
    if sets[|sets| - 1].0 != n {
      var i :| 0 <= i < |sets| && sets[i].0 == n;
      assert front[i].0 == n;
      ApplySetsHas(item, front, n);
    }
  }

  lemma {:induction false} ApplyRemovesExactly(item: Item, removes: seq<string>)
    ensures ApplyRemoves(item, removes) == item - (set n | n in removes)
  {
    if removes != [] {
      ApplyRemovesExactly(item, removes[..|removes| - 1]);
      assert removes == removes[..|removes| - 1] + [removes[|removes| - 1]];
    }
  }

  /** An update that avoids the key attributes keeps the row at its key. */
  lemma UpdateKeepsKey(shape: Shape, item: Item, sets: Assignments, removes: seq<string>)
    requires AvoidsKey(shape, sets, removes)
    ensures KeyOf(shape, ApplySets(item, sets)) == KeyOf(shape, item)
    ensures KeyOf(shape, ApplyRemoves(ApplySets(item, sets), removes)) == KeyOf(shape, item)
  {
    ApplySetsOther(item, sets, shape.pk.name);
    if shape.sk.Some? { ApplySetsOther(item, sets, shape.sk.value.name); }
    ApplyRemovesExactly(ApplySets(item, sets), removes);
  }

  /** On a missing row REMOVE is a no-op exactly when it names nothing the INSERT wrote. */
  lemma RemoveNoopExactly(key: Item, sets: Assignments, removes: seq<string>)
    requires forall n :: n in removes ==> n !in key
    ensures ApplyRemoves(InsertItem(key, sets), removes) == InsertItem(key, sets) <==> Disjoint(sets, removes)
  {
    var item := InsertItem(key, sets);
    ApplyRemovesExactly(item, removes);
    if Disjoint(sets, removes) {
      forall n | n in removes ensures n !in item { ApplySetsOther(key, sets, n); }
      assert item - (set n | n in removes) == item;
    } else {
      var n :| n in removes && n in SetNames(sets);
      ApplySetsHas(key, sets, n);
    }
  }

  /** A key payload holds its key attributes and nothing else. */
  predicate IsKeyItem(shape: Shape, key: Item) { forall n :: n in key ==> IsKeyAttr(shape, n) }

  // ----- each fast path against the slow path ----------------------------------------------

  /** The unconditional upsert equals the read-modify-write exactly when the row exists or no name
      is both SET and REMOVEd, and no other transaction changed the row since the snapshot the old
      item is read from. */
  lemma UpsertRefinesExactly(f: Float64, shape: Shape, seen: Table, rows: Table, k: Key, key: Item, sets: Assignments,
                             removes: seq<string>)
    requires KeyOf(shape, key) == Some(k) && IsKeyItem(shape, key) && AvoidsKey(shape, sets, removes)
    ensures UpsertAt(shape, seen, rows, k, InsertItem(key, sets), sets, removes)
              == SlowUpdate(f, shape, rows, k, None, key, sets, removes)
       <==> (k in rows || Disjoint(sets, removes)) && DataAt(seen, k) == DataAt(rows, k)
  {
    UpdateKeepsKey(shape, key, sets, removes);
    RemoveNoopExactly(key, sets, removes);
  }

  /** `attribute_not_exists(pk)`: insert-only equals the read-modify-write exactly when the row
      exists or no name is both SET and REMOVEd. */
  lemma InsertOnlyRefinesExactly(f: Float64, shape: Shape, rows: Table, k: Key, cond: Condition, key: Item,
                                 sets: Assignments, removes: seq<string>)
    requires Classify(cond, shape.pk.name) == InsertOnlyOnPk && WellKeyed(shape, rows)
    requires KeyOf(shape, key) == Some(k) && IsKeyItem(shape, key) && AvoidsKey(shape, sets, removes)
    ensures FastInsertOnly(shape, rows, InsertItem(key, sets))
              == SlowUpdate(f, shape, rows, k, Some(cond), key, sets, removes)
       <==> (k in rows || Disjoint(sets, removes))
  {
    UpdateKeepsKey(shape, key, sets, removes);
    RemoveNoopExactly(key, sets, removes);
    if k in rows { assert shape.pk.name in rows[k].data; }
  }

  /** A SimpleSql condition: on an existing row, where the operands rank alike and negated comparisons
      read attributes that are there, the one-statement update equals the read-modify-write exactly
      when it fails or its old item is current; on a missing row exactly when the condition fails on
      no row. */
  lemma ConditionalRefines(f: Float64, pg: Pg, shape: Shape, seen: Table, at: Table, deleted: bool, k: Key, cond: Condition,
                           key: Item, sets: Assignments, removes: seq<string>)
    requires Classify(cond, shape.pk.name) == SimpleSql && NameHeaded(cond)
    ensures var accepts := (d: Item) => Meaning(pg, d, cond);
      var v := DecidesOn(seen, at, deleted, k, accepts);
      var equal := ConditionalAt(shape, seen, at, deleted, k, sets, removes, accepts)
                == Landed(SlowUpdate(f, shape, v, k, Some(cond), key, sets, removes), at);
      && (k in v && RanksAgree(f, pg, v[k].data, cond) && Certain(v[k].data, cond, true)
          ==> (equal <==> !EvaluateCondition(f, DataAt(v, k), cond) || DataAt(seen, k) == DataAt(v, k)))
      && (k !in v ==> (equal <==> !EvaluateCondition(f, None, cond)))
  {
    var v := DecidesOn(seen, at, deleted, k, d => Meaning(pg, d, cond));
    if k in v && RanksAgree(f, pg, v[k].data, cond) {
      WhereRefinesEvaluator(f, pg, v[k].data, cond);
    }
  }

  // ----- inputs on which they part ------------------------------------------------------------

  const USERS := Shape(KeyAttr("id", KeyS), None, [])
  const USER_KEY: Item := map["id" := S("1")]
  const USER_AT := Key(Text("1"), None)
  const SET_X: Assignments := [("x", S("y"))]
  const WITH_X: Item := map["id" := S("1"), "x" := S("y")]

  lemma SettingX()
    ensures KeyOf(USERS, USER_KEY) == KeyOf(USERS, WITH_X) == Some(USER_AT)
    ensures ApplySets(USER_KEY, SET_X) == WITH_X && ApplyRemoves(WITH_X, ["x"]) == USER_KEY && ApplyRemoves(WITH_X, []) == WITH_X
  {
    assert SET_X[..0] == [] && ["x"][..0] == [];
  }

  /** `SET x = :y REMOVE x` on a missing row: the upsert answers with x and stores it, the
      read-modify-write does neither. */
  lemma UpsertKeepsRemoved(f: Float64)
    ensures UpsertAt(USERS, map[], map[], USER_AT, InsertItem(USER_KEY, SET_X), SET_X, ["x"])
         == (Store(USERS, map[], USER_AT, WITH_X), Ok(Outcome(WITH_X, None)))
    ensures SlowUpdate(f, USERS, map[], USER_AT, None, USER_KEY, SET_X, ["x"])
         == (Store(USERS, map[], USER_AT, USER_KEY), Ok(Outcome(USER_KEY, None)))
  {
    SettingX();
  }

  /** The same under `attribute_not_exists(id)`. */
  lemma InsertOnlyKeepsRemoved(f: Float64)
    ensures Classify(AttributeNotExists(NamedPath("id")), "id") == InsertOnlyOnPk
    ensures FastInsertOnly(USERS, map[], InsertItem(USER_KEY, SET_X))
         == (Store(USERS, map[], USER_AT, WITH_X), Ok(Outcome(WITH_X, None)))
    ensures SlowUpdate(f, USERS, map[], USER_AT, Some(AttributeNotExists(NamedPath("id"))), USER_KEY, SET_X, ["x"])
         == (Store(USERS, map[], USER_AT, USER_KEY), Ok(Outcome(USER_KEY, None)))
  {
    SettingX();
  }

  /** `SET x = :y` while another transaction inserts the row: the upsert updates that row and says there
      was none. */
  lemma UpsertMissesOldItem(f: Float64)
    ensures var inserted := map[USER_AT := Row(USER_KEY, map[])];
      && UpsertAt(USERS, map[], inserted, USER_AT, InsertItem(USER_KEY, SET_X), SET_X, []).1 == Ok(Outcome(WITH_X, None))
      && SlowUpdate(f, USERS, inserted, USER_AT, None, USER_KEY, SET_X, []).1 == Ok(Outcome(WITH_X, Some(USER_KEY)))
  {
    SettingX();
  }

  /** `SET x = :y` under `attribute_not_exists(x)` on a missing row: the UPDATE finds nothing and fails,
      the read-modify-write inserts. */
  lemma ConditionalMissesInsert(f: Float64, pg: Pg)
    ensures var cond := AttributeNotExists(NamedPath("x"));
      && Classify(cond, "id") == SimpleSql && NameHeaded(cond)
      && ConditionalAt(USERS, map[], map[], false, USER_AT, SET_X, [], d => Meaning(pg, d, cond))
         == (map[], Failed(ConditionalCheckFailed))
      && SlowUpdate(f, USERS, map[], USER_AT, Some(cond), USER_KEY, SET_X, [])
         == (Store(USERS, map[], USER_AT, WITH_X), Ok(Outcome(WITH_X, None)))
  {
    SettingX();
  }

  /** `SET x = :y` under `attribute_exists(id)` while another transaction sets x: both accept, and the
      conditional statement returns the item from before that. */
  lemma ConditionalReportsSnapshot(f: Float64, pg: Pg)
    ensures var cond := AttributeExists(NamedPath("id"));
      var seen, latest := map[USER_AT := Row(USER_KEY, map[])], map[USER_AT := Row(WITH_X, map[])];
      && Classify(cond, "id") == SimpleSql && NameHeaded(cond)
      && ConditionalAt(USERS, seen, latest, false, USER_AT, SET_X, [], d => Meaning(pg, d, cond)).1
         == Ok(Outcome(WITH_X, Some(USER_KEY)))
      && SlowUpdate(f, USERS, latest, USER_AT, Some(cond), USER_KEY, SET_X, []).1 == Ok(Outcome(WITH_X, Some(WITH_X)))
  {
    SettingX();
    assert SET_X[..0] == [] && ApplySets(WITH_X, SET_X) == WITH_X;
  }

  ghost predicate GoodTable(shape: Shape, rows: Table) {
    WellKeyed(shape, rows) && AllConsistent(rows, shape.dualWrite)
  }

  lemma StoreKeepsTable(shape: Shape, rows: Table, k: Key, item: Item)
    requires DistinctCols(shape.dualWrite) && KeyOf(shape, item) == Some(k) && GoodTable(shape, rows)
    ensures GoodTable(shape, Store(shape, rows, k, item))
  {
    RewrittenConsistent(ColsAt(rows, k), item, shape.dualWrite);
  }

  lemma InsertKeepsTable(shape: Shape, rows: Table, k: Key, key: Item, sets: Assignments, removes: seq<string>)
    requires DistinctCols(shape.dualWrite) && GoodTable(shape, rows)
    requires KeyOf(shape, key) == Some(k) && AvoidsKey(shape, sets, removes)
    ensures KeyOf(shape, InsertItem(key, sets)) == Some(k)
    ensures GoodTable(shape, Store(shape, rows, k, InsertItem(key, sets)))
    ensures GoodTable(shape, Store(shape, rows, k, ApplyExpression(None, key, sets, removes)))
  {
    UpdateKeepsKey(shape, key, sets, removes);
    StoreKeepsTable(shape, rows, k, InsertItem(key, sets));
    StoreKeepsTable(shape, rows, k, ApplyExpression(None, key, sets, removes));
  }

  lemma RewriteKeepsTable(shape: Shape, rows: Table, k: Key, key: Item, sets: Assignments, removes: seq<string>)
    requires DistinctCols(shape.dualWrite) && GoodTable(shape, rows) && k in rows && AvoidsKey(shape, sets, removes)
    ensures GoodTable(shape, Store(shape, rows, k, ApplyRemoves(ApplySets(rows[k].data, sets), removes)))
    ensures GoodTable(shape, Store(shape, rows, k, ApplyExpression(Some(rows[k].data), key, sets, removes)))
  {
    UpdateKeepsKey(shape, rows[k].data, sets, removes);
    StoreKeepsTable(shape, rows, k, ApplyRemoves(ApplySets(rows[k].data, sets), removes));
    StoreKeepsTable(shape, rows, k, ApplyExpression(Some(rows[k].data), key, sets, removes));
  }

  lemma InsertPathsKeepTable(shape: Shape, rows: Table, k: Key, key: Item, sets: Assignments, removes: seq<string>)
    requires DistinctCols(shape.dualWrite) && GoodTable(shape, rows)
    requires KeyOf(shape, key) == Some(k) && AvoidsKey(shape, sets, removes)
    ensures GoodTable(shape, FastUpsert(shape, rows, InsertItem(key, sets), sets, removes).0)
    ensures GoodTable(shape, FastInsertOnly(shape, rows, InsertItem(key, sets)).0)
  {
    InsertKeepsTable(shape, rows, k, key, sets, removes);
    if k in rows { RewriteKeepsTable(shape, rows, k, key, sets, removes); }
  }

  /** Every fast path leaves the table well keyed and its DualWrite columns equal to what the payloads
      extract to. */
  lemma FastPathsKeepTable(shape: Shape, rows: Table, k: Key, key: Item, sets: Assignments, removes: seq<string>,
                           accepts: Item -> Truth)
    requires DistinctCols(shape.dualWrite) && GoodTable(shape, rows)
    requires KeyOf(shape, key) == Some(k) && AvoidsKey(shape, sets, removes)
    ensures GoodTable(shape, FastUpsert(shape, rows, InsertItem(key, sets), sets, removes).0)
    ensures GoodTable(shape, FastInsertOnly(shape, rows, InsertItem(key, sets)).0)
    ensures GoodTable(shape, FastConditional(shape, rows, k, sets, removes, accepts).0)
  {
    InsertPathsKeepTable(shape, rows, k, key, sets, removes);
    if k in rows { RewriteKeepsTable(shape, rows, k, key, sets, removes); }
  }

  /** And so does the read-modify-write, whatever its condition. */
  lemma SlowPathKeepsTable(f: Float64, shape: Shape, rows: Table, k: Key, cond: Option<Condition>, key: Item,
                           sets: Assignments, removes: seq<string>)
    requires DistinctCols(shape.dualWrite) && GoodTable(shape, rows)
    requires KeyOf(shape, key) == Some(k) && AvoidsKey(shape, sets, removes)
    ensures GoodTable(shape, SlowUpdate(f, shape, rows, k, cond, key, sets, removes).0)
  {
    InsertKeepsTable(shape, rows, k, key, sets, removes);
    if k in rows { RewriteKeepsTable(shape, rows, k, key, sets, removes); }
  }
}
