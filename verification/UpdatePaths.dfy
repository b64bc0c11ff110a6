/** The UpdateItem storage methods as written: SQL assembled around positional parameters, and the
    SELECT FOR UPDATE retry loop running against other transactions. */
module UpdatePaths {
  import opened Values
  import opened Storage
  import opened Expressions
  import opened ConditionSql
  import opened Updates

  // ----- the jsonb_set / minus chain and its parameters --------------------------------

  datatype JsonbExpr =
    | DataRef
    | JsonbSet(target: JsonbExpr, name: nat, value: nat)
    | JsonbMinus(target: JsonbExpr, name: nat)

  /** None: a placeholder bound to nothing of the right type. */
  function EvalJsonb(b: Binds, data: Item, e: JsonbExpr): Option<Item> {
    match e
    case DataRef => Some(data)
    case JsonbSet(t, n, v) =>
      (match (EvalJsonb(b, data, t), TextAt(b, n), JsonAt(b, v))
       case (Some(item), Some(name), Some(value)) => Some(item[name := value])
       case (_, _, _) => None)
    case JsonbMinus(t, n) =>
      (match (EvalJsonb(b, data, t), TextAt(b, n))
       case (Some(item), Some(name)) => Some(item - {name})
       case (_, _) => None)
  }

  /** `nSets` jsonb_set wraps then `nRemoves` minuses, over placeholders numbered from `first`. */
  function Chain(first: nat, nSets: nat, nRemoves: nat): JsonbExpr
    decreases nRemoves, nSets
  {
    if nRemoves > 0 then JsonbMinus(Chain(first, nSets, nRemoves - 1), first + 2 * nSets + nRemoves - 1)
    else if nSets > 0 then JsonbSet(Chain(first, nSets - 1, 0), first + 2 * nSets - 2, first + 2 * nSets - 1)
    else DataRef
  }

  function BindSets(b: Binds, sets: Assignments): Binds {
    if sets == [] then b
    else
      var (n, v) := sets[|sets| - 1];
      Bind(Bind(BindSets(b, sets[..|sets| - 1]), TextParam(n), TEXT), JsonbParam(v), JSONB)
  }

  function BindNames(b: Binds, names: seq<string>): Binds {
    if names == [] then b
    else Bind(BindNames(b, names[..|names| - 1]), TextParam(names[|names| - 1]), TEXT)
  }

  function BindChain(b: Binds, sets: Assignments, removes: seq<string>): Binds {
    BindNames(BindSets(b, sets), removes)
  }

  lemma {:induction false} BindSetsAppends(b: Binds, sets: Assignments)
    requires Aligned(b)
    ensures Aligned(BindSets(b, sets)) && Extends(b, BindSets(b, sets))
    ensures |BindSets(b, sets).params| == |b.params| + 2 * |sets|
  {
    if sets != [] { BindSetsAppends(b, sets[..|sets| - 1]); }
  }

  lemma {:induction false} BindNamesAppends(b: Binds, names: seq<string>)
    requires Aligned(b)
    ensures Aligned(BindNames(b, names)) && Extends(b, BindNames(b, names))
    ensures |BindNames(b, names).params| == |b.params| + |names|
  {
    if names != [] { BindNamesAppends(b, names[..|names| - 1]); }
  }

  /** A later binding never disturbs an earlier placeholder. */
  lemma PlaceholderStable(b: Binds, p: Param, t: PgType, later: Binds)
    requires Aligned(b) && Fits(p, t) && Extends(Bind(b, p, t), later)
    ensures Extends(b, later)
    ensures p.TextParam? ==> TextAt(later, |b.params| + 1) == Some(p.text)
    ensures p.JsonbParam? ==> JsonAt(later, |b.params| + 1) == Some(p.json)
  {
    var b' := Bind(b, p, t);
    assert later.params[|b.params|] == b'.params[|b.params|];
    assert later.types[|b.params|] == b'.types[|b.params|];
    assert b.params == b'.params[..|b.params|] && b.types == b'.types[..|b.types|];
  }

  lemma {:induction false} SetChainEvaluates(b: Binds, sets: Assignments, later: Binds, data: Item)
    requires Aligned(b) && Extends(BindSets(b, sets), later)
    ensures EvalJsonb(later, data, Chain(|b.params| + 1, |sets|, 0)) == Some(ApplySets(data, sets))
  {
    if sets != [] {
      var front := sets[..|sets| - 1];
      var (n, v) := sets[|sets| - 1];
      BindSetsAppends(b, front);
      var b1 := BindSets(b, front);
      var b2 := Bind(b1, TextParam(n), TEXT);
      PlaceholderStable(b2, JsonbParam(v), JSONB, later);
      PlaceholderStable(b1, TextParam(n), TEXT, later);
      SetChainEvaluates(b, front, later, data);
    }
  }

  /** For any number of SETs and REMOVEs, and whatever is bound later, the chain evaluates to the old
      payload plus the SETs in order minus the REMOVEs. */
  lemma {:induction false} ChainEvaluates(b: Binds, sets: Assignments, removes: seq<string>, later: Binds, data: Item)
    requires Aligned(b) && Extends(BindChain(b, sets, removes), later)
    ensures EvalJsonb(later, data, Chain(|b.params| + 1, |sets|, |removes|))
         == Some(ApplyRemoves(ApplySets(data, sets), removes))
  {
    BindSetsAppends(b, sets);
    if removes == [] {
      SetChainEvaluates(b, sets, later, data);
    } else {
      var front := removes[..|removes| - 1];
      BindNamesAppends(BindSets(b, sets), front);
      PlaceholderStable(BindChain(b, sets, front), TextParam(removes[|removes| - 1]), TEXT, later);
      ChainEvaluates(b, sets, front, later, data);
    }
  }

  /** Key parameters in front of the statement: pk, then sk on a composite table. */
  function KeyBinds(shape: Shape, key: Item): Binds
    requires KeyOf(shape, key).Some?
  {
    var b := BindKeyValue(Binds([], []), key[shape.pk.name]);
    if shape.sk.None? then b else BindKeyValue(b, key[shape.sk.value.name])
  }

  lemma KeyBindsAligned(shape: Shape, key: Item)
    requires KeyOf(shape, key).Some?
    ensures Aligned(KeyBinds(shape, key))
    ensures |KeyBinds(shape, key).params| == if shape.sk.None? then 1 else 2
  {
  }

  lemma ConditionalBindsFit(b: Binds, sets: Assignments, removes: seq<string>, cond: Condition)
    requires Aligned(b) && FitsSql(cond) && NameHeaded(cond)
    ensures Aligned(BindChain(b, sets, removes)) && Compile(BindChain(b, sets, removes), cond).Some?
    ensures Aligned(Compile(BindChain(b, sets, removes), cond).value.1)
    ensures Extends(BindChain(b, sets, removes), Compile(BindChain(b, sets, removes), cond).value.1)
  {
    BindSetsAppends(b, sets);
    BindNamesAppends(BindSets(b, sets), removes);
    CompilesExactlyWhenClassified(BindChain(b, sets, removes), cond);
    CompilingAppendsAligned(BindChain(b, sets, removes), cond);
  }

  /** One statement's SET/REMOVE chain and WHERE, over the parameters bound for both. */
  lemma ConditionalFragments(pg: Pg, b: Binds, sets: Assignments, removes: seq<string>, cond: Condition, data: Item)
    requires Aligned(b) && FitsSql(cond) && NameHeaded(cond)
    requires Compile(BindChain(b, sets, removes), cond).Some?
    ensures var (whereSql, all) := Compile(BindChain(b, sets, removes), cond).value;
      && EvalJsonb(all, data, Chain(|b.params| + 1, |sets|, |removes|)) == Some(ApplyRemoves(ApplySets(data, sets), removes))
      && EvalSql(pg, all, data, whereSql) == Meaning(pg, data, cond)
  {
    ConditionalBindsFit(b, sets, removes, cond);
    var all := Compile(BindChain(b, sets, removes), cond).value.1;
    ChainEvaluates(b, sets, removes, all, data);
    CompiledFragmentMeansCondition(pg, data, BindChain(b, sets, removes), cond, all);
  }

  // ----- the storage methods -------------------------------------------------------------

  const MAX_ITERS := 3

  /** What other transactions have left of the table when an iteration reads and when it writes. */
  datatype Turn = Turn(atRead: Table, atWrite: Table)

  /** The others never remove the row at `k`. */
  predicate NeverDeleted(turns: seq<Turn>, k: Key) {
    && (forall i :: 0 <= i < |turns| && k in turns[i].atRead ==> k in turns[i].atWrite)
    && (forall i :: 0 <= i < |turns| - 1 && k in turns[i].atWrite ==> k in turns[i + 1].atRead)
  }

  lemma InsertedRowIsRead(turns: seq<Turn>, k: Key, i: nat)
    requires i < |turns|
    ensures NeverDeleted(turns, k) && i > 0 && k in turns[i - 1].atWrite ==> k in turns[i].atRead
  {
    assert i > 0 ==> turns[(i - 1) + 1] == turns[i];
  }

  /** The table an iteration writes to: the others', with a row locked by the read as it was read. */
  function Locked(t: Turn, k: Key): Table {
    if k in t.atRead then t.atWrite[k := t.atRead[k]] else t.atWrite
  }

  /** A table the others produced during a turn. */
  predicate Produced(t: Turn, k: Key, at: Table) { at == t.atRead || at == Locked(t, k) }

  /** The others insert the row between every read that misses it and the write. */
  predicate LosesEveryRace(turns: seq<Turn>, k: Key) {
    forall i :: 0 <= i < |turns| ==> k !in turns[i].atRead && k in turns[i].atWrite
  }

  /** What the loop promises of its answer `r` and the table it leaves: one atomic read-modify-write on a
      table `at` the others produced in the last iteration, a success on the table it writes to, a
      failure leaving theirs; exhaustion means every insert race was lost; and if nobody deletes the
      row, two iterations are enough. */
  ghost predicate LoopAnswers(shape: Shape, k: Key, decide: Option<Item> -> Decision, turns: seq<Turn>, rows: Table, r: UpdateResult,
                              iters: nat, exhausted: bool, at: Table)
  {
    && 1 <= iters <= |turns| && Produced(turns[iters - 1], k, at)
    && (r.Ok? ==> at == Locked(turns[iters - 1], k))
    && (!exhausted ==> (rows, r) == Landed(RmwAt(shape, at, k, decide), Locked(turns[iters - 1], k)))
    && (exhausted ==> r.Failed? && rows == at && LosesEveryRace(turns, k))
    && (NeverDeleted(turns, k) ==> !exhausted && iters <= 2)
  }

  /** What a fast path promises: it does exactly its statement, and where its route is faithful that is
      what the read-modify-write would answer and leave. */
  ghost predicate FastAnswers(f: Float64, pg: Pg, shape: Shape, turn: Turn, deleted: bool, k: Key, key: Item, cond: Option<Condition>,
                              sets: Assignments, removes: seq<string>, rows: Table, r: UpdateResult, at: Table)
  {
    var slow := SlowUpdate(f, shape, at, k, cond, key, sets, removes);
    var faithful := RouteIsFaithful(f, pg, shape, turn.atRead, at, k, cond, sets, removes);
    && at == FastDecidesOn(pg, shape.pk.name, turn, deleted, k, cond)
    && (rows, r) == FastAt(pg, shape, turn, deleted, k, key, cond, sets, removes)
    && (faithful ==> (rows, r) == Landed(slow, turn.atWrite))
    && (cond.None? || Classify(cond.value, shape.pk.name) == InsertOnlyOnPk ==> (faithful <==> (rows, r) == slow))
  }

  /** Which requests run the read-modify-write loop. */
  predicate Loops(expr: UpdateExpression, cond: Option<Condition>, pk: string) {
    !IsSimple(expr) || (cond.Some? && Classify(cond.value, pk) == NeedsTx)
  }

  /** What the one statement of a fast path answers and leaves. */
  function FastAt(pg: Pg, shape: Shape, turn: Turn, deleted: bool, k: Key, key: Item, cond: Option<Condition>, sets: Assignments,
                  removes: seq<string>): (Table, UpdateResult)
  {
    if cond.None? then UpsertAt(shape, turn.atRead, turn.atWrite, k, InsertItem(key, sets), sets, removes)
    else if Classify(cond.value, shape.pk.name) == InsertOnlyOnPk then FastInsertOnly(shape, turn.atWrite, InsertItem(key, sets))
    else ConditionalAt(shape, turn.atRead, turn.atWrite, deleted, k, sets, removes, d => Meaning(pg, d, cond.value))
  }

  /** The table that statement decides on. */
  function FastDecidesOn(pg: Pg, pk: string, turn: Turn, deleted: bool, k: Key, cond: Option<Condition>): Table {
    if cond.Some? && Classify(cond.value, pk) == SimpleSql
    then DecidesOn(turn.atRead, turn.atWrite, deleted, k, d => Meaning(pg, d, cond.value))
    else turn.atWrite
  }

  /** A decision never moves a row to another key. */
  ghost predicate KeyStable(shape: Shape, k: Key, decide: Option<Item> -> Decision) {
    forall row: Option<Item> :: (row.Some? ==> KeyOf(shape, row.value) == Some(k)) && decide(row).Apply?
      ==> KeyOf(shape, decide(row).item) == Some(k)
  }

  /** What is decided on this table's row is still a row at `k`. */
  predicate KeepsKey(shape: Shape, k: Key, decide: Option<Item> -> Decision, rows: Table) {
    var decision := decide(DataAt(rows, k));
    decision.Apply? ==> KeyOf(shape, decision.item) == Some(k)
  }

  lemma StableKeepsKey(shape: Shape, k: Key, decide: Option<Item> -> Decision, rows: Table)
    requires KeyStable(shape, k, decide) && WellKeyed(shape, rows)
    ensures KeepsKey(shape, k, decide, rows)
  {
  }

  lemma DecideIsKeyStable(f: Float64, shape: Shape, k: Key, cond: Option<Condition>, key: Item,
                          sets: Assignments, removes: seq<string>)
    requires KeyOf(shape, key) == Some(k) && AvoidsKey(shape, sets, removes)
    ensures KeyStable(shape, k, Decide(f, cond, key, sets, removes))
  {
    forall row: Option<Item> | row.Some? ==> KeyOf(shape, row.value) == Some(k)
      ensures KeyOf(shape, ApplyExpression(row, key, sets, removes)) == Some(k)
    {
      UpdateKeepsKey(shape, if row.Some? then row.value else key, sets, removes);
    }
  }

  /** When the chosen route is indistinguishable from the read-modify-write on table `rows`, its
      statement having started on `seen`. */
  predicate RouteIsFaithful(f: Float64, pg: Pg, shape: Shape, seen: Table, rows: Table, k: Key, cond: Option<Condition>,
                            sets: Assignments, removes: seq<string>)
  {
    if cond.None? then (k in rows || Disjoint(sets, removes)) && DataAt(seen, k) == DataAt(rows, k)
    else match Classify(cond.value, shape.pk.name)
      case InsertOnlyOnPk => k in rows || Disjoint(sets, removes)
      case NeedsTx => true
      case SimpleSql =>
        if k in rows then
          && RanksAgree(f, pg, rows[k].data, cond.value) && Certain(rows[k].data, cond.value, true)
          && (!EvaluateCondition(f, DataAt(rows, k), cond.value) || DataAt(seen, k) == DataAt(rows, k))
        else !EvaluateCondition(f, None, cond.value)
  }

  /** Where its route is faithful, a fast path answers and leaves what the read-modify-write would on the
      table it decides on; without a WHERE clause, only there. */
  lemma FastPathsAreFaithful(f: Float64, pg: Pg, shape: Shape, turn: Turn, deleted: bool, k: Key, key: Item,
                             cond: Option<Condition>, sets: Assignments, removes: seq<string>)
    requires KeyOf(shape, key) == Some(k) && IsKeyItem(shape, key) && AvoidsKey(shape, sets, removes)
    requires WellKeyed(shape, turn.atWrite)
    requires cond.Some? ==> NameHeaded(cond.value) && Classify(cond.value, shape.pk.name) != NeedsTx
    ensures var at := FastDecidesOn(pg, shape.pk.name, turn, deleted, k, cond);
      var fast := FastAt(pg, shape, turn, deleted, k, key, cond, sets, removes);
      var slow := SlowUpdate(f, shape, at, k, cond, key, sets, removes);
      var faithful := RouteIsFaithful(f, pg, shape, turn.atRead, at, k, cond, sets, removes);
      && (faithful ==> fast == Landed(slow, turn.atWrite))
      && (cond.None? || Classify(cond.value, shape.pk.name) == InsertOnlyOnPk ==> (faithful <==> fast == slow))
  {
    if cond.None? {
      UpsertRefinesExactly(f, shape, turn.atRead, turn.atWrite, k, key, sets, removes);
    } else if Classify(cond.value, shape.pk.name) == InsertOnlyOnPk {
      InsertOnlyRefinesExactly(f, shape, turn.atWrite, k, cond.value, key, sets, removes);
    } else {
      ConditionalRefines(f, pg, shape, turn.atRead, turn.atWrite, deleted, k, cond.value, key, sets, removes);
    }
  }

  /** The INSERT payload and the flat SET and REMOVE lists of a simple expression. */
  method MaterializeSimpleUpdate(expr: UpdateExpression, key: Item)
    returns (insertItem: Item, sets: Assignments, removes: seq<string>)
    requires IsSimple(expr)
    ensures sets == SetsOf(expr.setClauses) && removes == RemovesOf(expr.remove)
    ensures insertItem == InsertItem(key, sets)
  {
    insertItem, sets, removes := key, [], [];
    for i := 0 to |expr.setClauses|
      invariant sets == SetsOf(expr.setClauses)[..i] && insertItem == ApplySets(key, sets)
    {
      var clause := expr.setClauses[i];
      var attr, value := clause.path.segments[0].name, clause.value.operand.value;
      insertItem := insertItem[attr := value];
      assert (sets + [(attr, value)])[..|sets|] == sets;
      sets := sets + [(attr, value)];
    }
    for i := 0 to |expr.remove|
      invariant removes == RemovesOf(expr.remove)[..i]
    {
      removes := removes + [expr.remove[i].segments[0].name];
    }
  }

  class Backend {
    const shape: Shape
    const pg: Pg
    var rows: Table

    constructor (shape: Shape, pg: Pg, rows: Table)
      ensures this.shape == shape && this.pg == pg && this.rows == rows
    {
      this.shape, this.pg, this.rows := shape, pg, rows;
    }

    /** Index of the inserted payload and the DO UPDATE expression over the parameters behind it. */
    method BuildUpdateSql(nSets: nat, nRemoves: nat) returns (insertIdx: nat, expr: JsonbExpr)
      ensures insertIdx == (if shape.sk.None? then 2 else 3)
      ensures expr == Chain(insertIdx + 1, nSets, nRemoves)
    {
      insertIdx := if shape.sk.None? then 2 else 3;
      var idx := insertIdx + 1;
      expr := DataRef;
      for i := 0 to nSets
        invariant idx == insertIdx + 1 + 2 * i && expr == Chain(insertIdx + 1, i, 0)
      {
        expr := JsonbSet(expr, idx, idx + 1);
        idx := idx + 2;
      }
      for i := 0 to nRemoves
        invariant idx == insertIdx + 1 + 2 * nSets + i && expr == Chain(insertIdx + 1, nSets, i)
      {
        expr := JsonbMinus(expr, idx);
        idx := idx + 1;
      }
    }

    /** The parameters of `update_simple_raw`: keys, inserted payload, SET pairs, REMOVE names. */
    method BindUpdate(key: Item, insertItem: Item, sets: Assignments, removes: seq<string>) returns (b: Binds)
      requires KeyOf(shape, key).Some?
      ensures b == BindChain(Bind(KeyBinds(shape, key), ItemParam(insertItem), JSONB), sets, removes)
    {
      var k := KeyBinds(shape, key);
      var params, types := k.params + [ItemParam(insertItem)], k.types + [JSONB];
      ghost var b0 := Bind(k, ItemParam(insertItem), JSONB);
      for i := 0 to |sets|
        invariant Binds(params, types) == BindSets(b0, sets[..i])
      {
        assert sets[..i + 1][..i] == sets[..i];
        params, types := params + [TextParam(sets[i].0)], types + [TEXT];
        params, types := params + [JsonbParam(sets[i].1)], types + [JSONB];
      }
      assert sets[..|sets|] == sets;
      for i := 0 to |removes|
        invariant Binds(params, types) == BindNames(BindSets(b0, sets), removes[..i])
      {
        assert removes[..i + 1][..i] == removes[..i];
        params, types := params + [TextParam(removes[i])], types + [TEXT];
      }
      assert removes[..|removes|] == removes;
      b := Binds(params, types);
    }

    /** The unconditional fast path: one upsert, whose placeholders resolve to the SETs and REMOVEs. It
        starts on the snapshot `turn.atRead` and finds `turn.atWrite` when it reaches the row. */
    method UpdateSimpleRaw(key: Item, insertItem: Item, sets: Assignments, removes: seq<string>, turn: Turn)
      returns (r: UpdateResult)
      requires KeyOf(shape, key).Some?
      modifies this
      ensures (rows, r) == UpsertAt(shape, turn.atRead, turn.atWrite, KeyOf(shape, key).value, insertItem, sets, removes)
    {
      rows := turn.atWrite;
      var insertIdx, expr := BuildUpdateSql(|sets|, |removes|);
      var b := BindUpdate(key, insertItem, sets, removes);
      var k := KeyOf(shape, insertItem);
      if k.None? { return Failed(Other("null key column")); }
      ghost var b0 := Bind(KeyBinds(shape, key), ItemParam(insertItem), JSONB);
      KeyBindsAligned(shape, key);
      var oldItem := DataAt(turn.atRead, KeyOf(shape, key).value);
      var newItem := insertItem;
      if k.value in rows {
        ChainEvaluates(b0, sets, removes, b, rows[k.value].data);
        newItem := EvalJsonb(b, rows[k.value].data, expr).value;
      }
      rows := Store(shape, rows, k.value, newItem);
      return Ok(Outcome(newItem, oldItem));
    }

    /** The `attribute_not_exists(pk)` fast path; it reads nothing but the conflicting row. */
    method UpdateInsertOnlyRaw(insertItem: Item, turn: Turn) returns (r: UpdateResult)
      modifies this
      ensures (rows, r) == FastInsertOnly(shape, turn.atWrite, insertItem)
    {
      rows := turn.atWrite;
      var k := KeyOf(shape, insertItem);
      if k.None? { return Failed(Other("null key column")); }
      if k.value in rows { return Failed(ConditionalCheckFailed); }
      rows := Store(shape, rows, k.value, insertItem);
      return Ok(Outcome(insertItem, None));
    }

    /** SET and REMOVE parameters appended to a shared builder, with the expression over them. */
    static method BindChainInto(builder: ParamBuilder, sets: Assignments, removes: seq<string>) returns (expr: JsonbExpr)
      requires Aligned(builder.View())
      modifies builder
      ensures builder.View() == BindChain(old(builder.View()), sets, removes)
      ensures expr == Chain(|old(builder.params)| + 1, |sets|, |removes|)
    {
      ghost var b0 := builder.View();
      expr := DataRef;
      for i := 0 to |sets|
        invariant builder.View() == BindSets(b0, sets[..i]) && expr == Chain(|b0.params| + 1, i, 0)
      {
        BindSetsAppends(b0, sets[..i]);
        assert sets[..i + 1][..i] == sets[..i];
        var n := builder.BindText(sets[i].0);
        var v := builder.BindJsonb(sets[i].1);
        expr := JsonbSet(expr, n, v);
      }
      assert sets[..|sets|] == sets;
      BindSetsAppends(b0, sets);
      for i := 0 to |removes|
        invariant builder.View() == BindChain(b0, sets, removes[..i]) && expr == Chain(|b0.params| + 1, |sets|, i)
      {
        BindNamesAppends(BindSets(b0, sets), removes[..i]);
        assert removes[..i + 1][..i] == removes[..i];
        var n := builder.BindText(removes[i]);
        expr := JsonbMinus(expr, n);
      }
      assert removes[..|removes|] == removes;
    }

    method BindKeys(key: Item) returns (builder: ParamBuilder)
      requires KeyOf(shape, key).Some?
      ensures fresh(builder) && builder.View() == KeyBinds(shape, key) && Aligned(builder.View())
    {
      builder := new ParamBuilder();
      var pkIdx := builder.BindKey(key[shape.pk.name]);
      if shape.sk.Some? { var skIdx := builder.BindKey(key[shape.sk.value.name]); }
      KeyBindsAligned(shape, key);
    }

    /** Keys, SET/REMOVE chain and compiled condition on one builder. The classifier-divergence error
        is unreachable, and both fragments evaluate to what they stand for. */
    method BuildConditionalUpdate(key: Item, sets: Assignments, removes: seq<string>, cond: Condition)
      returns (b: Binds, expr: JsonbExpr, whereSql: SqlCond)
      requires KeyOf(shape, key).Some? && FitsSql(cond) && NameHeaded(cond)
      ensures Aligned(b)
      ensures forall data :: EvalJsonb(b, data, expr) == Some(ApplyRemoves(ApplySets(data, sets), removes))
      ensures forall data :: EvalSql(pg, b, data, whereSql) == Meaning(pg, data, cond)
    {
      var builder := BindKeys(key);
      ghost var b0 := builder.View();
      expr := BindChainInto(builder, sets, removes);
      ConditionalBindsFit(b0, sets, removes, cond);
      var q := builder.CompileCondition(cond);
      b, whereSql := Binds(builder.params, builder.types), q.value;
      forall data
        ensures EvalJsonb(b, data, expr) == Some(ApplyRemoves(ApplySets(data, sets), removes))
        ensures EvalSql(pg, b, data, whereSql) == Meaning(pg, data, cond)
      {
        ConditionalFragments(pg, b0, sets, removes, cond, data);
      }
    }

    /** The SimpleSql fast path. The row qualifies on the snapshot first and, if another transaction got
        to it in between, again on what that one left. */
    method UpdateWithSimpleConditionRaw(k: Key, key: Item, sets: Assignments, removes: seq<string>, cond: Condition,
                                        turn: Turn, deleted: bool)
      returns (r: UpdateResult)
      requires KeyOf(shape, key) == Some(k)
      requires FitsSql(cond) && NameHeaded(cond)
      modifies this
      ensures (rows, r) == ConditionalAt(shape, turn.atRead, turn.atWrite, deleted, k, sets, removes, d => Meaning(pg, d, cond))
    {
      var b, expr, whereSql := BuildConditionalUpdate(key, sets, removes, cond);
      rows := turn.atWrite;
      if k !in turn.atRead { return Failed(ConditionalCheckFailed); }
      var oldItem := turn.atRead[k].data;
      var verdict := EvalSql(pg, b, oldItem, whereSql);
      if verdict == True {
        if deleted || k !in rows { return Failed(ConditionalCheckFailed); }
        verdict := EvalSql(pg, b, rows[k].data, whereSql);
      }
      if verdict == Raised { return Failed(Other("statement raised")); }
      if verdict != True { return Failed(ConditionalCheckFailed); }
      var newItem := EvalJsonb(b, rows[k].data, expr).value;
      rows := Store(shape, rows, k, newItem);
      return Ok(Outcome(newItem, Some(oldItem)));
    }

    /** The fast path a simple expression takes. */
    method UpdateFast(k: Key, key: Item, insertItem: Item, sets: Assignments, removes: seq<string>, cond: Option<Condition>,
                      turn: Turn, deleted: bool)
      returns (r: UpdateResult)
      requires KeyOf(shape, key) == Some(k) && insertItem == InsertItem(key, sets)
      requires cond.Some? ==> NameHeaded(cond.value) && Classify(cond.value, shape.pk.name) != NeedsTx
      modifies this
      ensures (rows, r) == FastAt(pg, shape, turn, deleted, k, key, cond, sets, removes)
    {
      if cond.None? {
        r := UpdateSimpleRaw(key, insertItem, sets, removes, turn);
      } else if Classify(cond.value, shape.pk.name) == InsertOnlyOnPk {
        r := UpdateInsertOnlyRaw(insertItem, turn);
      } else {
        r := UpdateWithSimpleConditionRaw(k, key, sets, removes, cond.value, turn, deleted);
      }
    }

    /** One SELECT FOR UPDATE, decision and write. Not done means a concurrent insert won. */
    method RmwTurn(k: Key, decide: Option<Item> -> Decision, turn: Turn)
      returns (done: bool, r: UpdateResult, ghost at: Table)
      requires KeepsKey(shape, k, decide, turn.atRead)
      modifies this
      ensures Produced(turn, k, at) && (r.Ok? ==> at == Locked(turn, k))
      ensures done ==> (rows, r) == Landed(RmwAt(shape, at, k, decide), Locked(turn, k))
      ensures !done ==> k !in turn.atRead && k in turn.atWrite && r.Failed? && rows == at == turn.atWrite
    {
      at := turn.atRead;
      var existing := DataAt(turn.atRead, k);
      var decision := decide(existing);
      rows := if existing.Some? then turn.atWrite[k := turn.atRead[k]] else turn.atWrite;
      if decision.Fail? { return true, Failed(ConditionalCheckFailed), at; }
      if decision.Abort? { return true, Failed(Other(decision.message)), at; }
      var item := decision.item;
      assert KeyOf(shape, item) == Some(k);
      at := rows;
      if existing.None? && KeyOf(shape, item).value in rows {
        return false, Failed(Other("row inserted concurrently")), at;
      }
      rows := Store(shape, rows, k, item);
      return true, Ok(Outcome(item, existing)), at;
    }

    /** The read-modify-write loop against arbitrary other transactions, one turn per iteration. */
    method UpdateGeneralRmwRaw(k: Key, decide: Option<Item> -> Decision, turns: seq<Turn>)
      returns (r: UpdateResult, iters: nat, exhausted: bool, ghost at: Table)
      requires |turns| == MAX_ITERS
      requires forall i :: 0 <= i < MAX_ITERS ==> KeepsKey(shape, k, decide, turns[i].atRead)
      modifies this
      ensures LoopAnswers(shape, k, decide, turns, rows, r, iters, exhausted, at)
    {
      iters, at := 0, rows;
      while iters < MAX_ITERS
        invariant 0 <= iters <= MAX_ITERS
        invariant iters > 0 ==> rows == at && Produced(turns[iters - 1], k, at)
        invariant LosesEveryRace(turns[..iters], k)
        invariant NeverDeleted(turns, k) ==> iters <= 1
      {
        var done;
        InsertedRowIsRead(turns, k, iters);
        assert iters > 0 ==> turns[..iters][iters - 1] == turns[iters - 1];
        done, r, at := RmwTurn(k, decide, turns[iters]);
        iters := iters + 1;
        if done { return r, iters, false, at; }
      }
      assert turns[..iters] == turns;
      return Failed(Other("exceeded retry budget")), iters, true, at;
    }

    /** UpdateItem's dispatch: a simple expression with no condition, with `attribute_not_exists(pk)` or
        with a SimpleSql condition takes its fast path, everything else the loop with the general
        evaluator, `general` for the expressions not modelled here. Wherever `RouteIsFaithful` holds of
        the table the call decided on, no caller can tell which path ran. */
    method HandleUpdateItem(f: Float64, k: Key, key: Item, expr: UpdateExpression, cond: Option<Condition>,
                            general: Option<Item> -> Decision, turns: seq<Turn>, deleted: bool)
      returns (r: UpdateResult, iters: nat, exhausted: bool, ghost at: Table)
      requires KeyOf(shape, key) == Some(k) && IsKeyItem(shape, key) && KeyStable(shape, k, general)
      requires IsSimple(expr) ==> AvoidsKey(shape, SetsOf(expr.setClauses), RemovesOf(expr.remove))
      requires cond.Some? ==> NameHeaded(cond.value)
      requires |turns| == MAX_ITERS && WellKeyed(shape, turns[0].atWrite)
      requires forall i :: 0 <= i < MAX_ITERS ==> WellKeyed(shape, turns[i].atRead)
      modifies this
      ensures !IsSimple(expr) ==> LoopAnswers(shape, k, general, turns, rows, r, iters, exhausted, at)
      ensures IsSimple(expr) && Loops(expr, cond, shape.pk.name) ==>
        LoopAnswers(shape, k, Decide(f, cond, key, SetsOf(expr.setClauses), RemovesOf(expr.remove)), turns, rows, r, iters, exhausted, at)
      ensures !Loops(expr, cond, shape.pk.name) ==>
        && iters == 1 && !exhausted
        && FastAnswers(f, pg, shape, turns[0], deleted, k, key, cond, SetsOf(expr.setClauses), RemovesOf(expr.remove), rows, r, at)
    {
      exhausted, iters := false, 1;
      if !IsSimple(expr) {
        forall i | 0 <= i < MAX_ITERS { StableKeepsKey(shape, k, general, turns[i].atRead); }
        r, iters, exhausted, at := UpdateGeneralRmwRaw(k, general, turns);
        return;
      }
      var insertItem, sets, removes := MaterializeSimpleUpdate(expr, key);
      if cond.Some? && Classify(cond.value, shape.pk.name) == NeedsTx {
        DecideIsKeyStable(f, shape, k, cond, key, sets, removes);
        forall i | 0 <= i < MAX_ITERS { StableKeepsKey(shape, k, Decide(f, cond, key, sets, removes), turns[i].atRead); }
        r, iters, exhausted, at := UpdateGeneralRmwRaw(k, Decide(f, cond, key, sets, removes), turns);
        return;
      }
      at := FastDecidesOn(pg, shape.pk.name, turns[0], deleted, k, cond);
      FastPathsAreFaithful(f, pg, shape, turns[0], deleted, k, key, cond, sets, removes);
      r := UpdateFast(k, key, insertItem, sets, removes, cond, turns[0], deleted);
    }

    /** Conditional PutItem runs the same loop with a fixed replacement row. */
    method PutWithConditionRaw(k: Key, item: Item, holds: Option<Item> -> bool, turns: seq<Turn>)
      returns (r: UpdateResult, iters: nat, exhausted: bool, ghost at: Table)
      requires |turns| == MAX_ITERS && KeyOf(shape, item) == Some(k)
      modifies this
      ensures 1 <= iters <= MAX_ITERS && Produced(turns[iters - 1], k, at)
      ensures !exhausted && holds(DataAt(at, k)) ==>
                && at == Locked(turns[iters - 1], k)
                && r == Ok(Outcome(item, DataAt(at, k))) && rows == Store(shape, at, k, item)
      ensures !exhausted && !holds(DataAt(at, k)) ==>
                r == Failed(ConditionalCheckFailed) && rows == Locked(turns[iters - 1], k)
      ensures exhausted ==> r.Failed? && rows == at && LosesEveryRace(turns, k)
      ensures NeverDeleted(turns, k) ==> !exhausted && iters <= 2
    {
      var decide := (row: Option<Item>) => if holds(row) then Apply(item) else Fail;
      r, iters, exhausted, at := UpdateGeneralRmwRaw(k, decide, turns);
    }
  }
}
