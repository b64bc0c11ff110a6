/** The reconciler: compares the catalog's rows with what Postgres reports, stores a verdict per table
    and per index, and publishes the snapshot that requests are served from. */
module Reconciler {
  import opened Values
  import Expressions
  import opened CatalogRows
  import opened Sweeping

  datatype Status = Creating | FailedCreating | Active | Degraded | Updating | FailedUpdating | Deleting | FailedDeleting

  datatype Schema = Schema(pgTable: string, pkAttr: string, pkType: KeyType, skAttr: Option<string>,
                           skType: Option<KeyType>, jsonbCol: string)

  datatype Row = Row(schema: Schema, status: Status, serveable: bool, reason: Option<string>, lsiJson: Json, gsiJson: Json)

  type Flags = (bool, Option<string>)

  /** The index flags the dispatch layer reads, by index name. */
  datatype View = View(lsis: map<string, Flags>, gsis: map<string, Flags>)

  datatype Entry = Entry(schema: Schema, status: Status, serveable: bool, reason: Option<string>,
                         lsis: seq<LsiSpec>, gsis: map<string, GsiSpec>, view: View)

  datatype Column = Column(name: string, dataType: string, generated: bool)

  datatype PgSchema = PgSchema(columns: seq<Column>, primaryKey: seq<string>, indexes: map<string, string>)

  // ----- reading rows ----------------------------------------------------------------------

  function ByName(gs: seq<GsiSpec>): (m: map<string, GsiSpec>)
    ensures forall n :: n in m ==> m[n].name == n && m[n] in gs
    ensures forall g :: g in gs ==> g.name in m
  {
    if gs == [] then map[]
    else
      var front, last := ByName(gs[..|gs| - 1]), gs[|gs| - 1];
      assert gs == gs[..|gs| - 1] + [last];
      front[last.name := last]
  }

  function LsiFlags(ls: seq<LsiSpec>): (m: map<string, Flags>)
    ensures forall l :: l in ls ==> l.name in m
    ensures forall n :: n in m ==> exists l :: l in ls && l.name == n && m[n] == (l.serveable, l.reason)
  {
    if ls == [] then map[]
    else
      var front, last := LsiFlags(ls[..|ls| - 1]), ls[|ls| - 1];
      assert ls == ls[..|ls| - 1] + [last];
      front[last.name := (last.serveable, last.reason)]
  }

  function GsiFlags(gs: map<string, GsiSpec>): map<string, Flags> {
    map n | n in gs :: (gs[n].serveable, gs[n].reason)
  }

  function ViewOf(ls: seq<LsiSpec>, gs: map<string, GsiSpec>): View { View(LsiFlags(ls), GsiFlags(gs)) }

  /** None for a malformed row. */
  function RowToEntry(row: Row): (e: Option<Entry>)
    ensures e.Some? ==> forall n :: n in e.value.gsis ==> e.value.gsis[n].name == n
  {
    var ls, gs := LsisFromJson(row.lsiJson), GsisFromJson(row.gsiJson);
    if row.schema.skAttr.Some? != row.schema.skType.Some? || ls.None? || gs.None? then None
    else Some(Entry(row.schema, row.status, row.serveable, row.reason, ls.value, ByName(gs.value),
                    ViewOf(ls.value, ByName(gs.value))))
  }

  // ----- introspection ------------------------------------------------------------------------

  function Find(columns: seq<Column>, name: string): Option<Column> {
    if columns == [] then None else if columns[0].name == name then Some(columns[0]) else Find(columns[1..], name)
  }

  function SqlType(t: KeyType): string {
    match t case KeyS => "text" case KeyN => "numeric" case KeyB => "bytea"
  }

  function CheckJsonb(columns: seq<Column>, name: string): Option<string> {
    match Find(columns, name)
    case None => None
    case Some(c) =>
      if c.dataType != "jsonb" then Some("column `" + name + "`: expected jsonb, got `" + c.dataType + "`")
      else if c.generated then Some("column `" + name + "`: jsonb column must not be GENERATED ALWAYS")
      else None
  }

  function CheckColumn(columns: seq<Column>, name: string, t: KeyType, mustBeGenerated: bool): Option<string> {
    match Find(columns, name)
    case None => Some("column `" + name + "`: missing")
    case Some(c) =>
      if c.dataType != SqlType(t) then Some("column `" + name + "`: expected `" + SqlType(t) + "`, got `" + c.dataType + "`")
      else if mustBeGenerated && !c.generated then Some("column `" + name + "`: must be GENERATED ALWAYS")
      else if !mustBeGenerated && c.generated then Some("column `" + name + "`: must be a regular column")
      else None
  }

  function LsiProblem(l: LsiSpec, pg: PgSchema, pkCol: string): Option<string> {
    var column := CheckColumn(pg.columns, l.sortPgCol, l.sortType, true);
    if column.Some? then Some("LSI `" + l.name + "` column: " + column.value)
    else if l.indexName !in pg.indexes then Some("LSI `" + l.name + "` index `" + l.indexName + "` missing from pg_indexes")
    else if !Expressions.Substring("(" + pkCol + ", " + l.sortPgCol + ")", pg.indexes[l.indexName])
    then Some("LSI `" + l.name + "` index columns mismatch: expected `(" + pkCol + ", " + l.sortPgCol + ")` in indexdef, got: "
              + pg.indexes[l.indexName])
    else None
  }

  function GsiProblem(g: GsiSpec, pg: PgSchema): Option<string> {
    var partition := CheckColumn(pg.columns, g.partitionPgCol, g.partitionType, g.mode == Generated);
    var hasSort := g.sortPgCol.Some? && g.sortType.Some?;
    var sort := if hasSort then CheckColumn(pg.columns, g.sortPgCol.value, g.sortType.value, g.mode == Generated) else None;
    if partition.Some? then Some("GSI `" + g.name + "` partition column: " + partition.value)
    else if sort.Some? then Some("GSI `" + g.name + "` sort column: " + sort.value)
    else if g.indexName !in pg.indexes then Some("GSI `" + g.name + "` index `" + g.indexName + "` missing from pg_indexes")
    else
      var expected := if hasSort then "(" + g.partitionPgCol + ", " + g.sortPgCol.value + ")" else "(" + g.partitionPgCol + ")";
      if !Expressions.Substring(expected, pg.indexes[g.indexName])
      then Some("GSI `" + g.name + "` index columns mismatch: expected `" + expected + "` in indexdef, got: " + pg.indexes[g.indexName])
      else None
  }

  /** A specification with its flags set from the problem found, if any. */
  function FlagLsi(l: LsiSpec, problem: Option<string>): LsiSpec { l.(serveable := problem.None?, reason := problem) }

  function FlagGsi(g: GsiSpec, problem: Option<string>): GsiSpec { g.(serveable := problem.None?, reason := problem) }

  /** A list of column names as the reason shows it. */
  function ShowNames(names: seq<string>): string {
    "[" + (if names == [] then "" else "\"" + names[0] + "\"" + MoreNames(names[1..])) + "]"
  }

  function MoreNames(names: seq<string>): string {
    if names == [] then "" else ", \"" + names[0] + "\"" + MoreNames(names[1..])
  }

  function ExpectedKey(s: Schema): seq<string> { if s.skAttr.Some? then [s.pkAttr, s.skAttr.value] else [s.pkAttr] }

  /** What is wrong with the table itself: the reason for the table and the one its indexes inherit. */
  function BaseProblem(s: Schema, pg: PgSchema): Option<(string, string)> {
    if pg.columns == [] then Some(("PG table `" + s.pgTable + "` does not exist", "parent PG table does not exist"))
    else
      var jsonb := CheckJsonb(pg.columns, s.jsonbCol);
      var pk := CheckColumn(pg.columns, s.pkAttr, s.pkType, true);
      var sk := if s.skAttr.Some? && s.skType.Some? then CheckColumn(pg.columns, s.skAttr.value, s.skType.value, true) else None;
      if jsonb.Some? then Some((jsonb.value, jsonb.value))
      else if pk.Some? then Some((pk.value, pk.value))
      else if sk.Some? then Some((sk.value, sk.value))
      else if pg.primaryKey != ExpectedKey(s) then
        var reason := "primary key shape mismatch: expected " + ShowNames(ExpectedKey(s)) + ", got " + ShowNames(pg.primaryKey);
        Some((reason, reason))
      else None
  }

  datatype Verdict = Verdict(status: Status, serveable: bool, reason: Option<string>, lsis: seq<LsiSpec>, gsis: map<string, GsiSpec>)

  /** A sick table's indexes all carry its reason; otherwise each index is judged by itself. */
  function LsiVerdict(s: Schema, pg: PgSchema, l: LsiSpec): LsiSpec {
    match BaseProblem(s, pg)
    case Some((_, inherited)) => FlagLsi(l, Some(inherited))
    case None => FlagLsi(l, LsiProblem(l, pg, s.pkAttr))
  }

  function GsiVerdict(s: Schema, pg: PgSchema, g: GsiSpec): GsiSpec {
    match BaseProblem(s, pg)
    case Some((_, inherited)) => FlagGsi(g, Some(inherited))
    case None => FlagGsi(g, GsiProblem(g, pg))
  }

  function LsiVerdicts(s: Schema, pg: PgSchema, ls: seq<LsiSpec>): seq<LsiSpec> {
    seq(|ls|, i requires 0 <= i < |ls| => LsiVerdict(s, pg, ls[i]))
  }

  function GsiVerdicts(s: Schema, pg: PgSchema, gs: map<string, GsiSpec>): map<string, GsiSpec> {
    map n | n in gs :: GsiVerdict(s, pg, gs[n])
  }

  function Introspect(e: Entry, pg: PgSchema): Verdict {
    var ls, gs := LsiVerdicts(e.schema, pg, e.lsis), GsiVerdicts(e.schema, pg, e.gsis);
    match BaseProblem(e.schema, pg)
    case Some((reason, _)) => Verdict(Degraded, false, Some(reason), ls, gs)
    case None => Verdict(Active, true, None, ls, gs)
  }

  // ----- one pass -----------------------------------------------------------------------------------

  predicate Owned(s: Status) { s !in {Creating, Updating, Deleting} }

  function Stored(e: Entry): Verdict { Verdict(e.status, e.serveable, e.reason, e.lsis, e.gsis) }

  /** The pass writes the row: the table is the reconciler's, Postgres answered, and the verdict is new. */
  predicate Writes(e: Entry, answer: Option<PgSchema>) {
    Owned(e.status) && answer.Some? && Introspect(e, answer.value) != Stored(e)
  }

  /** The published entry; its view is the one read from the row before the verdict. */
  function EntryAfter(e: Entry, answer: Option<PgSchema>): Entry {
    if !Owned(e.status) || answer.None? then e
    else
      var v := Introspect(e, answer.value);
      e.(status := v.status, serveable := v.serveable, reason := v.reason, lsis := v.lsis, gsis := v.gsis)
  }

  type Listing = map<string, GsiSpec> -> seq<GsiSpec>

  /** Some order of a map's values, as iterating a hash map gives. */
  ghost predicate ListsValues(list: Listing) {
    forall m, g :: g in list(m) <==> exists n :: n in m && m[n] == g
  }

  function RowAfter(row: Row, e: Entry, answer: Option<PgSchema>, list: Listing): Row {
    if !Writes(e, answer) then row
    else
      var v := Introspect(e, answer.value);
      Row(row.schema, v.status, v.serveable, v.reason, LsisToJson(v.lsis), GsisToJson(list(v.gsis)))
  }

  // ----- the fixpoint ----------------------------------------------------------------------------------

  lemma ListingKeepsMap(list: Listing, m: map<string, GsiSpec>)
    requires ListsValues(list) && forall n :: n in m ==> m[n].name == n
    ensures ByName(list(m)) == m
  {
    var r := ByName(list(m));
    forall n | n in m
      ensures n in r
    {
      assert m[n] in list(m);
    }
    forall n | n in r
      ensures n in m && r[n] == m[n]
    {
      assert r[n] in list(m);
    }
  }

  /** A written row reads back as the verdict, with a view that matches it. */
  lemma WrittenRowReadsBack(row: Row, e: Entry, answer: Option<PgSchema>, list: Listing)
    requires ListsValues(list) && RowToEntry(row) == Some(e) && Writes(e, answer)
    ensures var v := Introspect(e, answer.value);
      RowToEntry(RowAfter(row, e, answer, list))
      == Some(Entry(e.schema, v.status, v.serveable, v.reason, v.lsis, v.gsis, ViewOf(v.lsis, v.gsis)))
  {
    var v := Introspect(e, answer.value);
    SpecListsRoundTrip(v.lsis, list(v.gsis));
    ListingKeepsMap(list, v.gsis);
  }

  lemma LsiVerdictIgnoresFlags(s: Schema, pg: PgSchema, l: LsiSpec)
    ensures LsiVerdict(s, pg, LsiVerdict(s, pg, l)) == LsiVerdict(s, pg, l)
  {
  }

  lemma GsiVerdictIgnoresFlags(s: Schema, pg: PgSchema, g: GsiSpec)
    ensures GsiVerdict(s, pg, GsiVerdict(s, pg, g)) == GsiVerdict(s, pg, g)
  {
  }

  lemma LsiVerdictsIdempotent(s: Schema, pg: PgSchema, ls: seq<LsiSpec>)
    ensures LsiVerdicts(s, pg, LsiVerdicts(s, pg, ls)) == LsiVerdicts(s, pg, ls)
  {
    forall i | 0 <= i < |ls|
      ensures LsiVerdict(s, pg, LsiVerdict(s, pg, ls[i])) == LsiVerdict(s, pg, ls[i])
    {
      LsiVerdictIgnoresFlags(s, pg, ls[i]);
    }
  }

  lemma GsiVerdictsIdempotent(s: Schema, pg: PgSchema, gs: map<string, GsiSpec>)
    ensures GsiVerdicts(s, pg, GsiVerdicts(s, pg, gs)) == GsiVerdicts(s, pg, gs)
  {
    forall n | n in gs
      ensures GsiVerdict(s, pg, GsiVerdict(s, pg, gs[n])) == GsiVerdict(s, pg, gs[n])
    {
      GsiVerdictIgnoresFlags(s, pg, gs[n]);
    }
  }

  /** Verdicts depend on no flag, so a second look at what the first one wrote agrees with it. */
  lemma IntrospectIsIdempotent(e: Entry, e': Entry, pg: PgSchema)
    requires e'.schema == e.schema && e'.lsis == LsiVerdicts(e.schema, pg, e.lsis)
    requires e'.gsis == GsiVerdicts(e.schema, pg, e.gsis)
    ensures Introspect(e', pg) == Introspect(e, pg)
  {
    LsiVerdictsIdempotent(e.schema, pg, e.lsis);
    GsiVerdictsIdempotent(e.schema, pg, e.gsis);
  }

  /** With the Postgres schema unchanged, the pass after an answered one writes nothing for the table,
      whatever it wrote first and whether or not it is answered itself; so only a table whose first
      introspection failed can be written by the second pass. */
  lemma SecondPassWritesNothing(row: Row, e: Entry, pg: PgSchema, answer: Option<PgSchema>, list: Listing)
    requires ListsValues(list) && RowToEntry(row) == Some(e) && (answer == None || answer == Some(pg))
    ensures var e' := RowToEntry(RowAfter(row, e, Some(pg), list));
      e'.Some? && !Writes(e'.value, answer)
  {
    if Writes(e, Some(pg)) {
      WrittenRowReadsBack(row, e, Some(pg), list);
      IntrospectIsIdempotent(e, RowToEntry(RowAfter(row, e, Some(pg), list)).value, pg);
    }
  }

  // ----- the published view ------------------------------------------------------------------------------

  predicate ViewMatches(e: Entry) { e.view == ViewOf(e.lsis, e.gsis) }

  predicate DistinctNames(ls: seq<LsiSpec>) { forall i, j :: 0 <= i < j < |ls| ==> ls[i].name != ls[j].name }

  lemma LsiFlagAt(ls: seq<LsiSpec>, i: nat)
    requires i < |ls| && DistinctNames(ls)
    ensures ls[i].name in LsiFlags(ls) && LsiFlags(ls)[ls[i].name] == (ls[i].serveable, ls[i].reason)
  {
    assert ls[i] in ls;
    var l :| l in ls && l.name == ls[i].name && LsiFlags(ls)[ls[i].name] == (l.serveable, l.reason);
    var j :| 0 <= j < |ls| && ls[j] == l;
  }

  /** Two lists that differ only in flags have the same flag map only when they are equal. */
  lemma SameFlagsSameList(a: seq<LsiSpec>, b: seq<LsiSpec>)
    requires |a| == |b| && DistinctNames(a) && LsiFlags(a) == LsiFlags(b)
    requires forall i :: 0 <= i < |a| ==> b[i] == a[i].(serveable := b[i].serveable, reason := b[i].reason)
    ensures a == b
  {
    forall i | 0 <= i < |a|
      ensures a[i] == b[i]
    {
      LsiFlagAt(a, i);
      LsiFlagAt(b, i);
    }
  }

  lemma SameGsiFlagsSameMap(a: map<string, GsiSpec>, b: map<string, GsiSpec>)
    requires a.Keys == b.Keys && GsiFlags(a) == GsiFlags(b)
    requires forall n :: n in a ==> b[n] == a[n].(serveable := b[n].serveable, reason := b[n].reason)
    ensures a == b
  {
    forall n | n in a
      ensures a[n] == b[n]
    {
      assert GsiFlags(a)[n] == GsiFlags(b)[n];
    }
  }

  /** An entry and what a pass makes of it differ in flags only. */
  lemma OnlyFlagsChange(e: Entry, answer: Option<PgSchema>)
    ensures var e' := EntryAfter(e, answer);
      && e'.view == e.view && |e'.lsis| == |e.lsis| && e'.gsis.Keys == e.gsis.Keys
      && (forall i :: 0 <= i < |e.lsis| ==> e'.lsis[i] == e.lsis[i].(serveable := e'.lsis[i].serveable, reason := e'.lsis[i].reason))
      && (forall n :: n in e.gsis ==> e'.gsis[n] == e.gsis[n].(serveable := e'.gsis[n].serveable, reason := e'.gsis[n].reason))
  {
  }

  /** What Postgres reports against an index: the table's own problem, or else the index's. */
  function LsiReport(s: Schema, pg: PgSchema, l: LsiSpec): Option<string> {
    match BaseProblem(s, pg) case Some((_, inherited)) => Some(inherited) case None => LsiProblem(l, pg, s.pkAttr)
  }

  function GsiReport(s: Schema, pg: PgSchema, g: GsiSpec): Option<string> {
    match BaseProblem(s, pg) case Some((_, inherited)) => Some(inherited) case None => GsiProblem(g, pg)
  }

  /** Every stored index flag already says what Postgres reports. */
  predicate FlagsCurrent(e: Entry, pg: PgSchema) {
    && (forall i :: 0 <= i < |e.lsis| ==>
          var report := LsiReport(e.schema, pg, e.lsis[i]); e.lsis[i].serveable == report.None? && e.lsis[i].reason == report)
    && (forall n :: n in e.gsis ==>
          var report := GsiReport(e.schema, pg, e.gsis[n]); e.gsis[n].serveable == report.None? && e.gsis[n].reason == report)
  }

  lemma CurrentFlagsStay(e: Entry, pg: PgSchema)
    ensures FlagsCurrent(e, pg) <==>
      LsiVerdicts(e.schema, pg, e.lsis) == e.lsis && GsiVerdicts(e.schema, pg, e.gsis) == e.gsis
  {
    var ls, gs := LsiVerdicts(e.schema, pg, e.lsis), GsiVerdicts(e.schema, pg, e.gsis);
    assert forall i :: 0 <= i < |e.lsis| ==> ls[i] == FlagLsi(e.lsis[i], LsiReport(e.schema, pg, e.lsis[i]));
    assert forall n :: n in e.gsis ==> gs[n] == FlagGsi(e.gsis[n], GsiReport(e.schema, pg, e.gsis[n]));
    if ls == e.lsis && gs == e.gsis {
      assert forall i :: 0 <= i < |e.lsis| ==> ls[i] == e.lsis[i];
      assert forall n :: n in e.gsis ==> gs[n] == e.gsis[n];
    }
  }

  /** The snapshot a pass publishes shows each index as the pass judged it exactly when the table is not
      the reconciler's, Postgres did not answer, or every stored flag was current already; after any
      other pass it is stale. */
  lemma ViewMatchesExactly(e: Entry, answer: Option<PgSchema>)
    requires ViewMatches(e) && DistinctNames(e.lsis)
    ensures ViewMatches(EntryAfter(e, answer)) <==> !Owned(e.status) || answer.None? || FlagsCurrent(e, answer.value)
  {
    var e' := EntryAfter(e, answer);
    OnlyFlagsChange(e, answer);
    if ViewMatches(e') {
      SameFlagsSameList(e.lsis, e'.lsis);
      SameGsiFlagsSameMap(e.gsis, e'.gsis);
    }
    if answer.Some? { CurrentFlagsStay(e, answer.value); }
  }

  /** From the second pass on the view matches. */
  lemma SecondSnapshotMatches(row: Row, e: Entry, pg: PgSchema, answer: Option<PgSchema>, list: Listing)
    requires ListsValues(list) && RowToEntry(row) == Some(e) && (answer == None || answer == Some(pg))
    ensures var e' := RowToEntry(RowAfter(row, e, Some(pg), list));
      e'.Some? && ViewMatches(EntryAfter(e'.value, answer))
  {
    SecondPassWritesNothing(row, e, pg, answer, list);
  }

  /** A stored index flag that drifted: the first pass publishes a view that still says serveable. */
  lemma FirstSnapshotCanBeStale() returns (e: Entry, pg: PgSchema)
    ensures ViewMatches(e) && Owned(e.status) && !ViewMatches(EntryAfter(e, Some(pg)))
  {
    var l := LsiSpec("i", "a", KeyS, "a", "x", None, None, true, None);
    var schema := Schema("t", "p", KeyS, None, None, "d");
    e := Entry(schema, Active, true, None, [l], map[], ViewOf([l], map[]));
    pg := PgSchema([], [], map[]);
    var e' := EntryAfter(e, Some(pg));
    assert e'.lsis == [FlagLsi(l, Some("parent PG table does not exist"))];
    LsiFlagAt(e.lsis, 0);
    LsiFlagAt(e'.lsis, 0);
  }

  // ----- drift stays where it is -------------------------------------------------------------------------

  predicate SameColumn(a: PgSchema, b: PgSchema, name: string) { Find(a.columns, name) == Find(b.columns, name) }

  predicate SameIndex(a: PgSchema, b: PgSchema, name: string) {
    (name in a.indexes <==> name in b.indexes) && (name in a.indexes ==> a.indexes[name] == b.indexes[name])
  }

  /** The two schemas agree on everything the base table is judged by. */
  predicate SameBase(a: PgSchema, b: PgSchema, s: Schema) {
    && (a.columns == [] <==> b.columns == []) && a.primaryKey == b.primaryKey
    && SameColumn(a, b, s.jsonbCol) && SameColumn(a, b, s.pkAttr) && (s.skAttr.Some? ==> SameColumn(a, b, s.skAttr.value))
  }

  lemma BaseDriftIsLocal(s: Schema, a: PgSchema, b: PgSchema)
    requires SameBase(a, b, s)
    ensures BaseProblem(s, a) == BaseProblem(s, b)
  {
  }

  predicate SameLsi(a: PgSchema, b: PgSchema, l: LsiSpec) { SameColumn(a, b, l.sortPgCol) && SameIndex(a, b, l.indexName) }

  predicate SameGsi(a: PgSchema, b: PgSchema, g: GsiSpec) {
    && SameColumn(a, b, g.partitionPgCol) && SameIndex(a, b, g.indexName)
    && (g.sortPgCol.Some? ==> SameColumn(a, b, g.sortPgCol.value))
  }

  lemma LsiDriftIsLocal(s: Schema, a: PgSchema, b: PgSchema, l: LsiSpec)
    requires BaseProblem(s, a) == BaseProblem(s, b) && SameLsi(a, b, l)
    ensures LsiVerdict(s, a, l) == LsiVerdict(s, b, l)
  {
  }

  lemma GsiDriftIsLocal(s: Schema, a: PgSchema, b: PgSchema, g: GsiSpec)
    requires BaseProblem(s, a) == BaseProblem(s, b) && SameGsi(a, b, g)
    ensures GsiVerdict(s, a, g) == GsiVerdict(s, b, g)
  {
  }

  /** Whatever else drifts, the table's verdict follows its base columns and key alone, and each index's
      verdict follows its own columns and index as well: drift in one index moves no other verdict. */
  lemma DriftIsLocal(e: Entry, a: PgSchema, b: PgSchema)
    requires SameBase(a, b, e.schema)
    ensures var v, w := Introspect(e, a), Introspect(e, b);
      && v.status == w.status && v.serveable == w.serveable && v.reason == w.reason
      && |v.lsis| == |w.lsis| == |e.lsis| && v.gsis.Keys == w.gsis.Keys == e.gsis.Keys
      && (forall i :: 0 <= i < |e.lsis| && SameLsi(a, b, e.lsis[i]) ==> v.lsis[i] == w.lsis[i])
      && (forall n :: n in e.gsis && SameGsi(a, b, e.gsis[n]) ==> v.gsis[n] == w.gsis[n])
  {
    BaseDriftIsLocal(e.schema, a, b);
    forall i | 0 <= i < |e.lsis| && SameLsi(a, b, e.lsis[i])
      ensures LsiVerdict(e.schema, a, e.lsis[i]) == LsiVerdict(e.schema, b, e.lsis[i])
    {
      LsiDriftIsLocal(e.schema, a, b, e.lsis[i]);
    }
    forall n | n in e.gsis && SameGsi(a, b, e.gsis[n])
      ensures GsiVerdict(e.schema, a, e.gsis[n]) == GsiVerdict(e.schema, b, e.gsis[n])
    {
      GsiDriftIsLocal(e.schema, a, b, e.gsis[n]);
    }
  }

  // ----- a whole pass --------------------------------------------------------------------------------------

  type Answers = string -> Option<PgSchema>

  /** The reconciler's verdict on each table. */
  function Verdicts(answers: Answers, list: Listing): Judge<Row, Entry> {
    (n: string, row: Row, e: Entry) => (RowAfter(row, e, answers(n), list), EntryAfter(e, answers(n)), Writes(e, answers(n)))
  }

  /** Tables in transition and tables Postgres did not answer for keep row and entry. */
  lemma OthersAreSpared(answers: Answers, list: Listing, n: string, row: Row, e: Entry)
    requires !Owned(e.status) || answers(n).None?
    ensures Verdicts(answers, list)(n, row, e) == (row, e, false)
  {
    assert !Writes(e, answers(n)) && EntryAfter(e, answers(n)) == e;
  }

  lemma UnwrittenIsUnchanged(answers: Answers, list: Listing, n: string, row: Row, e: Entry)
    requires !Writes(e, answers(n))
    ensures Verdicts(answers, list)(n, row, e) == (row, e, false)
  {
  }

  lemma JudgedTwice(answers: Answers, later: Answers, list: Listing, n: string, row: Row, e: Entry)
    requires ListsValues(list) && RowToEntry(row) == Some(e)
    requires answers(n).Some? && (later(n) == None || later(n) == answers(n))
    ensures SettledBy(RowToEntry, Verdicts(later, list), n, Verdicts(answers, list)(n, row, e).0)
  {
    SecondPassWritesNothing(row, e, answers(n).value, later(n), list);
    var row' := RowAfter(row, e, answers(n), list);
    UnwrittenIsUnchanged(later, list, n, row', RowToEntry(row').value);
  }

  /** With the schema unchanged, the pass after a fully answered one loads every row and writes none,
      whether or not it is answered itself. */
  lemma SecondPassReturnsZero(rows: map<string, Row>, loaded: map<string, Entry>, answers: Answers, later: Answers, list: Listing)
    returns (loaded': map<string, Entry>)
    requires ListsValues(list) && Loads(RowToEntry, rows, loaded)
    requires forall n :: n in rows ==> answers(n).Some? && (later(n) == None || later(n) == answers(n))
    ensures var rows' := SweptRows(rows, loaded, Verdicts(answers, list));
      Loads(RowToEntry, rows', loaded') && SweptAll(rows', loaded', Verdicts(later, list), rows', loaded', 0)
  {
    var judge, judge' := Verdicts(answers, list), Verdicts(later, list);
    forall n | n in rows
      ensures SettledBy(RowToEntry, judge', n, judge(n, rows[n], loaded[n]).0)
    {
      JudgedTwice(answers, later, list, n, rows[n], loaded[n]);
    }
    loaded' := SecondSweep(RowToEntry, rows, loaded, judge, judge');
  }

  datatype PassResult = Written(count: nat) | Malformed | UpdateFailed

  class Catalog {
    var rows: map<string, Row>
    var cache: map<string, Entry>

    constructor (rows: map<string, Row>)
      ensures this.rows == rows && this.cache == map[]
    {
      this.rows, this.cache := rows, map[];
    }

    /** One pass over every row. A malformed row fails the pass before anything is written; an UPDATE that
        fails keeps the old snapshot and the rows written so far; otherwise each table gets its verdict,
        the count is the number of rows whose verdict is new, and the snapshot is replaced as a whole. */
    method ReconcileNow(answers: Answers, list: Listing, faults: set<string>)
      returns (r: PassResult, ghost loaded: map<string, Entry>)
      modifies this
      ensures r.Malformed? ==> HasMalformed(RowToEntry, old(rows)) && rows == old(rows) && cache == old(cache)
      ensures !r.Malformed? ==> Loads(RowToEntry, old(rows), loaded)
      ensures r.Written? ==> SweptAll(old(rows), loaded, Verdicts(answers, list), rows, cache, r.count)
      ensures r.UpdateFailed? ==> SweptPartly(old(rows), loaded, Verdicts(answers, list), faults, rows) && cache == old(cache)
    {
      var stored := LoadSnapshot(RowToEntry, rows);
      loaded := map[];
      if stored.None? { return Malformed, loaded; }
      loaded := stored.value;
      var next, written, ok;
      rows, next, written, ok := Sweep(rows, stored.value, Verdicts(answers, list), faults);
      if !ok { return UpdateFailed, loaded; }
      cache := next;
      return Written(written), loaded;
    }
  }
}
