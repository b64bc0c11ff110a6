/** Removing global secondary indexes: UpdateTable's synchronous half, the background worker that
    drops a DualWrite index and its columns, and every interleaving of the two with crashes. */
module Removal {
  import opened Values

  datatype Mode = Generated | DualWrite

  datatype Gsi = Gsi(name: string, partition: string, sort: Option<string>, mode: Mode, serveable: bool)

  datatype Phase = Backfilling | Indexing | Active | RemovingIndex | RemovingColumn | Gone | Failed

  /** The table's columns in Postgres, its catalog row and its state rows. */
  datatype Db = Db(columns: set<string>, pk: string, sk: Option<string>, lsiCols: seq<string>, specs: seq<Gsi>,
                   phases: map<string, Phase>)

  // ----- who uses which column -----------------------------------------------------------

  function OptCol(c: Option<string>): set<string> {
    match c
    case None => {}
    case Some(x) => {x}
  }

  function Cols(g: Gsi): set<string> { {g.partition} + OptCol(g.sort) }

  function BaseCols(db: Db): set<string> { {db.pk} + OptCol(db.sk) + (set c | c in db.lsiCols) }

  /** Columns the listed indexes name. */
  function SpecCols(specs: seq<Gsi>): set<string> { set g, c | g in specs && c in Cols(g) :: c }

  function Names(specs: seq<Gsi>): set<string> { set g | g in specs :: g.name }

  lemma NamesCons(g: Gsi, specs: seq<Gsi>)
    ensures Names([g] + specs) == {g.name} + Names(specs)
  {
  }

  predicate DistinctNames(specs: seq<Gsi>) { forall i, j :: 0 <= i < j < |specs| ==> specs[i].name != specs[j].name }

  lemma DistinctCons(g: Gsi, specs: seq<Gsi>)
    requires g.name !in Names(specs) && DistinctNames(specs)
    ensures DistinctNames([g] + specs)
  {
    assert forall h :: h in specs ==> h.name in Names(specs);
  }

  function Without(specs: seq<Gsi>, name: string): (r: seq<Gsi>)
    ensures forall g :: g in r <==> g in specs && g.name != name
  {
    if specs == [] then []
    else if specs[0].name == name then Without(specs[1..], name)
    else [specs[0]] + Without(specs[1..], name)
  }

  function Only(specs: seq<Gsi>, name: string): (r: seq<Gsi>)
    ensures forall g :: g in r <==> g in specs && g.name == name
  {
    if specs == [] then []
    else if specs[0].name == name then [specs[0]] + Only(specs[1..], name)
    else Only(specs[1..], name)
  }

  /** The row's specs as the cache holds them: one per name, the last wins. */
  function Deduped(specs: seq<Gsi>): (r: seq<Gsi>)
    ensures forall g :: g in r ==> g in specs
    ensures Names(r) == Names(specs)
    ensures DistinctNames(r)
  {
    if specs == [] then []
    else
      var rest := Deduped(specs[1..]);
      assert specs == [specs[0]] + specs[1..];
      NamesCons(specs[0], specs[1..]);
      if specs[0].name in Names(rest) then rest
      else
        NamesCons(specs[0], rest);
        DistinctCons(specs[0], rest);
        [specs[0]] + rest
  }

  /** Every column the base key, a local index or a remaining global index names exists. */
  predicate Covered(db: Db) { BaseCols(db) + SpecCols(db.specs) <= db.columns }

  /** An archived index is no longer in the catalog row. */
  predicate GoneIsGone(db: Db) {
    forall n :: n in db.phases && db.phases[n] == Gone ==> n !in Names(db.specs)
  }

  // ----- the worker's last transaction -----------------------------------------------------

  /** What the worker may drop: the index's columns that nothing else names. */
  function Droppable(db: Db, name: string): set<string> {
    SpecCols(Only(db.specs, name)) - (BaseCols(db) + SpecCols(Without(db.specs, name)))
  }

  function SetPhase(db: Db, name: string, p: Phase): Db {
    if name in db.phases then db.(phases := db.phases[name := p]) else db
  }

  function FinishRemoval(db: Db, name: string): Db {
    SetPhase(db.(columns := db.columns - Droppable(db, name), specs := Without(db.specs, name)), name, Gone)
  }

  // ----- UpdateTable ----------------------------------------------------------------------------

  predicate Accepted(db: Db, deletes: seq<string>, creates: seq<Gsi>) {
    && (forall n :: n in deletes ==> n in Names(db.specs))
    && (forall g :: g in creates ==> g.name !in Names(db.specs))
  }

  /** The columns one Generated delete drops: siblings are all other cached indexes. */
  function GeneratedDrop(db: Db, g: Gsi): set<string> {
    Cols(g) - (BaseCols(db) + SpecCols(Without(Deduped(db.specs), g.name)))
  }

  /** The columns all Generated deletes of one request drop. */
  function GeneratedDrops(db: Db, deletes: seq<string>): set<string> {
    set g, c | g in Deduped(db.specs) && g.mode == Generated && g.name in deletes && c in GeneratedDrop(db, g) :: c
  }

  /** Generated deletes leave the list, DualWrite deletes stop being served. */
  function Kept(specs: seq<Gsi>, deletes: seq<string>): (r: seq<Gsi>)
    ensures forall g :: g in r ==>
      exists h :: h in specs && h.name == g.name && Cols(h) == Cols(g) && !(h.mode == Generated && h.name in deletes)
    ensures forall h :: h in specs && !(h.mode == Generated && h.name in deletes) ==> h in r || h.(serveable := false) in r
  {
    if specs == [] then []
    else
      var g, rest := specs[0], Kept(specs[1..], deletes);
      assert specs == [g] + specs[1..];
      if g.name !in deletes then [g] + rest
      else if g.mode == Generated then rest
      else [g.(serveable := false)] + rest
  }

  function StartRemovals(db: Db, deletes: seq<string>): map<string, Phase> {
    map n | n in db.phases ::
      if n in deletes && exists g :: g in Deduped(db.specs) && g.name == n && g.mode == DualWrite then RemovingIndex
      else db.phases[n]
  }

  function UpdateTable(db: Db, deletes: seq<string>, creates: seq<Gsi>): Db {
    if !Accepted(db, deletes, creates) then db
    else db.(
      columns := db.columns - GeneratedDrops(db, deletes) + SpecCols(creates),
      specs := if deletes == [] && creates == [] then db.specs else Kept(Deduped(db.specs), deletes) + creates,
      phases := StartRemovals(db, deletes) + (map n | n in Names(creates) :: Backfilling))
  }

  // ----- every run ---------------------------------------------------------------------------------

  /** Where a removal worker stands; it read the phase before it started. */
  datatype Pc = AtIndex | AtColumn

  datatype Sys = Sys(db: Db, workers: map<nat, (string, Pc)>)

  datatype Event =
    | Update(deletes: seq<string>, creates: seq<Gsi>)
    | Start(worker: nat, name: string)
    | IndexDropped(worker: nat)
    | IndexFailed(worker: nat)
    | Finish(worker: nat)
    | Crash(worker: nat)
    | Lifecycle(name: string, phase: Phase)

  predicate Enabled(s: Sys, e: Event) {
    match e
    case Update(_, _) => true
    case Start(w, n) => w !in s.workers && n in s.db.phases && s.db.phases[n] in {RemovingIndex, RemovingColumn}
    case IndexDropped(w) => w in s.workers && s.workers[w].1 == AtIndex
    case IndexFailed(w) => w in s.workers && s.workers[w].1 == AtIndex
    case Finish(w) => w in s.workers && s.workers[w].1 == AtColumn
    case Crash(w) => w in s.workers
    case Lifecycle(_, p) => p in {Backfilling, Indexing, Active, Failed}
  }

  function Next(s: Sys, e: Event): Sys
    requires Enabled(s, e)
  {
    match e
    case Update(deletes, creates) => s.(db := UpdateTable(s.db, deletes, creates))
    case Start(w, n) => s.(workers := s.workers[w := (n, if s.db.phases[n] == RemovingIndex then AtIndex else AtColumn)])
    case IndexDropped(w) =>
      var n := s.workers[w].0;
      Sys(SetPhase(s.db, n, RemovingColumn), s.workers[w := (n, AtColumn)])
    case IndexFailed(w) => Sys(SetPhase(s.db, s.workers[w].0, Failed), s.workers - {w})
    case Finish(w) => Sys(FinishRemoval(s.db, s.workers[w].0), s.workers - {w})
    case Crash(w) => s.(workers := s.workers - {w})
    case Lifecycle(n, p) => s.(db := SetPhase(s.db, n, p))
  }

  ghost predicate IsRun(states: seq<Sys>, events: seq<Event>) {
    && |states| == |events| + 1
    && forall i :: 0 <= i < |events| ==> Enabled(states[i], events[i]) && states[i + 1] == Next(states[i], events[i])
  }

  lemma UpdateKeepsColumns(db: Db, deletes: seq<string>, creates: seq<Gsi>)
    requires Covered(db)
    ensures Covered(UpdateTable(db, deletes, creates))
  {
    var after := UpdateTable(db, deletes, creates);
    if Accepted(db, deletes, creates) {
      var cached := Deduped(db.specs);
      forall c | c in BaseCols(after)
        ensures c in after.columns
      {
        assert c in BaseCols(db);
      }
      forall g, c | g in after.specs && c in Cols(g)
        ensures c in after.columns
      {
        if g in creates {
          assert c in SpecCols(creates);
        } else {
          var h :| h in db.specs && Cols(h) == Cols(g)
                   && ((deletes == [] && creates == []) || (h in cached && !(h.mode == Generated && h.name in deletes)));
          assert c in SpecCols(db.specs);
          if deletes != [] || creates != [] {
            KeptColumnNotDropped(db, deletes, h, c);
          }
        }
      }
    }
  }

  lemma KeptColumnNotDropped(db: Db, deletes: seq<string>, h: Gsi, c: string)
    requires h in Deduped(db.specs) && !(h.mode == Generated && h.name in deletes) && c in Cols(h)
    ensures c !in GeneratedDrops(db, deletes)
  {
    forall g | g in Deduped(db.specs) && g.mode == Generated && g.name in deletes
      ensures c !in GeneratedDrop(db, g)
    {
      var cached := Deduped(db.specs);
      var i, j :| 0 <= i < |cached| && cached[i] == h && 0 <= j < |cached| && cached[j] == g;
      assert i != j;
      assert h in Without(cached, g.name);
    }
  }

  lemma FinishKeepsColumns(db: Db, name: string)
    requires Covered(db)
    ensures Covered(FinishRemoval(db, name))
  {
    var after := FinishRemoval(db, name);
    assert BaseCols(after) == BaseCols(db);
    assert SpecCols(after.specs) <= SpecCols(db.specs);
  }

  /** Over every run of UpdateTable requests, removal workers (stale ones and several per index
      included), crashes, restarts and lifecycle phase writes, no column that is still named is ever
      dropped, and an archived index is out of the catalog row. */
  lemma {:induction false} EveryRunKeepsNamedColumns(states: seq<Sys>, events: seq<Event>, k: nat)
    requires IsRun(states, events) && k < |states|
    requires Covered(states[0].db) && GoneIsGone(states[0].db)
    ensures Covered(states[k].db) && GoneIsGone(states[k].db)
  {
    if k > 0 {
      EveryRunKeepsNamedColumns(states, events, k - 1);
      NextKeepsNamedColumns(states[k - 1], events[k - 1]);
    }
  }

  lemma NextKeepsNamedColumns(s: Sys, e: Event)
    requires Enabled(s, e) && Covered(s.db) && GoneIsGone(s.db)
    ensures Covered(Next(s, e).db) && GoneIsGone(Next(s, e).db)
  {
    match e
    case Update(deletes, creates) =>
      UpdateKeepsColumns(s.db, deletes, creates);
      UpdateKeepsGone(s.db, deletes, creates);
    case Finish(w) =>
      FinishKeepsColumns(s.db, s.workers[w].0);
    case _ =>
  }

  lemma UpdateKeepsGone(db: Db, deletes: seq<string>, creates: seq<Gsi>)
    requires GoneIsGone(db)
    ensures GoneIsGone(UpdateTable(db, deletes, creates))
  {
    var after := UpdateTable(db, deletes, creates);
    if Accepted(db, deletes, creates) {
      forall n | n in after.phases && after.phases[n] == Gone
        ensures n !in Names(after.specs)
      {
        assert n !in Names(creates);
        assert n in db.phases && db.phases[n] == Gone;
        assert n !in Names(Deduped(db.specs));
        assert forall g :: g in creates ==> g.name in Names(creates);
      }
    }
  }

  // ----- nothing is left behind ------------------------------------------------------------------

  /** The worker drops exactly the columns its index alone names: afterwards each of them exists if and
      only if it existed and something else still names it. */
  lemma WorkerDropsExactly(db: Db, name: string, c: string)
    requires c in SpecCols(Only(db.specs, name))
    ensures c in FinishRemoval(db, name).columns <==>
      c in db.columns && c in BaseCols(db) + SpecCols(FinishRemoval(db, name).specs)
    ensures FinishRemoval(db, name).columns - SpecCols(Only(db.specs, name)) == db.columns - SpecCols(Only(db.specs, name))
  {
  }

  /** A column of a deleted Generated index that nothing names any more. */
  predicate Orphan(db: Db, deletes: seq<string>, creates: seq<Gsi>, c: string) {
    var after := UpdateTable(db, deletes, creates);
    && c in after.columns && c !in BaseCols(after) && c !in SpecCols(after.specs)
    && exists g :: g in Deduped(db.specs) && g.mode == Generated && g.name in deletes && c in Cols(g)
  }

  /** Two Generated indexes deleted by one request both name the column, and nothing else does. */
  predicate SharedByDeletes(db: Db, deletes: seq<string>, creates: seq<Gsi>, c: string) {
    && c in db.columns && c !in BaseCols(db)
    && c !in SpecCols(Kept(Deduped(db.specs), deletes)) && c !in SpecCols(creates)
    && exists g, h :: g in Deduped(db.specs) && h in Deduped(db.specs) && g.name != h.name
        && g.mode == Generated && h.mode == Generated && g.name in deletes && h.name in deletes && c in Cols(g) && c in Cols(h)
  }

  lemma OrphanIsShared(db: Db, deletes: seq<string>, creates: seq<Gsi>, g: Gsi, c: string)
    requires g in Deduped(db.specs) && g.mode == Generated && g.name in deletes && c in Cols(g)
    requires c !in GeneratedDrops(db, deletes) && c !in BaseCols(db) && c !in SpecCols(Kept(Deduped(db.specs), deletes))
    ensures exists h :: h in Deduped(db.specs) && g.name != h.name && h.mode == Generated && h.name in deletes && c in Cols(h)
  {
    assert c !in GeneratedDrop(db, g);
    var h :| h in Without(Deduped(db.specs), g.name) && c in Cols(h);
    NotKeptIsGeneratedDelete(Deduped(db.specs), deletes, h, c);
  }

  lemma SharedIsNotDropped(db: Db, deletes: seq<string>, g: Gsi, h: Gsi, c: string)
    requires g in Deduped(db.specs) && h in Deduped(db.specs) && g.name != h.name && c in Cols(g) && c in Cols(h)
    ensures c !in GeneratedDrops(db, deletes)
  {
    var cached := Deduped(db.specs);
    forall x | x in cached
      ensures c !in GeneratedDrop(db, x)
    {
      assert if x.name == g.name then h in Without(cached, x.name) else g in Without(cached, x.name);
    }
  }

  lemma UpdatedNames(db: Db, deletes: seq<string>, creates: seq<Gsi>)
    requires Accepted(db, deletes, creates) && deletes != []
    ensures var after := UpdateTable(db, deletes, creates);
      && BaseCols(after) == BaseCols(db)
      && SpecCols(after.specs) == SpecCols(Kept(Deduped(db.specs), deletes)) + SpecCols(creates)
      && after.columns == db.columns - GeneratedDrops(db, deletes) + SpecCols(creates)
  {
  }

  /** The synchronous path leaves a column behind exactly when one request deletes two Generated indexes
      that share it: each counts the other as still using it. */
  lemma OrphanExactlyWhenShared(db: Db, deletes: seq<string>, creates: seq<Gsi>, c: string)
    requires Accepted(db, deletes, creates) && deletes != []
    ensures Orphan(db, deletes, creates, c) <==> SharedByDeletes(db, deletes, creates, c)
  {
    UpdatedNames(db, deletes, creates);
    if Orphan(db, deletes, creates, c) {
      var g :| g in Deduped(db.specs) && g.mode == Generated && g.name in deletes && c in Cols(g);
      OrphanIsShared(db, deletes, creates, g, c);
    }
    if SharedByDeletes(db, deletes, creates, c) {
      var g, h :| g in Deduped(db.specs) && h in Deduped(db.specs) && g.name != h.name && g.mode == Generated
                  && h.mode == Generated && g.name in deletes && h.name in deletes && c in Cols(g) && c in Cols(h);
      SharedIsNotDropped(db, deletes, g, h, c);
    }
  }

  lemma TwoSpecsDeduped(g: Gsi, h: Gsi)
    requires g.name != h.name
    ensures Deduped([g, h]) == [g, h]
  {
    assert [g, h][1..] == [h] && [h][1..] == [];
    assert Deduped([h]) == [h] + [];
    NamesCons(h, []);
    assert [h] + [] == [h] && Names([]) == {};
  }

  lemma TwoDeletesKeepNone(g: Gsi, h: Gsi, deletes: seq<string>)
    requires g.mode == h.mode == Generated && g.name in deletes && h.name in deletes
    ensures Kept([g, h], deletes) == []
  {
    assert [g, h][1..] == [h] && [h][1..] == [];
    assert Kept([h], deletes) == [];
  }

  /** Any two Generated indexes with a column of their own in common: deleting both in one request leaves
      it behind, for instance `tier` of an index by tier and one by tier and date. */
  lemma SharedColumnIsLeftBehind(g: Gsi, h: Gsi, c: string, db: Db)
    requires g.mode == h.mode == Generated && g.name != h.name && c in Cols(g) && c in Cols(h)
    requires db.specs == [g, h] && c in db.columns && c !in BaseCols(db)
    ensures Accepted(db, [g.name, h.name], []) && Orphan(db, [g.name, h.name], [], c)
  {
    var deletes := [g.name, h.name];
    TwoSpecsDeduped(g, h);
    TwoDeletesKeepNone(g, h, deletes);
    assert g in db.specs && h in db.specs;
    assert SharedByDeletes(db, deletes, [], c);
    OrphanExactlyWhenShared(db, deletes, [], c);
  }

  lemma TierTable() returns (db: Db, g: Gsi, h: Gsi)
    ensures g.mode == h.mode == Generated && g.name != h.name && "tier" in Cols(g) && "tier" in Cols(h)
    ensures db.specs == [g, h] && "tier" in db.columns && "tier" !in BaseCols(db) && Covered(db)
  {
    g, h := Gsi("byTier", "tier", None, Generated, true), Gsi("byTierAndDate", "tier", Some("date"), Generated, true);
    db := Db({"id", "tier", "date"}, "id", None, [], [g, h], map[]);
  }

  /** One such table, with every named column in place. */
  lemma TierIsLeftBehind() returns (db: Db, deletes: seq<string>)
    ensures Covered(db) && Accepted(db, deletes, []) && Orphan(db, deletes, [], "tier")
  {
    var g, h;
    db, g, h := TierTable();
    deletes := [g.name, h.name];
    SharedColumnIsLeftBehind(g, h, "tier", db);
  }

  lemma NotKeptIsGeneratedDelete(cached: seq<Gsi>, deletes: seq<string>, h: Gsi, c: string)
    requires h in cached && c in Cols(h) && c !in SpecCols(Kept(cached, deletes))
    ensures h.mode == Generated && h.name in deletes
  {
    assert Cols(h.(serveable := false)) == Cols(h);
  }

  // ----- as the code runs ----------------------------------------------------------------------------

  /** The refcount over siblings: base key, local indexes, then each sibling's columns. */
  method BuildReferencedColumns(siblings: seq<Gsi>, pk: string, sk: Option<string>, lsiCols: seq<string>)
    returns (used: set<string>)
    ensures used == {pk} + OptCol(sk) + (set c | c in lsiCols) + SpecCols(siblings)
  {
    used := {pk};
    if sk.Some? { used := used + {sk.value}; }
    ghost var base := used;
    for i := 0 to |lsiCols|
      invariant used == base + (set c | c in lsiCols[..i])
    {
      assert lsiCols[..i + 1] == lsiCols[..i] + [lsiCols[i]];
      used := used + {lsiCols[i]};
    }
    assert lsiCols[..|lsiCols|] == lsiCols;
    base := used;
    for i := 0 to |siblings|
      invariant used == base + SpecCols(siblings[..i])
    {
      SpecColsSnoc(siblings, i);
      used := used + {siblings[i].partition};
      if siblings[i].sort.Some? { used := used + {siblings[i].sort.value}; }
    }
    assert siblings[..|siblings|] == siblings;
  }

  lemma SpecColsSnoc(specs: seq<Gsi>, i: nat)
    requires i < |specs|
    ensures SpecCols(specs[..i + 1]) == SpecCols(specs[..i]) + Cols(specs[i])
  {
    assert specs[..i + 1] == specs[..i] + [specs[i]];
  }

  /** The worker's refcount over the re-read row: every index except the one being removed. */
  method RefcountReferencedColumns(db: Db, name: string) returns (used: set<string>)
    ensures used == BaseCols(db) + SpecCols(Without(db.specs, name))
  {
    used := BuildReferencedColumns([], db.pk, db.sk, db.lsiCols);
    assert used == BaseCols(db);
    for i := 0 to |db.specs|
      invariant used == BaseCols(db) + (set g, c | g in db.specs[..i] && g.name != name && c in Cols(g) :: c)
    {
      assert db.specs[..i + 1] == db.specs[..i] + [db.specs[i]];
      if db.specs[i].name != name { used := used + Cols(db.specs[i]); }
    }
    assert db.specs[..|db.specs|] == db.specs;
  }

  method DeriveOwnedColumns(specs: seq<Gsi>, name: string) returns (owned: set<string>)
    ensures owned == SpecCols(Only(specs, name))
  {
    owned := {};
    for i := 0 to |specs|
      invariant owned == set g, c | g in specs[..i] && g.name == name && c in Cols(g) :: c
    {
      assert specs[..i + 1] == specs[..i] + [specs[i]];
      if specs[i].name == name { owned := owned + Cols(specs[i]); }
    }
    assert specs[..|specs|] == specs;
  }

  /** The new indexes' columns and state rows. */
  function Created(db: Db, creates: seq<Gsi>): Db {
    db.(columns := db.columns + SpecCols(creates), phases := db.phases + (map n | n in Names(creates) :: Backfilling))
  }

  lemma NamesSnoc(specs: seq<Gsi>, i: nat)
    requires i < |specs|
    ensures Names(specs[..i + 1]) == Names(specs[..i]) + {specs[i].name}
  {
    assert specs[..i + 1] == specs[..i] + [specs[i]];
  }

  lemma BackfillingSnoc(phases: map<string, Phase>, names: set<string>, name: string)
    ensures phases + (map n | n in names + {name} :: Backfilling) == (phases + (map n | n in names :: Backfilling))[name := Backfilling]
  {
  }

  lemma CreatedSnoc(db: Db, creates: seq<Gsi>, i: nat)
    requires i < |creates|
    ensures var mid := Created(db, creates[..i]);
      Created(db, creates[..i + 1])
      == mid.(columns := mid.columns + Cols(creates[i]), phases := mid.phases[creates[i].name := Backfilling])
  {
    SpecColsSnoc(creates, i);
    NamesSnoc(creates, i);
    BackfillingSnoc(db.phases, Names(creates[..i]), creates[i].name);
  }

  lemma SameNameSameSpec(specs: seq<Gsi>, g: Gsi, h: Gsi)
    requires g in Deduped(specs) && h in Deduped(specs) && g.name == h.name
    ensures g == h
  {
    var cached := Deduped(specs);
    var i, j :| 0 <= i < |cached| && cached[i] == g && 0 <= j < |cached| && cached[j] == h;
  }

  lemma DeleteStep(row: Db, deletes: seq<string>, i: nat, g: Gsi)
    requires i < |deletes| && g in Deduped(row.specs) && g.name == deletes[i]
    ensures GeneratedDrops(row, deletes[..i + 1])
         == GeneratedDrops(row, deletes[..i]) + (if g.mode == Generated then GeneratedDrop(row, g) else {})
    ensures StartRemovals(row, deletes[..i + 1])
         == var before := StartRemovals(row, deletes[..i]);
            if g.mode == DualWrite && g.name in row.phases then before[g.name := RemovingIndex] else before
  {
    assert deletes[..i + 1] == deletes[..i] + [deletes[i]];
    forall h | h in Deduped(row.specs) && h.name == g.name
      ensures h == g
    {
      SameNameSameSpec(row.specs, g, h);
    }
  }

  datatype Outcome = Done | NoStateRow | WrongPhase | DropFailed

  class Worker {
    var db: Db

    constructor (db: Db)
      ensures this.db == db
    {
      this.db := db;
    }

    /** One uninterrupted worker: from whichever removing phase a crash left behind it ends with the index
        gone from the row and its unshared columns gone from the table, or reports why it stopped. */
    method RunRemovalToGone(name: string, indexDropFails: bool) returns (r: Outcome)
      requires Covered(db)
      modifies this
      ensures Covered(db)
      ensures r == NoStateRow <==> name !in old(db).phases
      ensures name in old(db).phases ==> match old(db).phases[name]
        case Gone => r == Done && db == old(db)
        case RemovingIndex => if indexDropFails then r == DropFailed && db == SetPhase(old(db), name, Failed)
                              else r == Done && db == FinishRemoval(old(db), name)
        case RemovingColumn => r == Done && db == FinishRemoval(old(db), name)
        case _ => r == WrongPhase && db == old(db)
    {
      if name !in db.phases { return NoStateRow; }
      var phase := db.phases[name];
      if phase == Gone { return Done; }
      if phase !in {RemovingIndex, RemovingColumn} { return WrongPhase; }
      FinishKeepsColumns(db, name);
      if phase == RemovingIndex {
        if indexDropFails {
          db := SetPhase(db, name, Failed);
          return DropFailed;
        }
        db := SetPhase(db, name, RemovingColumn);
      }
      var used := RefcountReferencedColumns(db, name);
      var owned := DeriveOwnedColumns(db.specs, name);
      db := db.(columns := db.columns - (owned - used));
      db := db.(specs := Without(db.specs, name));
      db := SetPhase(db, name, Gone);
      assert db.phases == FinishRemoval(old(db), name).phases;
      return Done;
    }

    /** UpdateTable in one transaction: deletes against the cached row, the merged spec list, then the new
        indexes' columns and state rows. */
    method RunUpdateTable(deletes: seq<string>, creates: seq<Gsi>) returns (ok: bool)
      modifies this
      ensures ok <==> Accepted(old(db), deletes, creates)
      ensures db == UpdateTable(old(db), deletes, creates)
    {
      if !Accepted(db, deletes, creates) { return false; }
      ApplyDeletes(deletes);
      if deletes != [] || creates != [] {
        db := db.(specs := Kept(Deduped(db.specs), deletes) + creates);
      }
      ApplyCreates(creates);
      return true;
    }

    method ApplyDeletes(deletes: seq<string>)
      requires forall n :: n in deletes ==> n in Names(db.specs)
      modifies this
      ensures db == old(db).(columns := old(db).columns - GeneratedDrops(old(db), deletes),
                             phases := StartRemovals(old(db), deletes))
    {
      var row := db;
      var cached := Deduped(row.specs);
      assert StartRemovals(row, deletes[..0]) == row.phases;
      for i := 0 to |deletes|
        invariant db == row.(columns := row.columns - GeneratedDrops(row, deletes[..i]),
                             phases := StartRemovals(row, deletes[..i]))
      {
        assert deletes[i] in Names(cached);
        var g :| g in cached && g.name == deletes[i];
        DeleteStep(row, deletes, i, g);
        match g.mode
        case Generated => DropGeneratedGsi(g, Without(cached, g.name));
        case DualWrite => db := SetPhase(db, g.name, RemovingIndex);
      }
      assert deletes[..|deletes|] == deletes;
    }

    method ApplyCreates(creates: seq<Gsi>)
      modifies this
      ensures db == Created(old(db), creates)
    {
      var before := db;
      assert db == Created(before, creates[..0]);
      for i := 0 to |creates|
        invariant db == Created(before, creates[..i])
      {
        CreatedSnoc(before, creates, i);
        db := db.(columns := db.columns + Cols(creates[i]), phases := db.phases[creates[i].name := Backfilling]);
      }
      assert creates[..|creates|] == creates;
    }

    /** The Generated half of UpdateTable: one delete, its siblings being the other cached indexes. */
    method DropGeneratedGsi(g: Gsi, siblings: seq<Gsi>)
      modifies this
      ensures db == old(db).(columns := old(db).columns - (Cols(g) - (BaseCols(old(db)) + SpecCols(siblings))))
    {
      var used := BuildReferencedColumns(siblings, db.pk, db.sk, db.lsiCols);
      assert used == BaseCols(db) + SpecCols(siblings);
      if g.partition !in used { db := db.(columns := db.columns - {g.partition}); }
      if g.sort.Some? && g.sort.value !in used { db := db.(columns := db.columns - {g.sort.value}); }
    }
  }
}
