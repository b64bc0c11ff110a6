/** `query_raw` and `scan_raw`: the WHERE clause with its pagination term, the decode loop, and the
    cursor handed back to the client. */
module QueryScan {
  import opened Values
  import opened Storage
  import opened KeyCondition
  import opened Pagination

  const DEFAULT_LIMIT := 1000

  datatype PageOutcome =
    PageOutcome(items: seq<Item>, count: nat, scannedCount: nat, lastEvaluatedKey: Option<Key>)

  datatype QueryResult = Page(outcome: PageOutcome) | UnexpectedSortKey

  function Direction(collate: Collation, forward: bool): KeyOrder {
    if forward then (a, b) => KeyLess(collate, a, b) else (a, b) => KeyLess(collate, b, a)
  }

  /** Either direction of `ORDER BY pk, sk` is a strict total order, under every collation. */
  lemma DirectionIsStrictTotal(collate: Collation, forward: bool)
    requires StrictTotal(collate)
    ensures StrictTotal(Direction(collate, forward))
  {
    var lt := Direction(collate, forward);
    forall a, b, c: Key
      ensures !lt(a, a)
      ensures lt(a, b) && lt(b, c) ==> lt(a, c)
      ensures a != b ==> lt(a, b) || lt(b, a)
    {
      KeyLessStrict(collate, a, b, c);
      KeyLessStrict(collate, c, b, a);
    }
  }

  ghost predicate TypedRows(shape: Shape, rows: Table) {
    forall k :: k in rows ==> TypedKey(shape, k)
  }

  // ----- the WHERE clauses ---------------------------------------------------------------

  /** Query compares the cursor's sort key only; a cursor without one adds no term. */
  predicate SkBeyond(collate: Collation, esk: Option<Key>, forward: bool, k: Key) {
    esk.Some? && esk.value.sk.Some? ==>
      k.sk.Some? && (if forward then ColLess(collate, esk.value.sk.value, k.sk.value) else ColLess(collate, k.sk.value, esk.value.sk.value))
  }

  function QueryWhere(collate: Collation, b: KeyBounds, esk: Option<Key>, forward: bool): Key -> bool
    requires Casts(b)
  {
    k => Selects(collate, b, k) && SkBeyond(collate, esk, forward, k)
  }

  /** The keys one `query_raw` call scans: none on a hash-only table resumed from a cursor. */
  ghost predicate QueryScans(collate: Collation, page: seq<Key>, shape: Shape, rows: Table, b: KeyBounds, esk: Option<Key>,
                             forward: bool, limit: nat)
    requires Casts(b)
  {
    if shape.sk.None? && esk.Some? then page == []
    else IsSelect(page, rows, QueryWhere(collate, b, esk, forward), Direction(collate, forward), limit)
  }

  function ScanWhere(collate: Collation, esk: Option<Key>): Key -> bool {
    k => esk.None? || KeyLess(collate, esk.value, k)
  }

  // ----- the page as written -----------------------------------------------------------------

  predicate AllIn(rows: Table, keys: seq<Key>) { forall i :: 0 <= i < |keys| ==> keys[i] in rows }

  function KeptItems(rows: Table, page: seq<Key>, keep: Item -> bool): seq<Item>
    requires AllIn(rows, page)
  {
    if page == [] then []
    else
      var front, d := KeptItems(rows, page[..|page| - 1], keep), rows[page[|page| - 1]].data;
      if keep(d) then front + [d] else front
  }

  /** Decodes every scanned row before filtering, so that the cursor is the last scanned key even when
      the filter drops it. */
  method DecodePage(shape: Shape, rows: Table, page: seq<Key>, limit: nat, keep: Item -> bool)
    returns (o: PageOutcome)
    requires WellKeyed(shape, rows)
    requires forall i :: 0 <= i < |page| ==> page[i] in rows
    ensures o.items == KeptItems(rows, page, keep) && o.count == |o.items|
    ensures o.scannedCount == |page| && o.lastEvaluatedKey == Lek(page, limit)
  {
    var scanned: seq<Item> := [];
    for i := 0 to |page|
      invariant |scanned| == i
      invariant forall j :: 0 <= j < i ==> scanned[j] == rows[page[j]].data
    {
      scanned := scanned + [rows[page[i]].data];
    }
    var lek: Option<Key> := None;
    if |scanned| == limit && |scanned| > 0 {
      lek := KeyOf(shape, scanned[|scanned| - 1]);
    }
    var items: seq<Item> := [];
    for i := 0 to |scanned|
      invariant items == KeptItems(rows, page[..i], keep)
    {
      assert page[..i + 1][..i] == page[..i];
      if keep(scanned[i]) { items := items + [scanned[i]]; }
    }
    assert page[..|page|] == page;
    o := PageOutcome(items, |items|, |scanned|, lek);
  }

  /** `answer` is what Postgres returns for the assembled SELECT. */
  method QueryRaw(collate: Collation, shape: Shape, rows: Table, b: KeyBounds, limit: Option<nat>, esk: Option<Key>,
                  keep: Item -> bool, forward: bool, answer: seq<Key>) returns (r: QueryResult, ghost page: seq<Key>)
    requires Casts(b) && WellKeyed(shape, rows)
    requires IsSelect(answer, rows, QueryWhere(collate, b, esk, forward), Direction(collate, forward),
                      if limit.Some? then limit.value else DEFAULT_LIMIT)
    ensures r.UnexpectedSortKey? <==> b.sk.Some? && shape.sk.None?
    ensures r.Page? ==>
      var lim := if limit.Some? then limit.value else DEFAULT_LIMIT;
      && QueryScans(collate, page, shape, rows, b, esk, forward, lim)
      && r.outcome.items == KeptItems(rows, page, keep)
      && r.outcome.scannedCount == |page|
      && (lim >= 1 ==> r.outcome.lastEvaluatedKey == Lek(page, lim))
  {
    page := [];
    if b.sk.Some? && shape.sk.None? { return UnexpectedSortKey, page; }
    if shape.sk.None? && esk.Some? { return Page(PageOutcome([], 0, 0, None)), page; }
    var lim := if limit.Some? then limit.value else DEFAULT_LIMIT;
    page := answer;
    var o := DecodePage(shape, rows, answer, lim, keep);
    return Page(o), page;
  }

  method ScanRaw(collate: Collation, shape: Shape, rows: Table, limit: Option<nat>, esk: Option<Key>, keep: Item -> bool, answer: seq<Key>)
    returns (o: PageOutcome)
    requires WellKeyed(shape, rows)
    requires IsSelect(answer, rows, ScanWhere(collate, esk), Direction(collate, true), if limit.Some? then limit.value else DEFAULT_LIMIT)
    ensures o.items == KeptItems(rows, answer, keep) && o.scannedCount == |answer|
    ensures o.lastEvaluatedKey == Lek(answer, if limit.Some? then limit.value else DEFAULT_LIMIT)
  {
    o := DecodePage(shape, rows, answer, if limit.Some? then limit.value else DEFAULT_LIMIT, keep);
  }

  // ----- the items of all pages ------------------------------------------------------------------

  /** What a client collects: the items of page after page. */
  function CollectedItems(rows: Table, pages: seq<seq<Key>>, keep: Item -> bool): seq<Item>
    requires forall i :: 0 <= i < |pages| ==> AllIn(rows, pages[i])
  {
    if pages == [] then []
    else
      assert AllIn(rows, pages[|pages| - 1]);
      CollectedItems(rows, pages[..|pages| - 1], keep) + KeptItems(rows, pages[|pages| - 1], keep)
  }

  lemma {:induction false} KeptItemsJoin(rows: Table, a: seq<Key>, b: seq<Key>, keep: Item -> bool)
    requires AllIn(rows, a) && AllIn(rows, b)
    ensures AllIn(rows, a + b) && KeptItems(rows, a + b, keep) == KeptItems(rows, a, keep) + KeptItems(rows, b, keep)
  {
    if b == [] {
      assert a + b == a;
    } else {
      var front := b[..|b| - 1];
      assert (a + b)[..|a + b| - 1] == a + front;
      KeptItemsJoin(rows, a, front, keep);
    }
  }

  /** Filtering page by page is filtering the whole range. */
  lemma {:induction false} CollectedIsFilteredRange(rows: Table, pages: seq<seq<Key>>, keep: Item -> bool)
    requires forall i :: 0 <= i < |pages| ==> AllIn(rows, pages[i])
    ensures AllIn(rows, Concat(pages)) && CollectedItems(rows, pages, keep) == KeptItems(rows, Concat(pages), keep)
  {
    if pages != [] {
      var n := |pages| - 1;
      CollectedIsFilteredRange(rows, pages[..n], keep);
      KeptItemsJoin(rows, Concat(pages[..n]), pages[n], keep);
    }
  }

  // ----- pages over a whole query ---------------------------------------------------------------

  /** A client pages through a query, each page on the table of its moment. */
  ghost predicate IsQueryRun(collate: Collation, shape: Shape, tables: seq<Table>, pages: seq<seq<Key>>, b: KeyBounds,
                             forward: bool, limit: nat)
    requires Casts(b)
  {
    && |tables| == |pages|
    && (forall i :: 0 <= i < |tables| ==> TypedRows(shape, tables[i]))
    && (forall i :: 0 <= i < |pages| ==>
          QueryScans(collate, pages[i], shape, tables[i], b, CursorBefore(pages, i, limit), forward, limit))
    && (forall i :: 0 <= i < |pages| - 1 ==> Lek(pages[i], limit).Some?)
  }

  ghost predicate IsScanRun(collate: Collation, tables: seq<Table>, pages: seq<seq<Key>>, limit: nat) {
    && |tables| == |pages|
    && (forall i :: 0 <= i < |pages| ==>
          IsSelect(pages[i], tables[i], ScanWhere(collate, CursorBefore(pages, i, limit)), Direction(collate, true), limit))
    && (forall i :: 0 <= i < |pages| - 1 ==> Lek(pages[i], limit).Some?)
  }

  /** Comparing sort keys inside the partition is the full key order, and a hash-only partition holds
      nothing past its one row. */
  lemma QueryPageIsKeysetPage(collate: Collation, page: seq<Key>, shape: Shape, rows: Table, b: KeyBounds, cursor: Option<Key>,
                              forward: bool, limit: nat)
    requires StrictTotal(collate) && Casts(b) && TypedRows(shape, rows)
    requires QueryScans(collate, page, shape, rows, b, cursor, forward, limit)
    requires cursor.Some? ==> TypedKey(shape, cursor.value) && Selects(collate, b, cursor.value)
    ensures IsPage(page, rows, k => Selects(collate, b, k), cursor, Direction(collate, forward), limit)
  {
    if cursor.Some? && shape.sk.None? {
      forall k | k in rows && Selects(collate, b, k)
        ensures !After(Direction(collate, forward), cursor, k)
      {
        assert k == cursor.value;
        KeyLessStrict(collate, k, k, k);
      }
    } else {
      SelectIsPage(page, rows, QueryWhere(collate, b, cursor, forward), k => Selects(collate, b, k), cursor,
                   Direction(collate, forward), limit);
    }
  }

  /** A query run is a keyset paging of the keys its condition selects, so the paging theorems hold. */
  lemma QueryRunIsPaging(collate: Collation, shape: Shape, tables: seq<Table>, pages: seq<seq<Key>>, b: KeyBounds,
                         forward: bool, limit: nat)
    requires StrictTotal(collate) && Casts(b) && IsQueryRun(collate, shape, tables, pages, b, forward, limit)
    ensures IsPaging(tables, pages, k => Selects(collate, b, k), Direction(collate, forward), limit)
  {
    var matches := k => Selects(collate, b, k);
    var lt := Direction(collate, forward);
    forall i | 0 <= i < |pages|
      ensures IsPage(pages[i], tables[i], matches, CursorBefore(pages, i, limit), lt, limit)
    {
      var cursor := CursorBefore(pages, i, limit);
      CursorIsSelected(collate, shape, tables, pages, b, forward, limit, i);
      QueryPageIsKeysetPage(collate, pages[i], shape, tables[i], b, cursor, forward, limit);
    }
  }

  lemma CursorIsSelected(collate: Collation, shape: Shape, tables: seq<Table>, pages: seq<seq<Key>>, b: KeyBounds, forward: bool,
                         limit: nat, i: nat)
    requires Casts(b) && IsQueryRun(collate, shape, tables, pages, b, forward, limit) && i < |pages|
    ensures
      var cursor := CursorBefore(pages, i, limit);
      cursor.Some? ==> TypedKey(shape, cursor.value) && Selects(collate, b, cursor.value)
  {
    if i > 0 {
      assert QueryScans(collate, pages[i - 1], shape, tables[i - 1], b, CursorBefore(pages, i - 1, limit), forward, limit);
    }
  }

  lemma ScanRunIsPaging(collate: Collation, tables: seq<Table>, pages: seq<seq<Key>>, limit: nat)
    requires IsScanRun(collate, tables, pages, limit)
    ensures IsPaging(tables, pages, k => true, Direction(collate, true), limit)
  {
    var matches := (k: Key) => true;
    forall i | 0 <= i < |pages|
      ensures IsPage(pages[i], tables[i], matches, CursorBefore(pages, i, limit), Direction(collate, true), limit)
    {
      var cursor := CursorBefore(pages, i, limit);
      SelectIsPage(pages[i], tables[i], ScanWhere(collate, cursor), matches, cursor, Direction(collate, true), limit);
    }
  }

  /** Query over many pages with arbitrary writes in between, in either direction. */
  lemma QueryPaginationIsExact(collate: Collation, shape: Shape, tables: seq<Table>, pages: seq<seq<Key>>, b: KeyBounds,
                               forward: bool, limit: nat, keep: Item -> bool)
    requires StrictTotal(collate) && Casts(b) && limit >= 1 && IsQueryRun(collate, shape, tables, pages, b, forward, limit)
    ensures forall i, j :: 0 <= i < j < |Concat(pages)| ==> Direction(collate, forward)(Concat(pages)[i], Concat(pages)[j])
    ensures Finished(pages, limit) ==>
      forall k :: Selects(collate, b, k) && (forall i :: 0 <= i < |tables| ==> k in tables[i]) ==> k in Concat(pages)
    ensures Finished(pages, limit) && (forall i :: 0 <= i < |tables| ==> tables[i] == tables[0]) ==>
      && (forall k :: k in Concat(pages) <==> k in tables[0] && Selects(collate, b, k))
      && (forall i :: 0 <= i < |pages| ==> AllIn(tables[0], pages[i]))
      && CollectedItems(tables[0], pages, keep) == KeptItems(tables[0], Concat(pages), keep)
      && |pages| == |Concat(pages)| / limit + 1
  {
    var matches := k => Selects(collate, b, k);
    QueryRunIsPaging(collate, shape, tables, pages, b, forward, limit);
    DirectionIsStrictTotal(collate, forward);
    PagesAreStrictlyMonotone(tables, pages, matches, Direction(collate, forward), limit);
    if Finished(pages, limit) {
      forall k | Selects(collate, b, k) && (forall i :: 0 <= i < |tables| ==> k in tables[i])
        ensures k in Concat(pages)
      {
        PagesMissNoStableKey(tables, pages, matches, Direction(collate, forward), limit, k);
      }
      if forall i :: 0 <= i < |tables| ==> tables[i] == tables[0] {
        StaticPagingIsTheSortedRange(tables[0], tables, pages, matches, Direction(collate, forward), limit);
        CollectedIsFilteredRange(tables[0], pages, keep);
      }
    }
  }

  /** Scan over many pages with arbitrary writes in between. */
  lemma ScanPaginationIsExact(collate: Collation, tables: seq<Table>, pages: seq<seq<Key>>, limit: nat, keep: Item -> bool)
    requires StrictTotal(collate) && limit >= 1 && IsScanRun(collate, tables, pages, limit)
    ensures forall i, j :: 0 <= i < j < |Concat(pages)| ==> Direction(collate, true)(Concat(pages)[i], Concat(pages)[j])
    ensures Finished(pages, limit) ==>
      forall k :: (forall i :: 0 <= i < |tables| ==> k in tables[i]) ==> k in Concat(pages)
    ensures Finished(pages, limit) && (forall i :: 0 <= i < |tables| ==> tables[i] == tables[0]) ==>
      && (forall k :: k in Concat(pages) <==> k in tables[0])
      && (forall i :: 0 <= i < |pages| ==> AllIn(tables[0], pages[i]))
      && CollectedItems(tables[0], pages, keep) == KeptItems(tables[0], Concat(pages), keep)
      && |pages| == |Concat(pages)| / limit + 1
  {
    var matches := (k: Key) => true;
    ScanRunIsPaging(collate, tables, pages, limit);
    DirectionIsStrictTotal(collate, true);
    PagesAreStrictlyMonotone(tables, pages, matches, Direction(collate, true), limit);
    if Finished(pages, limit) {
      forall k | forall i :: 0 <= i < |tables| ==> k in tables[i]
        ensures k in Concat(pages)
      {
        PagesMissNoStableKey(tables, pages, matches, Direction(collate, true), limit, k);
      }
      if forall i :: 0 <= i < |tables| ==> tables[i] == tables[0] {
        StaticPagingIsTheSortedRange(tables[0], tables, pages, matches, Direction(collate, true), limit);
        CollectedIsFilteredRange(tables[0], pages, keep);
      }
    }
  }

  // ----- the cursor's way back through the client -----------------------------------------------

  /** `encode_lek`: the key attributes of the last scanned row. */
  function EncodeLek(shape: Shape, row: Item): Item
    requires KeyOf(shape, row).Some?
  {
    var m := map[shape.pk.name := row[shape.pk.name]];
    if shape.sk.None? then m else m[shape.sk.value.name := row[shape.sk.value.name]]
  }

  /** `decode_esk`: the cursor's partition key must be the query's, compared as written. */
  predicate EskAccepted(shape: Shape, esk: Item, pk: AttributeValue) {
    && shape.pk.name in esk && ToKeyValue(esk[shape.pk.name], shape.pk.keyType).Some?
    && esk[shape.pk.name] == pk
    && (shape.sk.Some? ==>
          shape.sk.value.name in esk && ToKeyValue(esk[shape.sk.value.name], shape.sk.value.keyType).Some?)
    && forall a :: a in esk ==> IsKeyAttr(shape, a)
  }

  /** A returned cursor is accepted by the next request exactly when the row writes its partition key
      the way the query does: always for S and B, not for N, where 1 and 1.0 are one partition. */
  lemma CursorAcceptedExactly(shape: Shape, row: Item, pk: AttributeValue)
    requires DistinctKeyNames(shape)
    requires KeyOf(shape, row).Some? && Typed(pk, shape.pk.keyType) == Some(KeyOf(shape, row).value.pk)
    ensures EskAccepted(shape, EncodeLek(shape, row), pk) <==> row[shape.pk.name] == pk
    ensures !shape.pk.keyType.KeyN? ==> EskAccepted(shape, EncodeLek(shape, row), pk)
  {
  }

  /** A row that spells its key 1.0, queried as 1: the query selects it and its cursor is refused. */
  lemma OtherSpellingIsRefused()
    ensures var shape := Shape(KeyAttr("id", KeyN), Some(KeyAttr("at", KeyS)), []);
      var row: Item := map["id" := N("1.0"), "at" := S("x")];
      && KeyOf(shape, row).Some? && Typed(N("1"), KeyN) == Some(KeyOf(shape, row).value.pk)
      && !EskAccepted(shape, EncodeLek(shape, row), N("1"))
  {
    OneIsOnePointZero();
    var shape := Shape(KeyAttr("id", KeyN), Some(KeyAttr("at", KeyS)), []);
    var row: Item := map["id" := N("1.0"), "at" := S("x")];
    assert KeyOf(shape, row) == Some(Key(Numeric(1.0), Some(Text("x"))));
  }
}
