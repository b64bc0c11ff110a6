/** Keyset pagination of Query and Scan: each page is one SELECT … ORDER BY … LIMIT on the table of
    the moment, resumed from the key of the last row scanned. */
module Pagination {
  import opened Values
  import opened Storage

  // ----- one SELECT -------------------------------------------------------------------

  type KeyOrder = (Key, Key) -> bool

  /** What `SELECT … WHERE w ORDER BY lt LIMIT limit` may answer. */
  ghost predicate IsSelect(page: seq<Key>, rows: Table, w: Key -> bool, lt: KeyOrder, limit: nat) {
    && |page| <= limit
    && (forall i :: 0 <= i < |page| ==> page[i] in rows && w(page[i]))
    && (forall i, j :: 0 <= i < j < |page| ==> lt(page[i], page[j]))
    && (forall k :: k in rows && w(k) && k !in page ==>
          |page| == limit && forall i :: 0 <= i < |page| ==> lt(page[i], k))
  }

  /** LastEvaluatedKey: the last scanned key, exactly when the page filled to the limit. */
  function Lek(page: seq<Key>, limit: nat): Option<Key> {
    if |page| == limit && page != [] then Some(page[|page| - 1]) else None
  }

  predicate After(lt: KeyOrder, cursor: Option<Key>, k: Key) {
    cursor.None? || lt(cursor.value, k)
  }

  // ----- a client following LastEvaluatedKey ---------------------------------------------

  function CursorBefore(pages: seq<seq<Key>>, i: nat, limit: nat): Option<Key>
    requires i <= |pages|
  {
    if i == 0 then None else Lek(pages[i - 1], limit)
  }

  /** One SELECT resumed after `cursor`: all of the next matching keys, at most `limit` of them, in order. */
  ghost predicate IsPage(page: seq<Key>, rows: Table, matches: Key -> bool, cursor: Option<Key>, lt: KeyOrder, limit: nat) {
    && |page| <= limit
    && (forall i :: 0 <= i < |page| ==> page[i] in rows && matches(page[i]) && After(lt, cursor, page[i]))
    && Increasing(page, lt)
    && (forall k :: k in rows && matches(k) && After(lt, cursor, k) && k !in page ==>
          |page| == limit && forall i :: 0 <= i < |page| ==> lt(page[i], k))
  }

  ghost predicate Increasing(keys: seq<Key>, lt: KeyOrder) {
    forall i, j :: 0 <= i < j < |keys| ==> lt(keys[i], keys[j])
  }

  lemma SelectIsPage(page: seq<Key>, rows: Table, w: Key -> bool, matches: Key -> bool, cursor: Option<Key>, lt: KeyOrder,
                     limit: nat)
    requires IsSelect(page, rows, w, lt, limit)
    requires forall k :: k in rows ==> w(k) == (matches(k) && After(lt, cursor, k))
    ensures IsPage(page, rows, matches, cursor, lt, limit)
  {
  }

  /** Page `i` reads `tables[i]`: between pages the table may change in any way. */
  ghost predicate IsPaging(tables: seq<Table>, pages: seq<seq<Key>>, matches: Key -> bool, lt: KeyOrder, limit: nat) {
    && |tables| == |pages|
    && (forall i :: 0 <= i < |pages| ==>
          IsPage(pages[i], tables[i], matches, CursorBefore(pages, i, limit), lt, limit))
    && (forall i :: 0 <= i < |pages| - 1 ==> Lek(pages[i], limit).Some?)
  }

  /** The last page carries no cursor. */
  predicate Finished(pages: seq<seq<Key>>, limit: nat) {
    pages != [] && Lek(pages[|pages| - 1], limit).None?
  }

  function Concat(pages: seq<seq<Key>>): seq<Key> {
    if pages == [] then [] else Concat(pages[..|pages| - 1]) + pages[|pages| - 1]
  }

  lemma PagingPrefix(tables: seq<Table>, pages: seq<seq<Key>>, matches: Key -> bool, lt: KeyOrder, limit: nat)
    requires IsPaging(tables, pages, matches, lt, limit) && pages != []
    ensures IsPaging(tables[..|pages| - 1], pages[..|pages| - 1], matches, lt, limit)
    ensures |pages| > 1 ==> Lek(pages[|pages| - 2], limit).Some?
  {
    var n := |pages| - 1;
    forall i | 0 <= i < n
      ensures IsPage(pages[..n][i], tables[..n][i], matches, CursorBefore(pages[..n], i, limit), lt, limit)
    {
      assert CursorBefore(pages[..n], i, limit) == CursorBefore(pages, i, limit);
    }
  }

  lemma CursorOfPrefix(pages: seq<seq<Key>>, n: nat, limit: nat)
    requires n <= |pages|
    ensures CursorBefore(pages[..n], n, limit) == CursorBefore(pages, n, limit)
  {
  }

  /** The cursor is the last key returned so far. */
  lemma CursorIsLastKey(pages: seq<seq<Key>>, limit: nat)
    requires pages != [] ==> Lek(pages[|pages| - 1], limit).Some?
    ensures Concat(pages) != [] ==> CursorBefore(pages, |pages|, limit) == Some(Concat(pages)[|Concat(pages)| - 1])
  {
    if pages != [] {
      var front, last := Concat(pages[..|pages| - 1]), pages[|pages| - 1];
      assert Concat(pages) == front + last;
    }
  }

  lemma IncreasingJoin(front: seq<Key>, last: seq<Key>, lt: KeyOrder)
    requires StrictTotal(lt) && Increasing(front, lt) && Increasing(last, lt)
    requires front != [] ==> forall j :: 0 <= j < |last| ==> lt(front[|front| - 1], last[j])
    ensures Increasing(front + last, lt)
  {
    forall i, j | 0 <= i < j < |front| + |last|
      ensures lt((front + last)[i], (front + last)[j])
    {
      if i < |front| <= j {
        assert lt(front[|front| - 1], last[j - |front|]);
        assert i < |front| - 1 ==> lt(front[i], front[|front| - 1]);
      }
    }
  }

  lemma IncreasingPage(front: seq<Key>, page: seq<Key>, rows: Table, matches: Key -> bool, cursor: Option<Key>, lt: KeyOrder,
                       limit: nat)
    requires StrictTotal(lt) && Increasing(front, lt) && IsPage(page, rows, matches, cursor, lt, limit)
    requires front != [] ==> cursor == Some(front[|front| - 1])
    ensures Increasing(front + page, lt)
  {
    IncreasingJoin(front, page, lt);
  }

  /** Keys come back strictly in scan order over all pages, so none comes back twice, whatever is
      written between pages. */
  lemma {:induction false} PagesAreStrictlyMonotone(tables: seq<Table>, pages: seq<seq<Key>>, matches: Key -> bool,
                                                   lt: KeyOrder, limit: nat)
    requires StrictTotal(lt) && limit >= 1
    requires IsPaging(tables, pages, matches, lt, limit)
    ensures Increasing(Concat(pages), lt)
  {
    if pages != [] {
      var n := |pages| - 1;
      PagingPrefix(tables, pages, matches, lt, limit);
      PagesAreStrictlyMonotone(tables[..n], pages[..n], matches, lt, limit);
      CursorIsLastKey(pages[..n], limit);
      CursorOfPrefix(pages, n, limit);
      IncreasingPage(Concat(pages[..n]), pages[n], tables[n], matches, CursorBefore(pages, n, limit), lt, limit);
    }
  }

  lemma InConcat(pages: seq<seq<Key>>, k: Key)
    requires pages != [] && k !in Concat(pages)
    ensures k !in Concat(pages[..|pages| - 1]) && k !in pages[|pages| - 1]
  {
  }

  lemma UnseenKeyStaysAhead(page: seq<Key>, rows: Table, matches: Key -> bool, cursor: Option<Key>, lt: KeyOrder, limit: nat,
                            k: Key)
    requires limit >= 1 && IsPage(page, rows, matches, cursor, lt, limit)
    requires k in rows && matches(k) && After(lt, cursor, k) && k !in page
    ensures Lek(page, limit).Some? && After(lt, Lek(page, limit), k)
  {
  }

  /** A key that is there on every page and matches is either returned or still ahead of the cursor. */
  lemma {:induction false} UnseenKeyIsAhead(tables: seq<Table>, pages: seq<seq<Key>>, matches: Key -> bool,
                                            lt: KeyOrder, limit: nat, k: Key)
    requires limit >= 1 && IsPaging(tables, pages, matches, lt, limit)
    requires matches(k) && (forall i :: 0 <= i < |tables| ==> k in tables[i])
    requires k !in Concat(pages)
    ensures After(lt, CursorBefore(pages, |pages|, limit), k) && (pages != [] ==> CursorBefore(pages, |pages|, limit).Some?)
  {
    if pages != [] {
      var n := |pages| - 1;
      PagingPrefix(tables, pages, matches, lt, limit);
      InConcat(pages, k);
      UnseenKeyIsAhead(tables[..n], pages[..n], matches, lt, limit, k);
      CursorOfPrefix(pages, n, limit);
      UnseenKeyStaysAhead(pages[n], tables[n], matches, CursorBefore(pages, n, limit), lt, limit, k);
    }
  }

  /** Every key present throughout and matching is scanned by the time a page carries no cursor. */
  lemma PagesMissNoStableKey(tables: seq<Table>, pages: seq<seq<Key>>, matches: Key -> bool,
                             lt: KeyOrder, limit: nat, k: Key)
    requires limit >= 1 && IsPaging(tables, pages, matches, lt, limit) && Finished(pages, limit)
    requires matches(k) && (forall i :: 0 <= i < |tables| ==> k in tables[i])
    ensures k in Concat(pages)
  {
    if k !in Concat(pages) {
      UnseenKeyIsAhead(tables, pages, matches, lt, limit, k);
      assert false;
    }
  }

  lemma {:induction false} PagesHoldOnlyMatches(tables: seq<Table>, pages: seq<seq<Key>>, matches: Key -> bool,
                                                lt: KeyOrder, limit: nat, rows: Table)
    requires IsPaging(tables, pages, matches, lt, limit)
    requires forall i :: 0 <= i < |tables| ==> tables[i] == rows
    ensures forall k :: k in Concat(pages) ==> k in rows && matches(k)
  {
    if pages != [] {
      var n := |pages| - 1;
      PagingPrefix(tables, pages, matches, lt, limit);
      PagesHoldOnlyMatches(tables[..n], pages[..n], matches, lt, limit, rows);
    }
  }

  lemma {:induction false} FullPagesCount(pages: seq<seq<Key>>, limit: nat)
    requires forall i :: 0 <= i < |pages| ==> |pages[i]| == limit
    ensures |Concat(pages)| == |pages| * limit
  {
    if pages != [] {
      var n := |pages| - 1;
      FullPagesCount(pages[..n], limit);
      assert n * limit + limit == (n + 1) * limit;
    }
  }

  lemma KeyCount(pages: seq<seq<Key>>, limit: nat, n: nat)
    requires |pages| == n + 1 && forall i :: 0 <= i < n ==> |pages[i]| == limit
    ensures |Concat(pages)| == n * limit + |pages[n]|
  {
    FullPagesCount(pages[..n], limit);
  }

  /** All pages but the last are full, so their number follows from the number of keys. */
  lemma PageCount(tables: seq<Table>, pages: seq<seq<Key>>, matches: Key -> bool, lt: KeyOrder, limit: nat)
    requires limit >= 1 && IsPaging(tables, pages, matches, lt, limit) && Finished(pages, limit)
    ensures |pages| == |Concat(pages)| / limit + 1
  {
    var n := |pages| - 1;
    assert |pages[n]| < limit && forall i :: 0 <= i < n ==> |pages[i]| == limit by {
      assert forall i :: 0 <= i < n ==> Lek(pages[i], limit).Some?;
    }
    DividePages(pages, limit, n);
  }

  lemma DividePages(pages: seq<seq<Key>>, limit: nat, n: nat)
    requires limit >= 1 && |pages| == n + 1 && |pages[n]| < limit && forall i :: 0 <= i < n ==> |pages[i]| == limit
    ensures n == |Concat(pages)| / limit
  {
    KeyCount(pages, limit, n);
    DivideExactly(|Concat(pages)|, n, limit, |pages[n]|);
  }

  /** On a table nobody writes to, the pages concatenate to the matching keys in order, each once,
      and their number is the row count over the limit, plus one. */
  lemma StaticPagingIsTheSortedRange(rows: Table, tables: seq<Table>, pages: seq<seq<Key>>, matches: Key -> bool,
                                     lt: KeyOrder, limit: nat)
    requires StrictTotal(lt) && limit >= 1
    requires IsPaging(tables, pages, matches, lt, limit) && Finished(pages, limit)
    requires forall i :: 0 <= i < |tables| ==> tables[i] == rows
    ensures forall k :: k in Concat(pages) <==> k in rows && matches(k)
    ensures Increasing(Concat(pages), lt)
    ensures |pages| == |Concat(pages)| / limit + 1
  {
    PagesAreStrictlyMonotone(tables, pages, matches, lt, limit);
    PagesHoldOnlyMatches(tables, pages, matches, lt, limit, rows);
    forall k | k in rows && matches(k)
      ensures k in Concat(pages)
    {
      PagesMissNoStableKey(tables, pages, matches, lt, limit, k);
    }
    PageCount(tables, pages, matches, lt, limit);
  }

  lemma DivideExactly(x: nat, q: nat, d: nat, r: nat)
    requires r < d && x == q * d + r
    ensures x / d == q
  {
    var m := x / d - q;
    assert m * d == (x / d) * d - q * d;
    if m >= 1 { MulAtLeast(m, d); } else if m <= -1 { MulAtLeast(-m, d); }
  }

  lemma MulAtLeast(m: int, d: nat)
    requires m >= 1
    ensures m * d >= d
  {
    assert m * d == (m - 1) * d + d;
  }
}
