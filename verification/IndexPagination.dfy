/** Paging through a secondary index: pages are ordered and resumed by the index's sort column alone, so
    rows that tie on it can be lost between two pages. */
module IndexPagination {
  import opened Values
  import opened Storage
  import opened Pagination
  import GsiBackfill

  predicate WeakLaws(before: KeyOrder, a: Key, b: Key, c: Key) {
    && !before(a, a)
    && (before(a, b) && before(b, c) ==> before(a, c))
    && (before(a, c) ==> before(a, b) || before(b, c))
  }

  /** An order with ties. */
  ghost predicate StrictWeak(before: KeyOrder) { forall a, b, c :: WeakLaws(before, a, b, c) }

  /** `SELECT … WHERE partition AND sort > cursor ORDER BY sort LIMIT limit`: ties come in any order. */
  ghost predicate IsIndexPage(page: seq<Key>, all: set<Key>, cursor: Option<Key>, before: KeyOrder, limit: nat) {
    && |page| <= limit
    && (forall i, j :: 0 <= i < j < |page| ==> page[i] != page[j] && !before(page[j], page[i]))
    && (forall i :: 0 <= i < |page| ==> page[i] in all && After(before, cursor, page[i]))
    && (forall k :: k in all && After(before, cursor, k) && k !in page ==>
          |page| == limit && forall i :: 0 <= i < |page| ==> !before(k, page[i]))
  }

  /** Page `i` of a client that follows the cursors; `all` are the rows of the partition. */
  ghost predicate PageAt(pages: seq<seq<Key>>, all: set<Key>, before: KeyOrder, limit: nat, i: nat)
    requires i < |pages|
  {
    && IsIndexPage(pages[i], all, CursorBefore(pages, i, limit), before, limit)
    && (i < |pages| - 1 ==> Lek(pages[i], limit).Some?)
  }

  /** All of them to the end, on a table that does not change. */
  ghost predicate IsIndexPaging(pages: seq<seq<Key>>, all: set<Key>, before: KeyOrder, limit: nat) {
    Finished(pages, limit) && forall i :: 0 <= i < |pages| ==> PageAt(pages, all, before, limit, i)
  }

  function KeysOf(page: seq<Key>): set<Key> { set k | k in page }

  /** The keys of the first `n` pages. */
  function Seen(pages: seq<seq<Key>>, n: nat): set<Key>
    requires n <= |pages|
  {
    if n == 0 then {} else Seen(pages, n - 1) + KeysOf(pages[n - 1])
  }

  /** A row the page leaves although it ties with the page's last one. */
  ghost predicate LeftTied(page: seq<Key>, all: set<Key>, cursor: Option<Key>, before: KeyOrder, k: Key) {
    k in all && After(before, cursor, k) && k !in page && page != [] && !before(page[|page| - 1], k)
  }

  ghost predicate EndsClean(pages: seq<seq<Key>>, all: set<Key>, before: KeyOrder, limit: nat, i: nat)
    requires i < |pages|
  {
    forall k :: !LeftTied(pages[i], all, CursorBefore(pages, i, limit), before, k)
  }

  function Below(all: set<Key>, before: KeyOrder, v: Key): set<Key> { set k | k in all && before(k, v) }

  function UpTo(all: set<Key>, before: KeyOrder, v: Key): set<Key> { set k | k in all && !before(v, k) }

  /** The rows tied with `v` lie on both sides of the end of page `m`, counting in sort order. */
  predicate Straddles(all: set<Key>, before: KeyOrder, limit: nat, v: Key, m: nat) {
    v in all && |Below(all, before, v)| < m * limit < |UpTo(all, before, v)|
  }

  // ----- pages that end clean -------------------------------------------------------------------

  lemma {:induction false} KeysOfSize(page: seq<Key>)
    requires forall i, j :: 0 <= i < j < |page| ==> page[i] != page[j]
    ensures |KeysOf(page)| == |page|
  {
    if page != [] {
      var front, last := page[..|page| - 1], page[|page| - 1];
      KeysOfSize(front);
      assert page == front + [last];
      assert KeysOf(page) == KeysOf(front) + {last};
    }
  }

  /** Nothing on a page, and nothing before it, sorts after its last row. */
  lemma LastIsLast(page: seq<Key>, all: set<Key>, cursor: Option<Key>, before: KeyOrder, limit: nat, k: Key)
    requires StrictWeak(before) && IsIndexPage(page, all, cursor, before, limit) && page != []
    requires k in page || !After(before, cursor, k)
    ensures !before(page[|page| - 1], k)
  {
    var last := page[|page| - 1];
    if k in page {
      assert WeakLaws(before, k, k, k);
      var i :| 0 <= i < |page| && page[i] == k;
    } else {
      assert After(before, cursor, last) && WeakLaws(before, cursor.value, last, k);
    }
  }

  /** The rows seen so far are `size` many, and exactly those the next page does not look at. */
  ghost predicate Initial(seen: set<Key>, all: set<Key>, cursor: Option<Key>, before: KeyOrder, size: nat) {
    && |seen| == size && seen <= all
    && forall k :: k in all ==> (k in seen <==> !After(before, cursor, k))
  }

  /** One more page that ends clean. */
  lemma OnePageMore(page: seq<Key>, all: set<Key>, cursor: Option<Key>, before: KeyOrder, limit: nat, seen: set<Key>, size: nat)
    requires StrictWeak(before) && IsIndexPage(page, all, cursor, before, limit) && Lek(page, limit).Some?
    requires forall k :: !LeftTied(page, all, cursor, before, k)
    requires Initial(seen, all, cursor, before, size)
    ensures Initial(seen + KeysOf(page), all, Lek(page, limit), before, size + limit)
  {
    forall k | k in all
      ensures k in seen + KeysOf(page) <==> !After(before, Lek(page, limit), k)
    {
      if k in seen + KeysOf(page) { LastIsLast(page, all, cursor, before, limit, k); }
      else { assert !LeftTied(page, all, cursor, before, k); }
    }
    KeysOfSize(page);
    assert seen !! KeysOf(page);
  }

  ghost predicate CleanUpTo(pages: seq<seq<Key>>, all: set<Key>, before: KeyOrder, limit: nat, n: nat)
    requires n <= |pages|
  {
    forall i :: 0 <= i < n ==> EndsClean(pages, all, before, limit, i)
  }

  /** As long as pages end clean, they hold a full initial stretch of the rows. */
  lemma {:induction false} SeenIsInitial(pages: seq<seq<Key>>, all: set<Key>, before: KeyOrder, limit: nat, n: nat)
    requires StrictWeak(before) && IsIndexPaging(pages, all, before, limit) && n < |pages|
    requires CleanUpTo(pages, all, before, limit, n)
    ensures Initial(Seen(pages, n), all, CursorBefore(pages, n, limit), before, n * limit)
  {
    if n > 0 {
      SeenIsInitial(pages, all, before, limit, n - 1);
      assert PageAt(pages, all, before, limit, n - 1) && EndsClean(pages, all, before, limit, n - 1);
      OnePageMore(pages[n - 1], all, CursorBefore(pages, n - 1, limit), before, limit, Seen(pages, n - 1), (n - 1) * limit);
      assert (n - 1) * limit + limit == n * limit;
    }
  }

  /** All clean: the pages hold every row, and no group of ties is cut. */
  lemma CleanPagesAreComplete(pages: seq<seq<Key>>, all: set<Key>, before: KeyOrder, limit: nat)
    requires StrictWeak(before) && limit >= 1 && IsIndexPaging(pages, all, before, limit)
    requires CleanUpTo(pages, all, before, limit, |pages| - 1)
    ensures Seen(pages, |pages|) == all
    ensures forall v, m: nat :: !Straddles(all, before, limit, v, m)
  {
    var n := |pages| - 1;
    SeenIsInitial(pages, all, before, limit, n);
    assert PageAt(pages, all, before, limit, n);
    LastPageTakesTheRest(pages[n], all, CursorBefore(pages, n, limit), before, limit, Seen(pages, n), n * limit);
    forall v, m: nat
      ensures !Straddles(all, before, limit, v, m)
    {
      if m <= n {
        SeenIsInitial(pages, all, before, limit, m);
        GroupStaysTogether(all, before, CursorBefore(pages, m, limit), limit, Seen(pages, m), v, m);
      } else {
        NothingBeyondTheEnd(all, before, limit, v, n, m);
      }
    }
  }

  lemma NothingBeyondTheEnd(all: set<Key>, before: KeyOrder, limit: nat, v: Key, n: nat, m: nat)
    requires |all| < n * limit + limit && n < m
    ensures !Straddles(all, before, limit, v, m)
  {
    GsiBackfill.SubsetCard(UpTo(all, before, v), all);
    assert n * limit + limit == (n + 1) * limit <= m * limit;
  }

  lemma LastPageTakesTheRest(page: seq<Key>, all: set<Key>, cursor: Option<Key>, before: KeyOrder, limit: nat, seen: set<Key>,
                             size: nat)
    requires IsIndexPage(page, all, cursor, before, limit) && Lek(page, limit).None? && limit >= 1
    requires Initial(seen, all, cursor, before, size)
    ensures seen + KeysOf(page) == all && |all| < size + limit
  {
    KeysOfSize(page);
    assert seen !! KeysOf(page);
    assert seen + KeysOf(page) == all;
  }

  /** A full initial stretch that reaches past what sorts before `v` holds all that ties with `v`. */
  lemma GroupStaysTogether(all: set<Key>, before: KeyOrder, cursor: Option<Key>, limit: nat, seen: set<Key>, v: Key, m: nat)
    requires StrictWeak(before) && Initial(seen, all, cursor, before, m * limit)
    ensures !Straddles(all, before, limit, v, m)
  {
    if |Below(all, before, v)| < |seen| {
      var x := OneOutside(seen, Below(all, before, v));
      forall k | k in UpTo(all, before, v)
        ensures k in seen
      {
        assert WeakLaws(before, cursor.value, x, k) && WeakLaws(before, x, v, k);
      }
      GsiBackfill.SubsetCard(UpTo(all, before, v), seen);
    }
  }

  lemma OneOutside(a: set<Key>, b: set<Key>) returns (x: Key)
    requires |b| < |a|
    ensures x in a && x !in b
  {
    if a <= b { GsiBackfill.SubsetCard(a, b); }
    x :| x in a && x !in b;
  }

  // ----- a page that does not -------------------------------------------------------------------

  /** A page that leaves a tied row cuts a group of ties. */
  lemma TiedRowStraddles(page: seq<Key>, all: set<Key>, cursor: Option<Key>, before: KeyOrder, limit: nat, seen: set<Key>,
                         tied: Key, m: nat)
    requires StrictWeak(before) && IsIndexPage(page, all, cursor, before, limit) && Lek(page, limit).Some?
    requires Initial(seen, all, cursor, before, m * limit)
    requires LeftTied(page, all, cursor, before, tied)
    ensures Straddles(all, before, limit, page[|page| - 1], m + 1)
  {
    var last, both := page[|page| - 1], seen + KeysOf(page);
    KeysOfSize(page);
    assert seen !! KeysOf(page);
    assert |both| == (m + 1) * limit;
    assert WeakLaws(before, last, last, last);
    forall k | k in all && k !in both
      ensures !before(k, last)
    {
      assert k !in page && After(before, cursor, k);
    }
    GsiBackfill.ProperSubsetSmaller(Below(all, before, last), both, last);
    forall k | k in both
      ensures k in UpTo(all, before, last)
    {
      LastIsLast(page, all, cursor, before, limit, k);
    }
    GsiBackfill.ProperSubsetSmaller(both, UpTo(all, before, last), tied);
  }

  /** What follows a page lies after its last row. */
  lemma {:induction false} LaterPagesLieBeyond(pages: seq<seq<Key>>, all: set<Key>, before: KeyOrder, limit: nat, i: nat, j: nat, k: Key)
    requires StrictWeak(before) && IsIndexPaging(pages, all, before, limit) && i < j < |pages|
    requires After(before, CursorBefore(pages, j, limit), k)
    ensures pages[i] != [] && before(pages[i][|pages[i]| - 1], k)
    decreases j
  {
    assert PageAt(pages, all, before, limit, i) && PageAt(pages, all, before, limit, j - 1);
    if j > i + 1 {
      var last := pages[j - 1][|pages[j - 1]| - 1];
      LaterPagesLieBeyond(pages, all, before, limit, i, j - 1, last);
      assert WeakLaws(before, pages[i][|pages[i]| - 1], last, k);
    }
  }

  /** A row tied with the last one of a page, and not on it, is on no page. */
  lemma TiedRowIsLost(pages: seq<seq<Key>>, all: set<Key>, before: KeyOrder, limit: nat, i: nat, k: Key, j: nat)
    requires StrictWeak(before) && IsIndexPaging(pages, all, before, limit) && i < |pages| - 1 && j < |pages|
    requires LeftTied(pages[i], all, CursorBefore(pages, i, limit), before, k)
    ensures k !in pages[j]
  {
    assert PageAt(pages, all, before, limit, j);
    if k in pages[j] {
      if j < i {
        LaterPagesLieBeyond(pages, all, before, limit, j, i, k);
        LastIsLast(pages[j], all, CursorBefore(pages, j, limit), before, limit, k);
      } else if j > i {
        LaterPagesLieBeyond(pages, all, before, limit, i, j, k);
      }
      assert false;
    }
  }

  lemma {:induction false} SeenOnSomePage(pages: seq<seq<Key>>, n: nat, k: Key)
    requires n <= |pages|
    ensures k in Seen(pages, n) <==> exists j :: 0 <= j < n && k in pages[j]
  {
    if n > 0 { SeenOnSomePage(pages, n - 1, k); }
  }

  lemma {:induction false} FirstUnclean(pages: seq<seq<Key>>, all: set<Key>, before: KeyOrder, limit: nat, n: nat) returns (i: nat)
    requires n < |pages| && !CleanUpTo(pages, all, before, limit, n)
    ensures i < n && CleanUpTo(pages, all, before, limit, i) && !EndsClean(pages, all, before, limit, i)
  {
    if CleanUpTo(pages, all, before, limit, n - 1) { i := n - 1; } else { i := FirstUnclean(pages, all, before, limit, n - 1); }
  }

  /** Following the cursors returns every row of the partition exactly when no group of rows with the same
      sort value lies across a multiple of the limit, whatever order ties come in. */
  lemma IndexPagingExactlyComplete(pages: seq<seq<Key>>, all: set<Key>, before: KeyOrder, limit: nat)
    requires StrictWeak(before) && limit >= 1 && IsIndexPaging(pages, all, before, limit)
    ensures Seen(pages, |pages|) == all <==> forall v, m: nat :: !Straddles(all, before, limit, v, m)
  {
    var n := |pages| - 1;
    if CleanUpTo(pages, all, before, limit, n) {
      CleanPagesAreComplete(pages, all, before, limit);
    } else {
      var i := FirstUnclean(pages, all, before, limit, n);
      var k :| LeftTied(pages[i], all, CursorBefore(pages, i, limit), before, k);
      SeenIsInitial(pages, all, before, limit, i);
      assert PageAt(pages, all, before, limit, i);
      TiedRowStraddles(pages[i], all, CursorBefore(pages, i, limit), before, limit, Seen(pages, i), k, i);
      forall j | 0 <= j < |pages| ensures k !in pages[j] { TiedRowIsLost(pages, all, before, limit, i, k, j); }
      SeenOnSomePage(pages, |pages|, k);
    }
  }

  // ----- the order of one index -------------------------------------------------------------------

  /** Rows by their sort column; an index without one has no order, and a resumed page is empty. */
  function SortOrder(collate: Collation, sort: Key -> Option<ColVal>): KeyOrder {
    (a, b) => sort(a).Some? && sort(b).Some? && ColLess(collate, sort(a).value, sort(b).value)
  }

  lemma SortOrderIsWeak(collate: Collation, sort: Key -> Option<ColVal>)
    requires StrictTotal(collate) && ((forall k :: sort(k).Some?) || (forall k :: sort(k).None?))
    ensures StrictWeak(SortOrder(collate, sort))
  {
    var before := SortOrder(collate, sort);
    forall a, b, c
      ensures WeakLaws(before, a, b, c)
    {
      if sort(a).Some? && sort(b).Some? && sort(c).Some? {
        ColLessStrict(collate, sort(a).value, sort(b).value, sort(c).value);
        ColLessStrict(collate, sort(b).value, sort(a).value, sort(c).value);
      }
    }
  }

  /** Two rows with one sort value, read one at a time: the second is never returned. */
  lemma SecondOfTwoIsSkipped(before: KeyOrder, a: Key, b: Key)
    requires StrictWeak(before) && a != b && !before(a, b) && !before(b, a)
    ensures IsIndexPaging([[a], []], {a, b}, before, 1) && b !in Seen([[a], []], 2)
  {
    var pages: seq<seq<Key>> := [[a], []];
    assert CursorBefore(pages, 1, 1) == Some(a);
    assert WeakLaws(before, a, a, a);
    assert PageAt(pages, {a, b}, before, 1, 0) && PageAt(pages, {a, b}, before, 1, 1);
    assert Seen(pages, 1) == Seen(pages, 0) + KeysOf([a]);
    assert Seen(pages, 2) == Seen(pages, 1) + KeysOf([]);
  }
}
