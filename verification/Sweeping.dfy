/** Loading a table of rows and sweeping over it once, whatever the rows are: the shape of a
    reconciler pass. */
module Sweeping {
  import opened Values

  // ----- loading ---------------------------------------------------------------------------

  predicate Loads<R, E(==)>(read: R -> Option<E>, rows: map<string, R>, loaded: map<string, E>) {
    rows.Keys == loaded.Keys && forall n :: n in rows ==> read(rows[n]) == Some(loaded[n])
  }

  predicate HasMalformed<R, E>(read: R -> Option<E>, rows: map<string, R>) { exists n :: n in rows && read(rows[n]).None? }

  /** Reads every row, or fails at a malformed one. */
  method LoadSnapshot<R, E(==)>(read: R -> Option<E>, rows: map<string, R>) returns (r: Option<map<string, E>>)
    ensures r.None? <==> HasMalformed(read, rows)
    ensures r.Some? ==> Loads(read, rows, r.value)
  {
    var pending, out := rows.Keys, map[];
    while pending != {}
      invariant pending <= rows.Keys && out.Keys == rows.Keys - pending
      invariant forall n :: n in out ==> read(rows[n]) == Some(out[n])
      decreases |pending|
    {
      var n :| n in pending;
      var e := read(rows[n]);
      if e.None? { return None; }
      out := out[n := e.value];
      pending := pending - {n};
    }
    return Some(out);
  }

  // ----- sweeping --------------------------------------------------------------------------

  /** What becomes of a row and its entry, by table name, and whether the row is written. */
  type Judge<!R, !E> = (string, R, E) -> (R, E, bool)

  function SweptRows<R, E>(rows: map<string, R>, stored: map<string, E>, judge: Judge<R, E>): map<string, R>
    requires rows.Keys == stored.Keys
  {
    map n | n in rows :: judge(n, rows[n], stored[n]).0
  }

  function SweptEntries<R, E>(rows: map<string, R>, stored: map<string, E>, judge: Judge<R, E>): map<string, E>
    requires rows.Keys == stored.Keys
  {
    map n | n in rows :: judge(n, rows[n], stored[n]).1
  }

  function SweptWrites<R, E>(rows: map<string, R>, stored: map<string, E>, judge: Judge<R, E>): set<string>
    requires rows.Keys == stored.Keys
  {
    set n | n in rows && judge(n, rows[n], stored[n]).2
  }

  /** Every row and entry became what the judge says, and `written` counts the rows written. */
  predicate SweptAll<R(==), E(==)>(rows: map<string, R>, stored: map<string, E>, judge: Judge<R, E>, rows': map<string, R>,
                                   next: map<string, E>, written: nat)
  {
    && rows.Keys == stored.Keys
    && rows' == SweptRows(rows, stored, judge) && next == SweptEntries(rows, stored, judge)
    && written == |SweptWrites(rows, stored, judge)|
  }

  /** A write in `faults` failed; each row is as it was or as the judge says. */
  predicate SweptPartly<R(==), E>(rows: map<string, R>, stored: map<string, E>, judge: Judge<R, E>, faults: set<string>,
                                  rows': map<string, R>)
  {
    && rows.Keys == stored.Keys == rows'.Keys
    && faults * SweptWrites(rows, stored, judge) != {}
    && forall n :: n in rows ==> rows'[n] == rows[n] || rows'[n] == judge(n, rows[n], stored[n]).0
  }

  /** Visits every table once, in any order: rows replaced, entries collected, writes counted. An UPDATE
      that fails, on a table in `faults`, ends the sweep; rows written before it stay written. */
  method Sweep<R(==), E(==)>(rows: map<string, R>, stored: map<string, E>, judge: Judge<R, E>, faults: set<string>)
    returns (rows': map<string, R>, next: map<string, E>, written: nat, ok: bool)
    requires rows.Keys == stored.Keys
    ensures ok ==> SweptAll(rows, stored, judge, rows', next, written)
    ensures !ok ==> SweptPartly(rows, stored, judge, faults, rows')
  {
    var pending := rows.Keys;
    rows', next, written, ok := rows, map[], 0, true;
    ghost var wrote: set<string> := {};
    while pending != {}
      invariant rows'.Keys == rows.Keys && pending <= rows.Keys && next.Keys == rows.Keys - pending
      invariant forall n :: n in pending ==> rows'[n] == rows[n]
      invariant forall n :: n in next ==> rows'[n] == judge(n, rows[n], stored[n]).0 && next[n] == judge(n, rows[n], stored[n]).1
      invariant wrote <= next.Keys && forall n :: n in next ==> (n in wrote <==> judge(n, rows[n], stored[n]).2)
      invariant written == |wrote|
      decreases |pending|
    {
      var n :| n in pending;
      var step := judge(n, rows[n], stored[n]);
      if step.2 && n in faults {
        assert n in faults * SweptWrites(rows, stored, judge);
        return rows', next, written, false;
      }
      rows', next := rows'[n := step.0], next[n := step.1];
      if step.2 { wrote, written := wrote + {n}, written + 1; }
      pending := pending - {n};
    }
    assert wrote == SweptWrites(rows, stored, judge);
  }

  /** The row reads, and the judge leaves it and its entry alone. */
  predicate SettledBy<R(==), E(==)>(read: R -> Option<E>, judge: Judge<R, E>, n: string, row: R) {
    read(row).Some? && judge(n, row, read(row).value) == (row, read(row).value, false)
  }

  /** A sweep whose results all settle is followed by one that changes nothing and counts zero. */
  lemma SecondSweep<R, E>(read: R -> Option<E>, rows: map<string, R>, loaded: map<string, E>, judge: Judge<R, E>, judge': Judge<R, E>)
    returns (loaded': map<string, E>)
    requires Loads(read, rows, loaded)
    requires forall n :: n in rows ==> SettledBy(read, judge', n, judge(n, rows[n], loaded[n]).0)
    ensures var rows' := SweptRows(rows, loaded, judge);
      Loads(read, rows', loaded') && SweptAll(rows', loaded', judge', rows', loaded', 0)
  {
    var rows' := SweptRows(rows, loaded, judge);
    assert forall n :: n in rows' ==> SettledBy(read, judge', n, rows'[n]);
    loaded' := map n | n in rows' :: read(rows'[n]).value;
    assert SweptRows(rows', loaded', judge') == rows';
    assert SweptEntries(rows', loaded', judge') == loaded';
    assert SweptWrites(rows', loaded', judge') == {};
  }
}
