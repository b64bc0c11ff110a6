/** The backfill at the orders Postgres really uses: whether its cursor is safe depends on the types of
    the table's key columns alone. */
module GsiKeyTypes {
  import opened Values
  import opened Storage
  import opened GsiBackfill
  import opened GsiPreconditions
  import opened GsiLifecycle

  // ----- keys as text ---------------------------------------------------------------------

  /** `numeric::text`. */
  type NumberText = real -> string

  function HexDigit(d: nat): char
    requires d < 16
  {
    if d < 10 then '0' + d as char else 'a' + (d - 10) as char
  }

  function Hex(b: seq<Byte>): string {
    if b == [] then "" else [HexDigit(b[0] / 16), HexDigit(b[0] % 16)] + Hex(b[1..])
  }

  /** A key column's `::text` form; `bytea` shows in the hex format. */
  function Rendered(number: NumberText, v: ColVal): string {
    match v
    case Text(s) => s
    case Numeric(x) => number(x)
    case Bytea(b) => ['\\', 'x'] + Hex(b)
  }

  /** `(pk::text, sk::text) < ($1, $2)` under a collation. */
  predicate CastLess(number: NumberText, collate: Collation, a: Key, b: Key) {
    var x, y := Rendered(number, a.pk), Rendered(number, b.pk);
    if x != y then collate(x, y)
    else b.sk.Some? && (a.sk.None? || collate(Rendered(number, a.sk.value), Rendered(number, b.sk.value)))
  }

  /** The orders the backfill's statements use. */
  function DatabaseOrders(number: NumberText, collate: Collation): KeyOrders {
    KeyOrders((a, b) => KeyLess(collate, a, b), (a, b) => CastLess(number, collate, a, b))
  }

  function Scaled(m: int, digits: int): real { Shift(m as real, -digits) }

  /** A `numeric` value has finitely many digits. */
  ghost predicate IsDecimal(x: real) { exists m, digits :: x == Scaled(m, digits) }

  ghost predicate Storable(v: ColVal) { v.Numeric? ==> IsDecimal(v.num) }

  ghost predicate StoredKey(pk: KeyType, sk: Option<KeyType>, k: Key) {
    OfTypes(pk, sk, k) && Storable(k.pk) && (k.sk.Some? ==> Storable(k.sk.value))
  }

  ghost function KeysOf(pk: KeyType, sk: Option<KeyType>): Key -> bool { k => StoredKey(pk, sk, k) }

  /** A backfill of a table with these key columns, in a database with this collation. */
  ghost predicate OnDatabase(c: Config, number: NumberText, collate: Collation, pk: KeyType, sk: Option<KeyType>) {
    c.ord == DatabaseOrders(number, collate) && c.keys == KeysOf(pk, sk)
  }

  /** Distinct numbers show as distinct texts, natural numbers in plain decimal. */
  ghost predicate ShowsNumbers(number: NumberText) {
    && (forall x, y :: IsDecimal(x) && IsDecimal(y) && number(x) == number(y) ==> x == y)
    && (forall n: nat :: number(n as real) == Decimal(n))
  }

  lemma {:induction false} HexInjective(a: seq<Byte>, b: seq<Byte>)
    requires Hex(a) == Hex(b)
    ensures a == b
  {
    if a != [] && b != [] {
      assert Hex(a)[0] == Hex(b)[0] && Hex(a)[1] == Hex(b)[1];
      assert a[0] == 16 * (a[0] / 16) + a[0] % 16 && b[0] == 16 * (b[0] / 16) + b[0] % 16;
      assert Hex(a)[2..] == Hex(a[1..]) && Hex(b)[2..] == Hex(b[1..]);
      HexInjective(a[1..], b[1..]);
      assert a == [a[0]] + a[1..] && b == [b[0]] + b[1..];
    }
  }

  lemma RenderedInjective(number: NumberText, t: KeyType, v: ColVal, w: ColVal)
    requires ShowsNumbers(number) && HasType(v, t) && HasType(w, t) && Storable(v) && Storable(w)
    requires Rendered(number, v) == Rendered(number, w)
    ensures v == w
  {
    if t.KeyB? {
      assert Rendered(number, v)[2..] == Hex(v.bytes) && Rendered(number, w)[2..] == Hex(w.bytes);
      HexInjective(v.bytes, w.bytes);
    }
  }

  // ----- both orders are total on the keys of one table -------------------------------------------

  lemma CastLessStrict(number: NumberText, collate: Collation, pk: KeyType, sk: Option<KeyType>, a: Key, b: Key, c: Key)
    requires StrictTotal(collate) && ShowsNumbers(number)
    requires StoredKey(pk, sk, a) && StoredKey(pk, sk, b) && StoredKey(pk, sk, c)
    ensures !CastLess(number, collate, a, a)
    ensures CastLess(number, collate, a, b) && CastLess(number, collate, b, c) ==> CastLess(number, collate, a, c)
    ensures a != b ==> CastLess(number, collate, a, b) || CastLess(number, collate, b, a)
  {
    if Rendered(number, a.pk) == Rendered(number, b.pk) {
      RenderedInjective(number, pk, a.pk, b.pk);
      if sk.Some? && Rendered(number, a.sk.value) == Rendered(number, b.sk.value) {
        RenderedInjective(number, sk.value, a.sk.value, b.sk.value);
      }
    }
  }

  lemma IntKeyIsStored(pk: KeyType, sk: Option<KeyType>, n: nat)
    requires pk == KeyN || sk == Some(KeyN)
    ensures KeysOf(pk, sk)(IntKey(pk, sk, n))
  {
    assert n as real == Scaled(n, 0) && 0.0 == Scaled(0, 0);
  }

  lemma SomeKeyIsStored(pk: KeyType, sk: Option<KeyType>)
    ensures exists k :: KeysOf(pk, sk)(k)
  {
    if pk == KeyN || sk == Some(KeyN) {
      IntKeyIsStored(pk, sk, 0);
    } else {
      assert KeysOf(pk, sk)(Key(Zero(pk), if sk.None? then None else Some(Zero(sk.value))));
    }
  }

  lemma NativeOrderIsTotal(c: Config, number: NumberText, collate: Collation, pk: KeyType, sk: Option<KeyType>)
    requires OnDatabase(c, number, collate, pk, sk) && StrictTotal(collate)
    ensures StrictTotalOn(c.keys, c.ord.native)
  {
    forall x, y, z
      ensures !c.ord.native(x, x)
      ensures c.ord.native(x, y) && c.ord.native(y, z) ==> c.ord.native(x, z)
      ensures x != y ==> c.ord.native(x, y) || c.ord.native(y, x)
    {
      KeyLessStrict(collate, x, y, z);
    }
  }

  lemma TextOrderIsTotal(c: Config, number: NumberText, collate: Collation, pk: KeyType, sk: Option<KeyType>)
    requires OnDatabase(c, number, collate, pk, sk) && StrictTotal(collate) && ShowsNumbers(number)
    ensures StrictTotalOn(c.keys, c.ord.text)
  {
    forall x, y, z | c.keys(x) && c.keys(y) && c.keys(z)
      ensures !c.ord.text(x, x)
      ensures c.ord.text(x, y) && c.ord.text(y, z) ==> c.ord.text(x, z)
      ensures x != y ==> c.ord.text(x, y) || c.ord.text(y, x)
    {
      CastLessStrict(number, collate, pk, sk, x, y, z);
    }
  }

  lemma DatabaseOrdersAreTotal(c: Config, number: NumberText, collate: Collation, pk: KeyType, sk: Option<KeyType>)
    requires OnDatabase(c, number, collate, pk, sk) && StrictTotal(collate) && ShowsNumbers(number)
    ensures TotalOrders(c)
  {
    NativeOrderIsTotal(c, number, collate, pk, sk);
    TextOrderIsTotal(c, number, collate, pk, sk);
    SomeKeyIsStored(pk, sk);
  }

  // ----- S and B keys ------------------------------------------------------------------------------

  /** A table whose key columns are all S: the two orders are one, under any collation. */
  lemma TextTableIsSafe(c: Config, number: NumberText, collate: Collation, sk: Option<KeyType>)
    requires OnDatabase(c, number, collate, KeyS, sk) && (sk.Some? ==> sk.value == KeyS)
    ensures CursorSafe(c)
  {
    forall q: set<Key>, a: Key, b: Key | a in q && Below(c.ord, q, b) && c.keys(a) && c.keys(b)
      ensures c.ord.text(a, b)
    {
      assert c.ord.native(a, b);
    }
  }

  lemma {:induction false} HexKeepsOrder(a: seq<Byte>, b: seq<Byte>)
    ensures TextLess(Hex(a), Hex(b)) <==> BytesLess(a, b)
  {
    if a != [] && b != [] {
      HexKeepsOrder(a[1..], b[1..]);
      var x, y := Hex(a), Hex(b);
      assert x[1..][1..] == Hex(a[1..]) && y[1..][1..] == Hex(b[1..]);
      assert x[0] == HexDigit(a[0] / 16) && x[1..][0] == HexDigit(a[0] % 16);
      assert y[0] == HexDigit(b[0] / 16) && y[1..][0] == HexDigit(b[0] % 16);
      assert TextLess(x, y) <==> x[0] < y[0] || (x[0] == y[0] && TextLess(x[1..], y[1..]));
      assert TextLess(x[1..], y[1..]) <==> x[1..][0] < y[1..][0] || (x[1..][0] == y[1..][0] && TextLess(x[1..][1..], y[1..][1..]));
      HexDigitsOrder(a[0] / 16, b[0] / 16);
      HexDigitsOrder(a[0] % 16, b[0] % 16);
      NibblesOrder(a[0], b[0]);
    }
  }

  lemma HexDigitsOrder(d: nat, e: nat)
    requires d < 16 && e < 16
    ensures (HexDigit(d) < HexDigit(e) <==> d < e) && (HexDigit(d) == HexDigit(e) <==> d == e)
  {
  }

  lemma NibblesOrder(x: Byte, y: Byte)
    ensures x < y <==> x / 16 < y / 16 || (x / 16 == y / 16 && x % 16 < y % 16)
    ensures x == y <==> x / 16 == y / 16 && x % 16 == y % 16
  {
    assert x == 16 * (x / 16) + x % 16 && y == 16 * (y / 16) + y % 16;
  }

  lemma SamePrefix(c: char, s: string, t: string)
    ensures TextLess([c] + s, [c] + t) <==> TextLess(s, t)
  {
    assert ([c] + s)[1..] == s && ([c] + t)[1..] == t;
  }

  /** Under code-point order a B or S column sorts as its text does. */
  lemma TextKeepsOrder(number: NumberText, t: KeyType, v: ColVal, w: ColVal)
    requires HasType(v, t) && HasType(w, t) && t != KeyN
    ensures ColLess(TextLess, v, w) <==> TextLess(Rendered(number, v), Rendered(number, w))
  {
    if t.KeyB? {
      var s, u := Hex(v.bytes), Hex(w.bytes);
      assert ['\\', 'x'] + s == ['\\'] + (['x'] + s) && ['\\', 'x'] + u == ['\\'] + (['x'] + u);
      SamePrefix('\\', ['x'] + s, ['x'] + u);
      SamePrefix('x', s, u);
      HexKeepsOrder(v.bytes, w.bytes);
    }
  }

  lemma OtherTypesAgree(number: NumberText, pk: KeyType, sk: Option<KeyType>, a: Key, b: Key)
    requires ShowsNumbers(number) && pk != KeyN && sk != Some(KeyN) && StoredKey(pk, sk, a) && StoredKey(pk, sk, b)
    requires KeyLess(TextLess, a, b)
    ensures CastLess(number, TextLess, a, b)
  {
    TextKeepsOrder(number, pk, a.pk, b.pk);
    if Rendered(number, a.pk) == Rendered(number, b.pk) {
      RenderedInjective(number, pk, a.pk, b.pk);
      if sk.Some? { TextKeepsOrder(number, sk.value, a.sk.value, b.sk.value); }
    }
  }

  // ----- N keys --------------------------------------------------------------------------------------

  function Zero(t: KeyType): ColVal {
    match t case KeyS => Text("") case KeyN => Numeric(0.0) case KeyB => Bytea([])
  }

  /** A key whose first N column is `n`. */
  function IntKey(pk: KeyType, sk: Option<KeyType>, n: nat): Key {
    if pk == KeyN then Key(Numeric(n as real), if sk.None? then None else Some(Zero(sk.value)))
    else Key(Zero(pk), Some(Numeric(n as real)))
  }

  function IntKeys(pk: KeyType, sk: Option<KeyType>, lo: nat, n: nat): (q: set<Key>)
    ensures |q| == n && forall k :: k in q <==> exists i :: lo <= i < lo + n && k == IntKey(pk, sk, i)
  {
    if n == 0 then {}
    else
      var q := IntKeys(pk, sk, lo, n - 1);
      assert IntKey(pk, sk, lo + n - 1) !in q;
      q + {IntKey(pk, sk, lo + n - 1)}
  }

  function Pow10(n: nat): (p: nat)
    ensures p > n
  {
    if n == 0 then 1 else 10 * Pow10(n - 1)
  }

  lemma {:induction false} PowerStartsWithOne(n: nat)
    ensures Decimal(Pow10(n)) != "" && Decimal(Pow10(n))[0] == '1'
  {
    if n > 0 {
      PowerStartsWithOne(n - 1);
      assert Pow10(n) / 10 == Pow10(n - 1);
    }
  }

  lemma IntKeysOrder(number: NumberText, collate: Collation, pk: KeyType, sk: Option<KeyType>, i: nat, j: nat)
    requires ShowsNumbers(number) && (pk == KeyN || sk == Some(KeyN)) && i < j
    ensures KeyLess(collate, IntKey(pk, sk, i), IntKey(pk, sk, j))
    ensures CastLess(number, collate, IntKey(pk, sk, i), IntKey(pk, sk, j)) <==> collate(Decimal(i), Decimal(j))
  {
    DecimalInverts(i);
    DecimalInverts(j);
    assert number(i as real) == Decimal(i) && number(j as real) == Decimal(j);
  }

  /** With an N key column a full chunk hides a later key, whatever the chunk size: 9 sorts before a power
      of ten and its text after. Any collation that puts '9' after a text starting with '1' will do. */
  lemma NumberKeyHides(c: Config, number: NumberText, collate: Collation, pk: KeyType, sk: Option<KeyType>)
    returns (q: set<Key>, a: Key, b: Key)
    requires OnDatabase(c, number, collate, pk, sk) && ShowsNumbers(number) && c.chunkSize > 0
    requires pk == KeyN || sk == Some(KeyN)
    requires forall s: string :: s != "" && s[0] == '1' ==> !collate("9", s)
    ensures Hides(c, q, a, b)
  {
    var top := Pow10(c.chunkSize + 9);
    q, a, b := IntKeys(pk, sk, 9, c.chunkSize), IntKey(pk, sk, 9), IntKey(pk, sk, top);
    forall k | k in q
      ensures c.keys(k) && c.ord.native(k, b)
    {
      var i: nat :| 9 <= i < 9 + c.chunkSize && k == IntKey(pk, sk, i);
      IntKeyIsStored(pk, sk, i);
      IntKeysOrder(number, collate, pk, sk, i, top);
    }
    IntKeyIsStored(pk, sk, top);
    IntKeysOrder(number, collate, pk, sk, 9, top);
    PowerStartsWithOne(c.chunkSize + 9);
    assert Decimal(9) == "9";
    assert a in q && Below(c.ord, q, b);
  }

  lemma NinesComeLast()
    ensures forall s: string :: s != "" && s[0] == '1' ==> !TextLess("9", s)
  {
  }

  // ----- which tables are safe ---------------------------------------------------------------------------

  /** Under code-point order the cursor is safe exactly when no key column is N. */
  lemma KeyTypesExactlySafe(c: Config, number: NumberText, pk: KeyType, sk: Option<KeyType>)
    requires OnDatabase(c, number, TextLess, pk, sk) && ShowsNumbers(number) && c.chunkSize > 0
    ensures CursorSafe(c) <==> pk != KeyN && sk != Some(KeyN)
  {
    if pk == KeyN || sk == Some(KeyN) {
      NinesComeLast();
      var q, a, b := NumberKeyHides(c, number, TextLess, pk, sk);
    } else {
      forall q: set<Key>, a: Key, b: Key | a in q && Below(c.ord, q, b) && c.keys(a) && c.keys(b)
        ensures c.ord.text(a, b)
      {
        assert c.ord.native(a, b);
        OtherTypesAgree(number, pk, sk, a, b);
      }
    }
  }

  /** What is left of a valid configuration once its orders are the database's. */
  ghost predicate ValidIndex(c: Config) {
    && c.specs != [] && DistinctCols(c.specs) && DistinctCols(c.shape)
    && (forall s :: s in c.specs ==> s in c.shape) && c.chunkSize > 0
  }

  /** A new index on new columns stays safe through every run exactly when no key column is N. */
  lemma DatabaseRunsExactlySafe(c: Config, number: NumberText, pk: KeyType, sk: Option<KeyType>)
    requires OnDatabase(c, number, TextLess, pk, sk) && ShowsNumbers(number) && ValidIndex(c)
    ensures ValidConfig(c)
    ensures RunsStaySafe(c, FRESH) <==> pk != KeyN && sk != Some(KeyN)
  {
    CodePointsCollate();
    DatabaseOrdersAreTotal(c, number, TextLess, pk, sk);
    KeyTypesExactlySafe(c, number, pk, sk);
    CursorExactlySafe(c);
  }

  /** A table with S keys is safe under every collation, from every safe creation. */
  lemma TextTableRunsStaySafe(c: Config, number: NumberText, collate: Collation, sk: Option<KeyType>, f: Found)
    requires OnDatabase(c, number, collate, KeyS, sk) && (sk.Some? ==> sk.value == KeyS)
    requires StrictTotal(collate) && ShowsNumbers(number) && ValidIndex(c)
    requires ValidFound(c, f) && SafeToCreate(c.specs, f)
    ensures RunsStaySafe(c, f)
  {
    DatabaseOrdersAreTotal(c, number, collate, KeyS, sk);
    TextTableIsSafe(c, number, collate, sk);
    SafeCreationStaysSafe(c, f);
  }

  /** A table with an N key: a run to `active` that leaves a row stale. */
  lemma NumberTableReachesActive(c: Config, number: NumberText, collate: Collation, pk: KeyType, sk: Option<KeyType>)
    returns (rows: Table, states: seq<Sys>, events: seq<Event>)
    requires OnDatabase(c, number, collate, pk, sk) && StrictTotal(collate) && ShowsNumbers(number) && ValidIndex(c)
    requires pk == KeyN || sk == Some(KeyN)
    requires forall s: string :: s != "" && s[0] == '1' ==> !collate("9", s)
    ensures AsFound(c, rows, FRESH) && IsRunFrom(c, CreateTx(FRESH.With(rows), c.specs), states, events)
    ensures forall i :: 0 <= i < |events| ==> Harmless(states[i], events[i])
    ensures |states| == 6 && states[5].db.state.Some? && states[5].db.state.value.phase == Active
    ensures !AllConsistent(states[5].db.rows, c.specs)
  {
    DatabaseOrdersAreTotal(c, number, collate, pk, sk);
    var q, a, b := NumberKeyHides(c, number, collate, pk, sk);
    rows, states, events := HiddenKeyReachesActive(c, q, a, b);
  }
}
