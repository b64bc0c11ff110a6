/** DynamoDB attribute values, the SQL values Postgres derives from them, and the orders
    on both. Decimal literals and byte strings are read the way Postgres reads them. */
module Values {

  datatype Option<+T> = None | Some(value: T)

  type Byte = b: nat | b < 256

  datatype AttributeValue =
    | S(s: string)
    | N(n: string)
    | B(b: seq<Byte>)
    | Bool(v: bool)
    | Null
    | L(items: seq<AttributeValue>)
    | M(entries: map<string, AttributeValue>)
    | Ss(strings: seq<string>)
    | Ns(numbers: seq<string>)
    | Bs(blobs: seq<seq<Byte>>)

  /** The JSONB payload of a row. */
  type Item = map<string, AttributeValue>

  datatype KeyType = KeyS | KeyN | KeyB

  /** A non-NULL column value: `text`, `numeric` or `bytea`. */
  datatype ColVal = Text(text: string) | Numeric(num: real) | Bytea(bytes: seq<Byte>)

  /** Primary-key columns of a row; `sk` is None on a hash-only table. */
  datatype Key = Key(pk: ColVal, sk: Option<ColVal>)

  predicate HasType(v: ColVal, t: KeyType) {
    match t case KeyS => v.Text? case KeyN => v.Numeric? case KeyB => v.Bytea?
  }

  /** The keys a table with these key columns can hold. */
  predicate OfTypes(pk: KeyType, sk: Option<KeyType>, k: Key) {
    && HasType(k.pk, pk)
    && (if sk.None? then k.sk.None? else k.sk.Some? && HasType(k.sk.value, sk.value))
  }

  // ----- decimal literals ------------------------------------------------------

  predicate IsDigit(c: char) { '0' <= c <= '9' }

  function DigitValue(c: char): nat
    requires IsDigit(c)
  {
    c as int - '0' as int
  }

  predicate AllDigits(s: string) { forall i :: 0 <= i < |s| ==> IsDigit(s[i]) }

  /** The number a digit string denotes. */
  function NatOf(s: string): nat
    requires AllDigits(s)
  {
    if s == [] then 0 else 10 * NatOf(s[..|s| - 1]) + DigitValue(s[|s| - 1])
  }

  function Digit(d: nat): char
    requires d < 10
  {
    '0' + d as char
  }

  /** The decimal digits of a number, without leading zeros. */
  function Decimal(n: nat): string {
    if n < 10 then [Digit(n)] else Decimal(n / 10) + [Digit(n % 10)]
  }

  lemma {:induction false} DecimalInverts(n: nat)
    ensures Decimal(n) != "" && AllDigits(Decimal(n)) && NatOf(Decimal(n)) == n
  {
    if n < 10 {
      assert Decimal(n)[..0] == [];
    } else {
      DecimalInverts(n / 10);
      assert Decimal(n)[..|Decimal(n)| - 1] == Decimal(n / 10);
    }
  }

  function IndexOf(s: string, c: char): nat
    ensures IndexOf(s, c) <= |s|
  {
    if s == [] || s[0] == c then 0 else 1 + IndexOf(s[1..], c)
  }

  function Shift(x: real, e: int): real
    decreases if e < 0 then -e else e
  {
    if e == 0 then x else if e > 0 then Shift(10.0 * x, e - 1) else Shift(x / 10.0, e + 1)
  }

  /** `text::numeric`: sign, digits, fraction, exponent. None is a cast that raises. */
  function ParseDecimal(s: string): Option<real> {
    if s != [] && s[0] == '-' then
      match ParseUnsigned(s[1..]) case Some(x) => Some(-x) case None => None
    else
      ParseUnsigned(if s != [] && s[0] == '+' then s[1..] else s)
  }

  function ParseUnsigned(s: string): Option<real> {
    var e := if IndexOf(s, 'e') < |s| then IndexOf(s, 'e') else IndexOf(s, 'E');
    if e == |s| then ParseMantissa(s)
    else match (ParseMantissa(s[..e]), ParseExponent(s[e + 1..]))
      case (Some(m), Some(x)) => Some(Shift(m, x))
      case (_, _) => None
  }

  function ParseExponent(s: string): Option<int> {
    var neg := s != [] && s[0] == '-';
    var d := if s != [] && (s[0] == '-' || s[0] == '+') then s[1..] else s;
    if d == [] || !AllDigits(d) then None else var n: int := NatOf(d); Some(if neg then -n else n)
  }

  function ParseMantissa(s: string): Option<real> {
    var dot := IndexOf(s, '.');
    var whole, frac := s[..dot], if dot < |s| then s[dot + 1..] else [];
    if whole + frac == [] || !AllDigits(whole) || !AllDigits(frac) then None
    else Some(Shift(NatOf(whole + frac) as real, -|frac|))
  }

  lemma OneIsOnePointZero()
    ensures ParseDecimal("1") == Some(1.0) && ParseDecimal("1.0") == Some(1.0)
  {
    assert IndexOf("1", 'e') == 1 && IndexOf("1", 'E') == 1 && IndexOf("1", '.') == 1;
    assert "1"[..1] == "1" && "1" + [] == "1" && NatOf("1") == 1;
    assert IndexOf("1.0", 'e') == 3 && IndexOf("1.0", 'E') == 3 && IndexOf("1.0", '.') == 1;
    assert "1.0"[..1] == "1" && "1.0"[2..] == "0" && "1" + "0" == "10";
    assert "10"[..1] == "1" && NatOf("10") == 10;
    assert Shift(10.0, -1) == 1.0;
  }

  // ----- orders ------------------------------------------------------------------

  ghost predicate StrictTotal<T(!new)>(lt: (T, T) -> bool) {
    && (forall a :: !lt(a, a))
    && (forall a, b, c :: lt(a, b) && lt(b, c) ==> lt(a, c))
    && (forall a, b :: a != b ==> lt(a, b) || lt(b, a))
  }

  /** The same among the values of one domain. */
  ghost predicate StrictTotalOn<T(!new)>(dom: T -> bool, lt: (T, T) -> bool) {
    && (forall a :: dom(a) ==> !lt(a, a))
    && (forall a, b, c :: dom(a) && dom(b) && dom(c) && lt(a, b) && lt(b, c) ==> lt(a, c))
    && (forall a, b :: dom(a) && dom(b) && a != b ==> lt(a, b) || lt(b, a))
  }

  /** Code-point order, which is the byte order of the UTF-8 encodings. */
  predicate TextLess(a: string, b: string) {
    b != [] && (a == [] || a[0] < b[0] || (a[0] == b[0] && TextLess(a[1..], b[1..])))
  }

  predicate BytesLess(a: seq<Byte>, b: seq<Byte>) {
    b != [] && (a == [] || a[0] < b[0] || (a[0] == b[0] && BytesLess(a[1..], b[1..])))
  }

  /** The database's order of text; only `C` collations are code-point order. */
  type Collation = (string, string) -> bool

  /** Column order; values of one column always share a constructor. */
  predicate ColLess(collate: Collation, a: ColVal, b: ColVal) {
    match (a, b)
    case (Text(x), Text(y)) => collate(x, y)
    case (Numeric(x), Numeric(y)) => x < y
    case (Bytea(x), Bytea(y)) => BytesLess(x, y)
    case (Text(_), _) => true
    case (Numeric(_), Bytea(_)) => true
    case (_, _) => false
  }

  /** `ORDER BY pk, sk` and the row-constructor comparison `(pk, sk) < (pk', sk')`. */
  predicate KeyLess(collate: Collation, a: Key, b: Key) {
    if a.pk != b.pk then ColLess(collate, a.pk, b.pk)
    else b.sk.Some? && (a.sk.None? || ColLess(collate, a.sk.value, b.sk.value))
  }

  lemma {:induction false} TextLessStrict(a: string, b: string, c: string)
    ensures !TextLess(a, a)
    ensures TextLess(a, b) && TextLess(b, c) ==> TextLess(a, c)
    ensures a != b ==> TextLess(a, b) || TextLess(b, a)
  {
    if a != [] {
      TextLessStrict(a[1..], if b == [] then [] else b[1..], if c == [] then [] else c[1..]);
    }
    if a != [] && b != [] && a[0] == b[0] && a[1..] == b[1..] {
      assert a == [a[0]] + a[1..] && b == [b[0]] + b[1..];
    }
  }

  lemma {:induction false} BytesLessStrict(a: seq<Byte>, b: seq<Byte>, c: seq<Byte>)
    ensures !BytesLess(a, a)
    ensures BytesLess(a, b) && BytesLess(b, c) ==> BytesLess(a, c)
    ensures a != b ==> BytesLess(a, b) || BytesLess(b, a)
  {
    if a != [] {
      BytesLessStrict(a[1..], if b == [] then [] else b[1..], if c == [] then [] else c[1..]);
    }
    if a != [] && b != [] && a[0] == b[0] && a[1..] == b[1..] {
      assert a == [a[0]] + a[1..] && b == [b[0]] + b[1..];
    }
  }

  /** Code-point order is a collation. */
  lemma CodePointsCollate()
    ensures StrictTotal(TextLess)
  {
    forall a, b, c: string
      ensures !TextLess(a, a)
      ensures TextLess(a, b) && TextLess(b, c) ==> TextLess(a, c)
      ensures a != b ==> TextLess(a, b) || TextLess(b, a)
    {
      TextLessStrict(a, b, c);
    }
  }

  lemma ColLessStrict(collate: Collation, a: ColVal, b: ColVal, c: ColVal)
    requires StrictTotal(collate)
    ensures !ColLess(collate, a, a)
    ensures ColLess(collate, a, b) && ColLess(collate, b, c) ==> ColLess(collate, a, c)
    ensures a != b ==> ColLess(collate, a, b) || ColLess(collate, b, a)
  {
    if a.Bytea? {
      BytesLessStrict(a.bytes, if b.Bytea? then b.bytes else [], if c.Bytea? then c.bytes else []);
    }
  }

  lemma KeyLessStrict(collate: Collation, a: Key, b: Key, c: Key)
    requires StrictTotal(collate)
    ensures !KeyLess(collate, a, a)
    ensures KeyLess(collate, a, b) && KeyLess(collate, b, c) ==> KeyLess(collate, a, c)
    ensures a != b ==> KeyLess(collate, a, b) || KeyLess(collate, b, a)
  {
    ColLessStrict(collate, a.pk, b.pk, c.pk);
    ColLessStrict(collate, b.pk, a.pk, c.pk);
    if a.sk.Some? {
      var d := a.sk.value;
      ColLessStrict(collate, d, if b.sk.Some? then b.sk.value else d, if c.sk.Some? then c.sk.value else d);
    }
  }
}
