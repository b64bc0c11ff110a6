/** Lowering of a KeyConditionExpression to a partition value and a sort-key bound, and the SQL
    predicate that bound becomes, LIKE escaping included. */
module KeyCondition {
  import opened Values
  import opened Storage
  import opened Expressions

  datatype KeyValue = KvS(s: string) | KvN(n: string) | KvB(b: seq<Byte>)

  datatype SkCondition =
    | SkEq(v: KeyValue) | SkLt(v: KeyValue) | SkLe(v: KeyValue) | SkGt(v: KeyValue) | SkGe(v: KeyValue)
    | SkBetween(lo: KeyValue, hi: KeyValue)
    | SkBeginsWithS(prefix: string)

  datatype KeyBounds = KeyBounds(pk: KeyValue, sk: Option<SkCondition>)

  datatype TranslateError =
    | UnsupportedShape | MissingPkEquality | NonKeyAttr | PkMustBeEquality
    | PkTypeMismatch | SkTypeMismatch | RhsMustBeValue | BeginsWithRequiresStringSk

  datatype Result<T> = Success(value: T) | Failure(error: TranslateError) {
    predicate IsFailure() { Failure? }
    function PropagateFailure<U>(): Result<U> requires Failure? { Result.Failure(error) }
    function Extract(): T requires Success? { value }
  }

  // ----- the lowering ---------------------------------------------------------------

  function ToKeyValue(v: AttributeValue, t: KeyType): Option<KeyValue> {
    match (t, v)
    case (KeyS, S(s)) => Some(KvS(s))
    case (KeyN, N(n)) => Some(KvN(n))
    case (KeyB, B(b)) => Some(KvB(b))
    case (_, _) => None
  }

  /** The attribute and the literal of a comparison, in either order: orientation is dropped here. */
  function PathAndValue(l: Operand, r: Operand): Result<(string, AttributeValue)> {
    match (l, r)
    case (PathOperand(p), ValueOperand(v)) =>
      if TopName(p).Some? then Success((TopName(p).value, v)) else Failure(UnsupportedShape)
    case (ValueOperand(v), PathOperand(p)) =>
      if TopName(p).Some? then Success((TopName(p).value, v)) else Failure(UnsupportedShape)
    case (PathOperand(_), PathOperand(_)) => Failure(RhsMustBeValue)
    case (ValueOperand(_), ValueOperand(_)) => Failure(UnsupportedShape)
  }

  function OperandLiteral(o: Operand): Result<AttributeValue> {
    if o.ValueOperand? then Success(o.value) else Failure(RhsMustBeValue)
  }

  function Typecheck(v: AttributeValue, t: KeyType, e: TranslateError): Result<KeyValue> {
    var kv := ToKeyValue(v, t);
    if kv.Some? then Success(kv.value) else Failure(e)
  }

  function MatchPkEquality(c: Condition, shape: Shape): Result<KeyValue> {
    if !c.Compare? then Failure(UnsupportedShape)
    else
      var (attr, value) :- PathAndValue(c.left, c.right);
      if attr != shape.pk.name then
        Failure(if shape.sk.Some? && attr == shape.sk.value.name then MissingPkEquality else NonKeyAttr)
      else if c.op != Eq then Failure(PkMustBeEquality)
      else Typecheck(value, shape.pk.keyType, PkTypeMismatch)
  }

  function SkComparison(op: ComparisonOp, v: KeyValue): Result<SkCondition> {
    match op
    case Eq => Success(SkEq(v))
    case Lt => Success(SkLt(v))
    case Le => Success(SkLe(v))
    case Gt => Success(SkGt(v))
    case Ge => Success(SkGe(v))
    case Ne => Failure(UnsupportedShape)
  }

  function MatchSkPredicate(c: Condition, shape: Shape): Result<SkCondition> {
    if shape.sk.None? then Failure(UnsupportedShape)
    else
      var sk := shape.sk.value;
      match c
      case Compare(op, l, r) =>
        var (attr, value) :- PathAndValue(l, r);
        if attr != sk.name then Failure(NonKeyAttr)
        else
          var kv :- Typecheck(value, sk.keyType, SkTypeMismatch);
          SkComparison(op, kv)
      case Between(target, lo, hi) =>
        if target.ValueOperand? || TopName(target.path).None? then Failure(UnsupportedShape)
        else if TopName(target.path).value != sk.name then Failure(NonKeyAttr)
        else
          var lov :- OperandLiteral(lo);
          var hiv :- OperandLiteral(hi);
          var lokv :- Typecheck(lov, sk.keyType, SkTypeMismatch);
          var hikv :- Typecheck(hiv, sk.keyType, SkTypeMismatch);
          Success(SkBetween(lokv, hikv))
      case BeginsWith(p, o) =>
        if TopName(p).None? then Failure(UnsupportedShape)
        else if TopName(p).value != sk.name then Failure(NonKeyAttr)
        else if sk.keyType != KeyS then Failure(BeginsWithRequiresStringSk)
        else
          var v :- OperandLiteral(o);
          if v.S? then Success(SkBeginsWithS(v.s)) else Failure(SkTypeMismatch)
      case _ => Failure(UnsupportedShape)
  }

  function ExtractKeyCondition(c: Condition, shape: Shape): Result<KeyBounds> {
    if c.And? then
      var pk :- MatchPkEquality(c.a, shape);
      var sk :- MatchSkPredicate(c.b, shape);
      Success(KeyBounds(pk, Some(sk)))
    else
      var pk :- MatchPkEquality(c, shape);
      Success(KeyBounds(pk, None))
  }

  // ----- LIKE ---------------------------------------------------------------------------

  const ESCAPE := '\\'

  predicate Special(c: char) { c == ESCAPE || c == '%' || c == '_' }

  function EscapeChar(c: char): string { if Special(c) then [ESCAPE, c] else [c] }

  function EscapeLike(s: string): string {
    if s == [] then [] else EscapeChar(s[0]) + EscapeLike(s[1..])
  }

  /** `s LIKE pat ESCAPE '\'`: `%` any substring, `_` any character, `\c` the character c. */
  predicate Like(pat: string, s: string)
    decreases |pat| + |s|
  {
    if pat == [] then s == []
    else if pat[0] == '%' then Like(pat[1..], s) || (s != [] && Like(pat, s[1..]))
    else if pat[0] == '_' then s != [] && Like(pat[1..], s[1..])
    else if pat[0] == ESCAPE then |pat| >= 2 && s != [] && s[0] == pat[1] && Like(pat[2..], s[1..])
    else s != [] && s[0] == pat[0] && Like(pat[1..], s[1..])
  }

  lemma {:induction false} PercentMatchesAll(s: string)
    ensures Like("%", s)
  {
    if s != [] { PercentMatchesAll(s[1..]); }
    assert "%"[1..] == [];
  }

  /** An escaped prefix followed by `%` matches exactly the strings that start with the prefix. */
  lemma {:induction false} EscapedPrefixMatchesExactly(p: string, s: string)
    ensures Like(EscapeLike(p) + "%", s) <==> p <= s
  {
    if p == [] {
      PercentMatchesAll(s);
      assert EscapeLike(p) + "%" == "%";
    } else {
      var rest := EscapeLike(p[1..]) + "%";
      var pat := EscapeChar(p[0]) + rest;
      assert EscapeLike(p) + "%" == pat;
      assert if Special(p[0]) then pat[0] == ESCAPE && pat[1] == p[0] && pat[2..] == rest
             else pat[0] == p[0] && pat[1..] == rest;
      if s != [] {
        EscapedPrefixMatchesExactly(p[1..], s[1..]);
        assert p <= s <==> p[0] == s[0] && p[1..] <= s[1..];
      }
    }
  }

  lemma {:induction false} EscapeLikeSnoc(s: string, c: char)
    ensures EscapeLike(s + [c]) == EscapeLike(s) + EscapeChar(c)
  {
    if s != [] {
      EscapeLikeSnoc(s[1..], c);
      assert (s + [c])[1..] == s[1..] + [c];
    }
  }

  /** The push loop: its output, closed with `%`, matches exactly the strings with prefix `s`. */
  method EscapeLikeLoop(s: string) returns (out: string)
    ensures out == EscapeLike(s)
    ensures forall t :: Like(out + "%", t) <==> s <= t
  {
    out := [];
    for i := 0 to |s|
      invariant out == EscapeLike(s[..i])
    {
      EscapeLikeSnoc(s[..i], s[i]);
      assert s[..i + 1] == s[..i] + [s[i]];
      if s[i] == '\\' || s[i] == '%' || s[i] == '_' { out := out + [ESCAPE]; }
      out := out + [s[i]];
    }
    assert s[..|s|] == s;
    forall t ensures Like(out + "%", t) <==> s <= t { EscapedPrefixMatchesExactly(s, t); }
  }

  // ----- the rows the bounds select --------------------------------------------------------

  /** The bound parameter after its cast; None when the cast raises. */
  function Cast(v: KeyValue): Option<ColVal> {
    match v
    case KvS(s) => Some(Text(s))
    case KvN(n) => (match ParseDecimal(n) case Some(x) => Some(Numeric(x)) case None => None)
    case KvB(b) => Some(Bytea(b))
  }

  predicate SkCasts(c: SkCondition) {
    match c
    case SkBetween(lo, hi) => Cast(lo).Some? && Cast(hi).Some?
    case SkBeginsWithS(_) => true
    case _ => Cast(c.v).Some?
  }

  predicate Casts(b: KeyBounds) {
    Cast(b.pk).Some? && (b.sk.Some? ==> SkCasts(b.sk.value))
  }

  predicate SkSelects(collate: Collation, c: SkCondition, sk: ColVal)
    requires SkCasts(c)
  {
    match c
    case SkEq(v) => sk == Cast(v).value
    case SkLt(v) => ColLess(collate, sk, Cast(v).value)
    case SkLe(v) => sk == Cast(v).value || ColLess(collate, sk, Cast(v).value)
    case SkGt(v) => ColLess(collate, Cast(v).value, sk)
    case SkGe(v) => sk == Cast(v).value || ColLess(collate, Cast(v).value, sk)
    case SkBetween(lo, hi) => !ColLess(collate, sk, Cast(lo).value) && !ColLess(collate, Cast(hi).value, sk)
    case SkBeginsWithS(p) => sk.Text? && Like(EscapeLike(p) + "%", sk.text)
  }

  /** The WHERE clause of the query, without its pagination term. */
  predicate Selects(collate: Collation, b: KeyBounds, k: Key)
    requires Casts(b)
  {
    && k.pk == Cast(b.pk).value
    && (b.sk.Some? ==> k.sk.Some? && SkSelects(collate, b.sk.value, k.sk.value))
  }

  // ----- what a key condition means ----------------------------------------------------------

  predicate TypedKey(shape: Shape, k: Key) {
    && HasType(k.pk, shape.pk.keyType)
    && (if shape.sk.None? then k.sk.None? else k.sk.Some? && HasType(k.sk.value, shape.sk.value.keyType))
  }

  function KeyOperand(shape: Shape, k: Key, o: Operand): Option<ColVal> {
    match o
    case PathOperand(p) =>
      if TopName(p) == Some(shape.pk.name) then Some(k.pk)
      else if shape.sk.Some? && TopName(p) == Some(shape.sk.value.name) then k.sk
      else None
    case ValueOperand(v) =>
      match v
      case S(s) => Some(Text(s))
      case N(n) => Cast(KvN(n))
      case B(b) => Some(Bytea(b))
      case _ => None
  }

  predicate ColCompare(collate: Collation, op: ComparisonOp, a: ColVal, b: ColVal) {
    match op
    case Eq => a == b
    case Ne => a != b
    case Lt => ColLess(collate, a, b)
    case Le => a == b || ColLess(collate, a, b)
    case Gt => ColLess(collate, b, a)
    case Ge => a == b || ColLess(collate, b, a)
  }

  /** The condition read as written, over the row's typed key values. */
  predicate Satisfies(collate: Collation, shape: Shape, k: Key, c: Condition) {
    match c
    case Compare(op, l, r) =>
      var a, b := KeyOperand(shape, k, l), KeyOperand(shape, k, r);
      a.Some? && b.Some? && ColCompare(collate, op, a.value, b.value)
    case Between(t, lo, hi) =>
      var v, l, h := KeyOperand(shape, k, t), KeyOperand(shape, k, lo), KeyOperand(shape, k, hi);
      v.Some? && l.Some? && h.Some? && ColCompare(collate, Ge, v.value, l.value) && ColCompare(collate, Le, v.value, h.value)
    case BeginsWith(p, o) =>
      var v, n := KeyOperand(shape, k, PathOperand(p)), KeyOperand(shape, k, o);
      v.Some? && n.Some? && v.value.Text? && n.value.Text? && n.value.text <= v.value.text
    case And(a, b) => Satisfies(collate, shape, k, a) && Satisfies(collate, shape, k, b)
    case _ => false
  }

  /** The literal stands left of the sort key in an ordering comparison, as in `:v < sk`. */
  predicate ValueFirstOrdering(c: Condition) {
    c.And? && c.b.Compare? && IsOrdering(c.b.op) && c.b.left.ValueOperand?
  }

  predicate DistinctKeyNames(shape: Shape) {
    shape.sk.Some? ==> shape.sk.value.name != shape.pk.name
  }

  lemma PkTermMeansEquality(collate: Collation, c: Condition, shape: Shape, k: Key)
    requires MatchPkEquality(c, shape).Success? && Cast(MatchPkEquality(c, shape).value).Some?
    ensures Satisfies(collate, shape, k, c) <==> k.pk == Cast(MatchPkEquality(c, shape).value).value
  {
    var kv := MatchPkEquality(c, shape).value;
    var path, value := if c.left.PathOperand? then c.left else c.right, if c.left.PathOperand? then c.right else c.left;
    assert KeyOperand(shape, k, path) == Some(k.pk);
    assert KeyOperand(shape, k, value) == Cast(kv);
  }

  lemma SkTermMeansBound(collate: Collation, c: Condition, shape: Shape, k: Key)
    requires StrictTotal(collate) && DistinctKeyNames(shape) && TypedKey(shape, k)
    requires MatchSkPredicate(c, shape).Success? && SkCasts(MatchSkPredicate(c, shape).value)
    requires !(c.Compare? && IsOrdering(c.op) && c.left.ValueOperand?)
    ensures k.sk.Some?
    ensures Satisfies(collate, shape, k, c) <==> SkSelects(collate, MatchSkPredicate(c, shape).value, k.sk.value)
  {
    var sk := k.sk.value;
    match c
    case BeginsWith(p, o) => EscapedPrefixMatchesExactly(o.value.s, sk.text);
    case Between(t, lo, hi) =>
      var b := MatchSkPredicate(c, shape).value;
      ColLessStrict(collate, sk, Cast(b.lo).value, sk);
      ColLessStrict(collate, sk, Cast(b.hi).value, sk);
    case _ =>
  }

  /** Some sort key other than the literal tells `:v < sk` from `sk < :v`. */
  lemma SwappedOrderingMisreads(collate: Collation, c: Condition, shape: Shape, pk: ColVal) returns (k: Key)
    requires StrictTotal(collate) && DistinctKeyNames(shape) && HasType(pk, shape.pk.keyType)
    requires MatchSkPredicate(c, shape).Success? && SkCasts(MatchSkPredicate(c, shape).value)
    requires c.Compare? && IsOrdering(c.op) && c.left.ValueOperand?
    ensures TypedKey(shape, k) && k.pk == pk
    ensures !(Satisfies(collate, shape, k, c) <==> SkSelects(collate, MatchSkPredicate(c, shape).value, k.sk.value))
  {
    var lit := Cast(MatchSkPredicate(c, shape).value.v).value;
    var other :=
      match lit
      case Text(s) => Text(s + "a")
      case Numeric(x) => Numeric(x + 1.0)
      case Bytea(b) => Bytea(b + [0]);
    if lit.Text? { assert |other.text| != |lit.text|; }
    if lit.Bytea? { assert |other.bytes| != |lit.bytes|; }
    ColLessStrict(collate, lit, other, lit);
    k := Key(pk, Some(other));
  }

  /** The lowering of every accepted key condition selects exactly the rows that satisfy it, unless
      an ordering comparison puts its literal first; then some row always tells them apart. */
  lemma LoweringPreservesMeaningExactly(collate: Collation, c: Condition, shape: Shape)
    requires StrictTotal(collate) && DistinctKeyNames(shape)
    requires ExtractKeyCondition(c, shape).Success? && Casts(ExtractKeyCondition(c, shape).value)
    ensures (forall k :: TypedKey(shape, k) ==>
               (Selects(collate, ExtractKeyCondition(c, shape).value, k) <==> Satisfies(collate, shape, k, c)))
       <==> !ValueFirstOrdering(c)
  {
    var b := ExtractKeyCondition(c, shape).value;
    if ValueFirstOrdering(c) {
      var pk := Cast(b.pk).value;
      var k := SwappedOrderingMisreads(collate, c.b, shape, pk);
      PkTermMeansEquality(collate, c.a, shape, k);
    } else {
      forall k | TypedKey(shape, k)
        ensures Selects(collate, b, k) <==> Satisfies(collate, shape, k, c)
      {
        PkTermMeansEquality(collate, if c.And? then c.a else c, shape, k);
        if c.And? { SkTermMeansBound(collate, c.b, shape, k); }
      }
    }
  }
}
