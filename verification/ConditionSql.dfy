/** The ConditionExpression → WHERE compiler, the classifier that decides what reaches it, and the
    three-valued meaning Postgres gives the emitted fragment. */
module ConditionSql {
  import opened Values
  import opened Storage
  import opened Expressions

  // ----- what the compiler emits ------------------------------------------------------

  /** A bound value: text, one attribute value or one whole item as JSONB, raw bytes. */
  datatype Param =
    | TextParam(text: string)
    | JsonbParam(json: AttributeValue)
    | ItemParam(item: Item)
    | ByteaParam(bytes: seq<Byte>)

  datatype PgType = TEXT | JSONB | BYTEA

  /** Positional parameters with the types they are prepared under; placeholder `$i` is index i-1. */
  datatype Binds = Binds(params: seq<Param>, types: seq<PgType>)

  datatype SqlJson = DataGet(attr: nat) | JsonParam(value: nat)

  datatype SqlCond =
    | HasKey(attr: nat)
    | JsonCompare(equal: bool, left: SqlJson, right: SqlJson)
    | NumericCompare(attr: nat, op: ComparisonOp, literal: nat)
    | TextCompare(attr: nat, op: ComparisonOp, literal: nat)
    | SqlAnd(l: SqlCond, r: SqlCond)
    | SqlOr(l: SqlCond, r: SqlCond)
    | SqlNot(s: SqlCond)

  predicate Fits(p: Param, t: PgType) {
    match (p, t)
    case (TextParam(_), TEXT) => true
    case (JsonbParam(_), JSONB) => true
    case (ItemParam(_), JSONB) => true
    case (ByteaParam(_), BYTEA) => true
    case (_, _) => false
  }

  predicate Aligned(b: Binds) {
    && |b.params| == |b.types|
    && forall i :: 0 <= i < |b.params| ==> Fits(b.params[i], b.types[i])
  }

  predicate Extends(b: Binds, b': Binds) {
    b.params <= b'.params && b.types <= b'.types
  }

  function Bind(b: Binds, p: Param, t: PgType): Binds {
    Binds(b.params + [p], b.types + [t])
  }

  function KeyText(v: AttributeValue): string {
    match v case S(s) => s case N(n) => n case _ => ""
  }

  function BindKeyValue(b: Binds, v: AttributeValue): Binds {
    if v.B? then Bind(b, ByteaParam(v.b), BYTEA) else Bind(b, TextParam(KeyText(v)), TEXT)
  }

  // ----- the classifier ---------------------------------------------------------------

  datatype Routing = InsertOnlyOnPk | SimpleSql | NeedsTx

  predicate OrderingHasTypedExtraction(l: Operand, r: Operand) {
    match (l, r)
    case (PathOperand(_), ValueOperand(v)) => v.N? || v.S?
    case (ValueOperand(v), PathOperand(_)) => v.N? || v.S?
    case (_, _) => false
  }

  predicate FitsSql(c: Condition) {
    match c
    case AttributeExists(_) => true
    case AttributeNotExists(_) => true
    case Compare(op, l, r) => !IsOrdering(op) || OrderingHasTypedExtraction(l, r)
    case And(a, b) => FitsSql(a) && FitsSql(b)
    case Or(a, b) => FitsSql(a) && FitsSql(b)
    case Not(a) => FitsSql(a)
    case _ => false
  }

  function Classify(c: Condition, pkAttr: string): Routing {
    if c.AttributeNotExists? && TopName(c.path) == Some(pkAttr) then InsertOnlyOnPk
    else if FitsSql(c) then SimpleSql
    else NeedsTx
  }

  // ----- the compiler, threading its parameter list --------------------------------------

  function FlipIf(op: ComparisonOp, swap: bool): ComparisonOp {
    if !swap then op
    else match op case Lt => Gt case Le => Ge case Gt => Lt case Ge => Le case _ => op
  }

  function CompileOperand(b: Binds, o: Operand): Option<(SqlJson, Binds)> {
    match o
    case PathOperand(p) =>
      if TopName(p).None? then None
      else Some((DataGet(|b.params| + 1), Bind(b, TextParam(TopName(p).value), TEXT)))
    case ValueOperand(v) => Some((JsonParam(|b.params| + 1), Bind(b, JsonbParam(v), JSONB)))
  }

  function CompileOrdering(b: Binds, op: ComparisonOp, l: Operand, r: Operand): Option<(SqlCond, Binds)> {
    if l.PathOperand? == r.PathOperand? then None
    else
      var (path, value, sqlOp) :=
        if l.PathOperand? then (l.path, r.value, op) else (r.path, l.value, FlipIf(op, true));
      if TopName(path).None? || !(value.N? || value.S?) then None
      else
        var attr := |b.params| + 1;
        var b1 := Bind(b, TextParam(TopName(path).value), TEXT);
        var b2 := Bind(b1, TextParam(if value.N? then value.n else value.s), TEXT);
        Some((if value.N? then NumericCompare(attr, sqlOp, attr + 1) else TextCompare(attr, sqlOp, attr + 1), b2))
  }

  function Compile(b: Binds, c: Condition): Option<(SqlCond, Binds)>
    decreases c
  {
    match c
    case AttributeExists(p) =>
      if TopName(p).None? then None
      else Some((HasKey(|b.params| + 1), Bind(b, TextParam(TopName(p).value), TEXT)))
    case AttributeNotExists(p) =>
      if TopName(p).None? then None
      else Some((SqlNot(HasKey(|b.params| + 1)), Bind(b, TextParam(TopName(p).value), TEXT)))
    case Compare(op, l, r) =>
      if IsOrdering(op) then CompileOrdering(b, op, l, r)
      else (match CompileOperand(b, l)
            case None => None
            case Some((ls, b1)) =>
              match CompileOperand(b1, r)
              case None => None
              case Some((rs, b2)) => Some((JsonCompare(op == Eq, ls, rs), b2)))
    case And(x, y) =>
      (match Compile(b, x)
       case None => None
       case Some((l, b1)) =>
         match Compile(b1, y) case None => None case Some((r, b2)) => Some((SqlAnd(l, r), b2)))
    case Or(x, y) =>
      (match Compile(b, x)
       case None => None
       case Some((l, b1)) =>
         match Compile(b1, y) case None => None case Some((r, b2)) => Some((SqlOr(l, r), b2)))
    case Not(x) =>
      (match Compile(b, x) case None => None case Some((s, b1)) => Some((SqlNot(s), b1)))
    case _ => None
  }

  /** Every path of the condition begins with a name, as the parser guarantees. */
  predicate NameHeaded(c: Condition) {
    match c
    case AttributeExists(p) => TopName(p).Some?
    case AttributeNotExists(p) => TopName(p).Some?
    case Compare(_, l, r) => OperandNameHeaded(l) && OperandNameHeaded(r)
    case And(a, b) => NameHeaded(a) && NameHeaded(b)
    case Or(a, b) => NameHeaded(a) && NameHeaded(b)
    case Not(a) => NameHeaded(a)
    case _ => true
  }

  predicate OperandNameHeaded(o: Operand) { o.PathOperand? ==> TopName(o.path).Some? }

  /** The classifier and the compiler, which live in different crates, agree exactly. */
  lemma {:induction false} CompilesExactlyWhenClassified(b: Binds, c: Condition)
    requires NameHeaded(c)
    ensures Compile(b, c).Some? <==> FitsSql(c)
    decreases c
  {
    match c
    case And(x, y) =>
      CompilesExactlyWhenClassified(b, x);
      if Compile(b, x).Some? { CompilesExactlyWhenClassified(Compile(b, x).value.1, y); }
    case Or(x, y) =>
      CompilesExactlyWhenClassified(b, x);
      if Compile(b, x).Some? { CompilesExactlyWhenClassified(Compile(b, x).value.1, y); }
    case Not(x) => CompilesExactlyWhenClassified(b, x);
    case _ =>
  }

  // ----- three-valued evaluation by Postgres ----------------------------------------------

  /** SQL truth values; `Raised` is a statement aborted by a failing cast or a parameter of the
      wrong type. */
  datatype Truth = True | False | Unknown | Raised

  /** How the database casts text to `numeric`, None when the cast raises, and collates text. */
  datatype Pg = Pg(numeric: string -> Option<real>, collate: (string, string) -> Ordering)

  function OfBool(v: bool): Truth { if v then True else False }

  function And3(a: Truth, b: Truth): Truth {
    if a == Raised || b == Raised then Raised
    else if a == False || b == False then False
    else if a == Unknown || b == Unknown then Unknown else True
  }

  function Not3(a: Truth): Truth {
    match a case True => False case False => True case _ => a
  }

  function Or3(a: Truth, b: Truth): Truth { Not3(And3(Not3(a), Not3(b))) }

  function TextAt(b: Binds, i: nat): Option<string> {
    if 1 <= i <= |b.params| && i <= |b.types| && b.types[i - 1] == TEXT && b.params[i - 1].TextParam?
    then Some(b.params[i - 1].text) else None
  }

  function JsonAt(b: Binds, i: nat): Option<AttributeValue> {
    if 1 <= i <= |b.params| && i <= |b.types| && b.types[i - 1] == JSONB && b.params[i - 1].JsonbParam?
    then Some(b.params[i - 1].json) else None
  }

  /** None: a misbound placeholder. Some(None): SQL NULL. */
  function EvalJson(b: Binds, row: Item, e: SqlJson): Option<Option<AttributeValue>> {
    match e
    case DataGet(i) =>
      (match TextAt(b, i)
       case None => None
       case Some(n) => Some(if n in row then Some(row[n]) else None))
    case JsonParam(i) => (match JsonAt(b, i) case None => None case Some(v) => Some(Some(v)))
  }

  /** `(data #>> '{attr,N}')::numeric op literal::numeric`. */
  function NumericTruth(pg: Pg, row: Item, attr: string, op: ComparisonOp, literal: string): Truth {
    match pg.numeric(literal)
    case None => Raised
    case Some(y) =>
      if attr !in row || !row[attr].N? then Unknown
      else match pg.numeric(row[attr].n)
        case None => Raised
        case Some(x) => OfBool(ApplyOrd(op, CompareReal(x, y)))
  }

  /** `data #>> '{attr,S}' op literal`, under the database's collation. */
  function TextTruth(pg: Pg, row: Item, attr: string, op: ComparisonOp, literal: string): Truth {
    if attr !in row || !row[attr].S? then Unknown
    else OfBool(ApplyOrd(op, pg.collate(row[attr].s, literal)))
  }

  function JsonTruth(equal: bool, l: Option<AttributeValue>, r: Option<AttributeValue>): Truth {
    if l.None? || r.None? then Unknown else OfBool((l.value == r.value) == equal)
  }

  function EvalSql(pg: Pg, b: Binds, row: Item, q: SqlCond): Truth {
    match q
    case HasKey(i) => (match TextAt(b, i) case None => Raised case Some(n) => OfBool(n in row))
    case JsonCompare(equal, l, r) =>
      (match (EvalJson(b, row, l), EvalJson(b, row, r))
       case (Some(lv), Some(rv)) => JsonTruth(equal, lv, rv)
       case (_, _) => Raised)
    case NumericCompare(i, op, j) =>
      (match (TextAt(b, i), TextAt(b, j))
       case (Some(n), Some(lit)) => NumericTruth(pg, row, n, op, lit)
       case (_, _) => Raised)
    case TextCompare(i, op, j) =>
      (match (TextAt(b, i), TextAt(b, j))
       case (Some(n), Some(lit)) => TextTruth(pg, row, n, op, lit)
       case (_, _) => Raised)
    case SqlAnd(l, r) => And3(EvalSql(pg, b, row, l), EvalSql(pg, b, row, r))
    case SqlOr(l, r) => Or3(EvalSql(pg, b, row, l), EvalSql(pg, b, row, r))
    case SqlNot(s) => Not3(EvalSql(pg, b, row, s))
  }

  /** The three-valued meaning of a condition, read off the condition itself. */
  function Meaning(pg: Pg, row: Item, c: Condition): Truth {
    match c
    case AttributeExists(p) => OfBool(Attr(Some(row), p).Some?)
    case AttributeNotExists(p) => OfBool(Attr(Some(row), p).None?)
    case Compare(op, l, r) =>
      if !IsOrdering(op) then JsonTruth(op == Eq, OperandValue(Some(row), l), OperandValue(Some(row), r))
      else OrderingMeaning(pg, row, op, l, r)
    case And(x, y) => And3(Meaning(pg, row, x), Meaning(pg, row, y))
    case Or(x, y) => Or3(Meaning(pg, row, x), Meaning(pg, row, y))
    case Not(x) => Not3(Meaning(pg, row, x))
    case _ => Raised
  }

  function OrderingMeaning(pg: Pg, row: Item, op: ComparisonOp, l: Operand, r: Operand): Truth {
    match (l, r)
    case (PathOperand(p), ValueOperand(v)) => AgainstLiteral(pg, row, p, op, v)
    case (ValueOperand(v), PathOperand(p)) => AgainstLiteral(pg, row, p, FlipIf(op, true), v)
    case (_, _) => Raised
  }

  function AgainstLiteral(pg: Pg, row: Item, p: Path, op: ComparisonOp, v: AttributeValue): Truth {
    match (TopName(p), v)
    case (Some(n), N(lit)) => NumericTruth(pg, row, n, op, lit)
    case (Some(n), S(lit)) => TextTruth(pg, row, n, op, lit)
    case (_, _) => Raised
  }

  // ----- placeholders ------------------------------------------------------------------------

  /** Compiling only appends parameters, and keeps parameters and types aligned. */
  lemma {:induction false} CompilingAppendsAligned(b: Binds, c: Condition)
    requires Aligned(b) && Compile(b, c).Some?
    ensures Aligned(Compile(b, c).value.1) && Extends(b, Compile(b, c).value.1)
    decreases c
  {
    match c
    case And(x, y) =>
      CompilingAppendsAligned(b, x);
      CompilingAppendsAligned(Compile(b, x).value.1, y);
    case Or(x, y) =>
      CompilingAppendsAligned(b, x);
      CompilingAppendsAligned(Compile(b, x).value.1, y);
    case Not(x) => CompilingAppendsAligned(b, x);
    case _ =>
  }

  /** Whatever is bound afterwards, a compiled fragment evaluates to the condition's three-valued
      meaning: each placeholder denotes the parameter bound for it. */
  lemma {:induction false} CompiledFragmentMeansCondition(pg: Pg, row: Item, b: Binds, c: Condition, later: Binds)
    requires Aligned(b) && Compile(b, c).Some?
    requires Extends(Compile(b, c).value.1, later)
    ensures EvalSql(pg, later, row, Compile(b, c).value.0) == Meaning(pg, row, c)
    decreases c
  {
    match c
    case And(x, y) =>
      BothFragments(b, x, y, later);
      CompiledFragmentMeansCondition(pg, row, b, x, later);
      CompiledFragmentMeansCondition(pg, row, Compile(b, x).value.1, y, later);
    case Or(x, y) =>
      BothFragments(b, x, y, later);
      CompiledFragmentMeansCondition(pg, row, b, x, later);
      CompiledFragmentMeansCondition(pg, row, Compile(b, x).value.1, y, later);
    case Not(x) => CompiledFragmentMeansCondition(pg, row, b, x, later);
    case _ => LeafFragment(pg, row, b, c, later);
  }

  lemma LeafFragment(pg: Pg, row: Item, b: Binds, c: Condition, later: Binds)
    requires !c.And? && !c.Or? && !c.Not?
    requires Aligned(b) && Compile(b, c).Some? && Extends(Compile(b, c).value.1, later)
    ensures EvalSql(pg, later, row, Compile(b, c).value.0) == Meaning(pg, row, c)
  {
    match c
    case Compare(op, l, r) =>
      if IsOrdering(op) { OrderingFragment(pg, row, b, op, l, r, later); }
      else { EqualityFragment(row, b, l, r, later); }
    case AttributeExists(p) => ExistenceFragment(b, p, later);
    case AttributeNotExists(p) => ExistenceFragment(b, p, later);
    case _ =>
  }

  lemma ExistenceFragment(b: Binds, p: Path, later: Binds)
    requires Aligned(b) && TopName(p).Some?
    requires Extends(Bind(b, TextParam(TopName(p).value), TEXT), later)
    ensures TextAt(later, |b.params| + 1) == TopName(p)
  {
    var b' := Bind(b, TextParam(TopName(p).value), TEXT);
    assert later.params[|b.params|] == b'.params[|b.params|];
    assert later.types[|b.params|] == b'.types[|b.params|];
  }

  lemma BothFragments(b: Binds, x: Condition, y: Condition, later: Binds)
    requires Aligned(b) && Compile(b, x).Some? && Compile(Compile(b, x).value.1, y).Some?
    requires Extends(Compile(Compile(b, x).value.1, y).value.1, later)
    ensures Aligned(Compile(b, x).value.1) && Extends(Compile(b, x).value.1, later)
  {
    CompilingAppendsAligned(b, x);
    CompilingAppendsAligned(Compile(b, x).value.1, y);
  }

  lemma OrderingFragment(pg: Pg, row: Item, b: Binds, op: ComparisonOp, l: Operand, r: Operand, later: Binds)
    requires Aligned(b) && CompileOrdering(b, op, l, r).Some?
    requires Extends(CompileOrdering(b, op, l, r).value.1, later)
    ensures
      var (q, b') := CompileOrdering(b, op, l, r).value;
      Aligned(b') && Extends(b, b') && EvalSql(pg, later, row, q) == OrderingMeaning(pg, row, op, l, r)
  {
    var (q, b') := CompileOrdering(b, op, l, r).value;
    var i := |b.params|;
    assert later.params[i] == b'.params[i] && later.params[i + 1] == b'.params[i + 1];
    assert later.types[i] == TEXT && later.types[i + 1] == TEXT;
  }

  lemma EqualityFragment(row: Item, b: Binds, l: Operand, r: Operand, later: Binds)
    requires Aligned(b) && CompileOperand(b, l).Some? && CompileOperand(CompileOperand(b, l).value.1, r).Some?
    requires Extends(CompileOperand(CompileOperand(b, l).value.1, r).value.1, later)
    ensures
      var (ls, b1) := CompileOperand(b, l).value;
      var (rs, b2) := CompileOperand(b1, r).value;
      && Aligned(b2) && Extends(b, b2)
      && EvalJson(later, row, ls) == Some(OperandValue(Some(row), l))
      && EvalJson(later, row, rs) == Some(OperandValue(Some(row), r))
  {
    var b2 := CompileOperand(CompileOperand(b, l).value.1, r).value.1;
    var i := |b.params|;
    assert later.params[i] == b2.params[i] && later.params[i + 1] == b2.params[i + 1];
    assert later.types[i] == b2.types[i] && later.types[i + 1] == b2.types[i + 1];
  }

  // ----- WHERE against the evaluator ---------------------------------------------------------

  /** Double rounding and the database collation rank these two operands as exact decimals and
      code points do. */
  predicate SameRanking(f: Float64, pg: Pg, stored: AttributeValue, literal: AttributeValue) {
    match (stored, literal)
    case (N(a), N(v)) =>
      && pg.numeric(a).Some? && pg.numeric(v).Some? && f(a).Some? && f(v).Some?
      && CompareReal(f(a).value, f(v).value) == CompareReal(pg.numeric(a).value, pg.numeric(v).value)
    case (S(a), S(v)) => pg.collate(a, v) == CompareText(a, v)
    case (_, N(v)) => pg.numeric(v).Some?
    case (_, _) => true
  }

  /** Every ordering comparison of `c` on this row compares operands that rank the same. */
  predicate RanksAgree(f: Float64, pg: Pg, row: Item, c: Condition) {
    match c
    case Compare(op, PathOperand(p), ValueOperand(v)) => IsOrdering(op) ==> RankAgrees(f, pg, row, p, v)
    case Compare(op, ValueOperand(v), PathOperand(p)) => IsOrdering(op) ==> RankAgrees(f, pg, row, p, v)
    case And(a, b) => RanksAgree(f, pg, row, a) && RanksAgree(f, pg, row, b)
    case Or(a, b) => RanksAgree(f, pg, row, a) && RanksAgree(f, pg, row, b)
    case Not(a) => RanksAgree(f, pg, row, a)
    case _ => true
  }

  predicate RankAgrees(f: Float64, pg: Pg, row: Item, p: Path, v: AttributeValue) {
    match Attr(Some(row), p)
    case Some(stored) => SameRanking(f, pg, stored, v)
    case None => v.N? ==> pg.numeric(v.n).Some?
  }

  predicate NotFree(c: Condition) {
    match c
    case And(a, b) => NotFree(a) && NotFree(b)
    case Or(a, b) => NotFree(a) && NotFree(b)
    case Not(_) => false
    case _ => true
  }

  /** Every attribute a comparison reads is present, and right-typed where it is ordered. */
  predicate Defined(row: Item, c: Condition) {
    match c
    case Compare(op, PathOperand(p), ValueOperand(v)) => ReadsFine(row, op, p, v)
    case Compare(op, ValueOperand(v), PathOperand(p)) => ReadsFine(row, op, p, v)
    case Compare(_, PathOperand(p), PathOperand(q)) => Attr(Some(row), p).Some? && Attr(Some(row), q).Some?
    case And(a, b) => Defined(row, a) && Defined(row, b)
    case Or(a, b) => Defined(row, a) && Defined(row, b)
    case Not(a) => Defined(row, a)
    case _ => true
  }

  predicate ReadsFine(row: Item, op: ComparisonOp, p: Path, v: AttributeValue) {
    var a := Attr(Some(row), p);
    a.Some? && (IsOrdering(op) ==> (a.value.N? && v.N?) || (a.value.S? && v.S?))
  }

  /** Every comparison under an odd number of NOTs, counting from `positive`, reads attributes that
      are there: those under an even number may read NULLs, which WHERE and evaluator both reject. */
  predicate Certain(row: Item, c: Condition, positive: bool) {
    match c
    case Compare(_, _, _) => positive || Defined(row, c)
    case And(a, b) => Certain(row, a, positive) && Certain(row, b, positive)
    case Or(a, b) => Certain(row, a, positive) && Certain(row, b, positive)
    case Not(a) => Certain(row, a, !positive)
    case _ => true
  }

  lemma FlippedOrder(x: real, y: real, a: string, b: string)
    ensures CompareReal(x, y) == Reverse(CompareReal(y, x))
    ensures CompareText(a, b) == Reverse(CompareText(b, a))
  {
    TextLessStrict(a, b, a);
  }

  /** One ordering comparison between a stored attribute and a literal, either way round. */
  lemma OrderingAgrees(f: Float64, pg: Pg, row: Item, op: ComparisonOp, p: Path, v: AttributeValue, swap: bool)
    requires IsOrdering(op) && (v.N? || v.S?) && TopName(p).Some? && RankAgrees(f, pg, row, p, v)
    ensures
      var t := AgainstLiteral(pg, row, p, FlipIf(op, swap), v);
      var a := Attr(Some(row), p);
      && t != Raised
      && (t == True <==> a.Some? && if swap then CompareValues(f, op, v, a.value) else CompareValues(f, op, a.value, v))
      && (ReadsFine(row, op, p, v) <==> t != Unknown)
  {
    var a := Attr(Some(row), p);
    if a.Some? && a.value.N? && v.N? {
      FlippedOrder(f(a.value.n).value, f(v.n).value, "", "");
    } else if a.Some? && a.value.S? && v.S? {
      FlippedOrder(0.0, 0.0, a.value.s, v.s);
    }
  }

  lemma ComparisonAgrees(f: Float64, pg: Pg, row: Item, c: Condition)
    requires c.Compare? && FitsSql(c) && NameHeaded(c) && RanksAgree(f, pg, row, c)
    ensures Meaning(pg, row, c) != Raised
    ensures Meaning(pg, row, c) == True <==> EvaluateCondition(f, Some(row), c)
    ensures Defined(row, c) <==> Meaning(pg, row, c) != Unknown
  {
    if IsOrdering(c.op) {
      match (c.left, c.right)
      case (PathOperand(p), ValueOperand(v)) => OrderingAgrees(f, pg, row, c.op, p, v, false);
      case (ValueOperand(v), PathOperand(p)) => OrderingAgrees(f, pg, row, c.op, p, v, true);
    }
  }

  /** The emitted WHERE against the in-process evaluator, for every condition the classifier sends
      to SQL: a definite SQL truth value is the evaluator's answer, so an accepted row always
      satisfies the condition; and the two agree on every row on which each comparison under an odd
      number of NOTs reads attributes that are present and right-typed. */
  lemma {:induction false} WhereRefinesEvaluator(f: Float64, pg: Pg, row: Item, c: Condition)
    requires FitsSql(c) && NameHeaded(c) && RanksAgree(f, pg, row, c)
    ensures Refines(f, pg, row, c)
  {
    match c
    case Compare(_, _, _) => ComparisonAgrees(f, pg, row, c);
    case And(x, y) =>
      WhereRefinesEvaluator(f, pg, row, x);
      WhereRefinesEvaluator(f, pg, row, y);
      AndRefines(f, pg, row, x, y);
    case Or(x, y) =>
      WhereRefinesEvaluator(f, pg, row, x);
      WhereRefinesEvaluator(f, pg, row, y);
      OrRefines(f, pg, row, x, y);
    case Not(x) =>
      WhereRefinesEvaluator(f, pg, row, x);
    case _ =>
  }

  /** What the theorem says of one condition. */
  predicate Refines(f: Float64, pg: Pg, row: Item, c: Condition) {
    var truth, value := Meaning(pg, row, c), EvaluateCondition(f, Some(row), c);
    && truth != Raised && (truth == True ==> value) && (truth == False ==> !value)
    && (Certain(row, c, true) ==> (truth == True <==> value))
    && (Certain(row, c, false) ==> (truth == False <==> !value))
  }

  /** Conditions without NOT, and rows with every attribute read, are two ways to be certain. */
  lemma {:induction false} CertainWithoutNot(row: Item, c: Condition)
    ensures NotFree(c) ==> Certain(row, c, true)
    ensures Defined(row, c) ==> Certain(row, c, true) && Certain(row, c, false)
  {
    match c
    case And(x, y) =>
      CertainWithoutNot(row, x);
      CertainWithoutNot(row, y);
    case Or(x, y) =>
      CertainWithoutNot(row, x);
      CertainWithoutNot(row, y);
    case Not(x) => CertainWithoutNot(row, x);
    case _ =>
  }

  lemma AndRefines(f: Float64, pg: Pg, row: Item, x: Condition, y: Condition)
    requires Refines(f, pg, row, x) && Refines(f, pg, row, y)
    ensures Refines(f, pg, row, And(x, y))
  {
  }

  lemma OrRefines(f: Float64, pg: Pg, row: Item, x: Condition, y: Condition)
    requires Refines(f, pg, row, x) && Refines(f, pg, row, y)
    ensures Refines(f, pg, row, Or(x, y))
  {
  }

  /** A negated comparison is where the two part: WHERE drops the row and the evaluator keeps it
      exactly when an attribute it reads is missing or wrong-typed. */
  lemma NegatedComparisonExactlyAgrees(f: Float64, pg: Pg, row: Item, c: Condition)
    requires c.Compare? && FitsSql(c) && NameHeaded(c) && RanksAgree(f, pg, row, c)
    ensures (Meaning(pg, row, Not(c)) == True <==> EvaluateCondition(f, Some(row), Not(c)))
       <==> Defined(row, c)
  {
    ComparisonAgrees(f, pg, row, c);
  }

  /** `NOT x = :y` on a row without x: the evaluator keeps the row, WHERE reads NULL and drops it. */
  lemma MissingAttributeIsDropped(f: Float64, pg: Pg, row: Item, attr: string, v: AttributeValue, pk: string)
    requires attr !in row
    ensures var c := Not(Compare(Eq, PathOperand(NamedPath(attr)), ValueOperand(v)));
      Classify(c, pk) == SimpleSql && EvaluateCondition(f, Some(row), c) && Meaning(pg, row, c) == Unknown
  {
    var c := Compare(Eq, PathOperand(NamedPath(attr)), ValueOperand(v));
    assert TopName(NamedPath(attr)) == Some(attr) && Attr(Some(row), NamedPath(attr)) == None;
    assert FitsSql(c) && FitsSql(Not(c));
    assert Meaning(pg, row, c) == JsonTruth(true, None, Some(v));
    assert Meaning(pg, row, Not(c)) == Not3(Meaning(pg, row, c));
  }

  /** WHERE accepts the row exactly when the evaluator does, and no cast raises. */
  predicate Matches(f: Float64, pg: Pg, row: Item, c: Condition) {
    Meaning(pg, row, c) != Raised && (Meaning(pg, row, c) == True <==> EvaluateCondition(f, Some(row), c))
  }

  /** Being certain is not needed by every tree: `NOT a = :v OR attribute_not_exists(a)` matches on all
      rows, also where the negated comparison reads a NULL. Telling such trees apart takes deciding
      which of their atoms cancel. */
  lemma UncertainTreeCanMatch(f: Float64, pg: Pg, row: Item, attr: string, v: AttributeValue)
    ensures var p := Path([Name(attr)]);
      var c := Or(Not(Compare(Eq, PathOperand(p), ValueOperand(v))), AttributeNotExists(p));
      Matches(f, pg, row, c) && !Certain(map[], c, true)
  {
    var p := Path([Name(attr)]);
    assert TopName(p) == Some(attr);
    assert Attr(Some(row), p) == if attr in row then Some(row[attr]) else None;
    var equal := Compare(Eq, PathOperand(p), ValueOperand(v));
    assert Meaning(pg, row, equal) == JsonTruth(true, Attr(Some(row), p), Some(v));
    assert Meaning(pg, row, Not(equal)) == Not3(Meaning(pg, row, equal));
    assert EvaluateCondition(f, Some(row), equal) <==> attr in row && row[attr] == v;
    assert EvaluateCondition(f, Some(row), Not(equal)) <==> !EvaluateCondition(f, Some(row), equal);
    assert !Certain(map[], equal, false) && !Certain(map[], Not(equal), true);
  }

  function AttrFirst(op: ComparisonOp, p: Path, v: AttributeValue): Condition { Compare(op, PathOperand(p), ValueOperand(v)) }

  function ValueFirst(op: ComparisonOp, p: Path, v: AttributeValue): Condition { Compare(op, ValueOperand(v), PathOperand(p)) }

  /** The ranking hypothesis is exact: the orderings of an attribute against a literal all match,
      written either way round, exactly when stored value and literal rank alike, a missing or
      wrong-typed attribute included. */
  lemma RankingExactlyAgrees(f: Float64, pg: Pg, row: Item, p: Path, v: AttributeValue)
    requires (v.N? || v.S?) && TopName(p).Some?
    ensures RankAgrees(f, pg, row, p, v) <==> forall op :: IsOrdering(op) ==> Matches(f, pg, row, AttrFirst(op, p, v))
    ensures RankAgrees(f, pg, row, p, v) <==> forall op :: IsOrdering(op) ==> Matches(f, pg, row, ValueFirst(op, p, v))
  {
    if RankAgrees(f, pg, row, p, v) {
      forall op | IsOrdering(op)
        ensures Matches(f, pg, row, AttrFirst(op, p, v)) && Matches(f, pg, row, ValueFirst(op, p, v))
      {
        OrderingAgrees(f, pg, row, op, p, v, false);
        OrderingAgrees(f, pg, row, op, p, v, true);
      }
    } else {
      DifferentRankShows(f, pg, row, p, v);
      DifferentRankShowsFlipped(f, pg, row, p, v);
    }
  }

  lemma DifferentRankShows(f: Float64, pg: Pg, row: Item, p: Path, v: AttributeValue)
    requires (v.N? || v.S?) && TopName(p).Some? && !RankAgrees(f, pg, row, p, v)
    ensures exists op :: IsOrdering(op) && !Matches(f, pg, row, AttrFirst(op, p, v))
  {
    if Matches(f, pg, row, AttrFirst(Lt, p, v)) && Matches(f, pg, row, AttrFirst(Gt, p, v)) {
      assert !Matches(f, pg, row, AttrFirst(Le, p, v));
    }
  }

  lemma DifferentRankShowsFlipped(f: Float64, pg: Pg, row: Item, p: Path, v: AttributeValue)
    requires (v.N? || v.S?) && TopName(p).Some? && !RankAgrees(f, pg, row, p, v)
    ensures exists op :: IsOrdering(op) && !Matches(f, pg, row, ValueFirst(op, p, v))
  {
    var a := Attr(Some(row), p);
    if a.Some? && a.value.S? && v.S? { FlippedOrder(0.0, 0.0, a.value.s, v.s); }
    if Matches(f, pg, row, ValueFirst(Lt, p, v)) && Matches(f, pg, row, ValueFirst(Gt, p, v)) {
      assert !Matches(f, pg, row, ValueFirst(Le, p, v));
    }
  }

  // ----- binary64 -----------------------------------------------------------------------------

  const TWO_53: nat := 9007199254740992

  /** The binary64 value nearest to an integer below 2^54, ties to even. */
  function NearestDouble(n: nat): nat
    requires n < 2 * TWO_53
  {
    var r := n - 4 * (n / 4);
    if n <= TWO_53 || r == 0 || r == 2 then n else if r == 1 then n - 1 else n + 1
  }

  ghost predicate IsBinary64(f: Float64) {
    forall n: nat {:trigger f(Decimal(n))} :: n < 2 * TWO_53 ==> f(Decimal(n)) == Some(NearestDouble(n) as real)
  }

  ghost predicate IsExact(pg: Pg) { forall n: nat {:trigger pg.numeric(Decimal(n))} :: pg.numeric(Decimal(n)) == Some(n as real) }

  function NamedPath(attr: string): Path { Path([Name(attr)]) }

  lemma OneSidedOrder(f: Float64, pg: Pg, attr: string, a: string, v: string, x: real, y: real)
    requires pg.numeric(a) == Some(x) && pg.numeric(v) == Some(y) && f(a) == f(v) == Some(y) && x > y
    ensures var c, row := AttrFirst(Gt, NamedPath(attr), N(v)), map[attr := N(a)];
      Meaning(pg, row, c) == True && !EvaluateCondition(f, Some(row), c)
  {
    var row := map[attr := N(a)];
    assert TopName(NamedPath(attr)) == Some(attr) && Attr(Some(row), NamedPath(attr)) == Some(N(a));
  }

  /** A linguistic collation sorts "a" before "B", code points the other way round. */
  lemma CollationDiverges(f: Float64, pg: Pg, attr: string)
    requires pg.collate("a", "B") == Less
    ensures var c, row := AttrFirst(Lt, NamedPath(attr), S("B")), map[attr := S("a")];
      Meaning(pg, row, c) == True && !EvaluateCondition(f, Some(row), c)
  {
    var row := map[attr := S("a")];
    assert TopName(NamedPath(attr)) == Some(attr) && Attr(Some(row), NamedPath(attr)) == Some(S("a"));
    assert CompareText("a", "B") == Greater;
  }

  lemma FourTimes(k: nat)
    ensures (4 * k + 1) / 4 == k && (4 * k) / 4 == k
  {
  }

  lemma NearestAt(k: nat)
    requires TWO_53 < 4 * k + 1 < 2 * TWO_53
    ensures NearestDouble(4 * k + 1) == NearestDouble(4 * k) == 4 * k
  {
    FourTimes(k);
  }

  lemma DoublesAt(f: Float64, pg: Pg, n: nat)
    requires IsBinary64(f) && IsExact(pg) && n < 2 * TWO_53
    ensures f(Decimal(n)) == Some(NearestDouble(n) as real) && pg.numeric(Decimal(n)) == Some(n as real)
  {
  }

  /** Above 2^53 doubles collapse neighbours: for every 4k there up to 2^54, SQL accepts `a > 4k` on a
      row that stores 4k + 1, and the evaluator rejects it. */
  lemma CollapsedDoublesDiverge(f: Float64, pg: Pg, attr: string, k: nat)
    requires IsBinary64(f) && IsExact(pg) && TWO_53 < 4 * k + 1 < 2 * TWO_53
    ensures var c, row := AttrFirst(Gt, NamedPath(attr), N(Decimal(4 * k))), map[attr := N(Decimal(4 * k + 1))];
      Meaning(pg, row, c) == True && !EvaluateCondition(f, Some(row), c)
  {
    NearestAt(k);
    DoublesAt(f, pg, 4 * k + 1);
    DoublesAt(f, pg, 4 * k);
    OneSidedOrder(f, pg, attr, Decimal(4 * k + 1), Decimal(4 * k), (4 * k + 1) as real, (4 * k) as real);
  }

  lemma AppendDigit(n: nat, d: nat)
    requires n > 0 && d < 10
    ensures Decimal(10 * n + d) == Decimal(n) + [Digit(d)]
  {
  }

  lemma AppendFour(n: nat, a: nat, b: nat, c: nat, d: nat)
    requires n > 0 && a < 10 && b < 10 && c < 10 && d < 10
    ensures Decimal(10000 * n + 1000 * a + 100 * b + 10 * c + d) == Decimal(n) + [Digit(a), Digit(b), Digit(c), Digit(d)]
  {
    AppendDigit(n, a);
    AppendDigit(10 * n + a, b);
    AppendDigit(100 * n + 10 * a + b, c);
    AppendDigit(1000 * n + 100 * a + 10 * b + c, d);
  }

  lemma LongPrefix(p: nat)
    requires p == 900719925474
    ensures Decimal(p) == "900719925474"
  {
    AppendDigit(9, 0);
    AppendDigit(90, 0);
    AppendDigit(900, 7);
    var q := 9007;
    assert Decimal(q) == "9007";
    AppendFour(q, 1, 9, 9, 2);
    AppendFour(10000 * q + 1992, 5, 4, 7, 4);
  }

  lemma LongLiteral(p: nat, d: nat)
    requires p == 900719925474 && d < 10
    ensures Decimal(10000 * p + 990 + d) == "900719925474099" + [Digit(d)]
  {
    LongPrefix(p);
    AppendFour(p, 0, 9, 9, d);
    assert "900719925474" + ['0', '9', '9', Digit(d)] == "900719925474099" + [Digit(d)];
  }

  lemma LongSpelling(n: nat, d: nat)
    requires n == 9007199254740990 + d && d < 10
    ensures Decimal(n) == "900719925474099" + [Digit(d)]
  {
    LongLiteral(900719925474, d);
  }

  lemma DivergeAs(f: Float64, pg: Pg, k: nat, stored: string, literal: string)
    requires IsBinary64(f) && IsExact(pg) && TWO_53 < 4 * k + 1 < 2 * TWO_53
    requires stored == Decimal(4 * k + 1) && literal == Decimal(4 * k)
    ensures var c, row := AttrFirst(Gt, NamedPath("a"), N(literal)), map["a" := N(stored)];
      Meaning(pg, row, c) == True && !EvaluateCondition(f, Some(row), c)
  {
    CollapsedDoublesDiverge(f, pg, "a", k);
  }

  /** The first of them, spelled out. */
  lemma FirstCollapsedDouble(f: Float64, pg: Pg, stored: string, literal: string)
    requires IsBinary64(f) && IsExact(pg)
    requires stored == "9007199254740993" && literal == "9007199254740992"
    ensures var c, row := AttrFirst(Gt, NamedPath("a"), N(literal)), map["a" := N(stored)];
      Meaning(pg, row, c) == True && !EvaluateCondition(f, Some(row), c)
  {
    var k := 2251799813685248;
    LongSpelling(4 * k + 1, 3);
    LongSpelling(4 * k, 2);
    DivergeAs(f, pg, k, stored, literal);
  }

  // ----- the compiler as written: a builder grown in place ------------------------------------

  class ParamBuilder {
    var params: seq<Param>
    var types: seq<PgType>

    constructor ()
      ensures View() == Binds([], [])
    {
      params, types := [], [];
    }

    function View(): Binds
      reads this
    {
      Binds(params, types)
    }

    method BindText(s: string) returns (idx: nat)
      modifies this
      ensures View() == Bind(old(View()), TextParam(s), TEXT) && idx == |params|
    {
      params, types := params + [TextParam(s)], types + [TEXT];
      idx := |params|;
    }

    method BindJsonb(v: AttributeValue) returns (idx: nat)
      modifies this
      ensures View() == Bind(old(View()), JsonbParam(v), JSONB) && idx == |params|
    {
      params, types := params + [JsonbParam(v)], types + [JSONB];
      idx := |params|;
    }

    /** Binds a key value: S and N as text, B as bytes. */
    method BindKey(v: AttributeValue) returns (idx: nat)
      modifies this
      ensures View() == BindKeyValue(old(View()), v) && idx == |params|
    {
      if v.B? {
        params, types := params + [ByteaParam(v.b)], types + [BYTEA];
      } else {
        params, types := params + [TextParam(KeyText(v))], types + [TEXT];
      }
      idx := |params|;
    }

    method OperandAsJsonb(o: Operand) returns (r: Option<SqlJson>)
      modifies this
      ensures r.Some? <==> CompileOperand(old(View()), o).Some?
      ensures r.Some? ==> (r.value, View()) == CompileOperand(old(View()), o).value
    {
      match o
      case PathOperand(p) =>
        if TopName(p).None? { return None; }
        var i := BindText(TopName(p).value);
        return Some(DataGet(i));
      case ValueOperand(v) =>
        var i := BindJsonb(v);
        return Some(JsonParam(i));
    }

    method CompileTypedOrdering(op: ComparisonOp, l: Operand, r: Operand) returns (q: Option<SqlCond>)
      modifies this
      ensures q.Some? <==> CompileOrdering(old(View()), op, l, r).Some?
      ensures q.Some? ==> (q.value, View()) == CompileOrdering(old(View()), op, l, r).value
    {
      if l.PathOperand? == r.PathOperand? { return None; }
      var path, value, sqlOp :=
        if l.PathOperand? then l.path else r.path,
        if l.PathOperand? then r.value else l.value,
        FlipIf(op, r.PathOperand?);
      if TopName(path).None? { return None; }
      ghost var b := View();
      var attr := BindText(TopName(path).value);
      if value.N? {
        var lit := BindText(value.n);
        return Some(NumericCompare(attr, sqlOp, lit));
      } else if value.S? {
        var lit := BindText(value.s);
        return Some(TextCompare(attr, sqlOp, lit));
      }
      return None;
    }

    /** The recursive compiler: emits the fragment, or the classifier-divergence error. */
    method CompileCondition(c: Condition) returns (q: Option<SqlCond>)
      modifies this
      ensures q.Some? <==> Compile(old(View()), c).Some?
      ensures q.Some? ==> (q.value, View()) == Compile(old(View()), c).value
      decreases c
    {
      match c
      case AttributeExists(p) =>
        if TopName(p).None? { return None; }
        var i := BindText(TopName(p).value);
        return Some(HasKey(i));
      case AttributeNotExists(p) =>
        if TopName(p).None? { return None; }
        var i := BindText(TopName(p).value);
        return Some(SqlNot(HasKey(i)));
      case Compare(op, l, r) =>
        if IsOrdering(op) {
          q := CompileTypedOrdering(op, l, r);
          return;
        }
        var ls := OperandAsJsonb(l);
        if ls.None? { return None; }
        var rs := OperandAsJsonb(r);
        if rs.None? { return None; }
        return Some(JsonCompare(op == Eq, ls.value, rs.value));
      case And(x, y) =>
        var l := CompileCondition(x);
        if l.None? { return None; }
        var r := CompileCondition(y);
        if r.None? { return None; }
        return Some(SqlAnd(l.value, r.value));
      case Or(x, y) =>
        var l := CompileCondition(x);
        if l.None? { return None; }
        var r := CompileCondition(y);
        if r.None? { return None; }
        return Some(SqlOr(l.value, r.value));
      case Not(x) =>
        var s := CompileCondition(x);
        if s.None? { return None; }
        return Some(SqlNot(s.value));
      case _ => return None;
    }
  }
}
