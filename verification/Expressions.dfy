/** Resolved condition and update expressions, and the evaluator that runs them on a row in
    process. */
module Expressions {
  import opened Values

  datatype PathSegment = Name(name: string) | Index(index: nat)

  datatype Path = Path(segments: seq<PathSegment>)

  datatype Operand = PathOperand(path: Path) | ValueOperand(value: AttributeValue)

  datatype ComparisonOp = Eq | Ne | Lt | Le | Gt | Ge

  datatype Condition =
    | Compare(op: ComparisonOp, left: Operand, right: Operand)
    | AttributeExists(path: Path)
    | AttributeNotExists(path: Path)
    | BeginsWith(path: Path, operand: Operand)
    | Contains(path: Path, operand: Operand)
    | Between(target: Operand, lo: Operand, hi: Operand)
    | In(target: Operand, choices: seq<Operand>)
    | AttributeType(path: Path, operand: Operand)
    | And(a: Condition, b: Condition)
    | Or(a: Condition, b: Condition)
    | Not(inner: Condition)

  function TopName(p: Path): Option<string> {
    if p.segments != [] && p.segments[0].Name? then Some(p.segments[0].name) else None
  }

  predicate IsTopLevel(p: Path) { |p.segments| == 1 && p.segments[0].Name? }

  // ----- orderings ----------------------------------------------------------------

  datatype Ordering = Less | Equal | Greater

  function Reverse(o: Ordering): Ordering {
    match o case Less => Greater case Equal => Equal case Greater => Less
  }

  function CompareReal(a: real, b: real): Ordering {
    if a < b then Less else if a == b then Equal else Greater
  }

  function CompareText(a: string, b: string): Ordering {
    if TextLess(a, b) then Less else if a == b then Equal else Greater
  }

  predicate IsOrdering(op: ComparisonOp) { op in {Lt, Le, Gt, Ge} }

  predicate ApplyOrd(op: ComparisonOp, o: Ordering) {
    match op
    case Lt => o == Less
    case Le => o != Greater
    case Gt => o == Greater
    case Ge => o != Less
    case _ => false
  }

  // ----- the evaluator --------------------------------------------------------------

  /** How a decimal literal parses as binary64; None for a literal it rejects and for NaN. */
  type Float64 = string -> Option<real>

  function Attr(row: Option<Item>, p: Path): Option<AttributeValue> {
    var n := TopName(p);
    if row.Some? && n.Some? && n.value in row.value then Some(row.value[n.value]) else None
  }

  function OperandValue(row: Option<Item>, o: Operand): Option<AttributeValue> {
    match o case PathOperand(p) => Attr(row, p) case ValueOperand(v) => Some(v)
  }

  predicate CompareValues(f: Float64, op: ComparisonOp, l: AttributeValue, r: AttributeValue) {
    match op
    case Eq => l == r
    case Ne => l != r
    case _ =>
      match (l, r)
      case (N(a), N(b)) => f(a).Some? && f(b).Some? && ApplyOrd(op, CompareReal(f(a).value, f(b).value))
      case (S(a), S(b)) => ApplyOrd(op, CompareText(a, b))
      case (_, _) => false
  }

  predicate Substring(needle: string, hay: string) {
    needle <= hay || (hay != [] && Substring(needle, hay[1..]))
  }

  predicate ContainsValue(hay: AttributeValue, needle: AttributeValue) {
    match (hay, needle)
    case (S(h), S(n)) => Substring(n, h)
    case (Ss(xs), S(n)) => n in xs
    case (Ns(xs), N(n)) => n in xs
    case (Bs(xs), B(n)) => n in xs
    case (L(xs), _) => needle in xs
    case (_, _) => false
  }

  function TypeName(v: AttributeValue): string {
    match v
    case S(_) => "S" case N(_) => "N" case B(_) => "B" case Bool(_) => "BOOL" case Null => "NULL"
    case L(_) => "L" case M(_) => "M" case Ss(_) => "SS" case Ns(_) => "NS" case Bs(_) => "BS"
  }

  /** `evaluate_condition`: two-valued, a missing attribute makes a comparison false. */
  predicate EvaluateCondition(f: Float64, row: Option<Item>, c: Condition) {
    match c
    case AttributeExists(p) => TopName(p).Some? && Attr(row, p).Some?
    case AttributeNotExists(p) => TopName(p).Some? && Attr(row, p).None?
    case Compare(op, l, r) =>
      var lv, rv := OperandValue(row, l), OperandValue(row, r);
      lv.Some? && rv.Some? && CompareValues(f, op, lv.value, rv.value)
    case BeginsWith(p, o) =>
      var hv, nv := Attr(row, p), OperandValue(row, o);
      hv.Some? && nv.Some? && hv.value.S? && nv.value.S? && nv.value.s <= hv.value.s
    case Contains(p, o) =>
      var hv, nv := Attr(row, p), OperandValue(row, o);
      hv.Some? && nv.Some? && ContainsValue(hv.value, nv.value)
    case Between(t, lo, hi) =>
      var v, l, h := OperandValue(row, t), OperandValue(row, lo), OperandValue(row, hi);
      v.Some? && l.Some? && h.Some?
      && CompareValues(f, Ge, v.value, l.value) && CompareValues(f, Le, v.value, h.value)
    case In(t, items) =>
      var v := OperandValue(row, t);
      v.Some? && exists i :: 0 <= i < |items| && OperandValue(row, items[i]) == v
    case AttributeType(p, o) =>
      var v, t := Attr(row, p), OperandValue(row, o);
      v.Some? && t.Some? && t.value.S? && TypeName(v.value) == t.value.s
    case And(a, b) => EvaluateCondition(f, row, a) && EvaluateCondition(f, row, b)
    case Or(a, b) => EvaluateCondition(f, row, a) || EvaluateCondition(f, row, b)
    case Not(a) => !EvaluateCondition(f, row, a)
  }
}
