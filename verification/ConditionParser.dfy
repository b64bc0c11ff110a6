/** The ConditionExpression parser, and a printer it inverts. A parser takes the input that is left
    and gives a value with the input left after it. */
module ConditionParser {
  import opened Values
  import Expressions

  type ComparisonOp = Expressions.ComparisonOp

  datatype Segment = Name(name: string) | NameRef(name: string) | Index(index: nat)

  datatype RawPath = RawPath(segments: seq<Segment>)

  datatype RawOperand = PathOperand(path: RawPath) | ValueRef(name: string)

  datatype RawCondition =
    | Compare(op: ComparisonOp, left: RawOperand, right: RawOperand)
    | AttributeExists(path: RawPath)
    | AttributeNotExists(path: RawPath)
    | BeginsWith(path: RawPath, operand: RawOperand)
    | Contains(path: RawPath, operand: RawOperand)
    | AttributeType(path: RawPath, operand: RawOperand)
    | Between(target: RawOperand, lo: RawOperand, hi: RawOperand)
    | In(target: RawOperand, choices: seq<RawOperand>)
    | And(a: RawCondition, b: RawCondition)
    | Or(a: RawCondition, b: RawCondition)
    | Not(inner: RawCondition)

  datatype Parsed<+T> = NoParse | Yes(value: T, rest: string) {
    predicate IsFailure() { NoParse? }
    function PropagateFailure<U>(): Parsed<U>
      requires IsFailure()
    {
      NoParse
    }
    function Extract(): (T, string)
      requires !IsFailure()
    {
      (value, rest)
    }
  }

  // ----- which trees the syntax can express ---------------------------------------------

  predicate IsSpace(c: char) { c == ' ' || c == '\t' || c == '\r' || c == '\n' }

  predicate IdentStart(c: char) { 'a' <= c <= 'z' || 'A' <= c <= 'Z' || c == '_' }

  predicate IdentChar(c: char) { IdentStart(c) || IsDigit(c) }

  predicate ValidIdent(n: string) {
    n != "" && IdentStart(n[0]) && forall i :: 0 <= i < |n| ==> IdentChar(n[i])
  }

  const USIZE_LIMIT: nat := 0x1_0000_0000_0000_0000

  predicate ValidSegment(g: Segment) {
    match g
    case Name(n) => ValidIdent(n)
    case NameRef(n) => ValidIdent(n)
    case Index(i) => i < USIZE_LIMIT
  }

  predicate ValidPath(p: RawPath) {
    && p.segments != [] && !p.segments[0].Index?
    && forall i :: 0 <= i < |p.segments| ==> ValidSegment(p.segments[i])
  }

  predicate ValidOperand(o: RawOperand) {
    match o
    case PathOperand(p) => ValidPath(p)
    case ValueRef(n) => ValidIdent(n)
  }

  /** The operand is the one-segment path `not`, in any letter case. */
  predicate BareNot(o: RawOperand) {
    && o.PathOperand? && |o.path.segments| == 1 && o.path.segments[0].Name?
    && Keyword("NOT", o.path.segments[0].name) == Yes((), "")
  }

  predicate ValidLeaf(c: RawCondition) {
    match c
    case Compare(_, l, r) => ValidOperand(l) && ValidOperand(r)
    case AttributeExists(p) => ValidPath(p)
    case AttributeNotExists(p) => ValidPath(p)
    case BeginsWith(p, o) => ValidPath(p) && ValidOperand(o)
    case Contains(p, o) => ValidPath(p) && ValidOperand(o)
    case AttributeType(p, o) => ValidPath(p) && ValidOperand(o)
    case Between(t, lo, hi) => ValidOperand(t) && ValidOperand(lo) && ValidOperand(hi)
    case In(t, items) =>
      ValidOperand(t) && items != [] && forall i :: 0 <= i < |items| ==> ValidOperand(items[i])
    case And(_, _) => false
    case Or(_, _) => false
    case Not(_) => false
  }

  /** `not BETWEEN ...` and `not IN ...` read as a negation. */
  predicate ReadsAsNegation(c: RawCondition) { (c.Between? || c.In?) && BareNot(c.target) }

  predicate Expressible(c: RawCondition) {
    match c
    case And(a, b) => Expressible(a) && Expressible(b)
    case Or(a, b) => Expressible(a) && Expressible(b)
    case Not(x) => Expressible(x)
    case _ => ValidLeaf(c) && !ReadsAsNegation(c)
  }

  // ----- tokens ---------------------------------------------------------------------------

  function Span(p: char -> bool, s: string): (n: nat)
    ensures n <= |s| && (n < |s| ==> !p(s[n])) && forall i :: 0 <= i < n ==> p(s[i])
  {
    if s == "" || !p(s[0]) then 0 else 1 + Span(p, s[1..])
  }

  function Spaces0(s: string): (r: string)
    ensures |r| <= |s| && (r != "" ==> !IsSpace(r[0])) && (s != "" && !IsSpace(s[0]) ==> r == s)
  {
    s[Span(IsSpace, s)..]
  }

  function Spaces1(s: string): (r: Parsed<()>)
    ensures r.Yes? ==> |r.rest| < |s|
  {
    if s != "" && IsSpace(s[0]) then Yes((), Spaces0(s[1..])) else NoParse
  }

  function Tag(c: char, s: string): Parsed<()> {
    if s != "" && s[0] == c then Yes((), s[1..]) else NoParse
  }

  /** Optional spaces, then `c`. */
  function Close(c: char, s: string): (r: Parsed<()>)
    ensures r.Yes? ==> |r.rest| < |s|
  {
    Tag(c, Spaces0(s))
  }

  /** Optional spaces, `c`, optional spaces. */
  function Mark(c: char, s: string): (r: Parsed<()>)
    ensures r.Yes? ==> |r.rest| < |s|
  {
    var (_, s1) :- Close(c, s);
    Yes((), Spaces0(s1))
  }

  function Lower(c: char): char { if 'A' <= c <= 'Z' then c - 'A' + 'a' else c }

  function Keyword(kw: string, s: string): (r: Parsed<()>)
    ensures r.Yes? ==> |r.rest| + |kw| == |s|
  {
    if |kw| <= |s| && forall i :: 0 <= i < |kw| ==> Lower(s[i]) == Lower(kw[i])
    then Yes((), s[|kw|..])
    else NoParse
  }

  /** A keyword that no identifier character follows. */
  function Word(kw: string, s: string): (r: Parsed<()>)
    ensures r.Yes? ==> |r.rest| + |kw| == |s|
  {
    var (_, s1) :- Keyword(kw, s);
    if s1 != "" && IdentChar(s1[0]) then NoParse else Yes((), s1)
  }

  function Ident(s: string): (r: Parsed<string>)
    ensures r.Yes? ==> ValidIdent(r.value) && s == r.value + r.rest
  {
    if s == "" || !IdentStart(s[0]) then NoParse
    else
      var n := 1 + Span(IdentChar, s[1..]);
      assert forall i :: 1 <= i < n ==> s[i] == s[1..][i - 1];
      Yes(s[..n], s[n..])
  }

  // ----- paths and operands -------------------------------------------------------------------

  function PathSeg(s: string): (r: Parsed<Segment>)
    ensures r.Yes? ==> ValidSegment(r.value) && !r.value.Index? && |r.rest| < |s|
    ensures r.Yes? && r.value.Name? ==> s == r.value.name + r.rest
  {
    if s != "" && s[0] == '#' then
      var (n, s1) :- Ident(s[1..]);
      Yes(NameRef(n), s1)
    else
      var (n, s1) :- Ident(s);
      Yes(Name(n), s1)
  }

  function BracketIndex(s: string): (r: Parsed<Segment>)
    ensures r.Yes? ==> ValidSegment(r.value) && |r.rest| < |s|
  {
    var (_, s1) :- Tag('[', s);
    var n := Span(IsDigit, s1);
    if n == 0 then NoParse
    else
      var (_, s2) :- Tag(']', s1[n..]);
      if NatOf(s1[..n]) < USIZE_LIMIT then Yes(Index(NatOf(s1[..n])), s2) else NoParse
  }

  function Continuation(s: string): (r: Parsed<Segment>)
    ensures r.Yes? ==> ValidSegment(r.value) && |r.rest| < |s|
  {
    if s != "" && s[0] == '.' then PathSeg(s[1..]) else BracketIndex(s)
  }

  /** As many continuations as the input has. */
  function Continuations(done: seq<Segment>, s: string): (r: (seq<Segment>, string))
    requires ValidPath(RawPath(done))
    ensures ValidPath(RawPath(r.0)) && |r.1| <= |s| && |done| <= |r.0|
    ensures |r.0| == |done| ==> r == (done, s)
    decreases |s|
  {
    match Continuation(s)
    case NoParse => (done, s)
    case Yes(g, s1) => Continuations(done + [g], s1)
  }

  function PathOf(s: string): (r: Parsed<RawPath>)
    ensures r.Yes? ==> ValidPath(r.value) && |r.rest| < |s|
    ensures r.Yes? && |r.value.segments| == 1 && r.value.segments[0].Name? ==> s == r.value.segments[0].name + r.rest
  {
    var (g, s1) :- PathSeg(s);
    var (segments, s2) := Continuations([g], s1);
    Yes(RawPath(segments), s2)
  }

  function OperandOf(s: string): (r: Parsed<RawOperand>)
    ensures r.Yes? ==> ValidOperand(r.value) && |r.rest| < |s|
    ensures r.Yes? && BareNot(r.value) ==> s == r.value.path.segments[0].name + r.rest
  {
    if s != "" && s[0] == ':' then
      var (n, s1) :- Ident(s[1..]);
      Yes(ValueRef(n), s1)
    else
      var (p, s1) :- PathOf(s);
      Yes(PathOperand(p), s1)
  }

  // ----- conditions without connectives ----------------------------------------------------------

  function PathCall(kw: string, s: string): (r: Parsed<RawPath>)
    ensures r.Yes? ==> ValidPath(r.value) && |r.rest| < |s|
  {
    var (_, s1) :- Keyword(kw, s);
    var (_, s2) :- Mark('(', s1);
    var (p, s3) :- PathOf(s2);
    var (_, s4) :- Close(')', s3);
    Yes(p, s4)
  }

  function TwoArgCall(kw: string, s: string): (r: Parsed<(RawPath, RawOperand)>)
    ensures r.Yes? ==> ValidPath(r.value.0) && ValidOperand(r.value.1) && |r.rest| < |s|
  {
    var (_, s1) :- Word(kw, s);
    var (_, s2) :- Mark('(', s1);
    var (p, s3) :- PathOf(s2);
    var (_, s4) :- Mark(',', s3);
    var (o, s5) :- OperandOf(s4);
    var (_, s6) :- Close(')', s5);
    Yes((p, o), s6)
  }

  /** A whole word between spaces. */
  function SpacedWord(kw: string, s: string): (r: Parsed<()>)
    ensures r.Yes? ==> |r.rest| < |s| && Spaces1(s).Yes?
  {
    var (_, s1) :- Spaces1(s);
    var (_, s2) :- Word(kw, s1);
    Spaces1(s2)
  }

  function BetweenTail(s: string): (r: Parsed<(RawOperand, RawOperand)>)
    ensures r.Yes? ==> ValidOperand(r.value.0) && ValidOperand(r.value.1) && |r.rest| < |s|
    ensures r.Yes? ==> Spaces1(s).Yes?
  {
    var (_, s1) :- SpacedWord("BETWEEN", s);
    var (lo, s2) :- OperandOf(s1);
    var (_, s3) :- SpacedWord("AND", s2);
    var (hi, s4) :- OperandOf(s3);
    Yes((lo, hi), s4)
  }

  predicate ValidOperands(items: seq<RawOperand>) {
    items != [] && forall i :: 0 <= i < |items| ==> ValidOperand(items[i])
  }

  function MoreItems(done: seq<RawOperand>, s: string): (r: Parsed<seq<RawOperand>>)
    requires ValidOperands(done)
    ensures r.Yes? ==> ValidOperands(r.value) && |r.rest| <= |s|
    decreases |s|
  {
    match Mark(',', s)
    case NoParse => Yes(done, s)
    case Yes(_, s1) =>
      var (o, s2) :- OperandOf(s1);
      MoreItems(done + [o], s2)
  }

  /** A word after spaces, then an opening bracket. */
  function ListOpen(kw: string, s: string): (r: Parsed<()>)
    ensures r.Yes? ==> |r.rest| < |s| && Spaces1(s).Yes?
  {
    var (_, s1) :- Spaces1(s);
    var (_, s2) :- Word(kw, s1);
    Mark('(', s2)
  }

  function InTail(s: string): (r: Parsed<seq<RawOperand>>)
    ensures r.Yes? ==> ValidOperands(r.value) && |r.rest| < |s|
    ensures r.Yes? ==> Spaces1(s).Yes?
  {
    var (_, s1) :- ListOpen("IN", s);
    var (first, s2) :- OperandOf(s1);
    var (items, s3) :- MoreItems([first], s2);
    var (_, s4) :- Close(')', s3);
    Yes(items, s4)
  }

  function Comparator(s: string): (r: Parsed<ComparisonOp>)
    ensures r.Yes? ==> |r.rest| < |s|
  {
    if "<=" <= s then Yes(Expressions.Le, s[2..])
    else if ">=" <= s then Yes(Expressions.Ge, s[2..])
    else if "<>" <= s then Yes(Expressions.Ne, s[2..])
    else if "=" <= s then Yes(Expressions.Eq, s[1..])
    else if "<" <= s then Yes(Expressions.Lt, s[1..])
    else if ">" <= s then Yes(Expressions.Gt, s[1..])
    else NoParse
  }

  function NotKeyword(s: string): (r: Parsed<()>)
    ensures r.Yes? ==> |r.rest| < |s|
  {
    var (_, s1) :- Keyword("NOT", s);
    Spaces1(s1)
  }

  function OperandBased(s: string): (r: Parsed<RawCondition>)
    ensures r.Yes? ==> ValidLeaf(r.value) && |r.rest| < |s|
    ensures r.Yes? && ReadsAsNegation(r.value) ==> NotKeyword(s).Yes?
  {
    var (left, s1) :- OperandOf(s);
    var between := BetweenTail(s1);
    if between.Yes? then Yes(Between(left, between.value.0, between.value.1), between.rest)
    else
      var choices := InTail(s1);
      if choices.Yes? then Yes(In(left, choices.value), choices.rest)
      else
        var (op, s2) :- Comparator(Spaces0(s1));
        var (right, s3) :- OperandOf(Spaces0(s2));
        Yes(Compare(op, left, right), s3)
  }

  /** The function calls in the order they are tried. */
  function Call(s: string): (r: Parsed<RawCondition>)
    ensures r.Yes? ==> ValidLeaf(r.value) && !r.value.Between? && !r.value.In? && |r.rest| < |s|
  {
    var present := PathCall("attribute_exists", s);
    if present.Yes? then Yes(AttributeExists(present.value), present.rest)
    else
      var absent := PathCall("attribute_not_exists", s);
      if absent.Yes? then Yes(AttributeNotExists(absent.value), absent.rest)
      else
        var begins := TwoArgCall("begins_with", s);
        if begins.Yes? then Yes(BeginsWith(begins.value.0, begins.value.1), begins.rest)
        else
          var contains := TwoArgCall("contains", s);
          if contains.Yes? then Yes(Contains(contains.value.0, contains.value.1), contains.rest)
          else
            var (args, s1) :- TwoArgCall("attribute_type", s);
            Yes(AttributeType(args.0, args.1), s1)
  }

  function Leaf(s: string): (r: Parsed<RawCondition>)
    ensures r.Yes? ==> ValidLeaf(r.value) && |r.rest| < |s|
    ensures r.Yes? && ReadsAsNegation(r.value) ==> NotKeyword(s).Yes?
  {
    var call := Call(s);
    if call.Yes? then call else OperandBased(s)
  }

  // ----- connectives ---------------------------------------------------------------------------------

  /** `AND` or `OR` between spaces. */
  function Connective(kw: string, s: string): (r: Parsed<()>)
    ensures r.Yes? ==> |r.rest| < |s|
  {
    var (_, s1) :- Spaces1(s);
    var (_, s2) :- Keyword(kw, s1);
    Spaces1(s2)
  }

  function OrExpr(s: string): (r: Parsed<RawCondition>)
    ensures r.Yes? ==> Expressible(r.value) && |r.rest| < |s|
    decreases |s|, 4
  {
    var (left, s1) :- AndExpr(s);
    OrMore(left, s1)
  }

  function OrMore(left: RawCondition, s: string): (r: Parsed<RawCondition>)
    requires Expressible(left)
    ensures r.Yes? ==> Expressible(r.value) && |r.rest| <= |s|
    decreases |s|, 5
  {
    match Connective("OR", s)
    case NoParse => Yes(left, s)
    case Yes(_, s1) =>
      var (right, s2) :- AndExpr(s1);
      OrMore(Or(left, right), s2)
  }

  function AndExpr(s: string): (r: Parsed<RawCondition>)
    ensures r.Yes? ==> Expressible(r.value) && |r.rest| < |s|
    decreases |s|, 3
  {
    var (left, s1) :- NotExpr(s);
    AndMore(left, s1)
  }

  function AndMore(left: RawCondition, s: string): (r: Parsed<RawCondition>)
    requires Expressible(left)
    ensures r.Yes? ==> Expressible(r.value) && |r.rest| <= |s|
    decreases |s|, 5
  {
    match Connective("AND", s)
    case NoParse => Yes(left, s)
    case Yes(_, s1) =>
      var (right, s2) :- NotExpr(s1);
      AndMore(And(left, right), s2)
  }

  function NotExpr(s: string): (r: Parsed<RawCondition>)
    ensures r.Yes? ==> Expressible(r.value) && |r.rest| < |s|
    decreases |s|, 2
  {
    var s1 := Spaces0(s);
    match NotKeyword(s1)
    case Yes(_, s2) =>
      var (inner, s3) :- NotExpr(s2);
      Yes(Not(inner), s3)
    case NoParse =>
      assert Spaces0(s1) == s1;
      Atom(s1)
  }

  function Atom(s: string): (r: Parsed<RawCondition>)
    ensures r.Yes? && NotKeyword(Spaces0(s)).NoParse? ==> Expressible(r.value)
    ensures r.Yes? ==> |r.rest| < |s|
    decreases |s|, 1
  {
    var s1 := Spaces0(s);
    var group := Group(s1);
    if group.Yes? then group else Leaf(s1)
  }

  function Group(s: string): (r: Parsed<RawCondition>)
    ensures r.Yes? ==> Expressible(r.value) && |r.rest| < |s|
    decreases |s|, 0
  {
    var (_, s1) :- Tag('(', s);
    var (inner, s2) :- OrExpr(s1);
    var (_, s3) :- Close(')', s2);
    Yes(inner, s3)
  }

  /** The whole input as one condition, spaces around it allowed. */
  function Parse(s: string): (r: Option<RawCondition>)
    ensures r.Some? ==> Expressible(r.value)
  {
    match OrExpr(Spaces0(s))
    case NoParse => None
    case Yes(c, s1) => if Spaces0(s1) == "" then Some(c) else None
  }
}
