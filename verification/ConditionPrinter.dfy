/** A printer for conditions that writes parentheses only where precedence asks for them (OR below
    AND below NOT, both connectives to the left), and the proof that the parser inverts it on exactly
    the expressible conditions. Each printing function puts its text in front of `after`. */
module ConditionPrinter {
  import opened Values
  import opened ConditionParser

  // ----- the printer ------------------------------------------------------------------------

  function PrintSegment(g: Segment, after: string): string {
    match g
    case Name(n) => n + after
    case NameRef(n) => "#" + (n + after)
    case Index(i) => "[" + (Decimal(i) + ("]" + after))
  }

  function PrintContinuations(gs: seq<Segment>, after: string): string {
    if gs == [] then after
    else
      var text := PrintSegment(gs[0], PrintContinuations(gs[1..], after));
      if gs[0].Index? then text else "." + text
  }

  function PrintPath(p: RawPath, after: string): string {
    if p.segments == [] then after
    else PrintSegment(p.segments[0], PrintContinuations(p.segments[1..], after))
  }

  function PrintOperand(o: RawOperand, after: string): string {
    match o
    case PathOperand(p) => PrintPath(p, after)
    case ValueRef(n) => ":" + (n + after)
  }

  function PrintMore(items: seq<RawOperand>, after: string): string {
    if items == [] then after else "," + PrintOperand(items[0], PrintMore(items[1..], after))
  }

  function Symbol(op: ComparisonOp): string {
    match op
    case Eq => "="
    case Ne => "<>"
    case Lt => "<"
    case Le => "<="
    case Gt => ">"
    case Ge => ">="
  }

  /** A word between two single spaces. */
  function Spaced(kw: string, after: string): string { " " + (kw + (" " + after)) }

  function PrintTwoArgs(p: RawPath, o: RawOperand, after: string): string {
    "(" + PrintPath(p, "," + PrintOperand(o, ")" + after))
  }

  function PrintItems(items: seq<RawOperand>, after: string): string {
    if items == [] then after else PrintOperand(items[0], PrintMore(items[1..], after))
  }

  /** What follows the first operand of a comparison, BETWEEN or IN. */
  function PrintTail(c: RawCondition, after: string): string
    requires c.Compare? || c.Between? || c.In?
  {
    match c
    case Compare(op, _, r) => Symbol(op) + PrintOperand(r, after)
    case Between(_, lo, hi) => Spaced("BETWEEN", PrintOperand(lo, Spaced("AND", PrintOperand(hi, after))))
    case In(_, items) => Spaced("IN", "(" + PrintItems(items, ")" + after))
  }

  function PrintLeaf(c: RawCondition, after: string): string
    requires !c.And? && !c.Or? && !c.Not?
  {
    match c
    case AttributeExists(p) => "attribute_exists" + ("(" + PrintPath(p, ")" + after))
    case AttributeNotExists(p) => "attribute_not_exists" + ("(" + PrintPath(p, ")" + after))
    case BeginsWith(p, o) => "begins_with" + PrintTwoArgs(p, o, after)
    case Contains(p, o) => "contains" + PrintTwoArgs(p, o, after)
    case AttributeType(p, o) => "attribute_type" + PrintTwoArgs(p, o, after)
    case Compare(_, l, _) => PrintOperand(l, PrintTail(c, after))
    case Between(t, _, _) => PrintOperand(t, PrintTail(c, after))
    case In(t, _) => PrintOperand(t, PrintTail(c, after))
  }

  datatype Level = OrLevel | AndLevel | NotLevel

  /** Or below AND level and And below NOT level stand in parentheses. */
  predicate Grouped(level: Level, c: RawCondition) { (c.Or? && level != OrLevel) || (c.And? && level == NotLevel) }

  function PrintAt(level: Level, c: RawCondition, after: string): string
    decreases c
  {
    var s := if Grouped(level, c) then ")" + after else after;
    var text :=
      match c
      case Or(a, b) => PrintAt(OrLevel, a, Spaced("OR", PrintAt(AndLevel, b, s)))
      case And(a, b) => PrintAt(AndLevel, a, Spaced("AND", PrintAt(NotLevel, b, s)))
      case Not(x) => "NOT" + (" " + PrintAt(NotLevel, x, s))
      case _ => PrintLeaf(c, s);
    if Grouped(level, c) then "(" + text else text
  }

  function Print(c: RawCondition): string { PrintAt(OrLevel, c, "") }

  // ----- tokens come back ----------------------------------------------------------------------

  /** `p` does not hold of the first character, if there is one. */
  predicate Stops(p: char -> bool, s: string) { s != "" ==> !p(s[0]) }

  /** No identifier goes on and no path goes on. */
  predicate PathStops(s: string) { s != "" ==> !IdentChar(s[0]) && s[0] != '.' && s[0] != '[' }

  lemma Regroup<T>(done: seq<T>, more: seq<T>)
    requires more != []
    ensures (done + [more[0]]) + more[1..] == done + more
  {
  }

  lemma {:induction false} SpanStops(p: char -> bool, a: string, s: string)
    requires (forall i :: 0 <= i < |a| ==> p(a[i])) && Stops(p, s)
    ensures Span(p, a + s) == |a|
  {
    if a != "" {
      assert (a + s)[1..] == a[1..] + s;
      SpanStops(p, a[1..], s);
    } else {
      assert a + s == s;
    }
  }

  lemma OneSpace(s: string)
    requires Stops(IsSpace, s)
    ensures Spaces1(" " + s) == Yes((), s)
  {
    assert (" " + s)[1..] == s;
    SpanStops(IsSpace, "", s);
    assert "" + s == s;
  }

  lemma NoSpaces(s: string)
    requires Stops(IsSpace, s)
    ensures Spaces0(s) == s
  {
  }

  lemma MarkInverts(c: char, s: string)
    requires !IsSpace(c) && Stops(IsSpace, s)
    ensures Mark(c, [c] + s) == Yes((), s) && Close(c, [c] + s) == Yes((), s)
  {
    assert ([c] + s)[1..] == s;
  }

  lemma CloseInverts(c: char, s: string)
    requires !IsSpace(c)
    ensures Close(c, [c] + s) == Yes((), s)
  {
    assert ([c] + s)[1..] == s;
  }

  lemma KeywordInverts(kw: string, s: string)
    ensures Keyword(kw, kw + s) == Yes((), s)
    ensures Stops(IdentChar, s) ==> Word(kw, kw + s) == Yes((), s)
  {
    assert (kw + s)[|kw|..] == s;
  }

  lemma SpacedInverts(kw: string, s: string)
    requires kw != "" && !IsSpace(kw[0]) && Stops(IsSpace, s)
    ensures SpacedWord(kw, Spaced(kw, s)) == Yes((), s) && Connective(kw, Spaced(kw, s)) == Yes((), s)
  {
    OneSpace(kw + (" " + s));
    KeywordInverts(kw, " " + s);
    OneSpace(s);
  }

  lemma ListOpenSteps(kw: string, text: string, s1: string, s2: string, s: string)
    requires Spaces1(text) == Yes((), s1) && Word(kw, s1) == Yes((), s2) && Mark('(', s2) == Yes((), s)
    ensures ListOpen(kw, text) == Yes((), s)
  {
  }

  lemma MarkAfterSpace(s: string)
    requires Stops(IsSpace, s)
    ensures Mark('(', " " + ("(" + s)) == Yes((), s)
  {
    var open := "(" + s;
    SpanStops(IsSpace, " ", open);
    assert Spaces0(" " + open) == open;
    MarkInverts('(', s);
  }

  lemma ListOpenInverts(kw: string, s: string)
    requires kw != "" && !IsSpace(kw[0]) && Stops(IsSpace, s)
    ensures ListOpen(kw, Spaced(kw, "(" + s)) == Yes((), s)
  {
    var s2 := " " + ("(" + s);
    assert Spaces1(" " + (kw + s2)) == Yes((), kw + s2) by { OneSpace(kw + s2); }
    assert Word(kw, kw + s2) == Yes((), s2) by { KeywordInverts(kw, s2); }
    MarkAfterSpace(s);
    ListOpenSteps(kw, " " + (kw + s2), kw + s2, s2, s);
  }

  lemma SpacedMisses(kw: string, other: string, s: string)
    requires kw != "" && other != "" && !IsSpace(other[0]) && Lower(kw[0]) != Lower(other[0])
    ensures SpacedWord(kw, Spaced(other, s)) == NoParse && Connective(kw, Spaced(other, s)) == NoParse
  {
    OneSpace(other + (" " + s));
    KeywordMisses(kw, other + (" " + s), 0);
  }

  lemma KeywordMisses(kw: string, s: string, i: nat)
    requires i < |kw| && (i < |s| ==> Lower(s[i]) != Lower(kw[i]))
    ensures Keyword(kw, s) == NoParse
  {
  }

  lemma IdentInverts(n: string, s: string)
    requires ValidIdent(n) && Stops(IdentChar, s)
    ensures Ident(n + s) == Yes(n, s)
  {
    assert (n + s)[1..] == n[1..] + s;
    SpanStops(IdentChar, n[1..], s);
    assert (n + s)[..|n|] == n && (n + s)[|n|..] == s;
  }

  // ----- paths and operands come back ------------------------------------------------------------

  lemma IndexInverts(i: nat, s: string)
    requires i < USIZE_LIMIT
    ensures BracketIndex(PrintSegment(Index(i), s)) == Yes(Index(i), s)
  {
    DecimalInverts(i);
    var d := Decimal(i);
    var text := PrintSegment(Index(i), s);
    var s1 := d + ("]" + s);
    assert text[1..] == s1;
    SpanStops(IsDigit, d, "]" + s);
    assert s1[..|d|] == d && s1[|d|..] == "]" + s;
    assert ("]" + s)[1..] == s;
  }

  lemma SegmentInverts(g: Segment, s: string)
    requires ValidSegment(g) && !g.Index? && Stops(IdentChar, s)
    ensures PathSeg(PrintSegment(g, s)) == Yes(g, s)
  {
    IdentInverts(g.name, s);
    assert ("#" + (g.name + s))[1..] == g.name + s;
  }

  lemma ContinuationInverts(g: Segment, gs: seq<Segment>, s: string)
    requires ValidSegment(g) && Stops(IdentChar, PrintContinuations(gs, s))
    ensures Continuation(PrintContinuations([g] + gs, s)) == Yes(g, PrintContinuations(gs, s))
  {
    assert ([g] + gs)[1..] == gs;
    var s1 := PrintContinuations(gs, s);
    if g.Index? {
      IndexInverts(g.index, s1);
    } else {
      SegmentInverts(g, s1);
      assert ("." + PrintSegment(g, s1))[1..] == PrintSegment(g, s1);
    }
  }

  lemma ContinuationsStop(gs: seq<Segment>, s: string)
    requires PathStops(s)
    ensures Stops(IdentChar, PrintContinuations(gs, s))
  {
  }

  lemma {:induction false} ContinuationsInvert(done: seq<Segment>, gs: seq<Segment>, s: string)
    requires ValidPath(RawPath(done)) && (forall i :: 0 <= i < |gs| ==> ValidSegment(gs[i])) && PathStops(s)
    ensures Continuations(done, PrintContinuations(gs, s)) == (done + gs, s)
    decreases |gs|
  {
    if gs == [] {
      assert done + gs == done;
    } else {
      var g, rest := gs[0], gs[1..];
      assert gs == [g] + rest;
      ContinuationsStop(rest, s);
      ContinuationInverts(g, rest, s);
      ContinuationsInvert(done + [g], rest, s);
      Regroup(done, gs);
    }
  }

  lemma PathInverts(p: RawPath, s: string)
    requires ValidPath(p) && PathStops(s)
    ensures PathOf(PrintPath(p, s)) == Yes(p, s)
    ensures Stops(IsSpace, PrintPath(p, s))
  {
    var g, gs := p.segments[0], p.segments[1..];
    assert [g] + gs == p.segments;
    ContinuationsInvert([g], gs, s);
    ContinuationsStop(gs, s);
    SegmentInverts(g, PrintContinuations(gs, s));
  }

  lemma OperandInverts(o: RawOperand, s: string)
    requires ValidOperand(o) && PathStops(s)
    ensures OperandOf(PrintOperand(o, s)) == Yes(o, s)
    ensures Stops(IsSpace, PrintOperand(o, s))
  {
    match o
    case PathOperand(p) =>
      PathInverts(p, s);
    case ValueRef(n) =>
      IdentInverts(n, s);
      assert (":" + (n + s))[1..] == n + s;
  }

  /** Not a space and not a bracket. */
  predicate LeafHead(text: string) { text != "" && !IsSpace(text[0]) && text[0] != '(' }

  lemma OperandHead(o: RawOperand, s: string)
    requires ValidOperand(o)
    ensures LeafHead(PrintOperand(o, s)) && PrintOperand(o, s)[0] !in "<=>"
  {
  }

  // ----- conditions without connectives come back ---------------------------------------------------

  /** The text after a condition neither continues it nor hides a bracket. */
  predicate LeafStops(s: string) { s != "" ==> s[0] == ' ' || s[0] == ')' }

  lemma TwoArgSteps(kw: string, text: string, s1: string, p: RawPath, s2: string, s3: string, o: RawOperand, s4: string,
                    s5: string, s: string)
    requires Word(kw, text) == Yes((), s1) && Mark('(', s1) == Yes((), s2) && PathOf(s2) == Yes(p, s3)
    requires Mark(',', s3) == Yes((), s4) && OperandOf(s4) == Yes(o, s5) && Close(')', s5) == Yes((), s)
    ensures TwoArgCall(kw, text) == Yes((p, o), s)
  {
  }

  lemma TwoArgMarks(kw: string, s2: string, s4: string, s: string)
    requires Stops(IsSpace, s2) && Stops(IsSpace, s4)
    ensures Word(kw, kw + ("(" + s2)) == Yes((), "(" + s2) && Mark('(', "(" + s2) == Yes((), s2)
    ensures Mark(',', "," + s4) == Yes((), s4) && Close(')', ")" + s) == Yes((), s)
  {
    KeywordInverts(kw, "(" + s2);
    MarkInverts('(', s2);
    MarkInverts(',', s4);
    CloseInverts(')', s);
  }

  lemma TwoArgText(kw: string, p: RawPath, s2: string, o: RawOperand, s4: string, s: string)
    requires PathOf(s2) == Yes(p, "," + s4) && Stops(IsSpace, s2)
    requires OperandOf(s4) == Yes(o, ")" + s) && Stops(IsSpace, s4)
    ensures TwoArgCall(kw, kw + ("(" + s2)) == Yes((p, o), s)
  {
    TwoArgMarks(kw, s2, s4, s);
    TwoArgSteps(kw, kw + ("(" + s2), "(" + s2, p, s2, "," + s4, o, s4, ")" + s, s);
  }

  lemma TwoArgsInvert(kw: string, p: RawPath, o: RawOperand, s: string)
    requires ValidPath(p) && ValidOperand(o)
    ensures TwoArgCall(kw, kw + PrintTwoArgs(p, o, s)) == Yes((p, o), s)
  {
    var s4 := PrintOperand(o, ")" + s);
    OperandInverts(o, ")" + s);
    PathInverts(p, "," + s4);
    TwoArgText(kw, p, PrintPath(p, "," + s4), o, s4, s);
  }

  lemma PathCallInverts(kw: string, p: RawPath, s: string)
    requires ValidPath(p)
    ensures PathCall(kw, kw + ("(" + PrintPath(p, ")" + s))) == Yes(p, s)
  {
    var s2 := PrintPath(p, ")" + s);
    PathInverts(p, ")" + s);
    KeywordInverts(kw, "(" + s2);
    MarkInverts('(', s2);
    CloseInverts(')', s);
  }

  lemma CallMisses(kw: string, other: string, s: string, i: nat)
    requires i < |kw| && i < |other| && Lower(other[i]) != Lower(kw[i])
    ensures PathCall(kw, other + s) == NoParse && TwoArgCall(kw, other + s) == NoParse
  {
    KeywordMisses(kw, other + s, i);
  }

  lemma SharedPrefixMisses(args: string)
    ensures PathCall("attribute_exists", "attribute_not_exists" + args) == NoParse
    ensures PathCall("attribute_exists", "attribute_type" + args) == NoParse
    ensures PathCall("attribute_not_exists", "attribute_type" + args) == NoParse
  {
    CallMisses("attribute_exists", "attribute_not_exists", args, 10);
    CallMisses("attribute_exists", "attribute_type", args, 10);
    CallMisses("attribute_not_exists", "attribute_type", args, 10);
  }

  lemma CallOfOne(text: string, p: RawPath, s: string)
    ensures PathCall("attribute_exists", text) == Yes(p, s) ==> Call(text) == Yes(AttributeExists(p), s)
    ensures PathCall("attribute_exists", text) == NoParse && PathCall("attribute_not_exists", text) == Yes(p, s)
            ==> Call(text) == Yes(AttributeNotExists(p), s)
  {
  }

  lemma ExistsInverts(p: RawPath, s: string)
    requires ValidPath(p)
    ensures Call("attribute_exists" + ("(" + PrintPath(p, ")" + s))) == Yes(AttributeExists(p), s)
  {
    PathCallInverts("attribute_exists", p, s);
    CallOfOne("attribute_exists" + ("(" + PrintPath(p, ")" + s)), p, s);
  }

  lemma NotExistsInverts(p: RawPath, s: string)
    requires ValidPath(p)
    ensures Call("attribute_not_exists" + ("(" + PrintPath(p, ")" + s))) == Yes(AttributeNotExists(p), s)
  {
    PathCallInverts("attribute_not_exists", p, s);
    SharedPrefixMisses("(" + PrintPath(p, ")" + s));
    CallOfOne("attribute_not_exists" + ("(" + PrintPath(p, ")" + s)), p, s);
  }

  lemma CallOfTwo(text: string, p: RawPath, o: RawOperand, s: string)
    requires PathCall("attribute_exists", text) == NoParse && PathCall("attribute_not_exists", text) == NoParse
    ensures TwoArgCall("begins_with", text) == Yes((p, o), s) ==> Call(text) == Yes(BeginsWith(p, o), s)
    ensures TwoArgCall("begins_with", text) == NoParse && TwoArgCall("contains", text) == Yes((p, o), s)
            ==> Call(text) == Yes(Contains(p, o), s)
    ensures TwoArgCall("begins_with", text) == TwoArgCall("contains", text) == NoParse
            ==> TwoArgCall("attribute_type", text) == Yes((p, o), s) ==> Call(text) == Yes(AttributeType(p, o), s)
  {
  }

  lemma BeginsWithInverts(p: RawPath, o: RawOperand, s: string)
    requires ValidPath(p) && ValidOperand(o)
    ensures Call("begins_with" + PrintTwoArgs(p, o, s)) == Yes(BeginsWith(p, o), s)
  {
    var args := PrintTwoArgs(p, o, s);
    CallMisses("attribute_exists", "begins_with", args, 0);
    CallMisses("attribute_not_exists", "begins_with", args, 0);
    TwoArgsInvert("begins_with", p, o, s);
    CallOfTwo("begins_with" + args, p, o, s);
  }

  lemma ContainsInverts(p: RawPath, o: RawOperand, s: string)
    requires ValidPath(p) && ValidOperand(o)
    ensures Call("contains" + PrintTwoArgs(p, o, s)) == Yes(Contains(p, o), s)
  {
    var args := PrintTwoArgs(p, o, s);
    CallMisses("attribute_exists", "contains", args, 0);
    CallMisses("attribute_not_exists", "contains", args, 0);
    CallMisses("begins_with", "contains", args, 0);
    TwoArgsInvert("contains", p, o, s);
    CallOfTwo("contains" + args, p, o, s);
  }

  lemma AttributeTypeInverts(p: RawPath, o: RawOperand, s: string)
    requires ValidPath(p) && ValidOperand(o)
    ensures Call("attribute_type" + PrintTwoArgs(p, o, s)) == Yes(AttributeType(p, o), s)
  {
    var args := PrintTwoArgs(p, o, s);
    SharedPrefixMisses(args);
    CallMisses("begins_with", "attribute_type", args, 0);
    CallMisses("contains", "attribute_type", args, 0);
    TwoArgsInvert("attribute_type", p, o, s);
    CallOfTwo("attribute_type" + args, p, o, s);
  }

  lemma CallInverts(c: RawCondition, s: string)
    requires ValidLeaf(c) && !c.Compare? && !c.Between? && !c.In?
    ensures Call(PrintLeaf(c, s)) == Yes(c, s)
  {
    match c
    case AttributeExists(p) => ExistsInverts(p, s);
    case AttributeNotExists(p) => NotExistsInverts(p, s);
    case BeginsWith(p, o) => BeginsWithInverts(p, o, s);
    case Contains(p, o) => ContainsInverts(p, o, s);
    case AttributeType(p, o) => AttributeTypeInverts(p, o, s);
  }

  lemma MoreItemsStep(done: seq<RawOperand>, o: RawOperand, s1: string, s2: string)
    requires ValidOperands(done) && OperandOf(s1) == Yes(o, s2) && Stops(IsSpace, s1)
    ensures MoreItems(done, "," + s1) == MoreItems(done + [o], s2)
  {
    MarkInverts(',', s1);
  }

  lemma MoreItemsText(done: seq<RawOperand>, o: RawOperand, s2: string)
    requires ValidOperands(done) && ValidOperand(o) && PathStops(s2)
    ensures MoreItems(done, "," + PrintOperand(o, s2)) == MoreItems(done + [o], s2)
  {
    OperandInverts(o, s2);
    MoreItemsStep(done, o, PrintOperand(o, s2), s2);
  }

  lemma MoreItemsStop(items: seq<RawOperand>, after: string)
    requires PathStops(after)
    ensures PathStops(PrintMore(items, after))
  {
  }

  lemma {:induction false} MoreItemsInvert(done: seq<RawOperand>, items: seq<RawOperand>, after: string)
    requires ValidOperands(done) && (forall i :: 0 <= i < |items| ==> ValidOperand(items[i]))
    requires PathStops(after) && Mark(',', after) == NoParse
    ensures MoreItems(done, PrintMore(items, after)) == Yes(done + items, after)
    decreases |items|
  {
    if items == [] {
      assert done + items == done;
    } else {
      var o, rest := items[0], items[1..];
      MoreItemsStop(rest, after);
      MoreItemsText(done, o, PrintMore(rest, after));
      MoreItemsInvert(done + [o], rest, after);
      Regroup(done, items);
    }
  }

  lemma InTailSteps(items: seq<RawOperand>, text: string, s1: string, s2: string, s: string)
    requires ListOpen("IN", text) == Yes((), s1) && SpacedWord("BETWEEN", text) == NoParse
    requires ValidOperands(items) && OperandOf(s1) == Yes(items[0], s2)
    requires MoreItems([items[0]], s2) == Yes(items, ")" + s)
    ensures InTail(text) == Yes(items, s) && BetweenTail(text) == NoParse
  {
    CloseInverts(')', s);
  }

  lemma InTailInverts(items: seq<RawOperand>, s: string)
    requires ValidOperands(items)
    ensures InTail(Spaced("IN", "(" + PrintItems(items, ")" + s))) == Yes(items, s)
    ensures BetweenTail(Spaced("IN", "(" + PrintItems(items, ")" + s))) == NoParse
  {
    var s2 := PrintMore(items[1..], ")" + s);
    assert [items[0]] + items[1..] == items;
    MoreItemsInvert([items[0]], items[1..], ")" + s);
    MoreItemsStop(items[1..], ")" + s);
    OperandInverts(items[0], s2);
    var s1 := PrintOperand(items[0], s2);
    ListOpenInverts("IN", s1);
    SpacedMisses("BETWEEN", "IN", "(" + s1);
    InTailSteps(items, Spaced("IN", "(" + s1), s1, s2, s);
  }

  lemma BetweenTailSteps(lo: RawOperand, s1: string, hi: RawOperand, s3: string, s: string)
    requires OperandOf(s1) == Yes(lo, Spaced("AND", s3)) && Stops(IsSpace, s1)
    requires OperandOf(s3) == Yes(hi, s) && Stops(IsSpace, s3)
    ensures BetweenTail(Spaced("BETWEEN", s1)) == Yes((lo, hi), s)
  {
    SpacedInverts("BETWEEN", s1);
    SpacedInverts("AND", s3);
  }

  lemma BetweenTailInverts(lo: RawOperand, hi: RawOperand, s: string)
    requires ValidOperand(lo) && ValidOperand(hi) && PathStops(s)
    ensures BetweenTail(Spaced("BETWEEN", PrintOperand(lo, Spaced("AND", PrintOperand(hi, s))))) == Yes((lo, hi), s)
  {
    OperandInverts(hi, s);
    var s3 := PrintOperand(hi, s);
    OperandInverts(lo, Spaced("AND", s3));
    BetweenTailSteps(lo, PrintOperand(lo, Spaced("AND", s3)), hi, s3, s);
  }

  lemma ComparatorInverts(op: ComparisonOp, s: string)
    requires s != "" && s[0] !in "<=>"
    ensures Comparator(Symbol(op) + s) == Yes(op, s) && !IsSpace((Symbol(op) + s)[0])
  {
    var text := Symbol(op) + s;
    assert text[|Symbol(op)|..] == s;
    assert text[0] == Symbol(op)[0];
    assert |Symbol(op)| == 1 ==> text[1] == s[0];
    assert |Symbol(op)| == 2 ==> text[1] == Symbol(op)[1];
  }

  lemma NoBracketNoCall(kw: string, text: string)
    requires Keyword(kw, text).Yes? ==> Mark('(', Keyword(kw, text).rest) == NoParse
    ensures PathCall(kw, text) == NoParse && TwoArgCall(kw, text) == NoParse
  {
  }

  /** Not a bracket, even after one space. */
  predicate NoBracket(s: string) {
    s != "" && s[0] != '(' && (IsSpace(s[0]) ==> |s| > 1 && s[1] != '(' && !IsSpace(s[1]))
  }

  lemma NoBracketNoMark(s: string)
    requires NoBracket(s)
    ensures Mark('(', s) == NoParse
  {
    if IsSpace(s[0]) {
      assert s == [s[0]] + s[1..];
      SpanStops(IsSpace, [s[0]], s[1..]);
    }
  }

  predicate AllIdent(kw: string) { forall i :: 0 <= i < |kw| ==> IdentChar(kw[i]) }

  lemma KeywordInsideName(kw: string, n: string, y: string)
    requires AllIdent(kw) && ValidIdent(n)
    requires NoBracket(y) && !IdentChar(y[0])
    ensures PathCall(kw, n + y) == NoParse && TwoArgCall(kw, n + y) == NoParse
  {
    var text := n + y;
    if |n| < |kw| {
      assert text[|n|] == y[0] && IdentChar(kw[|n|]);
      KeywordMisses(kw, text, |n|);
    } else if Keyword(kw, text).Yes? {
      var s1 := text[|kw|..];
      assert s1 == n[|kw|..] + y;
      assert if |kw| < |n| then s1[0] == n[|kw|] else s1 == y;
      NoBracketNoMark(s1);
    }
    NoBracketNoCall(kw, text);
  }

  /** A name that starts like a function is not taken for a call: what follows the keyword inside
      or after the name is never an opening bracket. */
  lemma NameIsNotACall(kw: string, o: RawOperand, s: string)
    requires kw != "" && AllIdent(kw)
    requires ValidOperand(o) && PathStops(s) && NoBracket(s)
    ensures PathCall(kw, PrintOperand(o, s)) == NoParse && TwoArgCall(kw, PrintOperand(o, s)) == NoParse
  {
    if o.PathOperand? && o.path.segments[0].Name? {
      var g, gs := o.path.segments[0], o.path.segments[1..];
      var y := PrintContinuations(gs, s);
      assert gs != [] ==> y[0] == '.' || y[0] == '[';
      KeywordInsideName(kw, g.name, y);
    } else {
      KeywordMisses(kw, PrintOperand(o, s), 0);
      NoBracketNoCall(kw, PrintOperand(o, s));
    }
  }

  lemma TailStops(c: RawCondition, s: string)
    requires ValidLeaf(c) && (c.Compare? || c.Between? || c.In?)
    ensures PathStops(PrintTail(c, s)) && NoBracket(PrintTail(c, s))
  {
  }

  function Subject(c: RawCondition): RawOperand
    requires c.Compare? || c.Between? || c.In?
  {
    if c.Compare? then c.left else c.target
  }

  lemma CompareSteps(op: ComparisonOp, l: RawOperand, text: string, t: string, r: RawOperand, s1: string, s: string)
    requires OperandOf(text) == Yes(l, t) && t != "" && !IsSpace(t[0])
    requires Comparator(t) == Yes(op, s1) && OperandOf(s1) == Yes(r, s) && Stops(IsSpace, s1)
    ensures OperandBased(text) == Yes(Compare(op, l, r), s)
  {
    assert BetweenTail(t) == NoParse && InTail(t) == NoParse;
    NoSpaces(t);
    NoSpaces(s1);
  }

  lemma OperandBasedInverts(c: RawCondition, s: string)
    requires ValidLeaf(c) && (c.Compare? || c.Between? || c.In?) && LeafStops(s)
    ensures OperandBased(PrintLeaf(c, s)) == Yes(c, s)
  {
    var text, t := PrintLeaf(c, s), PrintTail(c, s);
    TailStops(c, s);
    OperandInverts(Subject(c), t);
    match c
    case Compare(op, l, r) =>
      OperandInverts(r, s);
      OperandHead(r, s);
      ComparatorInverts(op, PrintOperand(r, s));
      CompareSteps(op, l, text, t, r, PrintOperand(r, s), s);
    case Between(_, lo, hi) =>
      BetweenTailInverts(lo, hi, s);
      assert BetweenTail(t) == Yes((lo, hi), s);
    case In(_, items) =>
      InTailInverts(items, s);
      assert BetweenTail(t) == NoParse && InTail(t) == Yes(items, s);
  }

  lemma NoCalls(text: string)
    requires PathCall("attribute_exists", text) == PathCall("attribute_not_exists", text) == NoParse
    requires TwoArgCall("begins_with", text) == TwoArgCall("contains", text) == TwoArgCall("attribute_type", text) == NoParse
    ensures Call(text) == NoParse
  {
  }

  lemma FunctionNamesAreIdents()
    ensures AllIdent("attribute_exists") && AllIdent("attribute_not_exists")
    ensures AllIdent("begins_with") && AllIdent("contains") && AllIdent("attribute_type")
  {
  }

  lemma NameIsNoCall(o: RawOperand, s: string)
    requires ValidOperand(o) && PathStops(s) && NoBracket(s)
    ensures Call(PrintOperand(o, s)) == NoParse
  {
    FunctionNamesAreIdents();
    NameIsNotACall("attribute_exists", o, s);
    NameIsNotACall("attribute_not_exists", o, s);
    NameIsNotACall("begins_with", o, s);
    NameIsNotACall("contains", o, s);
    NameIsNotACall("attribute_type", o, s);
    NoCalls(PrintOperand(o, s));
  }

  lemma LeafInverts(c: RawCondition, s: string)
    requires ValidLeaf(c) && LeafStops(s)
    ensures Leaf(PrintLeaf(c, s)) == Yes(c, s)
  {
    if c.Compare? || c.Between? || c.In? {
      TailStops(c, s);
      NameIsNoCall(Subject(c), PrintTail(c, s));
      OperandBasedInverts(c, s);
    } else {
      CallInverts(c, s);
    }
  }

  // ----- connectives come back ---------------------------------------------------------------------

  lemma KeywordAtName(kw: string, n: string, y: string)
    requires AllIdent(kw) && ValidIdent(n) && Stops(IdentChar, y)
    ensures Keyword(kw, n + y).Yes? && |kw| != |n| ==> Spaces1(Keyword(kw, n + y).rest) == NoParse
    ensures Keyword(kw, n + y).Yes? && |kw| == |n| ==> Keyword(kw, n) == Yes((), "") && Keyword(kw, n + y).rest == y
  {
    var text := n + y;
    if |n| < |kw| {
      assert |n| < |text| ==> text[|n|] == y[0] && IdentChar(kw[|n|]);
      KeywordMisses(kw, text, |n|);
    } else {
      assert text[|kw|..] == n[|kw|..] + y;
      assert forall i :: 0 <= i < |n| ==> text[i] == n[i];
    }
  }

  lemma NameIsNoNegation(n: string, y: string)
    requires ValidIdent(n) && Stops(IdentChar, y) && (Keyword("NOT", n) == Yes((), "") ==> Stops(IsSpace, y))
    ensures NotKeyword(n + y) == NoParse
  {
    KeywordAtName("NOT", n, y);
  }

  lemma OtherIsNoNegation(text: string)
    requires text != "" && Lower(text[0]) != 'n'
    ensures NotKeyword(text) == NoParse
  {
    KeywordMisses("NOT", text, 0);
  }

  lemma OperandIsNoNegation(o: RawOperand, t: string)
    requires ValidOperand(o) && PathStops(t) && (BareNot(o) ==> Stops(IsSpace, t))
    ensures NotKeyword(PrintOperand(o, t)) == NoParse
  {
    if o.PathOperand? && o.path.segments[0].Name? {
      var g, gs := o.path.segments[0], o.path.segments[1..];
      var y := PrintContinuations(gs, t);
      assert gs != [] ==> y[0] == '.' || y[0] == '[';
      NameIsNoNegation(g.name, y);
    } else {
      OtherIsNoNegation(PrintOperand(o, t));
    }
  }

  lemma CallHead(c: RawCondition, s: string)
    requires ValidLeaf(c) && !c.Compare? && !c.Between? && !c.In?
    ensures PrintLeaf(c, s) != "" && PrintLeaf(c, s)[0] in "abc"
  {
  }

  lemma BareNotNeedsSpace(c: RawCondition, s: string)
    requires ValidLeaf(c) && !ReadsAsNegation(c) && (c.Compare? || c.Between? || c.In?)
    ensures BareNot(Subject(c)) ==> Stops(IsSpace, PrintTail(c, s))
  {
  }

  lemma TestIsNoNegation(c: RawCondition, s: string)
    requires ValidLeaf(c) && !ReadsAsNegation(c) && (c.Compare? || c.Between? || c.In?)
    ensures NotKeyword(PrintOperand(Subject(c), PrintTail(c, s))) == NoParse
    ensures LeafHead(PrintOperand(Subject(c), PrintTail(c, s)))
  {
    TailStops(c, s);
    BareNotNeedsSpace(c, s);
    OperandHead(Subject(c), PrintTail(c, s));
    OperandIsNoNegation(Subject(c), PrintTail(c, s));
  }

  lemma LeafIsNoNegation(c: RawCondition, s: string)
    requires ValidLeaf(c) && !ReadsAsNegation(c)
    ensures NotKeyword(PrintLeaf(c, s)) == NoParse && LeafHead(PrintLeaf(c, s))
  {
    if c.Compare? || c.Between? || c.In? {
      TestIsNoNegation(c, s);
    } else {
      CallHead(c, s);
      OtherIsNoNegation(PrintLeaf(c, s));
    }
  }

  lemma LeafStep(c: RawCondition, text: string, s: string)
    requires Leaf(text) == Yes(c, s) && NotKeyword(text) == NoParse && LeafHead(text)
    ensures NotExpr(text) == Yes(c, s)
  {
    NoSpaces(text);
    assert Group(text) == NoParse;
  }

  lemma NotStep(x: RawCondition, text: string, s1: string, s: string)
    requires NotKeyword(text) == Yes((), s1) && NotExpr(s1) == Yes(x, s)
    requires text != "" && !IsSpace(text[0])
    ensures NotExpr(text) == Yes(Not(x), s)
  {
    NoSpaces(text);
  }

  lemma NotText(x: RawCondition, text: string, s1: string, s: string)
    requires text == "NOT" + (" " + s1) && NotExpr(s1) == Yes(x, s) && Stops(IsSpace, s1)
    ensures NotExpr(text) == Yes(Not(x), s) && Stops(IsSpace, text)
  {
    KeywordInverts("NOT", " " + s1);
    OneSpace(s1);
    NotStep(x, text, s1, s);
  }

  lemma BracketEnds(c: RawCondition, s: string)
    requires Expressible(c)
    ensures OrMore(c, ")" + s) == Yes(c, ")" + s) && LeafStops(")" + s) && Connective("AND", ")" + s) == NoParse
  {
  }

  lemma GroupInverts(c: RawCondition, text: string, s1: string, s: string)
    requires text == "(" + s1 && OrExpr(s1) == Yes(c, ")" + s)
    ensures Group(text) == Yes(c, s)
  {
    assert text[1..] == s1;
    CloseInverts(')', s);
  }

  lemma GroupStep(c: RawCondition, text: string, s: string)
    requires Group(text) == Yes(c, s) && NotKeyword(text) == NoParse
    ensures NotExpr(text) == Yes(c, s)
  {
    NoSpaces(text);
  }

  lemma GroupText(c: RawCondition, text: string, s1: string, s: string)
    requires text == "(" + s1 && Expressible(c) && OrExpr(s1) == OrMore(c, ")" + s)
    ensures NotExpr(text) == Yes(c, s) && Stops(IsSpace, text)
  {
    BracketEnds(c, s);
    GroupInverts(c, text, s1, s);
    OtherIsNoNegation(text);
    GroupStep(c, text, s);
  }

  lemma LeafText(c: RawCondition, s: string)
    requires ValidLeaf(c) && !ReadsAsNegation(c) && LeafStops(s)
    ensures NotExpr(PrintLeaf(c, s)) == Yes(c, s) && Stops(IsSpace, PrintLeaf(c, s))
  {
    LeafInverts(c, s);
    LeafIsNoNegation(c, s);
    LeafStep(c, PrintLeaf(c, s), s);
  }

  lemma AndStep(text: string, left: RawCondition, right: RawCondition, s1: string, s: string)
    requires Expressible(left) && AndExpr(text) == AndMore(left, Spaced("AND", s1))
    requires NotExpr(s1) == Yes(right, s) && Stops(IsSpace, s1)
    ensures AndExpr(text) == AndMore(And(left, right), s)
  {
    SpacedInverts("AND", s1);
    AndMoreStep(left, right, Spaced("AND", s1), s1, s);
  }

  lemma AndMoreStep(left: RawCondition, right: RawCondition, text: string, s1: string, s: string)
    requires Expressible(left) && Connective("AND", text) == Yes((), s1) && NotExpr(s1) == Yes(right, s)
    ensures AndMore(left, text) == AndMore(And(left, right), s)
  {
  }

  lemma AndOfNot(text: string, c: RawCondition, s: string)
    requires NotExpr(text) == Yes(c, s)
    ensures AndExpr(text) == AndMore(c, s)
  {
  }

  lemma OrStep(text: string, left: RawCondition, right: RawCondition, s1: string, s: string)
    requires Expressible(left) && OrExpr(text) == OrMore(left, Spaced("OR", s1))
    requires AndExpr(s1) == Yes(right, s) && Stops(IsSpace, s1)
    ensures OrExpr(text) == OrMore(Or(left, right), s)
  {
    SpacedInverts("OR", s1);
    OrMoreStep(left, right, Spaced("OR", s1), s1, s);
  }

  lemma OrMoreStep(left: RawCondition, right: RawCondition, text: string, s1: string, s: string)
    requires Expressible(left) && Connective("OR", text) == Yes((), s1) && AndExpr(s1) == Yes(right, s)
    ensures OrMore(left, text) == OrMore(Or(left, right), s)
  {
  }

  lemma AndEnds(text: string, c: RawCondition, s: string)
    requires Expressible(c) && AndExpr(text) == AndMore(c, s) && Connective("AND", s) == NoParse
    ensures AndExpr(text) == Yes(c, s) && OrExpr(text) == OrMore(c, s)
  {
  }

  lemma SpacedStops(kw: string, s: string)
    ensures LeafStops(Spaced(kw, s))
  {
  }

  lemma PrintGrouped(c: RawCondition, s: string)
    requires c.Or? || c.And?
    ensures PrintAt(NotLevel, c, s) == "(" + PrintAt(OrLevel, c, ")" + s)
  {
  }

  lemma PrintNot(x: RawCondition, s: string)
    ensures PrintAt(NotLevel, Not(x), s) == "NOT" + (" " + PrintAt(NotLevel, x, s))
  {
  }

  lemma PrintAnd(a: RawCondition, b: RawCondition, s: string)
    ensures PrintAt(AndLevel, And(a, b), s) == PrintAt(AndLevel, a, Spaced("AND", PrintAt(NotLevel, b, s)))
  {
  }

  lemma PrintOr(a: RawCondition, b: RawCondition, s: string)
    ensures PrintAt(OrLevel, Or(a, b), s) == PrintAt(OrLevel, a, Spaced("OR", PrintAt(AndLevel, b, s)))
  {
  }

  lemma PrintSame(c: RawCondition, s: string)
    ensures !c.And? ==> PrintAt(AndLevel, c, s) == PrintAt(NotLevel, c, s)
    ensures !c.Or? ==> PrintAt(OrLevel, c, s) == PrintAt(AndLevel, c, s)
    ensures !c.Or? && !c.And? && !c.Not? ==> PrintAt(NotLevel, c, s) == PrintLeaf(c, s)
  {
  }

  /** Which level's proof leans on which, for one condition. */
  function Rank(level: Level, c: RawCondition): nat {
    if c.Or? then (match level case AndLevel => 2 case NotLevel => 1 case OrLevel => 0)
    else if c.And? then (match level case NotLevel => 2 case OrLevel => 1 case AndLevel => 0)
    else match level case OrLevel => 2 case AndLevel => 1 case NotLevel => 0
  }

  lemma {:induction false} NotLevelInverts(c: RawCondition, s: string)
    requires Expressible(c) && LeafStops(s)
    ensures NotExpr(PrintAt(NotLevel, c, s)) == Yes(c, s) && Stops(IsSpace, PrintAt(NotLevel, c, s))
    decreases c, Rank(NotLevel, c)
  {
    if c.Or? || c.And? {
      BracketEnds(c, s);
      OrLevelInverts(c, ")" + s);
      PrintGrouped(c, s);
      GroupText(c, PrintAt(NotLevel, c, s), PrintAt(OrLevel, c, ")" + s), s);
    } else if c.Not? {
      NotLevelInverts(c.inner, s);
      PrintNot(c.inner, s);
      NotText(c.inner, PrintAt(NotLevel, c, s), PrintAt(NotLevel, c.inner, s), s);
    } else {
      PrintSame(c, s);
      LeafText(c, s);
    }
  }

  lemma {:induction false} AndLevelInverts(c: RawCondition, s: string)
    requires Expressible(c) && LeafStops(s)
    ensures AndExpr(PrintAt(AndLevel, c, s)) == AndMore(c, s) && Stops(IsSpace, PrintAt(AndLevel, c, s))
    decreases c, Rank(AndLevel, c)
  {
    var text := PrintAt(AndLevel, c, s);
    if c.And? {
      var s1 := PrintAt(NotLevel, c.b, s);
      NotLevelInverts(c.b, s);
      SpacedStops("AND", s1);
      AndLevelInverts(c.a, Spaced("AND", s1));
      PrintAnd(c.a, c.b, s);
      AndStep(text, c.a, c.b, s1, s);
    } else {
      NotLevelInverts(c, s);
      PrintSame(c, s);
      AndOfNot(text, c, s);
    }
  }

  lemma {:induction false} OrLevelInverts(c: RawCondition, s: string)
    requires Expressible(c) && LeafStops(s) && Connective("AND", s) == NoParse
    ensures OrExpr(PrintAt(OrLevel, c, s)) == OrMore(c, s) && Stops(IsSpace, PrintAt(OrLevel, c, s))
    decreases c, Rank(OrLevel, c)
  {
    var text := PrintAt(OrLevel, c, s);
    if c.Or? {
      var s1 := PrintAt(AndLevel, c.b, s);
      AndLevelInverts(c.b, s);
      AndEnds(s1, c.b, s);
      SpacedStops("OR", s1);
      SpacedMisses("AND", "OR", s1);
      OrLevelInverts(c.a, Spaced("OR", s1));
      PrintOr(c.a, c.b, s);
      OrStep(text, c.a, c.b, s1, s);
    } else {
      AndLevelInverts(c, s);
      PrintSame(c, s);
      AndEnds(text, c, s);
    }
  }

  /** Parsing what was printed gives the condition back exactly when names are identifiers, indices fit
      a word, IN lists are not empty, and no BETWEEN or IN tests a bare `not`. */
  lemma ParserInvertsPrinterExactly(c: RawCondition)
    ensures Parse(Print(c)) == Some(c) <==> Expressible(c)
  {
    if Expressible(c) {
      OrLevelInverts(c, "");
      NoSpaces(Print(c));
      assert OrExpr(Print(c)) == Yes(c, "");
    }
  }

  /** The parser's range is exactly the expressible conditions. */
  lemma ParserRangeIsExpressible(c: RawCondition)
    ensures (exists s :: Parse(s) == Some(c)) <==> Expressible(c)
  {
    ParserInvertsPrinterExactly(c);
  }

  lemma NotBetween() returns (c: RawCondition)
    ensures ValidLeaf(c) && ReadsAsNegation(c)
  {
    c := Between(PathOperand(RawPath([Name("not")])), ValueRef("a"), ValueRef("b"));
  }

  /** `not BETWEEN :a AND :b` is made of good parts and does not come back. */
  lemma BareNotIsLost() returns (c: RawCondition)
    ensures ValidLeaf(c) && Parse(Print(c)) != Some(c)
  {
    c := NotBetween();
    ParserInvertsPrinterExactly(c);
  }
}
