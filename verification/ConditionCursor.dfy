/** The ConditionExpression parser as it runs: each method advances one cursor over the input and puts it
    back where an alternative fails. */
module ConditionCursor {
  import opened Values
  import opened ConditionParser

  /** A method's answer with the input it leaves, as the parser functions give it. */
  function After<T>(r: Option<T>, input: string): Parsed<T> {
    match r
    case None => NoParse
    case Some(v) => Yes(v, input)
  }

  class Cursor {
    var input: string

    constructor (input: string)
      ensures this.input == input
    {
      this.input := input;
    }

    method ParsePath() returns (r: Option<RawPath>)
      modifies this
      ensures After(r, input) == PathOf(old(input))
    {
      var first := PathSeg(input);
      if first.NoParse? { return None; }
      input := first.rest;
      var segments := [first.value];
      var next := Continuation(input);
      while next.Yes?
        invariant next == Continuation(input) && ValidPath(RawPath(segments))
        invariant Continuations(segments, input) == Continuations([first.value], first.rest)
        decreases |input|
      {
        segments := segments + [next.value];
        input := next.rest;
        next := Continuation(input);
      }
      return Some(RawPath(segments));
    }

    method ParseOperand() returns (r: Option<RawOperand>)
      modifies this
      ensures After(r, input) == OperandOf(old(input))
    {
      if input != "" && input[0] == ':' {
        var name := Ident(input[1..]);
        if name.NoParse? { return None; }
        input := name.rest;
        return Some(ValueRef(name.value));
      }
      var path := ParsePath();
      return if path.Some? then Some(PathOperand(path.value)) else None;
    }

    method ParseMoreItems(first: RawOperand) returns (r: Option<seq<RawOperand>>)
      requires ValidOperand(first)
      modifies this
      ensures After(r, input) == MoreItems([first], old(input))
    {
      var items := [first];
      var comma := Mark(',', input);
      while comma.Yes?
        invariant comma == Mark(',', input) && ValidOperands(items)
        invariant MoreItems(items, input) == MoreItems([first], old(input))
        decreases |input|
      {
        input := comma.rest;
        var next := ParseOperand();
        if next.None? { return None; }
        items := items + [next.value];
        comma := Mark(',', input);
      }
      return Some(items);
    }

    method ParseInTail() returns (r: Option<seq<RawOperand>>)
      modifies this
      ensures After(r, input) == InTail(old(input))
    {
      var open := ListOpen("IN", input);
      if open.NoParse? { return None; }
      input := open.rest;
      var first := ParseOperand();
      if first.None? { return None; }
      r := ParseMoreItems(first.value);
      if r.None? { return; }
      var close := Close(')', input);
      if close.NoParse? { return None; }
      input := close.rest;
    }

    method ParseOperandBased() returns (r: Option<RawCondition>)
      modifies this
      ensures After(r, input) == OperandBased(old(input))
    {
      var left := ParseOperand();
      if left.None? { return None; }
      var between := BetweenTail(input);
      if between.Yes? {
        input := between.rest;
        return Some(Between(left.value, between.value.0, between.value.1));
      }
      var start := input;
      var choices := ParseInTail();
      if choices.Some? { return Some(In(left.value, choices.value)); }
      var op := Comparator(Spaces0(start));
      if op.NoParse? { return None; }
      input := Spaces0(op.rest);
      var right := ParseOperand();
      return if right.Some? then Some(Compare(op.value, left.value, right.value)) else None;
    }

    method ParseOr() returns (r: Option<RawCondition>)
      modifies this
      ensures After(r, input) == OrExpr(old(input))
      decreases |input|, 4
    {
      r := ParseAnd();
      if r.None? { return; }
      ghost var first, start := r.value, input;
      var word := Connective("OR", input);
      while word.Yes?
        invariant word == Connective("OR", input) && |input| <= |start| < |old(input)|
        invariant r.Some? && Expressible(r.value)
        invariant OrMore(r.value, input) == OrMore(first, start)
        decreases |input|
      {
        input := word.rest;
        var right := ParseAnd();
        if right.None? { return None; }
        r := Some(Or(r.value, right.value));
        word := Connective("OR", input);
      }
    }

    method ParseAnd() returns (r: Option<RawCondition>)
      modifies this
      ensures After(r, input) == AndExpr(old(input))
      decreases |input|, 3
    {
      r := ParseNot();
      if r.None? { return; }
      ghost var first, start := r.value, input;
      var word := Connective("AND", input);
      while word.Yes?
        invariant word == Connective("AND", input) && |input| <= |start| < |old(input)|
        invariant r.Some? && Expressible(r.value)
        invariant AndMore(r.value, input) == AndMore(first, start)
        decreases |input|
      {
        input := word.rest;
        var right := ParseNot();
        if right.None? { return None; }
        r := Some(And(r.value, right.value));
        word := Connective("AND", input);
      }
    }

    method ParseNot() returns (r: Option<RawCondition>)
      modifies this
      ensures After(r, input) == NotExpr(old(input))
      decreases |input|, 2
    {
      input := Spaces0(input);
      var word := NotKeyword(input);
      if word.Yes? {
        input := word.rest;
        var inner := ParseNot();
        return if inner.Some? then Some(Not(inner.value)) else None;
      }
      r := ParseAtom();
    }

    method ParseAtom() returns (r: Option<RawCondition>)
      modifies this
      ensures After(r, input) == Atom(old(input))
      decreases |input|, 1
    {
      input := Spaces0(input);
      var start := input;
      r := ParseGroup();
      if r.Some? { return; }
      var call := Call(start);
      if call.Yes? {
        input := call.rest;
        return Some(call.value);
      }
      input := start;
      r := ParseOperandBased();
    }

    method ParseGroup() returns (r: Option<RawCondition>)
      modifies this
      ensures After(r, input) == Group(old(input))
      decreases |input|, 0
    {
      var open := Tag('(', input);
      if open.NoParse? { return None; }
      input := open.rest;
      r := ParseOr();
      if r.None? { return; }
      var close := Close(')', input);
      if close.NoParse? { return None; }
      input := close.rest;
    }

    /** The parser's entry: a condition is what the whole input reads as, and only an expressible one. */
    method ParseConditionExpression() returns (r: Option<RawCondition>)
      modifies this
      ensures r == Parse(old(input))
    {
      var start := Spaces0(input);
      input := start;
      r := ParseOr();
      assert After(r, input) == OrExpr(start);
      if r.Some? && Spaces0(input) != "" { return None; }
    }
  }
}
