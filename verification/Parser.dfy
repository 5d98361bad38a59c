/** The parser's state and its methods, which advance `cur`. */
module ExpressionParser {
  import opened Options
  import opened Ladder
  import opened Spelling

  class Parser {
    const tokens: seq<Tok>
    var cur: nat

    constructor (tokens: seq<Tok>)
      ensures this.tokens == tokens && cur == 0
    {
      this.tokens := tokens;
      cur := 0;
    }

    /** The outcome of a method that began at `from`: the tree and the position
        that Parse names, or an error exactly where Parse has none. */
    ghost predicate Did(r: Option<Expr>, outcome: Option<Parsed>)
      reads this
    {
      && cur <= |tokens|
      && (outcome.None? <==> r.None?)
      && (outcome.Some? ==> r == Some(outcome.value.e) && cur == outcome.value.next)
    }

    /** Takes an operator of that rung, if one is next. */
    method MatchOperator(level: nat) returns (op: Option<Op>)
      requires cur <= |tokens|
      modifies this
      ensures op.Some? <==> old(cur) < |tokens| && OfLevel(tokens[old(cur)], level)
      ensures op.Some? ==> cur == old(cur) + 1 && tokens[old(cur)] == Operator(op.value)
      ensures op.None? ==> cur == old(cur)
    {
      op := None;
      if cur < |tokens| && OfLevel(tokens[cur], level) {
        op := Some(tokens[cur].op);
        cur := cur + 1;
      }
    }

    method Expression() returns (r: Option<Expr>)
      requires cur <= |tokens|
      modifies this
      ensures Did(r, Parse(tokens, old(cur), 0))
      decreases |tokens| - cur, 10
    {
      r := LeftRung(0);
    }

    /** The rungs or, and, equality, comparison, term and factor: an operand of
        the next rung, then a loop over operators of this one. */
    method LeftRung(level: nat) returns (r: Option<Expr>)
      requires cur <= |tokens| && level < POWER
      modifies this
      ensures Did(r, Parse(tokens, old(cur), level))
      decreases |tokens| - cur, 9 - level, 0
    {
      var first := Operand(level + 1);
      if first.None? { return None; }
      var expr := first.value;
      var op := MatchOperator(level);
      while op.Some?
        invariant cur <= |tokens| && old(cur) < cur
        invariant op.Some? ==> tokens[cur - 1] == Operator(op.value) && Level(op.value) == level
        invariant op.None? ==> cur == |tokens| || !OfLevel(tokens[cur], level)
        invariant Parse(tokens, old(cur), level) == Rest(tokens, if op.Some? then cur - 1 else cur, level, expr)
        invariant op.Some? ==> old(cur) < cur - 1
        decreases |tokens| - cur, op.Some?
      {
        var right := Operand(level + 1);
        if right.None? { return None; }
        expr := Binary(op.value, expr, right.value);
        op := MatchOperator(level);
      }
      return Some(expr);
    }

    /** The rung below: one of the loops, or the powers and what they are of. */
    method Operand(level: nat) returns (r: Option<Expr>)
      requires cur <= |tokens| && level <= POWER
      modifies this
      ensures Did(r, Parse(tokens, old(cur), level))
      decreases |tokens| - cur, 9 - level, 1
    {
      if level < POWER { r := LeftRung(level); } else { r := Power(); }
    }

    method Power() returns (r: Option<Expr>)
      requires cur <= |tokens|
      modifies this
      ensures Did(r, Parse(tokens, old(cur), POWER))
      decreases |tokens| - cur, 2
    {
      r := SignedOperand();
      if r.None? { return; }
      var op := MatchOperator(POWER);
      if op.Some? {
        var right := Power();
        if right.None? { return None; }
        r := Some(Binary(op.value, r.value, right.value));
      }
    }

    method SignedOperand() returns (r: Option<Expr>)
      requires cur <= |tokens|
      modifies this
      ensures Did(r, Parse(tokens, old(cur), UNARY))
      decreases |tokens| - cur, 1
    {
      if cur == |tokens| { return None; }
      var sign := tokens[cur];
      if IsUnaryTok(sign) {
        cur := cur + 1;
        var right := SignedOperand();
        if right.None? { return None; }
        return Some(Unary(sign, right.value));
      }
      r := PrimaryOperand();
      if r.Some? && cur < |tokens| && tokens[cur] == LeftParen { r := None; }
    }

    method PrimaryOperand() returns (r: Option<Expr>)
      requires cur < |tokens|
      modifies this
      ensures Did(r, Primary(tokens, old(cur)))
      decreases |tokens| - cur, 0
    {
      match tokens[cur]
      case Literal(n) =>
        cur := cur + 1;
        return Some(Lit(n));
      case LeftParen =>
        cur := cur + 1;
        var first := Expression();
        if first.None? { return None; }
        if cur == |tokens| || tokens[cur] != RightParen { return None; }
        cur := cur + 1;
        return Some(Grouping(first.value));
      case _ => return None;
    }
  }

  /** A parser over the tokens of a tree reads that tree to the end. */
  method Reparse(e: Expr) returns (r: Option<Expr>)
    requires Respects(e)
    ensures r == Some(e)
  {
    var p := new Parser(Flatten(e));
    ghost var ts := Flatten(e);
    AtWhole(ts);
    ParseFlattened(ts, 0, e, 0);
    r := p.Expression();
  }
}
