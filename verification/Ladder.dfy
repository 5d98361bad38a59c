/** The precedence ladder of the expression parser: parsing inverts flattening,
    in both directions. */
module Ladder {
  import opened Options
  import opened Spelling

  datatype Op =
    | OrOr | AndAnd | EqualEqual | BangEqual | Greater | GreaterEqual | Less | LessEqual | In
    | Plus | Minus | Star | Slash | Percent | StarStar | Caret

  /** Tokens: literals, parentheses, operators, `!`, and any token that ends an
      expression. */
  datatype Tok = Literal(n: nat) | LeftParen | RightParen | Operator(op: Op) | Bang | Other(kind: nat)

  datatype Expr = Lit(n: nat) | Grouping(e: Expr) | Unary(sign: Tok, e: Expr) | Binary(op: Op, l: Expr, r: Expr)

  /** The rung that an operator belongs to: or, and, equality, comparison, term,
      factor, power. */
  function Level(op: Op): (n: nat)
    ensures n <= 6
  {
    match op
    case OrOr => 0
    case AndAnd => 1
    case EqualEqual => 2 case BangEqual => 2
    case Greater => 3 case GreaterEqual => 3 case Less => 3 case LessEqual => 3 case In => 3
    case Plus => 4 case Minus => 4
    case Star => 5 case Slash => 5 case Percent => 5
    case StarStar => 6 case Caret => 6
  }

  const POWER: nat := 6
  const UNARY: nat := 7

  predicate IsUnaryTok(t: Tok) { t == Bang || t == Operator(Minus) }

  /** The token is an operator of that rung. */
  predicate OfLevel(t: Tok, level: nat) { t.Operator? && Level(t.op) == level }

  function Rank(e: Expr): nat {
    match e
    case Binary(op, _, _) => Level(op)
    case Unary(_, _) => UNARY
    case _ => UNARY + 1
  }

  /** A tree that the ladder can produce: operands bind tighter than their
      operator, on its right strictly so, but for the powers, which nest to the
      right. */
  predicate Respects(e: Expr) {
    match e
    case Lit(_) => true
    case Grouping(e1) => Respects(e1)
    case Unary(op, e1) => IsUnaryTok(op) && Respects(e1) && Rank(e1) >= UNARY
    case Binary(op, l, r) =>
      Respects(l) && Respects(r) &&
      if Level(op) == POWER then Rank(l) >= UNARY && Rank(r) >= POWER
      else Rank(l) >= Level(op) && Rank(r) > Level(op)
  }

  /** The tokens of a tree. */
  function Flatten(e: Expr): (ts: seq<Tok>)
    ensures |ts| > 0
  {
    match e
    case Lit(n) => [Literal(n)]
    case Grouping(e1) => [LeftParen] + Flatten(e1) + [RightParen]
    case Unary(op, e1) => [op] + Flatten(e1)
    case Binary(op, l, r) => Flatten(l) + [Operator(op)] + Flatten(r)
  }

  // ----------------------------------------------------------------- parsing

  /** A tree and the position after it. */
  datatype Parsed = Parsed(e: Expr, next: nat)

  /** What the rung `level` makes of the tokens from `cur` on. A call after a
      primary is not modelled and fails. */
  function Parse(ts: seq<Tok>, cur: nat, level: nat): (r: Option<Parsed>)
    requires cur <= |ts| && level <= UNARY
    ensures r.Some? ==> cur < r.value.next <= |ts|
    decreases |ts| - cur, 10 - level
  {
    if level < POWER then
      match Parse(ts, cur, level + 1)
      case None => None
      case Some(p) => Rest(ts, p.next, level, p.e)
    else if level == POWER then
      match Parse(ts, cur, UNARY)
      case None => None
      case Some(p) =>
        if p.next < |ts| && OfLevel(ts[p.next], POWER) then
          match Parse(ts, p.next + 1, POWER)
          case None => None
          case Some(q) => Some(Parsed(Binary(ts[p.next].op, p.e, q.e), q.next))
        else Some(p)
    else if cur == |ts| then None
    else if IsUnaryTok(ts[cur]) then
      match Parse(ts, cur + 1, UNARY)
      case None => None
      case Some(p) => Some(Parsed(Unary(ts[cur], p.e), p.next))
    else
      match Primary(ts, cur)
      case None => None
      case Some(p) => if p.next < |ts| && ts[p.next] == LeftParen then None else Some(p)
  }

  /** The loop of a left-associative rung. */
  function Rest(ts: seq<Tok>, cur: nat, level: nat, left: Expr): (r: Option<Parsed>)
    requires cur <= |ts| && level < POWER
    ensures r.Some? ==> cur <= r.value.next <= |ts|
    decreases |ts| - cur, 0
  {
    if cur < |ts| && OfLevel(ts[cur], level) then
      match Parse(ts, cur + 1, level + 1)
      case None => None
      case Some(p) => Rest(ts, p.next, level, Binary(ts[cur].op, left, p.e))
    else Some(Parsed(left, cur))
  }

  function Primary(ts: seq<Tok>, cur: nat): (r: Option<Parsed>)
    requires cur < |ts|
    ensures r.Some? ==> cur < r.value.next <= |ts|
    decreases |ts| - cur, 0
  {
    match ts[cur]
    case Literal(n) => Some(Parsed(Lit(n), cur + 1))
    case LeftParen =>
      (match Parse(ts, cur + 1, 0)
       case None => None
       case Some(p) =>
         if p.next < |ts| && ts[p.next] == RightParen then Some(Parsed(Grouping(p.e), p.next + 1)) else None)
    case _ => None
  }

  // --------------------------------------------------- flattening, then parsing

  /** The tokens of e stand at `cur`. */
  predicate Spells(ts: seq<Tok>, cur: nat, e: Expr) {
    At(ts, cur, Flatten(e))
  }

  /** What follows does not continue an expression of rung `level`. */
  predicate Stops(ts: seq<Tok>, cur: nat, level: nat) {
    cur < |ts| ==> ts[cur] != LeftParen && (ts[cur].Operator? ==> Level(ts[cur].op) < level)
  }

  // A tree is spelled exactly where its parts are, one after another.

  lemma SpellsLit(ts: seq<Tok>, cur: nat, n: nat)
    ensures |Flatten(Lit(n))| == 1
    ensures Spells(ts, cur, Lit(n)) <==> cur < |ts| && ts[cur] == Literal(n)
  {
    AtOne(ts, cur, Literal(n));
  }

  lemma SpellsGrouping(ts: seq<Tok>, cur: nat, e: Expr)
    ensures |Flatten(Grouping(e))| == |Flatten(e)| + 2
    ensures Spells(ts, cur, Grouping(e)) <==>
            cur < |ts| && ts[cur] == LeftParen && Spells(ts, cur + 1, e) &&
            cur + 1 + |Flatten(e)| < |ts| && ts[cur + 1 + |Flatten(e)|] == RightParen
  {
    hide At;
    var f := Flatten(e);
    AtJoined(ts, cur, [LeftParen] + f, [RightParen]);
    AtJoined(ts, cur, [LeftParen], f);
    AtOne(ts, cur, LeftParen);
    AtOne(ts, cur + 1 + |f|, RightParen);
  }

  lemma SpellsUnary(ts: seq<Tok>, cur: nat, sign: Tok, e: Expr)
    ensures |Flatten(Unary(sign, e))| == |Flatten(e)| + 1
    ensures Spells(ts, cur, Unary(sign, e)) <==> cur < |ts| && ts[cur] == sign && Spells(ts, cur + 1, e)
  {
    hide At;
    AtJoined(ts, cur, [sign], Flatten(e));
    AtOne(ts, cur, sign);
  }

  lemma SpellsBinary(ts: seq<Tok>, cur: nat, op: Op, l: Expr, r: Expr)
    ensures |Flatten(Binary(op, l, r))| == |Flatten(l)| + 1 + |Flatten(r)|
    ensures Spells(ts, cur, Binary(op, l, r)) <==>
            Spells(ts, cur, l) && cur + |Flatten(l)| < |ts| && ts[cur + |Flatten(l)|] == Operator(op) &&
            Spells(ts, cur + |Flatten(l)| + 1, r)
  {
    hide At;
    AtJoined(ts, cur, Flatten(l) + [Operator(op)], Flatten(r));
    AtJoined(ts, cur, Flatten(l), [Operator(op)]);
    AtOne(ts, cur + |Flatten(l)|, Operator(op));
  }

  /** The spelled tree is what the rung has read when its loop looks at the next
      token. */
  lemma {:induction false} ReadByRung(ts: seq<Tok>, cur: nat, e: Expr, level: nat)
    requires Spells(ts, cur, e) && Respects(e) && level < POWER && Rank(e) >= level
    requires Stops(ts, cur + |Flatten(e)|, level + 1)
    ensures Parse(ts, cur, level) == Rest(ts, cur + |Flatten(e)|, level, e)
    decreases e, 10 - level, 0
  {
    hide Flatten, Spells, Primary, Parse;
    SpellsLength(ts, cur, e);
    if Rank(e) > level {
      hide Rest, Respects;
      ParseFlattened(ts, cur, e, level + 1);
      ReadLeft(ts, cur, level);
    } else {
      SpellsBinary(ts, cur, e.op, e.l, e.r);
      var mid := cur + |Flatten(e.l)|;
      SpellsLength(ts, cur, e.l);
      SpellsLength(ts, mid + 1, e.r);
      ReadByRung(ts, cur, e.l, level);
      ParseFlattened(ts, mid + 1, e.r, level + 1);
    }
  }

  lemma ReadLeft(ts: seq<Tok>, cur: nat, level: nat)
    requires cur <= |ts| && level < POWER && Parse(ts, cur, level + 1).Some?
    ensures var p := Parse(ts, cur, level + 1).value;
            Parse(ts, cur, level) == Rest(ts, p.next, level, p.e)
  {
    hide Rest, Primary;
  }

  lemma SpellsLength(ts: seq<Tok>, cur: nat, e: Expr)
    requires Spells(ts, cur, e)
    ensures cur + |Flatten(e)| <= |ts|
  {
  }

  /** Parsing the tokens of a tree that respects the ladder gives that tree back
      and stops right after it. */
  lemma {:induction false} ParseFlattened(ts: seq<Tok>, cur: nat, e: Expr, level: nat)
    requires Spells(ts, cur, e) && Respects(e) && level <= UNARY && Rank(e) >= level
    requires Stops(ts, cur + |Flatten(e)|, level)
    ensures cur <= |ts| && Parse(ts, cur, level) == Some(Parsed(e, cur + |Flatten(e)|))
    decreases e, 10 - level, 1
  {
    hide Flatten, Spells;
    SpellsLength(ts, cur, e);
    if level < POWER {
      hide Parse, Primary, Respects;
      ReadByRung(ts, cur, e, level);
    } else if level == POWER {
      hide Rest, Primary;
      if Rank(e) == POWER {
        SpellsBinary(ts, cur, e.op, e.l, e.r);
        var mid := cur + |Flatten(e.l)|;
        SpellsLength(ts, cur, e.l);
        SpellsLength(ts, mid + 1, e.r);
        ParseFlattened(ts, cur, e.l, UNARY);
        ParseFlattened(ts, mid + 1, e.r, POWER);
      } else {
        ParseFlattened(ts, cur, e, UNARY);
      }
    } else {
      match e
      case Unary(sign, e1) =>
        SpellsUnary(ts, cur, sign, e1);
        ParseFlattened(ts, cur + 1, e1, UNARY);
      case Grouping(e1) =>
        SpellsGrouping(ts, cur, e1);
        ParseFlattened(ts, cur + 1, e1, 0);
      case Lit(n) => SpellsLit(ts, cur, n);
    }
  }

  // --------------------------------------------------- parsing, then flattening

  /** What a rung returns spells exactly the tokens it consumed, respects the
      ladder, and goes as far as the rung can. */
  ghost predicate Faithful(ts: seq<Tok>, cur: nat, level: nat, p: Parsed) {
    Spells(ts, cur, p.e) && p.next == cur + |Flatten(p.e)| && Respects(p.e) && Rank(p.e) >= level &&
    Stops(ts, p.next, level)
  }

  lemma {:induction false} FlattenParsed(ts: seq<Tok>, cur: nat, level: nat)
    requires cur <= |ts| && level <= UNARY && Parse(ts, cur, level).Some?
    ensures Faithful(ts, cur, level, Parse(ts, cur, level).value)
    decreases |ts| - cur, 10 - level
  {
    hide Flatten, Spells, Primary, Rest;
    if level < POWER {
      FlattenParsed(ts, cur, level + 1);
      var p := Parse(ts, cur, level + 1).value;
      FlattenRest(ts, cur, p.next, level, p.e);
    } else if level == POWER {
      FlattenParsed(ts, cur, UNARY);
      var p := Parse(ts, cur, UNARY).value;
      if p.next < |ts| && OfLevel(ts[p.next], POWER) {
        FlattenParsed(ts, p.next + 1, POWER);
        var q := Parse(ts, p.next + 1, POWER).value;
        SpellsBinary(ts, cur, ts[p.next].op, p.e, q.e);
      }
    } else if IsUnaryTok(ts[cur]) {
      FlattenParsed(ts, cur + 1, UNARY);
      SpellsUnary(ts, cur, ts[cur], Parse(ts, cur + 1, UNARY).value.e);
    } else {
      FlattenPrimary(ts, cur);
    }
  }

  lemma {:induction false} FlattenPrimary(ts: seq<Tok>, cur: nat)
    requires cur < |ts| && Primary(ts, cur).Some?
    ensures var p := Primary(ts, cur).value;
            Spells(ts, cur, p.e) && p.next == cur + |Flatten(p.e)| && Respects(p.e) && Rank(p.e) > UNARY
    decreases |ts| - cur, 0
  {
    hide Flatten, Spells;
    if ts[cur] == LeftParen {
      FlattenParsed(ts, cur + 1, 0);
      SpellsGrouping(ts, cur, Parse(ts, cur + 1, 0).value.e);
    } else {
      SpellsLit(ts, cur, ts[cur].n);
    }
  }

  /** The loop of a rung, having read `left` since `from`. */
  lemma {:induction false} FlattenRest(ts: seq<Tok>, from: nat, cur: nat, level: nat, left: Expr)
    requires from < cur <= |ts| && level < POWER && Rest(ts, cur, level, left).Some?
    requires Spells(ts, from, left) && cur == from + |Flatten(left)| && Respects(left) && Rank(left) >= level
    requires Stops(ts, cur, level + 1)
    ensures Faithful(ts, from, level, Rest(ts, cur, level, left).value)
    decreases |ts| - cur, 0
  {
    hide Flatten, Spells, Primary, Parse;
    if cur < |ts| && OfLevel(ts[cur], level) {
      FlattenParsed(ts, cur + 1, level + 1);
      var p := Parse(ts, cur + 1, level + 1).value;
      SpellsBinary(ts, from, ts[cur].op, left, p.e);
      FlattenRest(ts, from, p.next, level, Binary(ts[cur].op, left, p.e));
    }
  }

  /** A rung returns a tree exactly when the tree respects the ladder, its tokens
      are the ones consumed, and the next token does not continue it. */
  lemma ParsesExactly(ts: seq<Tok>, cur: nat, level: nat, p: Parsed)
    requires cur <= |ts| && level <= UNARY
    ensures Parse(ts, cur, level) == Some(p) <==> Faithful(ts, cur, level, p)
  {
    if Parse(ts, cur, level) == Some(p) { FlattenParsed(ts, cur, level); }
    if Faithful(ts, cur, level, p) { ParseFlattened(ts, cur, p.e, level); }
  }

  /** No two trees that respect the ladder have the same tokens. */
  lemma FlattenInjective(a: Expr, b: Expr)
    requires Respects(a) && Respects(b) && Flatten(a) == Flatten(b)
    ensures a == b
  {
    var ts := Flatten(a);
    AtWhole(ts);
    ParseFlattened(ts, 0, a, 0);
    ParseFlattened(ts, 0, b, 0);
  }

  // --------------------------------------------------------------- precedence

  /** The operators, from the loosest to the tightest. */
  const TIERS: seq<set<Op>> := [
    {OrOr}, {AndAnd}, {EqualEqual, BangEqual}, {Op.Greater, GreaterEqual, Op.Less, LessEqual, In},
    {Plus, Minus}, {Star, Slash, Percent}, {StarStar, Caret}]

  /** `a p b q c`: the tighter operator takes b; of one tier the left one, but
      for the powers, where the right one does. */
  lemma TwoOperators(p: Op, q: Op, i: nat, j: nat, a: nat, b: nat, c: nat)
    requires i < |TIERS| && j < |TIERS| && p in TIERS[i] && q in TIERS[j]
    ensures var x, y, z := Lit(a), Lit(b), Lit(c);
            var e := if i > j || (i == j && i != |TIERS| - 1) then Binary(q, Binary(p, x, y), z)
                     else Binary(p, x, Binary(q, y, z));
            Parse([Literal(a), Operator(p), Literal(b), Operator(q), Literal(c)], 0, 0) == Some(Parsed(e, 5))
  {
    hide Parse, Stops;
    TierLevel(p, i);
    TierLevel(q, j);
    hide TIERS, Level;
    var x, y, z := Lit(a), Lit(b), Lit(c);
    var ts := [Literal(a), Operator(p), Literal(b), Operator(q), Literal(c)];
    var left := i > j || (i == j && i != |TIERS| - 1);
    var e := if left then Binary(q, Binary(p, x, y), z) else Binary(p, x, Binary(q, y, z));
    assert Flatten(x) == [Literal(a)] && Flatten(y) == [Literal(b)] && Flatten(z) == [Literal(c)];
    if left {
      assert Flatten(Binary(p, x, y)) == [Literal(a), Operator(p), Literal(b)];
    } else {
      assert Flatten(Binary(q, y, z)) == [Literal(b), Operator(q), Literal(c)];
    }
    assert Flatten(e) == ts;
    LeavesRespect(p, a, b);
    LeavesRespect(q, b, c);
    Whole(e, ts);
  }

  lemma LeavesRespect(op: Op, a: nat, b: nat)
    ensures Respects(Binary(op, Lit(a), Lit(b))) && Rank(Binary(op, Lit(a), Lit(b))) == Level(op)
    ensures Respects(Lit(a)) && Rank(Lit(a)) > UNARY
  {
  }

  lemma TierLevel(op: Op, i: nat)
    requires i < |TIERS| && op in TIERS[i]
    ensures Level(op) == i && |TIERS| == POWER + 1
  {
  }

  lemma Whole(e: Expr, ts: seq<Tok>)
    requires Flatten(e) == ts && Respects(e)
    ensures Parse(ts, 0, 0) == Some(Parsed(e, |ts|))
  {
    hide Parse, Respects, Flatten;
    AtWhole(ts);
    ParseFlattened(ts, 0, e, 0);
  }

  /** `-a p b` and `!a p b`: the sign takes a alone, whatever p is. */
  lemma SignFirst(sign: Tok, p: Op, a: nat, b: nat)
    requires sign == Bang || sign == Operator(Minus)
    ensures Parse([sign, Literal(a), Operator(p), Literal(b)], 0, 0) ==
            Some(Parsed(Binary(p, Unary(sign, Lit(a)), Lit(b)), 4))
  {
    hide Parse;
    var ts := [sign, Literal(a), Operator(p), Literal(b)];
    var e := Binary(p, Unary(sign, Lit(a)), Lit(b));
    assert Flatten(Lit(a)) == [Literal(a)] && Flatten(Lit(b)) == [Literal(b)];
    assert Flatten(Unary(sign, Lit(a))) == [sign, Literal(a)];
    assert Flatten(e) == ts;
    assert Respects(Unary(sign, Lit(a)));
    Whole(e, ts);
  }
}
