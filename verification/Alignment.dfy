/** When every conditional jump that a construct compiles to is emitted behind
    an aligned window, so that the byte rewrites never misfire. The window of a
    jump depends on the code before it, so each predicate takes the program
    emitted so far, in which unfinished jumps still wait. */
module Alignment {
  import opened Options
  import opened Machine
  import opened Assembly
  import opened Source
  import opened CodeGen
  import opened Layout
  import opened Peephole
  import Emission

  ghost predicate ExprAligned(p: Prog, e: Expr, ls: Locals, k: nat)
    decreases e, 0
  {
    match e
    case Group(e1) => ExprAligned(p, e1, ls, k)
    case Not(e1) => ExprAligned(p, e1, ls, k)
    case Neg(e1) => IsFolded(e) || ExprAligned(p, e1, ls, k)
    case Bin(op, l, r) =>
      var fl := ExprCode(l, ls, k);
      var k1 := k + |fl.ks|;
      if op == And then
        ConditionAligned(p, l, ls, k) &&
        ConditionAligned(p + WithJump(fl.code, JUMP_IF_FALSE_POP, PENDING), r, ls, k1)
      else if op == Or then
        ConditionAligned(p, l, ls, k) &&
        ConditionAligned(p + WithJump(fl.code, JUMP_IF_FALSE_POP, 2) + [Plain(TRUE), Jump(JUMP, PENDING)], r, ls, k1)
      else ExprAligned(p, l, ls, k) && ExprAligned(p + fl.code, r, ls, k1)
    case _ => true
  }

  /** Where the operands of a binary operator are compiled. */
  lemma AlignedParts(p: Prog, e: Expr, ls: Locals, k: nat)
    requires e.Bin?
    ensures var fl := ExprCode(e.l, ls, k);
            var k1 := k + |fl.ks|;
            ExprAligned(p, e, ls, k) <==>
            if e.op == And then
              ConditionAligned(p, e.l, ls, k) &&
              ConditionAligned(p + WithJump(fl.code, JUMP_IF_FALSE_POP, PENDING), e.r, ls, k1)
            else if e.op == Or then
              ConditionAligned(p, e.l, ls, k) &&
              ConditionAligned(p + WithJump(fl.code, JUMP_IF_FALSE_POP, 2) + [Plain(TRUE), Jump(JUMP, PENDING)],
                               e.r, ls, k1)
            else ExprAligned(p, e.l, ls, k) && ExprAligned(p + fl.code, e.r, ls, k1)
  {
    hide ExprCode, WithJump, ConditionAligned;
  }

  /** A negation that is folded to a constant. */
  predicate IsFolded(e: Expr) {
    var v := EvalConst(e);
    v.Some? && v.value.Number?
  }

  ghost predicate ConditionAligned(p: Prog, e: Expr, ls: Locals, k: nat)
    decreases e, 1
  {
    ExprAligned(p, e, ls, k) && Aligned(p + ExprCode(e, ls, k).code, JUMP_IF_FALSE_POP)
  }

  ghost predicate AssignAligned(p: Prog, x: string, op: AssignOp, e: Expr, ls: Locals, k: nat, s: nat)
    requires s < |ls|
  {
    var t := ls[s].typ;
    if AddedConst(x, op, e, t).Some? || AddedLocal(x, op, e, ls, t).Some? then true
    else if op != Set then
      if Numeric(t) && Numeric(TypeOf(e, ls)) then ExprAligned(p, e, ls, k)
      else ExprAligned(p + [Slot(GET_LOCAL, s)], e, ls, k)
    else
      match SelfUpdate(x, e, ls, t)
      case Some((_, rhs)) => ExprAligned(p, rhs, ls, k)
      case None => ExprAligned(p, e, ls, k)
  }

  ghost predicate GlobalAssignAligned(p: Prog, x: string, op: AssignOp, e: Expr, ls: Locals, k: nat) {
    var f := ExprCode(e, ls, k);
    var k1 := k + |f.ks|;
    ExprAligned(p, e, ls, k) &&
    (op != Set ==> ExprAligned(p + f.code + [Global(GET_GLOBAL, k1)], e, ls, k1 + 1))
  }

  ghost predicate HeadAligned(p: Prog, c: Expr, ls: Locals, k: nat) {
    MatchLessEqual(c, ls).Some? || MatchDivisible(c, ls).Some? || ConditionAligned(p, c, ls, k)
  }

  ghost predicate LoopHeadAligned(p: Prog, c: Option<Expr>, ls: Locals, k: nat) {
    c.Some? ==> ConditionAligned(p, c.value, ls, k)
  }

  ghost predicate ArgsAligned(p: Prog, args: seq<Expr>, ls: Locals, k: nat) {
    |args| > 0 ==>
      var n := |args| - 1;
      var f := ArgsCode(args[..n], ls, k);
      ArgsAligned(p, args[..n], ls, k) && ExprAligned(p + f.code, args[n], ls, k + |f.ks|)
  }

  ghost predicate StmtAligned(p: Prog, s: Stmt, ls: Locals, k: nat, lc: LoopCtx)
    decreases s, 1
  {
    match s
    case Let(_, _, e) => ExprAligned(p, e, ls, k)
    case Assign(x, op, e) =>
      var slot := SlotOf(ls, x);
      if slot >= 0 then AssignAligned(p, x, op, e, ls, k, slot) else GlobalAssignAligned(p, x, op, e, ls, k)
    case ExprStmt(e) => ExprAligned(p, e, ls, k)
    case If(c, thn, els) =>
      var h := IfHead(c, ls, k, PENDING);
      var lc1 := Shift(lc, |h.code|);
      var b1 := ScopeCode(thn, ls, k + |h.ks|, lc1);
      HeadAligned(p, c, ls, k) && BlockAligned(p + h.code, thn, ls, k + |h.ks|, lc1) &&
      (match els
       case None => true
       case Some(eb) =>
         BlockAligned(p + IfHead(c, ls, k, |b1.code| + 1).code + b1.code + [Jump(JUMP, PENDING)], eb, b1.ls,
                      k + |h.ks| + |b1.ks|, Shift(lc, |h.code| + |b1.code| + 1)))
    case While(c, body) =>
      var h := LoopHead(c, ls, k, PENDING);
      LoopHeadAligned(p, c, ls, k) && BlockAligned(p + h.code, body, ls, k + |h.ks|, Backward(|h.code|))
    case DoLoop(body, c) =>
      var b := ScopeCode(body, ls, k, Forward);
      BlockAligned(p, body, ls, k, Forward) &&
      LoopHeadAligned(p + Fill(b.code, CONTINUE_HOLE, |b.code|), c, b.ls, k + |b.ks|)
    case ForRange(x, args, filter, body) =>
      var n := |ls|;
      var ls1 := ls + RangeLocals(x);
      var a := ArgsCode(args, ls1, k);
      var k1 := k + |a.ks|;
      var p1 := p + a.code + [RangeInit(n + 1, n + 2, n + 3, |args|), RangeNext(n + 1, n + 2, n + 3, n, PENDING)];
      var h := LoopHead(filter, ls1, k1, PENDING);
      ArgsAligned(p, args, ls1, k) && LoopHeadAligned(p1, filter, ls1, k1) &&
      BlockAligned(p1 + h.code, body, ls1, k1 + |h.ks|, Backward(1 + |h.code|))
    case Break => true
    case Continue => true
  }

  ghost predicate BlockAligned(p: Prog, b: Block, ls: Locals, k: nat, lc: LoopCtx)
    decreases b, 0
  {
    match b
    case Done => true
    case Then(s, rest) =>
      var f := StmtCode(s, ls, k, lc);
      StmtAligned(p, s, ls, k, lc) &&
      BlockAligned(p + f.code, rest, f.ls, k + |f.ks|, Shift(lc, |f.code|))
  }

  /** A statement list, one statement further. */
  lemma AlignedThen(p: Prog, b: Block, ls: Locals, k: nat, lc: LoopCtx)
    ensures b.Done? ==> BlockAligned(p, b, ls, k, lc)
    ensures b.Then? ==>
              var f := StmtCode(b.s, ls, k, lc);
              var g := BlockCode(b.rest, f.ls, k + |f.ks|, Shift(lc, |f.code|));
              (BlockAligned(p, b, ls, k, lc) <==>
                StmtAligned(p, b.s, ls, k, lc) &&
                BlockAligned(p + f.code, b.rest, f.ls, k + |f.ks|, Shift(lc, |f.code|))) &&
              BlockCode(b, ls, k, lc) == SFrag(f.code + g.code, f.ks + g.ks, g.ls, Max(f.max, g.max), f.ok && g.ok)
  {
    hide StmtCode, StmtAligned;
  }

  // ------------------------------------------------------------- emitted jumps

  /** Where emitJump puts the jump's opcode. */
  function JumpStart(code: seq<byte>, last: nat, op: byte): nat {
    var f := NotFoldBytes(code, last, op);
    if LooksLikeArrayField(f.0, f.1) then |f.0| - 7
    else if LooksLikeLocals(f.0, f.1) then |f.0| - 5
    else |f.0|
  }

  lemma JumpStartAligned(p: Prog, last: nat, op: byte)
    requires |p| > 0 && last == Off(p, |p| - 1) && WellFormed(p[|p| - 1]) && Cuttable(p, op) && Aligned(p, op)
    ensures var q := WithJump(p, op, PENDING); JumpStart(Assemble(p), last, op) == Off(q, |q| - 1)
  {
    hide Settled, Assemble, LooksLikeLocals, LooksLikeArrayField, CompareJumpBytes, Fuses, NotFoldBytes,
         FoldNot, Cuttable, FusedCode;
    NotFoldAgrees(p, last, op);
    CutSettled(p, op);
    var f := FoldNot(p, op);
    var c := f.0;
    if Fuses(c, f.1) {
      WindowBytes(c, f.1);
      FusedLast(c, f.1);
    } else {
      var q := c + [Jump(f.1, PENDING)];
      assert q[..|c|] == c[..|c|];
      OffOfPrefix(q, c, |c|);
    }
  }

  lemma FusedLast(c: Prog, op: byte)
    requires Fuses(c, op)
    ensures var q := FusedCode(c, op, PENDING); |q| == |c| - 2 && Off(q, |q| - 1) + 5 == |Assemble(c)|
  {
    hide Assemble;
    var q := FusedCode(c, op, PENDING);
    OffSteps(c, |c|);
    assert q[..|c| - 3] == c[..|c| - 3];
    OffOfPrefix(q, c, |c| - 3);
  }

  /** An unconditional jump is never rewritten. */
  lemma PlainJump(p: Prog, last: nat, hole: int)
    requires Settled(p) && hole < 0
    ensures WithJump(p, JUMP, hole) == p + [Jump(JUMP, hole)] && Aligned(p, JUMP)
    ensures EmitJumpBytes(Assemble(p), last, JUMP) == Assemble(p + [Jump(JUMP, hole)])
    ensures JumpStart(Assemble(p), last, JUMP) == |Assemble(p)| == Off(p + [Jump(JUMP, hole)], |p|)
    ensures Settled(p + [Jump(JUMP, hole)])
  {
    hide Settled, Assemble, Encode, Off;
    AppendPending(p, Jump(JUMP, hole));
    assert WithOperand(Jump(JUMP, hole), 0) == WithOperand(Jump(JUMP, PENDING), 0);
    PendingBytes(JUMP, 0, 0);
    Emission.SettledThen(p, [Jump(JUMP, hole)]);
    assert (p + [Jump(JUMP, hole)])[..|p|] == p[..|p|];
    OffOfPrefix(p + [Jump(JUMP, hole)], p, |p|);
  }
}
