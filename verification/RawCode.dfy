/** The bytes that the single-pass compiler emits, as functions on its byte
    buffer: in every case, also where a jump is rewritten over a window that is
    no comparison and later patches hit other code. */
module RawCode {
  import opened Options
  import opened Machine
  import opened Assembly
  import opened Source
  import opened CodeGen
  import opened Peephole
  import opened Alignment
  import opened Conditions
  import opened CompilerState
  import opened LoopState

  /** The buffer, the offset of the last opcode, the open loops, and whether
      every conditional jump so far saw what it should. */
  datatype Raw = Raw(code: seq<byte>, last: nat, loops: seq<LoopContext>, good: bool)

  /** A buffer and the operand offset of a jump in it. */
  datatype Jumped = Jumped(raw: Raw, at: int)

  // ------------------------------------------------------------ small steps

  function Put(r: Raw, ins: Instr): Raw { r.(code := r.code + Encode(ins), last := |r.code|) }

  function Puts(r: Raw, p: Prog): (q: Raw)
    ensures q.loops == r.loops
  {
    if p == [] then r else Put(Puts(r, p[..|p| - 1]), p[|p| - 1])
  }

  /** An instruction whose last two bytes wait for a distance. */
  function PutWaiting(r: Raw, ins: Instr): Jumped {
    var q := Put(r, WithOperand(ins, 0));
    Jumped(q, |q.code| - 2)
  }

  /** emitJump. */
  function RawJump(r: Raw, op: byte): Jumped {
    var code := EmitJumpBytes(r.code, r.last, op);
    Jumped(r.(code := code, last := JumpStart(r.code, r.last, op)), |code| - 2)
  }

  /** Two bytes overwritten, if they are in the buffer. */
  function PatchedAt(code: seq<byte>, offset: int, v: int): (r: seq<byte>)
    ensures |r| == |code|
  {
    if 0 <= offset && offset + 1 < |code| then code[..offset] + [Hi(v), Lo(v)] + code[offset + 2..] else code
  }

  /** patchJump: the distance to the present end. */
  function RawPatch(r: Raw, at: int): Raw { r.(code := PatchedAt(r.code, at, |r.code| - at - 2)) }

  function RawPatches(r: Raw, ats: seq<int>): (q: Raw)
    ensures q.loops == r.loops
    decreases |ats|
  {
    if ats == [] then r else RawPatch(RawPatches(r, ats[..|ats| - 1]), ats[|ats| - 1])
  }

  /** emitLoop. */
  function RawLoop(r: Raw, start: nat): Raw {
    var d := |r.code| + 3 - start;
    r.(code := r.code + [LOOP, Hi(d), Lo(d)], last := |r.code|)
  }

  // ------------------------------------------------------------- expressions

  function RawExpr(e: Expr, ls: Locals, k: nat, r: Raw): (q: Raw)
    ensures q.loops == r.loops
    decreases e, 1
  {
    match e
    case Group(e1) => RawExpr(e1, ls, k, r)
    case Neg(e1) => if IsFolded(e) then Puts(r, ExprCode(e, ls, k).code) else Put(RawExpr(e1, ls, k, r), Plain(NEGATE))
    case Not(e1) => Put(RawExpr(e1, ls, k, r), Plain(NOT))
    case Bin(op, l, rt) =>
      var k1 := k + |ExprCode(l, ls, k).ks|;
      if op == And then RawAnd(e, ls, k, r)
      else if op == Or then RawOr(e, ls, k, r)
      else
        var numeric := Numeric(TypeOf(l, ls)) && Numeric(TypeOf(rt, ls));
        Puts(RawExpr(rt, ls, k1, RawExpr(l, ls, k, r)), BinCode(op, numeric))
    case _ => Puts(r, ExprCode(e, ls, k).code)
  }

  /** Behind the code c of a condition, the bytes at the end look like a
      comparison that can be fused only if they are one. */
  predicate SeesRight(code: seq<byte>, last: nat, op: byte, c: Prog) {
    var f := NotFoldBytes(code, last, op);
    var g := FoldNot(c, op);
    !LooksLikeArrayField(f.0, f.1) && (LooksLikeLocals(f.0, f.1) ==> Fuses(g.0, g.1))
  }

  /** An expression and the jump on it. */
  function RawCond(e: Expr, ls: Locals, k: nat, r: Raw): (j: Jumped)
    ensures j.raw.loops == r.loops
    decreases e, 2
  {
    var q := RawExpr(e, ls, k, r);
    var right := SeesRight(q.code, q.last, JUMP_IF_FALSE_POP, ExprCode(e, ls, k).code);
    RawJump(q.(good := q.good && right), JUMP_IF_FALSE_POP)
  }

  function RawAnd(e: Expr, ls: Locals, k: nat, r: Raw): (q: Raw)
    requires e.Bin?
    ensures q.loops == r.loops
    decreases e, 0
  {
    var a := RawCond(e.l, ls, k, r);
    var b := RawCond(e.r, ls, k + |ExprCode(e.l, ls, k).ks|, a.raw);
    RawAndEnd(a.at, b)
  }

  /** From the right operand's jump on. */
  function RawAndEnd(left: int, b: Jumped): (q: Raw)
    ensures q.loops == b.raw.loops
  {
    var c := RawJump(Put(b.raw, Plain(TRUE)), JUMP);
    RawPatch(Put(RawPatch(RawPatch(c.raw, left), b.at), Plain(FALSE)), c.at)
  }

  function RawOrEnd(left: int, b: Jumped): (q: Raw)
    ensures q.loops == b.raw.loops
  {
    var c := RawJump(Put(b.raw, Plain(TRUE)), JUMP);
    RawPatch(RawPatch(Put(RawPatch(c.raw, b.at), Plain(FALSE)), left), c.at)
  }

  function RawOr(e: Expr, ls: Locals, k: nat, r: Raw): (q: Raw)
    requires e.Bin?
    ensures q.loops == r.loops
    decreases e, 0
  {
    var a := RawOrLeft(e.l, ls, k, r);
    var b := RawCond(e.r, ls, k + |ExprCode(e.l, ls, k).ks|, a.raw);
    RawOrEnd(a.at, b)
  }

  function RawOrLeft(l: Expr, ls: Locals, k: nat, r: Raw): (j: Jumped)
    ensures j.raw.loops == r.loops
    decreases l, 3
  {
    var a := RawCond(l, ls, k, r);
    var b := RawJump(Put(a.raw, Plain(TRUE)), JUMP);
    Jumped(RawPatch(b.raw, a.at), b.at)
  }

  /** On the program's own bytes this is alignment. */
  lemma ConditionSees(p: Prog, e: Expr, ls: Locals, k: nat, last: nat)
    requires Settled(p)
    requires var q := p + ExprCode(e, ls, k).code; |q| > 0 && last == Off(q, |q| - 1)
    ensures var c := ExprCode(e, ls, k).code;
            Aligned(p + c, JUMP_IF_FALSE_POP) <==> SeesRight(Assemble(p + c), last, JUMP_IF_FALSE_POP, c)
  {
    hide ExprCode, Assemble, Settled, FoldNot, Fuses, NotFoldBytes, Cuttable, LooksLikeArrayField, LooksLikeLocals;
    var c := ExprCode(e, ls, k).code;
    CompareHasOperands(e, ls, k);
    ConditionAtEnd(p, e, ls, k);
    JumpSplits(p, c, PENDING);
    NotFoldAgrees(p + c, last, JUMP_IF_FALSE_POP);
  }

  lemma SameOperand(op: byte, s: nat, k: nat)
    ensures WithOperand(ConstJump(op, s, k, 0), 0) == WithOperand(ConstJump(op, s, k, PENDING), 0)
  {
  }

  lemma PutsOne(r: Raw, i: Instr)
    ensures Puts(r, [i]) == Put(r, i)
  {
    assert [i][..0] == [];
  }

  lemma OnePuts(r: Raw, p: Prog)
    requires |p| == 1
    ensures Puts(r, p) == Put(r, p[0])
  {
    assert p == [p[0]];
    PutsOne(r, p[0]);
  }

  lemma PutsTwo(r: Raw, i: Instr, j: Instr)
    ensures Puts(r, [i, j]) == Put(Put(r, i), j)
  {
    assert [i, j][..1] == [i];
    PutsOne(r, i);
  }

  /** Expressions of one instruction. */
  lemma RawLeaf(e: Expr, ls: Locals, k: nat, r: Raw)
    requires e.IntLit? || e.BoolLit? || e.Var? || (e.Neg? && IsFolded(e))
    ensures |ExprCode(e, ls, k).code| == 1 && RawExpr(e, ls, k, r) == Put(r, ExprCode(e, ls, k).code[0])
  {
    hide Put, SlotOf, EvalConst;
    var c := ExprCode(e, ls, k).code;
    assert c == [c[0]];
    PutsOne(r, c[0]);
  }

  /** The operators other than && and ||. */
  lemma RawOperator(e: Expr, ls: Locals, k: nat, r: Raw)
    requires e.Bin? && e.op != And && e.op != Or
    ensures var numeric := Numeric(TypeOf(e.l, ls)) && Numeric(TypeOf(e.r, ls));
            RawExpr(e, ls, k, r) ==
            Puts(RawExpr(e.r, ls, k + |ExprCode(e.l, ls, k).ks|, RawExpr(e.l, ls, k, r)), BinCode(e.op, numeric))
  {
    hide Put, Puts, BinCode, TypeOf, RawAnd, RawOr, ExprCode, EvalConst;
  }

  // -------------------------------------------------------------- statements

  function RawAssign(x: string, op: AssignOp, e: Expr, ls: Locals, k: nat, s: nat, r: Raw): (q: Raw)
    requires s < |ls|
    ensures q.loops == r.loops
  {
    var t := ls[s].typ;
    match AddedConst(x, op, e, t)
    case Some(c) => Put(r, ConstUpdate(c, s, k))
    case None =>
      match AddedLocal(x, op, e, ls, t)
      case Some(src) => Put(r, AddLocal(s, src))
      case None => if op != Set then RawCompound(op, e, ls, k, s, r) else RawSet(x, e, ls, k, s, r)
  }

  function ConstUpdate(c: int, s: nat, k: nat): Instr {
    if c == 1 then Slot(INC_LOCAL, s) else if c == -1 then Slot(DEC_LOCAL, s) else AddConst(s, k)
  }

  function RawCompound(op: AssignOp, e: Expr, ls: Locals, k: nat, s: nat, r: Raw): (q: Raw)
    requires s < |ls| && op != Set
    ensures q.loops == r.loops
  {
    if Numeric(ls[s].typ) && Numeric(TypeOf(e, ls)) then Put(RawExpr(e, ls, k, r), Slot(ToLocalOp(CompoundOp(op)), s))
    else Put(Puts(RawExpr(e, ls, k, Put(r, Slot(GET_LOCAL, s))), BinCode(CompoundOp(op), false)), Slot(SET_LOCAL, s))
  }

  function RawSet(x: string, e: Expr, ls: Locals, k: nat, s: nat, r: Raw): (q: Raw)
    requires s < |ls|
    ensures q.loops == r.loops
  {
    match SelfUpdate(x, e, ls, ls[s].typ)
    case Some((toLocal, rhs)) => Put(RawExpr(rhs, ls, k, r), Slot(toLocal, s))
    case None => Put(RawExpr(e, ls, k, r), Slot(SET_LOCAL, s))
  }

  function RawGlobalAssign(x: string, op: AssignOp, e: Expr, ls: Locals, k: nat, r: Raw): (q: Raw)
    ensures q.loops == r.loops
  {
    var k1 := k + |ExprCode(e, ls, k).ks|;
    var a := RawExpr(e, ls, k, r);
    if op == Set then Put(a, Global(SET_GLOBAL, k1))
    else
      Put(Puts(RawExpr(e, ls, k1 + 1, Put(a, Global(GET_GLOBAL, k1))), BinCode(CompoundOp(op), false)), Global(SET_GLOBAL, k1))
  }

  function RawIfHead(c: Expr, ls: Locals, k: nat, r: Raw): (j: Jumped)
    ensures j.raw.loops == r.loops
  {
    var m := if MatchLessEqual(c, ls).Some? then MatchLessEqual(c, ls) else MatchDivisible(c, ls);
    if m.Some? then PutWaiting(r, ConstJump(m.value.op, m.value.s, k, 0)) else RawCond(c, ls, k, r)
  }

  /** Without a condition there is no jump; its offset is 0. */
  function RawLoopHead(c: Option<Expr>, ls: Locals, k: nat, r: Raw): (j: Jumped)
    ensures j.raw.loops == r.loops
  {
    if c.None? then Jumped(r, 0) else RawCond(c.value, ls, k, r)
  }

  function RawArgs(args: seq<Expr>, ls: Locals, k: nat, r: Raw): (q: Raw)
    ensures q.loops == r.loops
  {
    if |args| == 0 then r
    else
      var front := args[..|args| - 1];
      RawExpr(args[|args| - 1], ls, k + |ArgsCode(front, ls, k).ks|, RawArgs(front, ls, k, r))
  }

  function Enter(r: Raw, start: nat, backward: bool): Raw {
    r.(loops := r.loops + [LoopContext(start, backward, [], [])])
  }

  /** Ends the breaks of the innermost loop, and the loop. */
  function EndLoop(r: Raw): Raw {
    if r.loops == [] then r
    else
      var n := |r.loops| - 1;
      RawPatches(r, r.loops[n].breakJumps).(loops := r.loops[..n])
  }

  /** The jump back, the exit and the breaks. */
  function Finish(exits: bool, exit: int, start: nat, r: Raw): Raw {
    var back := RawLoop(r, start);
    EndLoop(if exits then RawPatch(back, exit) else back)
  }

  /** break. */
  function RawBreak(r: Raw): Raw {
    if r.loops == [] then r
    else
      var j := RawJump(r, JUMP);
      var n := |r.loops| - 1;
      var c := r.loops[n];
      j.raw.(loops := r.loops[n := c.(breakJumps := c.breakJumps + [j.at])])
  }

  /** continue. */
  function RawContinue(r: Raw): Raw {
    if r.loops == [] then r
    else
      var n := |r.loops| - 1;
      var c := r.loops[n];
      if c.continueBackward then RawLoop(r, c.continueTarget)
      else
        var j := RawJump(r, JUMP);
        j.raw.(loops := r.loops[n := c.(continueJumps := c.continueJumps + [j.at])])
  }

  function RawStmt(s: Stmt, ls: Locals, k: nat, lc: LoopCtx, r: Raw): Raw
    decreases s, 1
  {
    match s
    case Let(_, _, e) => Put(RawExpr(e, ls, k, r), Slot(SET_LOCAL, |ls|))
    case Assign(x, op, e) =>
      var slot := SlotOf(ls, x);
      if slot >= 0 then RawAssign(x, op, e, ls, k, slot, r) else RawGlobalAssign(x, op, e, ls, k, r)
    case ExprStmt(e) => Put(RawExpr(e, ls, k, r), Plain(POP))
    case If(_, _, _) => RawIf(s, ls, k, lc, r)
    case While(c, body) =>
      var h := LoopHead(c, ls, k, PENDING);
      var a := RawLoopHead(c, ls, k, r);
      var b := RawBlock(body, ls, k + |h.ks|, Backward(|h.code|), Enter(a.raw, |r.code|, true));
      Finish(c.Some?, a.at, |r.code|, b)
    case DoLoop(body, c) =>
      var f := ScopeCode(body, ls, k, Forward);
      var b := RawBody(RawBlock(body, ls, k, Forward, Enter(r, 0, false)));
      var a := RawLoopHead(c, f.ls, k + |f.ks|, b);
      Finish(c.Some?, a.at, |r.code|, a.raw)
    case ForRange(_, _, _, _) => RawFor(s, ls, k, r)
    case Break => RawBreak(r)
    case Continue => RawContinue(r)
  }

  /** The end of a do-loop's body: where its continues lead. */
  function RawBody(r: Raw): Raw {
    if r.loops == [] then r
    else
      var n := |r.loops| - 1;
      var c := r.loops[n];
      var d := LoopContext(|r.code|, false, c.breakJumps, c.continueJumps);
      RawPatches(r.(loops := r.loops[n := d]), c.continueJumps).(loops := r.loops[n := d.(continueJumps := [])])
  }

  function RawIf(s: Stmt, ls: Locals, k: nat, lc: LoopCtx, r: Raw): Raw
    requires s.If?
    decreases s, 0
  {
    var h := IfHead(s.c, ls, k, PENDING);
    var lc1 := Shift(lc, |h.code|);
    var a := RawIfHead(s.c, ls, k, r);
    var b := RawBlock(s.thn, ls, k + |h.ks|, lc1, a.raw);
    match s.els
    case None => RawPatch(b, a.at)
    case Some(eb) =>
      var f := ScopeCode(s.thn, ls, k + |h.ks|, lc1);
      RawElse(eb, f.ls, k + |h.ks| + |f.ks|, Shift(lc, |h.code| + |f.code| + 1), a.at, b)
  }

  /** The jump over the second branch, and that branch. */
  function RawElse(eb: Block, ls: Locals, k: nat, lc: LoopCtx, jump: int, r: Raw): Raw
    decreases eb, 1
  {
    var over := RawJump(r, JUMP);
    RawPatch(RawBlock(eb, ls, k, lc, RawPatch(over.raw, jump)), over.at)
  }

  /** A range loop: hidden slots, next value, filter, body, and the jumps back. */
  function RawFor(s: Stmt, ls: Locals, k: nat, r: Raw): Raw
    requires s.ForRange?
    decreases s, 0
  {
    var ls1 := ls + RangeLocals(s.x);
    RawRange(|ls|, s.filter, s.body, ls1, k + |ArgsCode(s.args, ls1, k).ks|, RawStart(s.x, s.args, ls, k, r))
  }

  function RawStart(x: string, args: seq<Expr>, ls: Locals, k: nat, r: Raw): (q: Raw) {
    var n := |ls|;
    Put(RawArgs(args, ls + RangeLocals(x), k, r), RangeInit(n + 1, n + 2, n + 3, |args|))
  }

  function RawRange(n: nat, filter: Option<Expr>, body: Block, ls: Locals, k: nat, r: Raw): Raw
    decreases body, 2
  {
    var h := LoopHead(filter, ls, k, PENDING);
    var next := PutWaiting(Enter(r, |r.code|, true), WaitingNext(n));
    var skip := RawLoopHead(filter, ls, k, next.raw);
    var b := RawBlock(body, ls, k + |h.ks|, Backward(1 + |h.code|), skip.raw);
    FinishRange(filter.Some?, next.at, skip.at, |r.code|, b)
  }

  /** The jumps back, the filter's skip, the exit and the breaks. */
  function FinishRange(filtered: bool, exit: int, skip: int, start: nat, r: Raw): Raw {
    var back := RawLoop(r, start);
    var end := if filtered then RawLoop(RawPatch(back, skip), start) else back;
    EndLoop(RawPatch(end, exit))
  }

  function RawBlock(b: Block, ls: Locals, k: nat, lc: LoopCtx, r: Raw): Raw
    decreases b, 0
  {
    match b
    case Done => r
    case Then(s, rest) =>
      var f := StmtCode(s, ls, k, lc);
      RawBlock(rest, f.ls, k + |f.ks|, Shift(lc, |f.code|), RawStmt(s, ls, k, lc, r))
  }

  lemma RawThen(b: Block, ls: Locals, k: nat, lc: LoopCtx, r: Raw)
    ensures b.Done? ==> RawBlock(b, ls, k, lc, r) == r
    ensures b.Then? ==>
              var f := StmtCode(b.s, ls, k, lc);
              RawBlock(b, ls, k, lc, r) ==
              RawBlock(b.rest, f.ls, k + |f.ks|, Shift(lc, |f.code|), RawStmt(b.s, ls, k, lc, r))
  {
    hide StmtCode, RawStmt;
  }

  /** The bytes of a script. */
  function RawProgram(b: Block): seq<byte> {
    Puts(RawBlock(b, [], 0, NoLoop, Raw([], 0, [], true)), [Plain(NIL), Plain(RETURN)]).code
  }
}
