/** Generated code is well formed: whole instructions of known layout, operands
    below the number of locals and constants, every jump inside the code. */
module Layout {
  import opened Options
  import opened Machine
  import opened Assembly
  import opened Source
  import opened CodeGen
  import opened ExprCorrect
  import opened StmtParts
  import opened StmtCorrect

  /** How far the jumps of a fragment may reach: `back` instructions before its
      start, `ahead` past its end, and whether jumps may still wait for the end
      of a loop body (`brk`) or its continue point (`cnt`). */
  datatype Reach = Reach(back: nat, ahead: nat, brk: bool, cnt: bool)

  predicate JumpOk(ins: Instr, j: int, len: nat, r: Reach) {
    if ins == Jump(JUMP, BREAK_HOLE) then r.brk
    else if ins == Jump(JUMP, CONTINUE_HOLE) then r.cnt
    else if IsBackward(ins) then Operand(ins) >= 0 && j + 1 - Operand(ins) + r.back >= 0
    else Operand(ins) >= 0 && j + 1 + Operand(ins) <= len + r.ahead
  }

  predicate OperandsBelow(ins: Instr, slots: nat, consts: nat) {
    match ins
    case Plain(_) => true
    case Slot(_, s) => s < slots
    case Const(k) => k < consts
    case Global(_, k) => k < consts
    case AddConst(s, k) => s < slots && k < consts
    case AddLocal(d, s) => d < slots && s < slots
    case Jump(_, _) => true
    case CmpJump(_, a, b, _) => a < slots && b < slots
    case ConstJump(_, s, k, _) => s < slots && k < consts
    case RangeInit(c, e, st, n) => c < slots && e < slots && st < slots && 1 <= n <= 3
    case RangeNext(c, e, st, v, _) => c < slots && e < slots && st < slots && v < slots
  }

  predicate InstrOk(ins: Instr, j: int, len: nat, slots: nat, consts: nat, r: Reach) {
    WellFormed(ins) && OperandsBelow(ins, slots, consts) && (HasOperand(ins) ==> JumpOk(ins, j, len, r))
  }

  ghost predicate FragOk(c: Prog, slots: nat, consts: nat, r: Reach) {
    forall j :: 0 <= j < |c| ==> InstrOk(c[j], j, |c|, slots, consts, r)
  }

  /** The reach that the second of two consecutive pieces inherits. */
  function After(r: Reach, n: nat): Reach { r.(back := r.back + n) }

  lemma JoinOk(a: Prog, b: Prog, slots: nat, consts: nat, r: Reach, ra: Reach, rb: Reach)
    requires FragOk(a, slots, consts, ra) && FragOk(b, slots, consts, rb)
    requires ra.back <= r.back && ra.ahead <= |b| + r.ahead && (ra.brk ==> r.brk) && (ra.cnt ==> r.cnt)
    requires rb.back <= r.back + |a| && rb.ahead <= r.ahead && (rb.brk ==> r.brk) && (rb.cnt ==> r.cnt)
    ensures FragOk(a + b, slots, consts, r)
  {
    var c := a + b;
    forall j | 0 <= j < |c| ensures InstrOk(c[j], j, |c|, slots, consts, r) {
      if j < |a| { assert InstrOk(a[j], j, |a|, slots, consts, ra); }
      else { assert InstrOk(b[j - |a|], j - |a|, |b|, slots, consts, rb); }
    }
  }

  lemma WidenOk(c: Prog, slots: nat, consts: nat, r: Reach, slots': nat, consts': nat, r': Reach)
    requires FragOk(c, slots, consts, r) && slots <= slots' && consts <= consts'
    requires r.back <= r'.back && r.ahead <= r'.ahead && (r.brk ==> r'.brk) && (r.cnt ==> r'.cnt)
    ensures FragOk(c, slots', consts', r')
  {
    forall j | 0 <= j < |c| ensures InstrOk(c[j], j, |c|, slots', consts', r') {
      assert InstrOk(c[j], j, |c|, slots, consts, r);
    }
  }

  const INSIDE: Reach := Reach(0, 0, false, false)

  lemma OneOk(ins: Instr, slots: nat, consts: nat, r: Reach)
    requires InstrOk(ins, 0, 1, slots, consts, r)
    ensures FragOk([ins], slots, consts, r)
  {
  }

  /** Appending code with a wider reach. */
  lemma ThenOk(a: Prog, b: Prog, slots: nat, consts: nat, r: Reach)
    requires FragOk(a, slots, consts, INSIDE) && FragOk(b, slots, consts, r)
    ensures FragOk(a + b, slots, consts, r)
  {
    JoinOk(a, b, slots, consts, r, INSIDE, r);
  }

  lemma WithJumpOk(c: Prog, t: nat, slots: nat, consts: nat)
    requires FragOk(c, slots, consts, INSIDE)
    requires FoldsNot(c, JUMP_IF_FALSE_POP) ==> FragOk(c[..|c| - 1], slots, consts, INSIDE)
    requires Fuses(FoldNot(c, JUMP_IF_FALSE_POP).0, FoldNot(c, JUMP_IF_FALSE_POP).1) ==>
             |FoldNot(c, JUMP_IF_FALSE_POP).0| == 3
    ensures FragOk(WithJump(c, JUMP_IF_FALSE_POP, t), slots, consts, Reach(0, t, false, false))
  {
    var f := FoldNot(c, JUMP_IF_FALSE_POP);
    var r := Reach(0, t, false, false);
    if Fuses(f.0, f.1) {
      assert InstrOk(f.0[0], 0, 3, slots, consts, INSIDE) && InstrOk(f.0[1], 1, 3, slots, consts, INSIDE);
      OneOk(FusedCode(f.0, f.1, t)[0], slots, consts, r);
      assert FusedCode(f.0, f.1, t) == [FusedCode(f.0, f.1, t)[0]];
    } else {
      OneOk(Jump(f.1, t), slots, consts, r);
      ThenOk(f.0, [Jump(f.1, t)], slots, consts, r);
    }
  }

  /** A fused comparison is all of the condition's code, and dropping a final
      NOT leaves jumps inside. */
  lemma ConditionShape(e: Expr, ls: Locals, k: nat)
    ensures var c := ExprCode(e, ls, k).code; var f := FoldNot(c, JUMP_IF_FALSE_POP);
            Fuses(f.0, f.1) ==> |f.0| == 3
  {
    hide ExprCode, Unwrap;
    var c := ExprCode(e, ls, k).code;
    var f := FoldNot(c, JUMP_IF_FALSE_POP);
    LastInstrOf(e, ls, k);
    UnwrapSame(e, ls, k, []);
    var u := Unwrap(e);
    if Fuses(f.0, f.1) {
      if !FoldsNot(c, JUMP_IF_FALSE_POP) {
        TwoLocals(u, ls, k, f.1);
      } else if u.Not? {
        NotCode(u, ls, k);
        LastInstrOf(u.e, ls, k);
        UnwrapSame(u.e, ls, k, []);
        assert f.0 == ExprCode(u.e, ls, k).code;
        TwoLocals(Unwrap(u.e), ls, k, f.1);
      } else {
        NegatedCompareCode(u, ls, k);
        var pos := Bin(if u.op == Ge then Lt else Gt, u.l, u.r);
        assert f.0 == c[..|c| - 1];
        assert u.op != Ne;
        assert f.0 == ExprCode(pos, ls, k).code;
        TwoLocals(pos, ls, k, f.1);
      }
    }
  }

  lemma BinCodeOk(op: BinOp, numeric: bool, slots: nat, consts: nat)
    ensures FragOk(BinCode(op, numeric), slots, consts, INSIDE)
    ensures FragOk([BinCode(op, numeric)[0]], slots, consts, INSIDE)
  {
  }

  /** Code of an expression, and of what precedes a final NOT. */
  lemma {:induction false} ExprOk(e: Expr, ls: Locals, k: nat)
    ensures CodeOk(e, ls, k)
    decreases e
  {
    hide EvalConst, TypeOf, SlotOf, BinCode, WithJump, FragOk, AndCode, OrCode;
    var f := ExprCode(e, ls, k);
    var sl, n := |ls|, k + |f.ks|;
    match e
    case IntLit(_) => OneOk(f.code[0], sl, n, INSIDE);
    case BoolLit(_) => OneOk(f.code[0], sl, n, INSIDE);
    case Var(x) => OneOk(f.code[0], sl, n, INSIDE);
    case Group(e1) => ExprOk(e1, ls, k);
    case Neg(e1) =>
      if EvalConst(e).Some? && EvalConst(e).value.Number? {
        OneOk(f.code[0], sl, n, INSIDE);
      } else {
        ExprOk(e1, ls, k);
        OneOk(Plain(NEGATE), sl, n, INSIDE);
        ThenOk(ExprCode(e1, ls, k).code, [Plain(NEGATE)], sl, n, INSIDE);
      }
    case Not(e1) =>
      ExprOk(e1, ls, k);
      NotOk(e, ls, k);
    case Bin(op, l, r) =>
      ExprOk(l, ls, k);
      ExprOk(r, ls, k + |ExprCode(l, ls, k).ks|);
      if op == And || op == Or { LogicExprOk(e, ls, k); } else { ArithOk(e, ls, k); }
  }

  lemma NotOk(e: Expr, ls: Locals, k: nat)
    requires e.Not? && CodeOk(e.e, ls, k)
    ensures CodeOk(e, ls, k)
  {
    hide ExprCode, FragOk;
    NotCode(e, ls, k);
    var f := ExprCode(e.e, ls, k);
    OneOk(Plain(NOT), |ls|, k + |f.ks|, INSIDE);
    ThenOk(f.code, [Plain(NOT)], |ls|, k + |f.ks|, INSIDE);
    assert (f.code + [Plain(NOT)])[..|f.code|] == f.code;
  }

  /** What ExprOk says of one expression. */
  ghost predicate CodeOk(e: Expr, ls: Locals, k: nat) {
    var f := ExprCode(e, ls, k);
    FragOk(f.code, |ls|, k + |f.ks|, INSIDE) &&
    (FoldsNot(f.code, JUMP_IF_FALSE_POP) ==> FragOk(f.code[..|f.code| - 1], |ls|, k + |f.ks|, INSIDE))
  }

  lemma LogicExprOk(e: Expr, ls: Locals, k: nat)
    requires e.Bin? && (e.op == And || e.op == Or)
    requires CodeOk(e.l, ls, k) && CodeOk(e.r, ls, k + |ExprCode(e.l, ls, k).ks|)
    ensures CodeOk(e, ls, k)
  {
    hide ExprCode, WithJump, FragOk, AndCode, OrCode;
    LogicCode(e, ls, k);
    var fa := ExprCode(e.l, ls, k);
    var fb := ExprCode(e.r, ls, k + |fa.ks|);
    var n := k + |fa.ks| + |fb.ks|;
    ConditionOk(e.l, ls, k, n);
    ConditionOk(e.r, ls, k + |fa.ks|, n);
    LogicOk(e.op == And, fa.code, fb.code, |ls|, n);
    LogicEnds(e.op == And, fa.code, fb.code);
  }

  lemma ArithOk(e: Expr, ls: Locals, k: nat)
    requires e.Bin? && e.op != And && e.op != Or
    requires CodeOk(e.l, ls, k) && CodeOk(e.r, ls, k + |ExprCode(e.l, ls, k).ks|)
    ensures CodeOk(e, ls, k)
  {
    hide ExprCode, TypeOf, FragOk, BinCode;
    ArithCode(e, ls, k);
    var fa := ExprCode(e.l, ls, k);
    var fb := ExprCode(e.r, ls, k + |fa.ks|);
    var sl, n := |ls|, k + |fa.ks| + |fb.ks|;
    var numeric := Numeric(TypeOf(e.l, ls)) && Numeric(TypeOf(e.r, ls));
    var bc := BinCode(e.op, numeric);
    var ab := fa.code + fb.code;
    WidenOk(fa.code, sl, k + |fa.ks|, INSIDE, sl, n, INSIDE);
    BinCodeOk(e.op, numeric, sl, n);
    ThenOk(fa.code, fb.code, sl, n, INSIDE);
    ThenOk(ab, bc, sl, n, INSIDE);
    BinCodeNot(e.op, numeric);
    var c := ab + bc;
    assert c[|c| - 1] == bc[|bc| - 1];
    if FoldsNot(c, JUMP_IF_FALSE_POP) {
      assert c[..|c| - 1] == ab + [bc[0]];
      ThenOk(ab, [bc[0]], sl, n, INSIDE);
    }
  }

  lemma BinCodeNot(op: BinOp, numeric: bool)
    ensures var b := BinCode(op, numeric); b[|b| - 1] == Plain(NOT) ==> |b| == 2
  {
  }

  lemma LogicEnds(and: bool, l: Prog, r: Prog)
    ensures var c := if and then AndCode(l, r) else OrCode(l, r); |c| > 0 && c[|c| - 1] == Plain(FALSE)
  {
    hide WithJump;
  }

  /** The jump after a condition satisfies what WithJumpOk asks. */
  lemma ConditionOk(e: Expr, ls: Locals, k: nat, n: nat)
    requires k + |ExprCode(e, ls, k).ks| <= n && CodeOk(e, ls, k)
    ensures forall t: nat {:trigger WithJump(ExprCode(e, ls, k).code, JUMP_IF_FALSE_POP, t)} ::
              FragOk(WithJump(ExprCode(e, ls, k).code, JUMP_IF_FALSE_POP, t), |ls|, n, Reach(0, t, false, false))
  {
    hide ExprCode, FragOk, WithJump;
    var c := ExprCode(e, ls, k).code;
    ConditionShape(e, ls, k);
    WidenOk(c, |ls|, k + |ExprCode(e, ls, k).ks|, INSIDE, |ls|, n, INSIDE);
    if FoldsNot(c, JUMP_IF_FALSE_POP) {
      WidenOk(c[..|c| - 1], |ls|, k + |ExprCode(e, ls, k).ks|, INSIDE, |ls|, n, INSIDE);
    }
    forall t: nat ensures FragOk(WithJump(c, JUMP_IF_FALSE_POP, t), |ls|, n, Reach(0, t, false, false)) {
      WithJumpOk(c, t, |ls|, n);
    }
  }

  lemma LogicOk(and: bool, l: Prog, r: Prog, slots: nat, n: nat)
    requires forall t: nat {:trigger WithJump(l, JUMP_IF_FALSE_POP, t)} ::
               FragOk(WithJump(l, JUMP_IF_FALSE_POP, t), slots, n, Reach(0, t, false, false))
    requires forall t: nat {:trigger WithJump(r, JUMP_IF_FALSE_POP, t)} ::
               FragOk(WithJump(r, JUMP_IF_FALSE_POP, t), slots, n, Reach(0, t, false, false))
    ensures FragOk(if and then AndCode(l, r) else OrCode(l, r), slots, n, INSIDE)
  {
    hide FragOk, WithJump;
    var rj := WithJump(r, JUMP_IF_FALSE_POP, 2);
    var end := [Plain(TRUE), Jump(JUMP, 1), Plain(FALSE)];
    EndOk(slots, n);
    if and {
      var lj := WithJump(l, JUMP_IF_FALSE_POP, |rj| + 2);
      JoinOk(lj, rj, slots, n, Reach(0, 2, false, false), Reach(0, |rj| + 2, false, false), Reach(0, 2, false, false));
      JoinOk(lj + rj, end, slots, n, INSIDE, Reach(0, 2, false, false), INSIDE);
    } else {
      var lj := WithJump(l, JUMP_IF_FALSE_POP, 2);
      var yes := [Plain(TRUE), Jump(JUMP, |rj| + 3)];
      YesOk(|rj| + 3, slots, n);
      JoinOk(lj, yes, slots, n, Reach(0, |rj| + 3, false, false), Reach(0, 2, false, false),
             Reach(0, |rj| + 3, false, false));
      JoinOk(lj + yes, rj, slots, n, Reach(0, 3, false, false), Reach(0, |rj| + 3, false, false),
             Reach(0, 2, false, false));
      JoinOk(lj + yes + rj, end, slots, n, INSIDE, Reach(0, 3, false, false), INSIDE);
    }
  }

  lemma EndOk(slots: nat, n: nat)
    ensures FragOk([Plain(TRUE), Jump(JUMP, 1), Plain(FALSE)], slots, n, INSIDE)
  {
  }

  lemma YesOk(t: nat, slots: nat, n: nat)
    ensures FragOk([Plain(TRUE), Jump(JUMP, t)], slots, n, Reach(0, t, false, false))
  {
  }

  // -------------------------------------------------------------- statements

  function ReachOf(lc: LoopCtx): Reach {
    Reach(if lc.Backward? then lc.here else 0, 0, !lc.NoLoop?, lc.Forward?)
  }

  lemma FillBreaksOk(c: Prog, slots: nat, n: nat, back: nat, cnt: bool)
    requires FragOk(c, slots, n, Reach(back, 0, true, cnt))
    ensures FragOk(Fill(c, BREAK_HOLE, |c|), slots, n, Reach(back, 0, false, cnt))
  {
    var r := Fill(c, BREAK_HOLE, |c|);
    forall j | 0 <= j < |r| ensures InstrOk(r[j], j, |r|, slots, n, Reach(back, 0, false, cnt)) {
      assert InstrOk(c[j], j, |c|, slots, n, Reach(back, 0, true, cnt));
    }
  }

  lemma FillContinuesOk(c: Prog, slots: nat, n: nat, back: nat)
    requires FragOk(c, slots, n, Reach(back, 0, true, true))
    ensures FragOk(Fill(c, CONTINUE_HOLE, |c|), slots, n, Reach(back, 0, true, false))
  {
    var r := Fill(c, CONTINUE_HOLE, |c|);
    forall j | 0 <= j < |r| ensures InstrOk(r[j], j, |r|, slots, n, Reach(back, 0, true, false)) {
      assert InstrOk(c[j], j, |c|, slots, n, Reach(back, 0, true, true));
    }
  }

  lemma AddedLocalBelow(x: string, op: AssignOp, e: Expr, ls: Locals, t: Type)
    ensures AddedLocal(x, op, e, ls, t).Some? ==> AddedLocal(x, op, e, ls, t).value < |ls|
  {
  }

  lemma AssignOk(x: string, op: AssignOp, e: Expr, ls: Locals, k: nat, s: nat)
    requires s < |ls|
    ensures var f := AssignCode(x, op, e, ls, k, s).0; FragOk(f.code, |ls|, k + |f.ks|, INSIDE)
  {
    hide ExprCode, FragOk, AddedConst, AddedLocal, SelfUpdate, TypeOf, BinCode;
    var f := AssignCode(x, op, e, ls, k, s).0;
    var sl, n, t := |ls|, k + |f.ks|, ls[s].typ;
    AddedLocalBelow(x, op, e, ls, t);
    if AddedConst(x, op, e, t).Some? {
      OneOk(f.code[0], sl, n, INSIDE);
    } else if AddedLocal(x, op, e, ls, t).Some? {
      OneOk(f.code[0], sl, n, INSIDE);
    } else if op != Set {
      var fe := ExprCode(e, ls, k);
      ExprOk(e, ls, k);
      if Numeric(t) && Numeric(TypeOf(e, ls)) {
        OneOk(Slot(ToLocalOp(CompoundOp(op)), s), sl, n, INSIDE);
        ThenOk(fe.code, [Slot(ToLocalOp(CompoundOp(op)), s)], sl, n, INSIDE);
      } else {
        var bc := BinCode(CompoundOp(op), false);
        OneOk(Slot(GET_LOCAL, s), sl, n, INSIDE);
        OneOk(Slot(SET_LOCAL, s), sl, n, INSIDE);
        BinCodeOk(CompoundOp(op), false, sl, n);
        ThenOk([Slot(GET_LOCAL, s)], fe.code, sl, n, INSIDE);
        ThenOk([Slot(GET_LOCAL, s)] + fe.code, bc, sl, n, INSIDE);
        ThenOk([Slot(GET_LOCAL, s)] + fe.code + bc, [Slot(SET_LOCAL, s)], sl, n, INSIDE);
      }
    } else if SelfUpdate(x, e, ls, t).Some? {
      var (op', rhs) := SelfUpdate(x, e, ls, t).value;
      SelfUpdateOp(x, e, ls, t);
      ExprOk(rhs, ls, k);
      OneOk(Slot(op', s), sl, n, INSIDE);
      ThenOk(ExprCode(rhs, ls, k).code, [Slot(op', s)], sl, n, INSIDE);
    } else {
      ExprOk(e, ls, k);
      OneOk(Slot(SET_LOCAL, s), sl, n, INSIDE);
      ThenOk(ExprCode(e, ls, k).code, [Slot(SET_LOCAL, s)], sl, n, INSIDE);
    }
  }

  lemma SelfUpdateOp(x: string, e: Expr, ls: Locals, t: Type)
    ensures SelfUpdate(x, e, ls, t).Some? ==> IsSlotOp(SelfUpdate(x, e, ls, t).value.0)
  {
  }

  lemma GlobalAssignOk(x: string, op: AssignOp, e: Expr, ls: Locals, k: nat)
    ensures var f := GlobalAssignCode(x, op, e, ls, k); FragOk(f.code, |ls|, k + |f.ks|, INSIDE)
  {
    hide ExprCode, FragOk, BinCode;
    var f := ExprCode(e, ls, k);
    var k1 := k + |f.ks|;
    var sl, n := |ls|, k + |GlobalAssignCode(x, op, e, ls, k).ks|;
    ExprOk(e, ls, k);
    WidenOk(f.code, sl, k1, INSIDE, sl, n, INSIDE);
    OneOk(Global(SET_GLOBAL, k1), sl, n, INSIDE);
    if op == Set {
      ThenOk(f.code, [Global(SET_GLOBAL, k1)], sl, n, INSIDE);
    } else {
      var g := ExprCode(e, ls, k1 + 1);
      var bc := BinCode(CompoundOp(op), false);
      ExprOk(e, ls, k1 + 1);
      OneOk(Global(GET_GLOBAL, k1), sl, n, INSIDE);
      BinCodeOk(CompoundOp(op), false, sl, n);
      ThenOk(f.code, [Global(GET_GLOBAL, k1)], sl, n, INSIDE);
      ThenOk(f.code + [Global(GET_GLOBAL, k1)], g.code, sl, n, INSIDE);
      ThenOk(f.code + [Global(GET_GLOBAL, k1)] + g.code, bc, sl, n, INSIDE);
      ThenOk(f.code + [Global(GET_GLOBAL, k1)] + g.code + bc, [Global(SET_GLOBAL, k1)], sl, n, INSIDE);
    }
  }

  lemma MatchesBelow(c: Expr, ls: Locals)
    ensures MatchLessEqual(c, ls).Some? ==>
              MatchLessEqual(c, ls).value.s < |ls| && IsConstJumpOp(MatchLessEqual(c, ls).value.op)
    ensures MatchDivisible(c, ls).Some? ==>
              MatchDivisible(c, ls).value.s < |ls| && IsConstJumpOp(MatchDivisible(c, ls).value.op)
  {
    hide EvalConst;
  }

  lemma IfHeadOk(c: Expr, ls: Locals, k: nat, t: nat)
    ensures var f := IfHead(c, ls, k, t); FragOk(f.code, |ls|, k + |f.ks|, Reach(0, t, false, false))
  {
    hide ExprCode, FragOk, MatchLessEqual, MatchDivisible, WithJump;
    var f := IfHead(c, ls, k, t);
    MatchesBelow(c, ls);
    if MatchLessEqual(c, ls).Some? || MatchDivisible(c, ls).Some? {
      OneOk(f.code[0], |ls|, k + |f.ks|, Reach(0, t, false, false));
    } else {
      ExprOk(c, ls, k);
      ConditionOk(c, ls, k, k + |f.ks|);
    }
  }

  lemma NothingOk(slots: nat, n: nat, r: Reach)
    ensures FragOk([], slots, n, r)
  {
  }

  lemma LoopHeadOk(c: Option<Expr>, ls: Locals, k: nat, t: nat)
    ensures var f := LoopHead(c, ls, k, t); FragOk(f.code, |ls|, k + |f.ks|, Reach(0, t, false, false))
  {
    hide ExprCode, FragOk, WithJump;
    var f := LoopHead(c, ls, k, t);
    match c
    case None => NothingOk(|ls|, k, Reach(0, t, false, false));
    case Some(e) =>
      ExprOk(e, ls, k);
      ConditionOk(e, ls, k, k + |f.ks|);
  }

  lemma {:induction false} ArgsOk(args: seq<Expr>, ls: Locals, k: nat)
    ensures var f := ArgsCode(args, ls, k); FragOk(f.code, |ls|, k + |f.ks|, INSIDE)
    decreases |args|
  {
    hide ExprCode, FragOk;
    if |args| == 0 {
      NothingOk(|ls|, k, INSIDE);
    } else {
      var f := ArgsCode(args[..|args| - 1], ls, k);
      var g := ExprCode(args[|args| - 1], ls, k + |f.ks|);
      var n := k + |f.ks| + |g.ks|;
      ArgsOk(args[..|args| - 1], ls, k);
      ExprOk(args[|args| - 1], ls, k + |f.ks|);
      WidenOk(f.code, |ls|, k + |f.ks|, INSIDE, |ls|, n, INSIDE);
      ThenOk(f.code, g.code, |ls|, n, INSIDE);
    }
  }

  ghost predicate SFragOk(f: SFrag, k: nat, lc: LoopCtx) {
    FragOk(f.code, f.max, k + |f.ks|, ReachOf(lc))
  }

  lemma {:induction false} StmtOk(s: Stmt, ls: Locals, k: nat, lc: LoopCtx)
    requires StmtCode(s, ls, k, lc).ok
    ensures SFragOk(StmtCode(s, ls, k, lc), k, lc)
    decreases s, 1
  {
    hide ExprCode, FragOk, AssignCode, GlobalAssignCode, TypeOf;
    var f := StmtCode(s, ls, k, lc);
    var n := k + |f.ks|;
    match s
    case Let(x, d, e) =>
      ExprOk(e, ls, k);
      WidenOk(ExprCode(e, ls, k).code, |ls|, n, INSIDE, |ls| + 1, n, INSIDE);
      OneOk(Slot(SET_LOCAL, |ls|), |ls| + 1, n, ReachOf(lc));
      ThenOk(ExprCode(e, ls, k).code, [Slot(SET_LOCAL, |ls|)], |ls| + 1, n, ReachOf(lc));
    case Assign(x, op, e) =>
      if SlotOf(ls, x) >= 0 { AssignOk(x, op, e, ls, k, SlotOf(ls, x)); }
      else { GlobalAssignOk(x, op, e, ls, k); }
      WidenOk(f.code, |ls|, n, INSIDE, |ls|, n, ReachOf(lc));
    case ExprStmt(e) =>
      ExprOk(e, ls, k);
      OneOk(Plain(POP), |ls|, n, ReachOf(lc));
      ThenOk(ExprCode(e, ls, k).code, [Plain(POP)], |ls|, n, ReachOf(lc));
    case If(_, _, _) => IfOk(s, ls, k, lc);
    case While(_, _) => WhileOk(s, ls, k, lc);
    case DoLoop(_, _) => DoOk(s, ls, k, lc);
    case ForRange(_, _, _, _) => ForOk(s, ls, k, lc);
    case Break => OneOk(f.code[0], |ls|, n, ReachOf(lc));
    case Continue => OneOk(f.code[0], |ls|, n, ReachOf(lc));
  }

  lemma {:induction false} BlockOk(b: Block, ls: Locals, k: nat, lc: LoopCtx)
    requires BlockCode(b, ls, k, lc).ok
    ensures SFragOk(BlockCode(b, ls, k, lc), k, lc)
    decreases b, 0
  {
    hide StmtCode, FragOk;
    match b
    case Done => NothingOk(|ls|, k, ReachOf(lc));
    case Then(s, rest) =>
      var f := StmtCode(s, ls, k, lc);
      var lc' := Shift(lc, |f.code|);
      var g := BlockCode(rest, f.ls, k + |f.ks|, lc');
      StmtOk(s, ls, k, lc);
      BlockOk(rest, f.ls, k + |f.ks|, lc');
      var m, n := Max(f.max, g.max), k + |f.ks| + |g.ks|;
      WidenOk(f.code, f.max, k + |f.ks|, ReachOf(lc), m, n, ReachOf(lc));
      WidenOk(g.code, g.max, n, ReachOf(lc'), m, n, ReachOf(lc'));
      JoinOk(f.code, g.code, m, n, ReachOf(lc), ReachOf(lc), ReachOf(lc'));
  }

  lemma {:induction false} ScopeOk(b: Block, ls: Locals, k: nat, lc: LoopCtx)
    requires ScopeCode(b, ls, k, lc).ok
    ensures SFragOk(ScopeCode(b, ls, k, lc), k, lc) && |ls| <= ScopeCode(b, ls, k, lc).max
    decreases b, 1
  {
    BlockOk(b, ls, k, lc);
    ScopeLocals(b, ls, k, lc);
  }

  lemma {:induction false} IfOk(s: Stmt, ls: Locals, k: nat, lc: LoopCtx)
    requires s.If? && StmtCode(s, ls, k, lc).ok
    ensures SFragOk(StmtCode(s, ls, k, lc), k, lc)
    decreases s, 0
  {
    hide FragOk, ScopeCode, IfHead;
    var f := StmtCode(s, ls, k, lc);
    var n, r := k + |f.ks|, ReachOf(lc);
    var h := IfHead(s.c, ls, k, 0);
    var lc1 := Shift(lc, |h.code|);
    var b1 := ScopeCode(s.thn, ls, k + |h.ks|, lc1);
    ScopeOk(s.thn, ls, k + |h.ks|, lc1);
    ScopeLocals(s.thn, ls, k + |h.ks|, lc1);
    WidenOk(b1.code, b1.max, k + |h.ks| + |b1.ks|, ReachOf(lc1), f.max, n, ReachOf(lc1));
    var d := |b1.code| + if s.els.Some? then 1 else 0;
    var h' := IfHead(s.c, ls, k, d);
    HeadLength(s.c, ls, k, 0, d);
    IfHeadOk(s.c, ls, k, d);
    var rh := Reach(0, d, false, false);
    WidenOk(h'.code, |ls|, k + |h.ks|, rh, f.max, n, rh);
    if s.els.None? {
      JoinOk(h'.code, b1.code, f.max, n, r, rh, ReachOf(lc1));
    } else {
      var k2 := k + |h.ks| + |b1.ks|;
      var lc2 := Shift(lc, |h.code| + |b1.code| + 1);
      var b2 := ScopeCode(s.els.value, b1.ls, k2, lc2);
      ScopeOk(s.els.value, b1.ls, k2, lc2);
      WidenOk(b2.code, b2.max, n, ReachOf(lc2), f.max, n, ReachOf(lc2));
      var over := [Jump(JUMP, |b2.code|)];
      var ro := Reach(0, |b2.code|, false, false);
      OneOk(over[0], f.max, n, ro);
      JoinOk(h'.code, b1.code, f.max, n, r.(ahead := 1), rh, ReachOf(lc1));
      JoinOk(h'.code + b1.code, over, f.max, n, r.(ahead := |b2.code|), r.(ahead := 1), ro);
      JoinOk(h'.code + b1.code + over, b2.code, f.max, n, r, r.(ahead := |b2.code|), ReachOf(lc2));
    }
  }

  lemma {:induction false} WhileOk(s: Stmt, ls: Locals, k: nat, lc: LoopCtx)
    requires s.While? && StmtCode(s, ls, k, lc).ok
    ensures SFragOk(StmtCode(s, ls, k, lc), k, lc)
    decreases s, 0
  {
    hide FragOk, ScopeCode, LoopHead, Fill;
    var f := StmtCode(s, ls, k, lc);
    var n := k + |f.ks|;
    var h := LoopHead(s.cond, ls, k, 0);
    var b := ScopeCode(s.body, ls, k + |h.ks|, Backward(|h.code|));
    ScopeOk(s.body, ls, k + |h.ks|, Backward(|h.code|));
    var h' := LoopHead(s.cond, ls, k, |b.code| + 1);
    LoopHeadLength(s.cond, ls, k, 0, |b.code| + 1);
    LoopHeadOk(s.cond, ls, k, |b.code| + 1);
    var rh := Reach(0, |b.code| + 1, false, false);
    WidenOk(h'.code, |ls|, k + |h.ks|, rh, f.max, n, rh);
    var back := [Jump(LOOP, |h.code| + |b.code| + 1)];
    var rl := Reach(|h.code| + |b.code|, 0, false, false);
    OneOk(back[0], f.max, n, rl);
    JoinOk(h'.code, b.code, f.max, n, Reach(0, 1, true, false), rh, ReachOf(Backward(|h.code|)));
    JoinOk(h'.code + b.code, back, f.max, n, Reach(0, 0, true, false), Reach(0, 1, true, false), rl);
    FillBreaksOk(h'.code + b.code + back, f.max, n, 0, false);
    WidenOk(f.code, f.max, n, INSIDE, f.max, n, ReachOf(lc));
  }

  lemma {:induction false} DoOk(s: Stmt, ls: Locals, k: nat, lc: LoopCtx)
    requires s.DoLoop? && StmtCode(s, ls, k, lc).ok
    ensures SFragOk(StmtCode(s, ls, k, lc), k, lc)
    decreases s, 0
  {
    hide FragOk, ScopeCode, LoopHead, Fill;
    var f := StmtCode(s, ls, k, lc);
    var n := k + |f.ks|;
    var b := ScopeCode(s.body, ls, k, Forward);
    ScopeOk(s.body, ls, k, Forward);
    ScopeLocals(s.body, ls, k, Forward);
    var h := LoopHead(s.cond, b.ls, k + |b.ks|, 1);
    LoopHeadOk(s.cond, b.ls, k + |b.ks|, 1);
    var rh := Reach(0, 1, false, false);
    WidenOk(h.code, |b.ls|, n, rh, f.max, n, rh);
    WidenOk(b.code, b.max, k + |b.ks|, ReachOf(Forward), f.max, n, ReachOf(Forward));
    var body := Fill(b.code, CONTINUE_HOLE, |b.code|);
    FillContinuesOk(b.code, f.max, n, 0);
    var back := [Jump(LOOP, |b.code| + |h.code| + 1)];
    var rl := Reach(|h.code| + |b.code|, 0, false, false);
    OneOk(back[0], f.max, n, rl);
    var rb := Reach(0, 0, true, false);
    JoinOk(body, h.code, f.max, n, Reach(0, 1, true, false), rb, rh);
    JoinOk(body + h.code, back, f.max, n, rb, Reach(0, 1, true, false), rl);
    FillBreaksOk(body + h.code + back, f.max, n, 0, false);
    WidenOk(f.code, f.max, n, INSIDE, f.max, n, ReachOf(lc));
  }

  lemma {:induction false} ForOk(s: Stmt, ls: Locals, k: nat, lc: LoopCtx)
    requires s.ForRange? && StmtCode(s, ls, k, lc).ok
    ensures SFragOk(StmtCode(s, ls, k, lc), k, lc)
    decreases s, 0
  {
    hide FragOk, RangeLoop, ArgsCode, Fill;
    var f := StmtCode(s, ls, k, lc);
    var n, z := k + |f.ks|, |ls|;
    var ls1 := ls + RangeLocals(s.x);
    var a := ArgsCode(s.args, ls1, k);
    var loop := RangeLoop(z, s.filter, s.body, ls1, k + |a.ks|);
    ArgsOk(s.args, ls1, k);
    WidenOk(a.code, z + 4, k + |a.ks|, INSIDE, f.max, n, INSIDE);
    var init := [RangeInit(z + 1, z + 2, z + 3, |s.args|)];
    OneOk(init[0], f.max, n, INSIDE);
    RangeLoopOk(z, s.filter, s.body, ls1, k + |a.ks|);
    WidenOk(loop.code, loop.max, n, Reach(0, 0, true, false), f.max, n, Reach(0, 0, true, false));
    FillBreaksOk(loop.code, f.max, n, 0, false);
    ThenOk(a.code, init, f.max, n, INSIDE);
    ThenOk(a.code + init, Fill(loop.code, BREAK_HOLE, |loop.code|), f.max, n, INSIDE);
    WidenOk(f.code, f.max, n, INSIDE, f.max, n, ReachOf(lc));
  }

  lemma {:induction false} RangeLoopOk(z: nat, filter: Option<Expr>, body: Block, ls: Locals, k: nat)
    requires |ls| == z + 4 && RangeLoop(z, filter, body, ls, k).ok
    ensures var f := RangeLoop(z, filter, body, ls, k);
            FragOk(f.code, f.max, k + |f.ks|, Reach(0, 0, true, false)) && f.max >= z + 4
    decreases body, 2
  {
    hide FragOk, ScopeCode, LoopHead;
    var f := RangeLoop(z, filter, body, ls, k);
    var n := k + |f.ks|;
    var h := LoopHead(filter, ls, k, 0);
    var b := ScopeCode(body, ls, k + |h.ks|, Backward(1 + |h.code|));
    ScopeOk(body, ls, k + |h.ks|, Backward(1 + |h.code|));
    var h' := LoopHead(filter, ls, k, |b.code| + 1);
    LoopHeadLength(filter, ls, k, 0, |b.code| + 1);
    LoopHeadOk(filter, ls, k, |b.code| + 1);
    var rh := Reach(0, |b.code| + 1, false, false);
    WidenOk(h'.code, |ls|, k + |h.ks|, rh, f.max, n, rh);
    var m := 1 + |h.code| + |b.code| + 1;
    var back := LoopBack(filter, m);
    RangeLoopShape(z, filter, body, ls, k);
    var rl := Reach(m - 1, 0, false, false);
    BackOk(filter, m, f.max, n);
    var rb := ReachOf(Backward(1 + |h.code|));
    var d := if filter.Some? then 1 else 0;
    if filter.Some? {
      JoinOk(h'.code, b.code, f.max, n, Reach(1, 1, true, false), rh, rb);
    } else {
      NoFilterNoCode(filter, ls, k, |b.code| + 1, f.max, n);
      JoinOk(h'.code, b.code, f.max, n, Reach(1, 0, true, false), INSIDE, rb);
    }
    JoinOk(h'.code + b.code, back, f.max, n, Reach(1, 0, true, false), Reach(1, d, true, false), rl);
    var tail := h'.code + b.code + back;
    OneOk(f.code[0], f.max, n, Reach(0, |tail|, false, false));
    JoinOk([f.code[0]], tail, f.max, n, Reach(0, 0, true, false), Reach(0, |tail|, false, false),
           Reach(1, 0, true, false));
  }

  lemma BackOk(filter: Option<Expr>, m: nat, slots: nat, n: nat)
    requires m > 0
    ensures FragOk(LoopBack(filter, m), slots, n, Reach(m - 1, 0, false, false))
  {
  }

  lemma NoFilterNoCode(filter: Option<Expr>, ls: Locals, k: nat, t: nat, slots: nat, n: nat)
    requires filter.None?
    ensures FragOk(LoopHead(filter, ls, k, t).code, slots, n, INSIDE)
  {
  }

  // ---------------------------------------------------------------- programs

  /** A script: its statements, then NIL; RETURN. */
  function ProgramCode(b: Block): SFrag {
    var f := BlockCode(b, [], 0, NoLoop);
    f.(code := f.code + [Plain(NIL), Plain(RETURN)])
  }

  /** Code is generated exactly for statements whose breaks, continues and
      ranges are well placed. */
  lemma {:induction false} StmtPlaced(s: Stmt, ls: Locals, k: nat, lc: LoopCtx)
    ensures StmtCode(s, ls, k, lc).ok <==> Placed(s, !lc.NoLoop?)
    decreases s, 1
  {
    match s
    case If(_, _, _) => IfPlaced(s, ls, k, lc);
    case While(c, body) => ScopePlaced(body, ls, k + |LoopHead(c, ls, k, 0).ks|, Backward(|LoopHead(c, ls, k, 0).code|));
    case DoLoop(body, _) => ScopePlaced(body, ls, k, Forward);
    case ForRange(_, _, _, _) => ForPlaced(s, ls, k, lc);
    case _ => SimplePlaced(s, ls, k, lc);
  }

  lemma SimplePlaced(s: Stmt, ls: Locals, k: nat, lc: LoopCtx)
    requires !s.If? && !s.While? && !s.DoLoop? && !s.ForRange?
    ensures StmtCode(s, ls, k, lc).ok <==> Placed(s, !lc.NoLoop?)
  {
    hide ExprCode, AssignCode, GlobalAssignCode, TypeOf;
  }

  lemma {:induction false} IfPlaced(s: Stmt, ls: Locals, k: nat, lc: LoopCtx)
    requires s.If?
    ensures StmtCode(s, ls, k, lc).ok <==> Placed(s, !lc.NoLoop?)
    decreases s, 0
  {
    hide IfHead, ScopeCode;
    var h := IfHead(s.c, ls, k, 0);
    var lc1 := Shift(lc, |h.code|);
    var b1 := ScopeCode(s.thn, ls, k + |h.ks|, lc1);
    ScopePlaced(s.thn, ls, k + |h.ks|, lc1);
    if s.els.Some? {
      ScopePlaced(s.els.value, b1.ls, k + |h.ks| + |b1.ks|, Shift(lc, |h.code| + |b1.code| + 1));
    }
  }

  lemma {:induction false} ForPlaced(s: Stmt, ls: Locals, k: nat, lc: LoopCtx)
    requires s.ForRange?
    ensures StmtCode(s, ls, k, lc).ok <==> Placed(s, !lc.NoLoop?)
    decreases s, 0
  {
    hide ArgsCode, LoopHead, ScopeCode, RangeLocals;
    var ls1 := ls + RangeLocals(s.x);
    var k1 := k + |ArgsCode(s.args, ls1, k).ks|;
    var h := LoopHead(s.filter, ls1, k1, 0);
    ScopePlaced(s.body, ls1, k1 + |h.ks|, Backward(1 + |h.code|));
  }

  lemma {:induction false} ScopePlaced(b: Block, ls: Locals, k: nat, lc: LoopCtx)
    ensures ScopeCode(b, ls, k, lc).ok <==> PlacedIn(b, !lc.NoLoop?)
    decreases b, 1
  {
    hide BlockCode;
    BlockPlaced(b, ls, k, lc);
  }

  lemma {:induction false} BlockPlaced(b: Block, ls: Locals, k: nat, lc: LoopCtx)
    ensures BlockCode(b, ls, k, lc).ok <==> PlacedIn(b, !lc.NoLoop?)
    decreases b, 0
  {
    hide StmtCode, Placed;
    match b
    case Done =>
    case Then(s, rest) =>
      var f := StmtCode(s, ls, k, lc);
      StmtPlaced(s, ls, k, lc);
      BlockPlaced(rest, f.ls, k + |f.ks|, Shift(lc, |f.code|));
  }

  /** Code below 65536 bytes, with at most 256 locals and 65536 constants, is
      laid out without loss. */
  lemma ProgramFits(b: Block)
    requires var f := ProgramCode(b);
             f.ok && Off(f.code, |f.code|) < 65536 && f.max <= 256 && |f.ks| <= 65536
    ensures Fits(ProgramCode(b).code)
  {
    hide BlockCode;
    var f := BlockCode(b, [], 0, NoLoop);
    var c := ProgramCode(b).code;
    BlockOk(b, [], 0, NoLoop);
    OneOk(Plain(NIL), f.max, |f.ks|, INSIDE);
    ThenOk(f.code, [Plain(NIL)], f.max, |f.ks|, INSIDE);
    OneOk(Plain(RETURN), f.max, |f.ks|, INSIDE);
    ThenOk(f.code + [Plain(NIL)], [Plain(RETURN)], f.max, |f.ks|, INSIDE);
    assert c == f.code + [Plain(NIL)] + [Plain(RETURN)];
    forall i | 0 <= i < |c| ensures WellFormed(c[i]) && OperandsFit(c[i]) && (HasOperand(c[i]) ==> TargetInside(c, i)) {
      assert InstrOk(c[i], i, |c|, f.max, |f.ks|, INSIDE);
    }
  }
}
