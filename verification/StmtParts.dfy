/** Assignments, conditions and range arguments: what their code does. */
module StmtParts {
  import opened Options
  import opened Machine
  import opened Assembly
  import opened Source
  import opened CodeGen
  import opened ExprCorrect

  // ------------------------------------------------------------- assignment

  lemma {:induction false} ConstOperand(e: Expr, negate: bool, env: Env, ls: Locals, l: seq<Value>)
    requires Rel(env, ls, l) && Eval(e, env).Some? && ConstInt(e, negate).Some?
    ensures Eval(e, env).value.VInt? && Safe(Eval(e, env).value.i)
    ensures ConstInt(e, negate).value == if negate then -Eval(e, env).value.i else Eval(e, env).value.i
  {
    hide Eval, EvalConst, Wrap64, Rel;
    ConstAgrees(e, env, ls, l);
    EvalGood(e, env, ls, l);
    WrapSafe(-Eval(e, env).value.i);
  }

  /** The constant found by the fast path is what the assignment adds. */
  lemma AddedConstMeans(x: string, op: AssignOp, e: Expr, t: Type, env: Env, ls: Locals, l: seq<Value>)
    requires Rel(env, ls, l) && AddedConst(x, op, e, t).Some? && Eval(AssignValue(x, op, e), env).Some?
    ensures Lookup(env, x).Some? && Lookup(env, x).value.VInt?
    ensures Eval(AssignValue(x, op, e), env) == Some(VInt(Lookup(env, x).value.i + AddedConst(x, op, e, t).value))
  {
    hide EvalConst, Wrap64, Rel, Lookup, ConstInt;
    match op
    case AddSet => ConstOperand(e, false, env, ls, l);
    case SubSet => ConstOperand(e, true, env, ls, l);
    case Set =>
      if e.op == Add {
        if e.l == Var(x) { ConstOperand(e.r, false, env, ls, l); } else { ConstOperand(e.l, false, env, ls, l); }
      } else {
        ConstOperand(e.r, true, env, ls, l);
      }
  }

  lemma AddedLocalMeans(x: string, op: AssignOp, e: Expr, t: Type, env: Env, ls: Locals, l: seq<Value>)
    requires Rel(env, ls, l) && AddedLocal(x, op, e, ls, t).Some? && Eval(AssignValue(x, op, e), env).Some?
    ensures var src := AddedLocal(x, op, e, ls, t).value;
            Lookup(env, x).Some? && Lookup(env, x).value.VInt? && src < |l| && l[src].Number? &&
            Eval(AssignValue(x, op, e), env) == Some(VInt(Lookup(env, x).value.i + l[src].i))
  {
    hide Rel, Lookup, SlotOf;
    var y := if op == AddSet then e.x else if e.l == Var(x) then e.r.x else e.l.x;
    VarHolds(y, env, ls, l);
  }

  lemma SelfUpdateMeans(x: string, e: Expr, t: Type, env: Env, ls: Locals, l: seq<Value>)
    requires Rel(env, ls, l) && SelfUpdate(x, e, ls, t).Some? && Eval(e, env).Some?
    ensures var (toLocal, rhs) := SelfUpdate(x, e, ls, t).value;
            Lookup(env, x).Some? && Lookup(env, x).value.VInt? &&
            Eval(rhs, env).Some? && Eval(rhs, env).value.VInt? && e.Bin? && toLocal == ToLocalOp(e.op) &&
            (e.op == Add || e.op == Sub || e.op == Mul) &&
            Eval(e, env) == Apply2(e.op, Lookup(env, x).value, Eval(rhs, env).value)
  {
    hide Rel, Lookup, TypeOf, Safe;
    assert Eval(e, env) == Apply2(e.op, Eval(e.l, env).value, Eval(e.r, env).value);
    if e.l == Var(x) { EvalVar(x, env); } else { EvalVar(x, env); }
  }

  lemma StepToLocal(p: Prog, ks: seq<Value>, i: nat, op: BinOp, s: nat, a: int, b: int, l: seq<Value>,
                    stk: seq<Value>)
    requires op == Add || op == Sub || op == Mul
    requires i < |p| && p[i] == Slot(ToLocalOp(op), s) && s < |l| && l[s] == Number(a, a)
    requires Apply2(op, VInt(a), VInt(b)).Some?
    ensures IStep(p, ks, Running(i, l, stk + [Number(b, b)])) ==
            Running(i + 1, l[s := ToVM(Apply2(op, VInt(a), VInt(b)).value)], stk)
  {
    hide Wrap64;
    var v := Apply2(op, VInt(a), VInt(b)).value;
    WrapSafe(v.i);
    assert (stk + [Number(b, b)])[..|stk|] == stk;
  }

  lemma StepSetLocal(p: Prog, ks: seq<Value>, i: nat, s: nat, l: seq<Value>, stk: seq<Value>, v: Value)
    requires i < |p| && p[i] == Slot(SET_LOCAL, s) && s < |l|
    ensures IStep(p, ks, Running(i, l, stk + [v])) == Running(i + 1, l[s := v], stk)
  {
    assert (stk + [v])[..|stk|] == stk;
  }

  lemma StepPop(p: Prog, ks: seq<Value>, i: nat, l: seq<Value>, stk: seq<Value>, v: Value)
    requires i < |p| && p[i] == Plain(POP)
    ensures IStep(p, ks, Running(i, l, stk + [v])) == Running(i + 1, l, stk)
  {
    assert (stk + [v])[..|stk|] == stk;
  }

  /** The one-instruction forms that add c to local s. */
  lemma StepAddInPlace(p: Prog, ks: seq<Value>, i: nat, ins: Instr, s: nat, a: int, c: int, l: seq<Value>,
                       stk: seq<Value>)
    requires i < |p| && p[i] == ins && s < |l| && l[s] == Number(a, a) && Safe(a) && Safe(a + c)
    requires || (ins == Slot(INC_LOCAL, s) && c == 1)
             || (ins == Slot(DEC_LOCAL, s) && c == -1)
             || (ins.AddConst? && ins.s == s && ins.k < |ks| && ks[ins.k].Number? && ks[ins.k].i == c)
             || (ins.AddLocal? && ins.dst == s && ins.src < |l| && l[ins.src].Number? && l[ins.src].i == c)
    ensures IStep(p, ks, Running(i, l, stk)) == Running(i + 1, l[s := Number(a + c, a + c)], stk)
  {
    WrapSafe(a + c);
  }

  /** An assignment to a local stores the value of the assigned expression in
      its slot, whichever instructions were chosen. */
  lemma {:induction false} AssignRuns(x: string, op: AssignOp, e: Expr, ls: Locals, k: nat, env: Env, p: Prog,
                                      ks: seq<Value>, i: nat, l: seq<Value>, stk: seq<Value>, brk: int, cont: int)
    returns (n: nat)
    requires Rel(env, ls, l) && Lookup(env, x).Some? && Eval(AssignValue(x, op, e), env).Some?
    requires SlotOf(ls, x) >= 0
    requires var f := AssignCode(x, op, e, ls, k, SlotOf(ls, x)).0;
             Agrees(p, i, f.code, brk, cont) && PoolAt(ks, k, f.ks)
    ensures var f := AssignCode(x, op, e, ls, k, SlotOf(ls, x)).0;
            IRun(p, ks, Running(i, l, stk), n) ==
            Running(i + |f.code|, l[SlotOf(ls, x) := ToVM(Eval(AssignValue(x, op, e), env).value)], stk)
  {
    hide IRun, IStep, Rel, Eval, TypeOf, Lookup, ExprCode, BinCode, SlotOf, AddedConst, AddedLocal, SelfUpdate,
         Agrees, PoolAt;
    var s := SlotOf(ls, x);
    var t := ls[s].typ;
    var f := AssignCode(x, op, e, ls, k, s).0;
    var v := Eval(AssignValue(x, op, e), env).value;
    var st := Running(i, l, stk);
    VarHolds(x, env, ls, l);
    EvalGood(AssignValue(x, op, e), env, ls, l);
    EvalVar(x, env);
    EvalGood(Var(x), env, ls, l);
    if AddedConst(x, op, e, t).Some? {
      AddedConstMeans(x, op, e, t, env, ls, l);
      AgreesAt(p, i, f.code, 0, brk, cont);
      PoolHead(ks, k, f.ks);
      StepAddInPlace(p, ks, i, f.code[0], s, l[s].i, AddedConst(x, op, e, t).value, l, stk);
      IRunOne(p, ks, st);
      n := 1;
    } else if AddedLocal(x, op, e, ls, t).Some? {
      AddedLocalMeans(x, op, e, t, env, ls, l);
      AgreesAt(p, i, f.code, 0, brk, cont);
      StepAddInPlace(p, ks, i, f.code[0], s, l[s].i, l[AddedLocal(x, op, e, ls, t).value].i, l, stk);
      IRunOne(p, ks, st);
      n := 1;
    } else if op != Set {
      n := CompoundRuns(x, op, e, ls, k, env, p, ks, i, l, stk, brk, cont);
    } else if SelfUpdate(x, e, ls, t).Some? {
      SelfUpdateMeans(x, e, t, env, ls, l);
      var rhs := SelfUpdate(x, e, ls, t).value.1;
      var fr := ExprCode(rhs, ls, k);
      AgreesSplit(p, i, fr.code, [f.code[|f.code| - 1]], brk, cont);
      n := ExprRuns(rhs, ls, k, env, p, ks, i, l, stk, brk, cont);
      AgreesAt(p, i, f.code, |fr.code|, brk, cont);
      var r := Eval(rhs, env).value;
      StepToLocal(p, ks, i + |fr.code|, e.op, s, l[s].i, r.i, l, stk);
      ChainStep(p, ks, st, n, Running(i + |fr.code|, l, stk + [ToVM(r)]));
      n := n + 1;
    } else {
      var fe := ExprCode(e, ls, k);
      AgreesSplit(p, i, fe.code, [Slot(SET_LOCAL, s)], brk, cont);
      n := ExprRuns(e, ls, k, env, p, ks, i, l, stk, brk, cont);
      AgreesAt(p, i, f.code, |fe.code|, brk, cont);
      StepSetLocal(p, ks, i + |fe.code|, s, l, stk, ToVM(v));
      ChainStep(p, ks, st, n, Running(i + |fe.code|, l, stk + [ToVM(v)]));
      n := n + 1;
    }
  }

  lemma EvalVar(x: string, env: Env)
    ensures Eval(Var(x), env) == Lookup(env, x)
  {
  }

  lemma PoolHead(ks: seq<Value>, k: nat, cs: seq<Constant>)
    requires PoolAt(ks, k, cs)
    ensures |cs| > 0 ==> k < |ks| && ks[k] == Resolved(cs[0])
  {
    if |cs| > 0 { assert ks[k + 0] == Resolved(cs[0]); }
  }

  lemma CompoundValue(x: string, op: AssignOp, e: Expr, env: Env)
    requires op != Set && Eval(AssignValue(x, op, e), env).Some?
    ensures Lookup(env, x).Some? && Lookup(env, x).value.VInt? && Eval(e, env).Some? && Eval(e, env).value.VInt?
    ensures Eval(AssignValue(x, op, e), env) == Apply2(CompoundOp(op), Lookup(env, x).value, Eval(e, env).value)
  {
  }

  lemma {:induction false} CompoundRuns(x: string, op: AssignOp, e: Expr, ls: Locals, k: nat, env: Env, p: Prog,
                                        ks: seq<Value>, i: nat, l: seq<Value>, stk: seq<Value>, brk: int, cont: int)
    returns (n: nat)
    requires Rel(env, ls, l) && op != Set && Eval(AssignValue(x, op, e), env).Some?
    requires SlotOf(ls, x) >= 0
    requires var t := ls[SlotOf(ls, x)].typ;
             AddedConst(x, op, e, t).None? && AddedLocal(x, op, e, ls, t).None?
    requires var f := AssignCode(x, op, e, ls, k, SlotOf(ls, x)).0;
             Agrees(p, i, f.code, brk, cont) && PoolAt(ks, k, f.ks)
    ensures var f := AssignCode(x, op, e, ls, k, SlotOf(ls, x)).0;
            IRun(p, ks, Running(i, l, stk), n) ==
            Running(i + |f.code|, l[SlotOf(ls, x) := ToVM(Eval(AssignValue(x, op, e), env).value)], stk)
  {
    hide IRun, IStep, Rel, Eval, TypeOf, Lookup, ExprCode, BinCode, SlotOf, AddedConst, AddedLocal, Agrees, PoolAt,
         Apply2, AssignValue;
    var s := SlotOf(ls, x);
    var f := AssignCode(x, op, e, ls, k, s).0;
    var st := Running(i, l, stk);
    CompoundValue(x, op, e, env);
    VarHolds(x, env, ls, l);
    EvalGood(e, env, ls, l);
    EvalVar(x, env);
    EvalGood(Var(x), env, ls, l);
    var a, b := Lookup(env, x).value, Eval(e, env).value;
    var v := ToVM(Eval(AssignValue(x, op, e), env).value);
    var fe := ExprCode(e, ls, k);
    if Numeric(ls[s].typ) && Numeric(TypeOf(e, ls)) {
      AgreesSplit(p, i, fe.code, [Slot(ToLocalOp(CompoundOp(op)), s)], brk, cont);
      n := ExprRuns(e, ls, k, env, p, ks, i, l, stk, brk, cont);
      AgreesAt(p, i, f.code, |fe.code|, brk, cont);
      StepToLocal(p, ks, i + |fe.code|, CompoundOp(op), s, a.i, b.i, l, stk);
      ChainStep(p, ks, st, n, Running(i + |fe.code|, l, stk + [ToVM(b)]));
      n := n + 1;
    } else {
      var bc := BinCode(CompoundOp(op), false);
      var c1 := [Slot(GET_LOCAL, s)] + fe.code;
      AgreesSplit(p, i, c1 + bc, [Slot(SET_LOCAL, s)], brk, cont);
      AgreesSplit(p, i, c1, bc, brk, cont);
      AgreesSplit(p, i, [Slot(GET_LOCAL, s)], fe.code, brk, cont);
      AgreesAt(p, i, [Slot(GET_LOCAL, s)], 0, brk, cont);
      StepGetLocal(p, ks, i, s, l, stk);
      IRunOne(p, ks, st);
      var stk1 := stk + [ToVM(a)];
      n := ExprRuns(e, ls, k, env, p, ks, i + 1, l, stk1, brk, cont);
      Chain(p, ks, st, 1, Running(i + 1, l, stk1), n);
      assert stk1 + [ToVM(b)] == stk + [ToVM(a), ToVM(b)];
      var at := i + 1 + |fe.code|;
      var m := BinCodeRuns(CompoundOp(op), false, a, b, p, ks, at, l, stk, brk, cont);
      Chain(p, ks, st, 1 + n, Running(at, l, stk + [ToVM(a), ToVM(b)]), m);
      AgreesAt(p, i + |c1| + |bc|, [Slot(SET_LOCAL, s)], 0, brk, cont);
      StepSetLocal(p, ks, at + |bc|, s, l, stk, v);
      ChainStep(p, ks, st, 1 + n + m, Running(at + |bc|, l, stk + [v]));
      n := 1 + n + m + 1;
    }
  }

  // -------------------------------------------------------------- conditions

  lemma LessEqualMeans(c: Expr, ls: Locals, env: Env, l: seq<Value>)
    requires Rel(env, ls, l) && Eval(c, env).Some? && MatchLessEqual(c, ls).Some?
    ensures var m := MatchLessEqual(c, ls).value;
            m.op == JUMP_IF_LOCAL_LE_CONST_FALSE && m.s < |l| && l[m.s].Number? && Safe(m.c) &&
            Eval(c, env) == Some(VBool(l[m.s].f <= m.c))
  {
    hide Rel, EvalConst, Wrap64, SlotOf, Lookup;
    UnwrapSame(c, ls, 0, env);
    var b := Unwrap(c);
    UnwrapSame(b.l, ls, 0, env);
    VarHolds(Unwrap(b.l).x, env, ls, l);
    ConstAgrees(b.r, env, ls, l);
    EvalGood(b.r, env, ls, l);
    WrapSafe(Eval(b.r, env).value.i);
  }

  lemma RemainderMeans(m: Expr, ls: Locals, env: Env, l: seq<Value>)
    requires Rel(env, ls, l) && Eval(m, env).Some? && MatchRemainder(m, ls).Some?
    ensures var r := MatchRemainder(m, ls).value;
            r.op == JUMP_IF_LOCAL_DIVISIBLE_CONST_FALSE && r.s < |l| && l[r.s].Number? && r.c != 0 &&
            Safe(l[r.s].f) && Eval(m, env) == Some(VInt(TruncMod(l[r.s].f, r.c)))
  {
    hide Rel, EvalConst, Wrap64, SlotOf, Lookup, TruncMod;
    UnwrapSame(m.l, ls, 0, env);
    EvalGood(m.l, env, ls, l);
    VarHolds(Unwrap(m.l).x, env, ls, l);
    ConstAgrees(m.r, env, ls, l);
    EvalGood(m.r, env, ls, l);
    WrapSafe(Eval(m.r, env).value.i);
  }

  lemma DivisibleMeans(c: Expr, ls: Locals, env: Env, l: seq<Value>)
    requires Rel(env, ls, l) && Eval(c, env).Some? && MatchDivisible(c, ls).Some?
    ensures var r := MatchDivisible(c, ls).value;
            r.op == JUMP_IF_LOCAL_DIVISIBLE_CONST_FALSE && r.s < |l| && l[r.s].Number? && r.c != 0 &&
            Safe(l[r.s].f) && Eval(c, env) == Some(VBool(TruncMod(l[r.s].f, r.c) == 0))
  {
    hide Rel, EvalConst, MatchRemainder, TruncMod;
    UnwrapSame(c, ls, 0, env);
    var b := Unwrap(c);
    UnwrapSame(b.l, ls, 0, env);
    UnwrapSame(b.r, ls, 0, env);
    var x, y := Unwrap(b.l), Unwrap(b.r);
    if IsZeroConst(y) {
      ConstAgrees(y, env, ls, l);
      RemainderMeans(x, ls, env, l);
    } else {
      ConstAgrees(x, env, ls, l);
      RemainderMeans(y, ls, env, l);
    }
  }

  lemma StepConstJump(p: Prog, ks: seq<Value>, i: nat, m: FastIf, k: nat, t: int, l: seq<Value>, stk: seq<Value>)
    requires i < |p| && p[i] == ConstJump(m.op, m.s, k, t) && k < |ks| && ks[k] == IntValue(m.c)
    requires m.s < |l| && l[m.s].Number?
    requires || (m.op == JUMP_IF_LOCAL_LE_CONST_FALSE && Safe(m.c))
             || (m.op == JUMP_IF_LOCAL_DIVISIBLE_CONST_FALSE && m.c != 0 && Safe(l[m.s].f))
    ensures IStep(p, ks, Running(i, l, stk)) ==
            Running(if m.op == JUMP_IF_LOCAL_LE_CONST_FALSE
                    then if l[m.s].f <= m.c then i + 1 else i + 1 + t
                    else if TruncMod(l[m.s].f, m.c) == 0 then i + 1 else i + 1 + t, l, stk)
  {
    if Safe(l[m.s].f) { WrapSafe(l[m.s].f); }
  }

  /** An if-condition, in whichever form, falls through when it is true and
      jumps t ahead when it is false. */
  lemma {:induction false} IfHeadRuns(c: Expr, ls: Locals, k: nat, t: nat, env: Env, p: Prog, ks: seq<Value>, i: nat,
                                      l: seq<Value>, stk: seq<Value>, brk: int, cont: int) returns (n: nat)
    requires Agrees(p, i, IfHead(c, ls, k, t).code, brk, cont) && PoolAt(ks, k, IfHead(c, ls, k, t).ks)
    requires Rel(env, ls, l) && Eval(c, env).Some?
    ensures var hi := i + |IfHead(c, ls, k, t).code|;
            n > 0 && IRun(p, ks, Running(i, l, stk), n) ==
            Running(if Truth(Eval(c, env).value) then hi else hi + t, l, stk)
  {
    hide IRun, IStep, Rel, Eval, MatchLessEqual, MatchDivisible, WithJump, Agrees, PoolAt, TruncMod;
    var h := IfHead(c, ls, k, t);
    if MatchLessEqual(c, ls).Some? {
      LessEqualMeans(c, ls, env, l);
      AgreesAt(p, i, h.code, 0, brk, cont);
      PoolHead(ks, k, h.ks);
      StepConstJump(p, ks, i, MatchLessEqual(c, ls).value, k, t, l, stk);
      IRunOne(p, ks, Running(i, l, stk));
      n := 1;
    } else if MatchDivisible(c, ls).Some? {
      DivisibleMeans(c, ls, env, l);
      AgreesAt(p, i, h.code, 0, brk, cont);
      PoolHead(ks, k, h.ks);
      StepConstJump(p, ks, i, MatchDivisible(c, ls).value, k, t, l, stk);
      IRunOne(p, ks, Running(i, l, stk));
      n := 1;
    } else {
      n := JumpRuns(c, ls, k, t, env, p, ks, i, l, stk, brk, cont);
    }
  }

  lemma {:induction false} LoopHeadRuns(c: Option<Expr>, ls: Locals, k: nat, t: nat, env: Env, p: Prog,
                                        ks: seq<Value>, i: nat, l: seq<Value>, stk: seq<Value>, brk: int, cont: int)
    returns (n: nat)
    requires Agrees(p, i, LoopHead(c, ls, k, t).code, brk, cont) && PoolAt(ks, k, LoopHead(c, ls, k, t).ks)
    requires Rel(env, ls, l) && EvalCond(c, env).Some?
    ensures var hi := i + |LoopHead(c, ls, k, t).code|;
            IRun(p, ks, Running(i, l, stk), n) ==
            Running(if Truth(EvalCond(c, env).value) then hi else hi + t, l, stk)
  {
    hide Rel, Eval, WithJump, Agrees, PoolAt;
    match c
    case None => n := 0;
    case Some(e) => n := JumpRuns(e, ls, k, t, env, p, ks, i, l, stk, brk, cont);
  }

  /** The length of a condition does not depend on the jump distance. */
  lemma HeadLength(c: Expr, ls: Locals, k: nat, t: int, t': int)
    ensures |IfHead(c, ls, k, t).code| == |IfHead(c, ls, k, t').code|
    ensures IfHead(c, ls, k, t).ks == IfHead(c, ls, k, t').ks
  {
    hide ExprCode, MatchLessEqual, MatchDivisible;
  }

  lemma LoopHeadLength(c: Option<Expr>, ls: Locals, k: nat, t: int, t': int)
    ensures |LoopHead(c, ls, k, t).code| == |LoopHead(c, ls, k, t').code|
    ensures LoopHead(c, ls, k, t).ks == LoopHead(c, ls, k, t').ks
  {
    hide ExprCode;
  }

  // ------------------------------------------------------------ range loops

  function Ints(vs: seq<int>): (r: seq<Value>)
    ensures |r| == |vs| && forall j :: 0 <= j < |vs| ==> r[j] == Number(vs[j], vs[j])
  {
    seq(|vs|, j requires 0 <= j < |vs| => Number(vs[j], vs[j]))
  }

  lemma {:induction false} ArgsRun(args: seq<Expr>, ls: Locals, k: nat, env: Env, p: Prog, ks: seq<Value>, i: nat,
                                   l: seq<Value>, stk: seq<Value>, brk: int, cont: int) returns (n: nat)
    requires Agrees(p, i, ArgsCode(args, ls, k).code, brk, cont) && PoolAt(ks, k, ArgsCode(args, ls, k).ks)
    requires Rel(env, ls, l) && EvalArgs(args, env).Some?
    ensures |EvalArgs(args, env).value| == |args|
    ensures forall j :: 0 <= j < |args| ==> Safe(EvalArgs(args, env).value[j])
    ensures IRun(p, ks, Running(i, l, stk), n) ==
            Running(i + |ArgsCode(args, ls, k).code|, l, stk + Ints(EvalArgs(args, env).value))
    decreases |args|
  {
    hide Rel, Eval, Agrees, PoolAt, ExprCode, IRun;
    if |args| == 0 {
      n := 0;
      IRunZero(p, ks, Running(i, l, stk));
      assert stk + [] == stk;
    } else {
      var rest, last := args[..|args| - 1], args[|args| - 1];
      var f := ArgsCode(rest, ls, k);
      var g := ExprCode(last, ls, k + |f.ks|);
      AgreesSplit(p, i, f.code, g.code, brk, cont);
      PoolSplit(ks, k, f.ks, g.ks);
      n := ArgsRun(rest, ls, k, env, p, ks, i, l, stk, brk, cont);
      var vs := EvalArgs(rest, env).value;
      var v := Eval(last, env).value;
      EvalGood(last, env, ls, l);
      var stk1 := stk + Ints(vs);
      var m := ExprRuns(last, ls, k + |f.ks|, env, p, ks, i + |f.code|, l, stk1, brk, cont);
      Chain(p, ks, Running(i, l, stk), n, Running(i + |f.code|, l, stk1), m);
      assert Ints(vs + [v.i]) == Ints(vs) + [Number(v.i, v.i)];
      assert stk1 + [Number(v.i, v.i)] == stk + Ints(vs + [v.i]);
      n := n + m;
    }
  }

  lemma IRunZero(p: Prog, ks: seq<Value>, st: Status)
    ensures IRun(p, ks, st, 0) == st
  {
  }

  /** The hidden locals of a range loop about to yield i. */
  predicate RangeReady(l: seq<Value>, n: nat, i: int, end: int, step: int) {
    n + 3 < |l| &&
    l[n + 1].Number? && l[n + 1].i == i - step &&
    l[n + 2].Number? && l[n + 2].i == end &&
    l[n + 3].Number? && l[n + 3].i == step
  }

  /** RANGE_INIT_FAST on the evaluated arguments readies the loop for the start
      value and touches only the hidden locals. */
  lemma StepRangeInit(p: Prog, ks: seq<Value>, at: nat, n: nat, vs: seq<int>, l: seq<Value>, stk: seq<Value>)
    returns (l': seq<Value>)
    requires 1 <= |vs| <= 3 && n + 3 < |l| && forall j :: 0 <= j < |vs| ==> Safe(vs[j])
    requires at < |p| && p[at] == RangeInit(n + 1, n + 2, n + 3, |vs|)
    ensures IStep(p, ks, Running(at, l, stk + Ints(vs))) == Running(at + 1, l', stk)
    ensures |l'| == |l| && (forall j :: 0 <= j <= n ==> l'[j] == l[j])
    ensures var r := RangeOf(vs); RangeReady(l', n, r.0, r.1, r.2) && Safe(r.0) && Safe(r.1) && Safe(r.2)
  {
    hide Wrap64;
    var s := stk + Ints(vs);
    var r := RangeOf(vs);
    WrapSafe(r.0 - r.2);
    assert s[..|s| - |vs|] == stk;
    forall j | |s| - |vs| <= j < |s| ensures s[j] == Number(vs[j - |stk|], vs[j - |stk|]) { }
    l' := IStep(p, ks, Running(at, l, s)).l;
  }

  /** RANGE_NEXT_FAST yields i while it is in range and leaves when it is not. */
  lemma StepRangeNext(p: Prog, ks: seq<Value>, at: nat, n: nat, t: int, i: int, end: int, step: int, l: seq<Value>,
                      stk: seq<Value>)
    requires RangeReady(l, n, i, end, step) && -2 * TWO_53 <= i <= 2 * TWO_53
    requires at < |p| && p[at] == RangeNext(n + 1, n + 2, n + 3, n, t)
    ensures IStep(p, ks, Running(at, l, stk)) ==
            if InRange(i, end, step) then Running(at + 1, l[n + 1 := IntValue(i)][n := IntValue(i)], stk)
            else Running(at + 1 + t, l, stk)
    ensures InRange(i, end, step) ==>
            RangeReady(l[n + 1 := IntValue(i)][n := IntValue(i)], n, i + step, end, step)
  {
    hide Wrap64;
    WrapSafe(i);
  }
}
