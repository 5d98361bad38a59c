/** Expressions: the code of an expression pushes its value, and a conditional
    jump after it, fused or not, branches on its truth. */
module ExprCorrect {
  import opened Options
  import opened Machine
  import opened Assembly
  import opened Source
  import opened CodeGen

  // ------------------------------------------------------- values and states

  function ToVM(v: Val): Value {
    match v
    case VInt(i) => Number(i, i)
    case VBool(b) => Bool(b)
  }

  predicate Good(v: Val) { v.VInt? ==> Safe(v.i) }

  /** Every variable with a value holds it in its slot. */
  ghost predicate Rel(env: Env, ls: Locals, l: seq<Value>) {
    |env| == |ls| <= |l| &&
    forall i :: 0 <= i < |env| ==> Holds(env[i], ls[i], l[i])
  }

  predicate Holds(b: Binding, d: Local, v: Value) {
    b.name == d.name && (b.val.Some? ==> Good(b.val.value) && v == ToVM(b.val.value))
  }

  /** The pool holds the fragment's constants from position k on. */
  ghost predicate PoolAt(ks: seq<Value>, k: nat, cs: seq<Constant>) {
    k + |cs| <= |ks| && forall j :: 0 <= j < |cs| ==> ks[k + j] == Resolved(cs[j])
  }

  /** Final code q at position pos is what the fragment asked for: jumps that
      waited for the end of a loop go to brk, those that waited for its
      continue point go to cont. */
  predicate Matches(q: Instr, c: Instr, pos: int, brk: int, cont: int) {
    if c == Jump(JUMP, BREAK_HOLE) then q == Jump(JUMP, brk - pos - 1)
    else if c == Jump(JUMP, CONTINUE_HOLE) then q == Jump(JUMP, cont - pos - 1)
    else q == c
  }

  ghost predicate Agrees(p: Prog, i: nat, c: Prog, brk: int, cont: int) {
    i + |c| <= |p| && forall j :: 0 <= j < |c| ==> Matches(p[i + j], c[j], i + j, brk, cont)
  }

  lemma AgreesSplit(p: Prog, i: nat, a: Prog, b: Prog, brk: int, cont: int)
    requires Agrees(p, i, a + b, brk, cont)
    ensures Agrees(p, i, a, brk, cont) && Agrees(p, i + |a|, b, brk, cont)
  {
    var c := a + b;
    forall j | 0 <= j < |a| ensures Matches(p[i + j], a[j], i + j, brk, cont) {
      assert c[j] == a[j];
    }
    forall j | 0 <= j < |b| ensures Matches(p[i + |a| + j], b[j], i + |a| + j, brk, cont) {
      assert c[|a| + j] == b[j];
    }
  }

  lemma AgreesAt(p: Prog, i: nat, c: Prog, j: nat, brk: int, cont: int)
    requires Agrees(p, i, c, brk, cont) && j < |c|
    ensures i + j < |p| && Matches(p[i + j], c[j], i + j, brk, cont)
  {
  }

  lemma PoolSplit(ks: seq<Value>, k: nat, a: seq<Constant>, b: seq<Constant>)
    requires PoolAt(ks, k, a + b)
    ensures PoolAt(ks, k, a) && PoolAt(ks, k + |a|, b)
  {
    var c := a + b;
    forall j | 0 <= j < |a| ensures ks[k + j] == Resolved(a[j]) { assert c[j] == a[j]; }
    forall j | 0 <= j < |b| ensures ks[k + |a| + j] == Resolved(b[j]) { assert c[|a| + j] == b[j]; }
  }

  lemma {:induction false} FindMatchesSlot(env: Env, ls: Locals, l: seq<Value>, x: string)
    requires Rel(env, ls, l)
    ensures Find(env, x) == SlotOf(ls, x)
  {
    if |env| > 0 {
      assert Holds(env[|env| - 1], ls[|env| - 1], l[|env| - 1]);
      if env[|env| - 1].name != x {
        forall i | 0 <= i < |env| - 1 ensures Holds(env[..|env| - 1][i], ls[..|ls| - 1][i], l[i]) {
          assert Holds(env[i], ls[i], l[i]);
        }
        FindMatchesSlot(env[..|env| - 1], ls[..|ls| - 1], l, x);
      }
    }
  }

  lemma {:induction false} EvalGood(e: Expr, env: Env, ls: Locals, l: seq<Value>)
    requires Rel(env, ls, l) && Eval(e, env).Some?
    ensures Good(Eval(e, env).value)
  {
    match e
    case Var(x) =>
      var i := Find(env, x);
      assert Holds(env[i], ls[i], l[i]);
    case Group(e1) => EvalGood(e1, env, ls, l);
    case Bin(op, l1, r1) =>
    case _ =>
  }

  lemma WrapSafe(n: int)
    requires -2 * TWO_53 <= n <= 2 * TWO_53
    ensures Wrap64(n) == n
  {
  }

  // ------------------------------------------------------------------- steps

  lemma IRunOne(p: Prog, ks: seq<Value>, st: Status)
    ensures IRun(p, ks, st, 1) == IStep(p, ks, st)
  {
    assert IRun(p, ks, IStep(p, ks, st), 0) == IStep(p, ks, st);
  }

  /** Continue a run that has reached `mid` by m2 more steps. */
  lemma Chain(p: Prog, ks: seq<Value>, st: Status, m1: nat, mid: Status, m2: nat)
    requires IRun(p, ks, st, m1) == mid
    ensures IRun(p, ks, st, m1 + m2) == IRun(p, ks, mid, m2)
  {
    IRunAdds(p, ks, st, m1, m2);
  }

  lemma ChainStep(p: Prog, ks: seq<Value>, st: Status, m: nat, mid: Status)
    requires IRun(p, ks, st, m) == mid
    ensures IRun(p, ks, st, m + 1) == IStep(p, ks, mid)
  {
    hide IStep;
    IRunAdds(p, ks, st, m, 1);
    IRunOne(p, ks, mid);
  }

  /** The value left by the first instruction of a binary operator. */
  function HeadValue(op: BinOp, a: Val, b: Val): Value
    requires Apply2(op, a, b).Some?
  {
    var v := ToVM(Apply2(op, a, b).value);
    if op == Ne || op == Ge || op == Le then Bool(!Truthy(v)) else v
  }

  lemma BinCodeHead(op: BinOp, numeric: bool, a: Val, b: Val, l: seq<Value>, stk: seq<Value>)
    requires op != And && op != Or && Good(a) && Good(b) && Apply2(op, a, b).Some?
    ensures BinCode(op, numeric)[0].Plain?
    ensures ExecPlain(BinCode(op, numeric)[0].op, l, stk + [ToVM(a), ToVM(b)]) ==
            Next(l, stk + [HeadValue(op, a, b)])
    ensures |BinCode(op, numeric)| == 2 <==> (op == Ne || op == Ge || op == Le)
    ensures |BinCode(op, numeric)| == 2 ==> BinCode(op, numeric)[1] == Plain(NOT)
  {
    var s := stk + [ToVM(a), ToVM(b)];
    assert s[..|s| - 2] == stk && s[|s| - 2] == ToVM(a) && s[|s| - 1] == ToVM(b);
    BinaryMeans(op, numeric, a, b);
  }

  lemma BinaryMeans(op: BinOp, numeric: bool, a: Val, b: Val)
    requires op != And && op != Or && Good(a) && Good(b) && Apply2(op, a, b).Some?
    ensures BinCode(op, numeric)[0].Plain?
    ensures Binary(BinCode(op, numeric)[0].op, ToVM(a), ToVM(b)) == Some(HeadValue(op, a, b))
  {
    hide Wrap64, F64, TruncMod;
    if a.VInt? && b.VInt? {
      WrapSafe(a.i);
      WrapSafe(b.i);
      if op == Add { WrapSafe(a.i + b.i); }
      if op == Sub { WrapSafe(a.i - b.i); }
      if op == Mul { WrapSafe(a.i * b.i); }
    }
  }

  lemma StepPlain(p: Prog, ks: seq<Value>, i: nat, op: byte, l: seq<Value>, stk: seq<Value>, stk': seq<Value>)
    requires i < |p| && p[i] == Plain(op) && ExecPlain(op, l, stk) == Next(l, stk')
    ensures IStep(p, ks, Running(i, l, stk)) == Running(i + 1, l, stk')
  {
    hide ExecPlain;
  }

  lemma NotFlips(l: seq<Value>, stk: seq<Value>, v: Value)
    ensures ExecPlain(NOT, l, stk + [v]) == Next(l, stk + [Bool(!Truthy(v))])
  {
  }

  lemma ResultOfCompare(op: BinOp, a: Val, b: Val)
    requires (op == Ne || op == Ge || op == Le) && Apply2(op, a, b).Some?
    ensures Bool(!Truthy(HeadValue(op, a, b))) == ToVM(Apply2(op, a, b).value)
  {
  }

  /** The instructions of a binary operator compute it on safe operands. */
  lemma BinCodeRuns(op: BinOp, numeric: bool, a: Val, b: Val, p: Prog, ks: seq<Value>, i: nat,
                    l: seq<Value>, stk: seq<Value>, brk: int, cont: int) returns (n: nat)
    requires op != And && op != Or && Good(a) && Good(b) && Apply2(op, a, b).Some?
    requires Agrees(p, i, BinCode(op, numeric), brk, cont)
    ensures IRun(p, ks, Running(i, l, stk + [ToVM(a), ToVM(b)]), n) ==
            Running(i + |BinCode(op, numeric)|, l, stk + [ToVM(Apply2(op, a, b).value)])
  {
    hide ExecPlain, BinCode, Apply2, HeadValue, IRun, IStep, ToVM;
    var c := BinCode(op, numeric);
    var s0 := stk + [ToVM(a), ToVM(b)];
    AgreesAt(p, i, c, 0, brk, cont);
    BinCodeHead(op, numeric, a, b, l, stk);
    var h := stk + [HeadValue(op, a, b)];
    StepPlain(p, ks, i, c[0].op, l, s0, h);
    IRunOne(p, ks, Running(i, l, s0));
    n := 1;
    if |c| == 2 {
      AgreesAt(p, i, c, 1, brk, cont);
      NotFlips(l, stk, HeadValue(op, a, b));
      ResultOfCompare(op, a, b);
      StepPlain(p, ks, i + 1, NOT, l, h, stk + [ToVM(Apply2(op, a, b).value)]);
      ChainStep(p, ks, Running(i, l, s0), 1, Running(i + 1, l, h));
      n := 2;
    } else {
      HeadIsResult(op, a, b);
    }
  }

  lemma HeadIsResult(op: BinOp, a: Val, b: Val)
    requires !(op == Ne || op == Ge || op == Le) && Apply2(op, a, b).Some?
    ensures HeadValue(op, a, b) == ToVM(Apply2(op, a, b).value)
  {
  }

  // ------------------------------------------------------------ code shapes

  lemma {:induction false} UnwrapSame(e: Expr, ls: Locals, k: nat, env: Env)
    ensures ExprCode(e, ls, k) == ExprCode(Unwrap(e), ls, k)
    ensures Eval(e, env) == Eval(Unwrap(e), env)
    ensures !Unwrap(e).Group?
  {
    if e.Group? { UnwrapSame(e.e, ls, k, env); }
  }

  lemma BinCodeLast(op: BinOp, numeric: bool)
    requires op != And && op != Or
    ensures var b := BinCode(op, numeric); var z := b[|b| - 1];
            (z == Plain(NOT) ==> op == Ne || op == Ge || op == Le) && !IsGetLocal(z) &&
            (IsFusibleCompare(z) ==> op == Lt || op == Gt)
  {
  }

  /** What the last instruction of an expression's code tells about it. */
  lemma LastInstr(e: Expr, ls: Locals, k: nat)
    requires !e.Group?
    ensures var c := ExprCode(e, ls, k).code;
            |c| > 0 &&
            (c[|c| - 1] == Plain(NOT) ==>
              e.Not? || (e.Bin? && (e.op == Ne || e.op == Ge || e.op == Le))) &&
            (IsGetLocal(c[|c| - 1]) ==> e.Var? && |c| == 1) &&
            (IsFusibleCompare(c[|c| - 1]) ==> e.Bin? && (e.op == Lt || e.op == Gt))
  {
    hide EvalConst, TypeOf, SlotOf, WithJump, BinCode;
    var c := ExprCode(e, ls, k).code;
    match e
    case Bin(op, l, r) =>
      if op == And || op == Or {
        assert c[|c| - 1] == Plain(FALSE);
      } else {
        var b := BinCode(op, Numeric(TypeOf(l, ls)) && Numeric(TypeOf(r, ls)));
        assert c[|c| - 1] == b[|b| - 1];
        BinCodeLast(op, Numeric(TypeOf(l, ls)) && Numeric(TypeOf(r, ls)));
      }
    case Neg(e1) =>
      if !(EvalConst(e).Some? && EvalConst(e).value.Number?) { assert c[|c| - 1] == Plain(NEGATE); }
    case _ =>
  }

  lemma LastInstrOf(e: Expr, ls: Locals, k: nat)
    ensures var c := ExprCode(e, ls, k).code;
            |c| > 0 &&
            (c[|c| - 1] == Plain(NOT) ==>
              Unwrap(e).Not? || (Unwrap(e).Bin? && (Unwrap(e).op == Ne || Unwrap(e).op == Ge || Unwrap(e).op == Le))) &&
            (IsGetLocal(c[|c| - 1]) ==> Unwrap(e).Var? && |c| == 1) &&
            (IsFusibleCompare(c[|c| - 1]) ==> Unwrap(e).Bin? && (Unwrap(e).op == Lt || Unwrap(e).op == Gt))
  {
    UnwrapSame(e, ls, k, []);
    LastInstr(Unwrap(e), ls, k);
  }

  // --------------------------------------------------------- constant folding

  /** Folding agrees with evaluation wherever evaluation succeeds. */
  lemma {:induction false} ConstAgrees(e: Expr, env: Env, ls: Locals, l: seq<Value>)
    requires Rel(env, ls, l) && Eval(e, env).Some? && EvalConst(e).Some?
    ensures EvalConst(e).value == ToVM(Eval(e, env).value)
  {
    hide Wrap64, F64, TruncMod, Rel;
    match e
    case Group(e1) => ConstAgrees(e1, env, ls, l);
    case Neg(e1) =>
      ConstAgrees(e1, env, ls, l);
      EvalGood(e1, env, ls, l);
      var n := Eval(e1, env).value.i;
      WrapSafe(n);
      WrapSafe(-n);
    case Not(e1) => ConstAgrees(e1, env, ls, l);
    case Bin(op, a, b) =>
      ConstAgrees(a, env, ls, l);
      EvalGood(a, env, ls, l);
      if Eval(b, env).Some? {
        ConstAgrees(b, env, ls, l);
        EvalGood(b, env, ls, l);
        if op != And && op != Or { FoldAgrees(op, Eval(a, env).value, Eval(b, env).value); }
      }
    case _ =>
  }

  lemma FoldAgrees(op: BinOp, a: Val, b: Val)
    requires Good(a) && Good(b) && Apply2(op, a, b).Some?
    requires FoldConst(op, ToVM(a), ToVM(b)).Some?
    ensures FoldConst(op, ToVM(a), ToVM(b)).value == ToVM(Apply2(op, a, b).value)
  {
    hide Wrap64, F64, TruncMod;
    var v := Apply2(op, a, b).value;
    if v.VInt? { WrapSafe(v.i); }
  }

  // -------------------------------------------------------------- the theorem

  lemma StepConst(p: Prog, ks: seq<Value>, i: nat, k: nat, l: seq<Value>, stk: seq<Value>)
    requires i < |p| && p[i] == Const(k) && k < |ks|
    ensures IStep(p, ks, Running(i, l, stk)) == Running(i + 1, l, stk + [ks[k]])
  {
  }

  lemma StepGetLocal(p: Prog, ks: seq<Value>, i: nat, s: nat, l: seq<Value>, stk: seq<Value>)
    requires i < |p| && p[i] == Slot(GET_LOCAL, s) && s < |l|
    ensures IStep(p, ks, Running(i, l, stk)) == Running(i + 1, l, stk + [l[s]])
  {
  }

  lemma StepJump(p: Prog, ks: seq<Value>, i: nat, t: int, l: seq<Value>, stk: seq<Value>)
    requires i < |p| && p[i] == Jump(JUMP, t)
    ensures IStep(p, ks, Running(i, l, stk)) == Running(i + 1 + t, l, stk)
  {
  }

  /** Where a conditional jump goes. */
  function CondLanding(op: byte, v: bool, at: int, t: int): int {
    if v == (op == JUMP_IF_TRUE_POP) then at + t else at
  }

  lemma StepCondJump(p: Prog, ks: seq<Value>, i: nat, op: byte, t: int, l: seq<Value>, stk: seq<Value>, v: Value)
    requires i < |p| && p[i] == Jump(op, t) && (op == JUMP_IF_FALSE_POP || op == JUMP_IF_TRUE_POP)
    ensures IStep(p, ks, Running(i, l, stk + [v])) == Running(CondLanding(op, Truthy(v), i + 1, t), l, stk)
  {
    assert (stk + [v])[..|stk + [v]| - 1] == stk;
  }

  /** A fused jump on two safe locals goes where comparing them would. */
  lemma StepFused(p: Prog, ks: seq<Value>, i: nat, cmp: byte, op: byte, a: nat, b: nat, t: int,
                  l: seq<Value>, stk: seq<Value>)
    requires cmp == LESS_NUM || cmp == GREATER_NUM
    requires op == JUMP_IF_FALSE_POP || op == JUMP_IF_TRUE_POP
    requires i < |p| && p[i] == CmpJump(FusedOp(cmp, op), a, b, t)
    requires a < |l| && b < |l| && l[a].Number? && l[b].Number? && l[a].i == l[a].f && l[b].i == l[b].f
    ensures IStep(p, ks, Running(i, l, stk)) ==
            Running(CondLanding(op, if cmp == LESS_NUM then l[a].i < l[b].i else l[a].i > l[b].i, i + 1, t), l, stk)
  {
  }

  lemma VarHolds(x: string, env: Env, ls: Locals, l: seq<Value>)
    requires Rel(env, ls, l) && Lookup(env, x).Some?
    ensures 0 <= SlotOf(ls, x) < |l| && l[SlotOf(ls, x)] == ToVM(Lookup(env, x).value)
  {
    FindMatchesSlot(env, ls, l, x);
    var i := Find(env, x);
    assert Holds(env[i], ls[i], l[i]);
  }

  /** Running the code of an expression pushes its value and changes nothing
      else. */
  lemma {:induction false} ExprRuns(e: Expr, ls: Locals, k: nat, env: Env, p: Prog, ks: seq<Value>, i: nat,
                                    l: seq<Value>, stk: seq<Value>, brk: int, cont: int) returns (n: nat)
    requires Agrees(p, i, ExprCode(e, ls, k).code, brk, cont) && PoolAt(ks, k, ExprCode(e, ls, k).ks)
    requires Rel(env, ls, l) && Eval(e, env).Some?
    ensures IRun(p, ks, Running(i, l, stk), n) ==
            Running(i + |ExprCode(e, ls, k).code|, l, stk + [ToVM(Eval(e, env).value)])
    decreases e, 5
  {
    hide IRun, IStep, Rel, EvalConst, TypeOf, SlotOf, WithJump, BinCode, Apply2;
    var st := Running(i, l, stk);
    var f := ExprCode(e, ls, k);
    match e
    case IntLit(m) =>
      AgreesAt(p, i, f.code, 0, brk, cont);
      assert ks[k + 0] == Resolved(f.ks[0]);
      StepConst(p, ks, i, k, l, stk);
      IRunOne(p, ks, st);
      n := 1;
    case BoolLit(b) =>
      AgreesAt(p, i, f.code, 0, brk, cont);
      StepPlain(p, ks, i, if b then TRUE else FALSE, l, stk, stk + [Bool(b)]);
      IRunOne(p, ks, st);
      n := 1;
    case Var(x) =>
      VarHolds(x, env, ls, l);
      AgreesAt(p, i, f.code, 0, brk, cont);
      StepGetLocal(p, ks, i, SlotOf(ls, x), l, stk);
      IRunOne(p, ks, st);
      n := 1;
    case Group(e1) => n := ExprRuns(e1, ls, k, env, p, ks, i, l, stk, brk, cont);
    case Neg(e1) => n := NegRuns(e, ls, k, env, p, ks, i, l, stk, brk, cont);
    case Not(e1) =>
      var f1 := ExprCode(e1, ls, k);
      AgreesSplit(p, i, f1.code, [Plain(NOT)], brk, cont);
      n := ExprRuns(e1, ls, k, env, p, ks, i, l, stk, brk, cont);
      var v := ToVM(Eval(e1, env).value);
      AgreesAt(p, i + |f1.code|, [Plain(NOT)], 0, brk, cont);
      NotFlips(l, stk, v);
      StepPlain(p, ks, i + |f1.code|, NOT, l, stk + [v], stk + [Bool(!Truthy(v))]);
      ChainStep(p, ks, st, n, Running(i + |f1.code|, l, stk + [v]));
      n := n + 1;
    case Bin(op, a, b) =>
      if op == And {
        n := AndRuns(e, ls, k, env, p, ks, i, l, stk, brk, cont);
      } else if op == Or {
        n := OrRuns(e, ls, k, env, p, ks, i, l, stk, brk, cont);
      } else {
        n := ArithRuns(e, ls, k, env, p, ks, i, l, stk, brk, cont);
      }
  }

  lemma {:induction false} NegRuns(e: Expr, ls: Locals, k: nat, env: Env, p: Prog, ks: seq<Value>, i: nat,
                                   l: seq<Value>, stk: seq<Value>, brk: int, cont: int) returns (n: nat)
    requires e.Neg?
    requires Agrees(p, i, ExprCode(e, ls, k).code, brk, cont) && PoolAt(ks, k, ExprCode(e, ls, k).ks)
    requires Rel(env, ls, l) && Eval(e, env).Some?
    ensures IRun(p, ks, Running(i, l, stk), n) ==
            Running(i + |ExprCode(e, ls, k).code|, l, stk + [ToVM(Eval(e, env).value)])
    decreases e, 3
  {
    hide IRun, IStep, Rel, EvalConst, TypeOf, SlotOf, WithJump, BinCode, Wrap64;
    var st := Running(i, l, stk);
    var f := ExprCode(e, ls, k);
    var v := Eval(e.e, env).value;
    if EvalConst(e).Some? && EvalConst(e).value.Number? {
      ConstAgrees(e, env, ls, l);
      EvalGood(e, env, ls, l);
      AgreesAt(p, i, f.code, 0, brk, cont);
      assert ks[k + 0] == Resolved(f.ks[0]);
      StepConst(p, ks, i, k, l, stk);
      IRunOne(p, ks, st);
      n := 1;
    } else {
      var f1 := ExprCode(e.e, ls, k);
      AgreesSplit(p, i, f1.code, [Plain(NEGATE)], brk, cont);
      n := ExprRuns(e.e, ls, k, env, p, ks, i, l, stk, brk, cont);
      EvalGood(e.e, env, ls, l);
      AgreesAt(p, i + |f1.code|, [Plain(NEGATE)], 0, brk, cont);
      NegateSafe(v.i, l, stk);
      StepPlain(p, ks, i + |f1.code|, NEGATE, l, stk + [ToVM(v)], stk + [ToVM(VInt(-v.i))]);
      ChainStep(p, ks, st, n, Running(i + |f1.code|, l, stk + [ToVM(v)]));
      n := n + 1;
    }
  }

  lemma NegateSafe(m: int, l: seq<Value>, stk: seq<Value>)
    requires Safe(m)
    ensures ExecPlain(NEGATE, l, stk + [Number(m, m)]) == Next(l, stk + [Number(-m, -m)])
  {
    WrapSafe(m);
    WrapSafe(-m);
    assert (stk + [Number(m, m)])[..|stk|] == stk;
  }

  /** Both operands of a binary operator are left on the stack, in order. */
  lemma {:induction false} OperandsRun(e: Expr, ls: Locals, k: nat, env: Env, p: Prog, ks: seq<Value>,
                                       i: nat, l: seq<Value>, stk: seq<Value>, brk: int, cont: int)
    returns (n: nat)
    requires e.Bin? && Rel(env, ls, l) && Eval(e.l, env).Some? && Eval(e.r, env).Some?
    requires var fa := ExprCode(e.l, ls, k); var fb := ExprCode(e.r, ls, k + |fa.ks|);
             Agrees(p, i, fa.code + fb.code, brk, cont) && PoolAt(ks, k, fa.ks + fb.ks)
    ensures var fa := ExprCode(e.l, ls, k); var fb := ExprCode(e.r, ls, k + |fa.ks|);
            IRun(p, ks, Running(i, l, stk), n) ==
            Running(i + |fa.code| + |fb.code|, l, stk + [ToVM(Eval(e.l, env).value), ToVM(Eval(e.r, env).value)])
    decreases e, 2
  {
    hide IRun, Rel, ExprCode, Eval, ToVM;
    var fa := ExprCode(e.l, ls, k);
    var fb := ExprCode(e.r, ls, k + |fa.ks|);
    var va, vb := ToVM(Eval(e.l, env).value), ToVM(Eval(e.r, env).value);
    AgreesSplit(p, i, fa.code, fb.code, brk, cont);
    PoolSplit(ks, k, fa.ks, fb.ks);
    n := ExprRuns(e.l, ls, k, env, p, ks, i, l, stk, brk, cont);
    var m := ExprRuns(e.r, ls, k + |fa.ks|, env, p, ks, i + |fa.code|, l, stk + [va], brk, cont);
    Chain(p, ks, Running(i, l, stk), n, Running(i + |fa.code|, l, stk + [va]), m);
    assert stk + [va] + [vb] == stk + [va, vb];
    n := n + m;
  }

  lemma {:induction false} ArithRuns(e: Expr, ls: Locals, k: nat, env: Env, p: Prog, ks: seq<Value>, i: nat,
                                     l: seq<Value>, stk: seq<Value>, brk: int, cont: int) returns (n: nat)
    requires e.Bin? && e.op != And && e.op != Or
    requires Agrees(p, i, ExprCode(e, ls, k).code, brk, cont) && PoolAt(ks, k, ExprCode(e, ls, k).ks)
    requires Rel(env, ls, l) && Eval(e, env).Some?
    ensures IRun(p, ks, Running(i, l, stk), n) ==
            Running(i + |ExprCode(e, ls, k).code|, l, stk + [ToVM(Eval(e, env).value)])
    decreases e, 3
  {
    hide IRun, Rel, BinCode, Apply2, TypeOf, ToVM, AndCode, OrCode;
    var fa := ExprCode(e.l, ls, k);
    var fb := ExprCode(e.r, ls, k + |fa.ks|);
    var numeric := Numeric(TypeOf(e.l, ls)) && Numeric(TypeOf(e.r, ls));
    var bc := BinCode(e.op, numeric);
    AgreesSplit(p, i, fa.code + fb.code, bc, brk, cont);
    n := OperandsRun(e, ls, k, env, p, ks, i, l, stk, brk, cont);
    var a, b := Eval(e.l, env).value, Eval(e.r, env).value;
    EvalGood(e.l, env, ls, l);
    EvalGood(e.r, env, ls, l);
    var at := i + |fa.code| + |fb.code|;
    var m := BinCodeRuns(e.op, numeric, a, b, p, ks, at, l, stk, brk, cont);
    Chain(p, ks, Running(i, l, stk), n, Running(at, l, stk + [ToVM(a), ToVM(b)]), m);
    n := n + m;
  }

  lemma LogicCode(e: Expr, ls: Locals, k: nat)
    requires e.Bin? && (e.op == And || e.op == Or)
    ensures var fa := ExprCode(e.l, ls, k);
            var fb := ExprCode(e.r, ls, k + |fa.ks|);
            ExprCode(e, ls, k) ==
            Frag(if e.op == And then AndCode(fa.code, fb.code) else OrCode(fa.code, fb.code), fa.ks + fb.ks)
  {
  }

  lemma {:induction false} AndRuns(e: Expr, ls: Locals, k: nat, env: Env, p: Prog, ks: seq<Value>, i: nat,
                                   l: seq<Value>, stk: seq<Value>, brk: int, cont: int) returns (n: nat)
    requires e.Bin? && e.op == And
    requires Agrees(p, i, ExprCode(e, ls, k).code, brk, cont) && PoolAt(ks, k, ExprCode(e, ls, k).ks)
    requires Rel(env, ls, l) && Eval(e, env).Some?
    ensures IRun(p, ks, Running(i, l, stk), n) ==
            Running(i + |ExprCode(e, ls, k).code|, l, stk + [ToVM(Eval(e, env).value)])
    decreases e, 3
  {
    hide IRun, Rel, WithJump, IStep, Agrees, PoolAt, ExprCode;
    var fa := ExprCode(e.l, ls, k);
    var fb := ExprCode(e.r, ls, k + |fa.ks|);
    LogicCode(e, ls, k);
    var st := Running(i, l, stk);
    var rj := WithJump(fb.code, JUMP_IF_FALSE_POP, 2);
    var end := [Plain(TRUE), Jump(JUMP, 1), Plain(FALSE)];
    PoolSplit(ks, k, fa.ks, fb.ks);
    var a := Eval(e.l, env).value;
    var lj := WithJump(fa.code, JUMP_IF_FALSE_POP, |rj| + 2);
    AgreesSplit(p, i, lj + rj, end, brk, cont);
    AgreesSplit(p, i, lj, rj, brk, cont);
    n := JumpRuns(e.l, ls, k, |rj| + 2, env, p, ks, i, l, stk, brk, cont);
    var at := i + |lj| + |rj|;
    if Truth(a) {
      var m := JumpRuns(e.r, ls, k + |fa.ks|, 2, env, p, ks, i + |lj|, l, stk, brk, cont);
      Chain(p, ks, st, n, Running(i + |lj|, l, stk), m);
      var v := Truth(Eval(e.r, env).value);
      var x := BoolEnd(v, p, ks, at, l, stk, brk, cont);
      Chain(p, ks, st, n + m, Running(if v then at else at + 2, l, stk), x);
      n := n + m + x;
    } else {
      var x := BoolEnd(false, p, ks, at, l, stk, brk, cont);
      Chain(p, ks, st, n, Running(at + 2, l, stk), x);
      n := n + x;
    }
  }

  lemma {:induction false} OrRuns(e: Expr, ls: Locals, k: nat, env: Env, p: Prog, ks: seq<Value>, i: nat,
                                   l: seq<Value>, stk: seq<Value>, brk: int, cont: int) returns (n: nat)
    requires e.Bin? && e.op == Or
    requires Agrees(p, i, ExprCode(e, ls, k).code, brk, cont) && PoolAt(ks, k, ExprCode(e, ls, k).ks)
    requires Rel(env, ls, l) && Eval(e, env).Some?
    ensures IRun(p, ks, Running(i, l, stk), n) ==
            Running(i + |ExprCode(e, ls, k).code|, l, stk + [ToVM(Eval(e, env).value)])
    decreases e, 3
  {
    hide IRun, Rel, WithJump, IStep, Agrees, PoolAt, ExprCode;
    var fa := ExprCode(e.l, ls, k);
    var fb := ExprCode(e.r, ls, k + |fa.ks|);
    LogicCode(e, ls, k);
    var st := Running(i, l, stk);
    var rj := WithJump(fb.code, JUMP_IF_FALSE_POP, 2);
    var end := [Plain(TRUE), Jump(JUMP, 1), Plain(FALSE)];
    PoolSplit(ks, k, fa.ks, fb.ks);
    var a := Eval(e.l, env).value;
    var lj := WithJump(fa.code, JUMP_IF_FALSE_POP, 2);
    var yes := [Plain(TRUE), Jump(JUMP, |rj| + 3)];
    AgreesSplit(p, i, lj + yes + rj, end, brk, cont);
    AgreesSplit(p, i, lj + yes, rj, brk, cont);
    AgreesSplit(p, i, lj, yes, brk, cont);
    n := JumpRuns(e.l, ls, k, 2, env, p, ks, i, l, stk, brk, cont);
    var at := i + |lj| + 2 + |rj|;
    if Truth(a) {
      AgreesAt(p, i + |lj|, yes, 0, brk, cont);
      AgreesAt(p, i + |lj|, yes, 1, brk, cont);
      var stk1 := stk + [Bool(true)];
      StepPlain(p, ks, i + |lj|, TRUE, l, stk, stk1);
      StepJump(p, ks, i + |lj| + 1, |rj| + 3, l, stk1);
      ChainStep(p, ks, st, n, Running(i + |lj|, l, stk));
      ChainStep(p, ks, st, n + 1, Running(i + |lj| + 1, l, stk1));
      n := n + 2;
    } else {
      var m := JumpRuns(e.r, ls, k + |fa.ks|, 2, env, p, ks, i + |lj| + 2, l, stk, brk, cont);
      Chain(p, ks, st, n, Running(i + |lj| + 2, l, stk), m);
      var v := Truth(Eval(e.r, env).value);
      var x := BoolEnd(v, p, ks, at, l, stk, brk, cont);
      Chain(p, ks, st, n + m, Running(if v then at else at + 2, l, stk), x);
      n := n + m + x;
    }
  }

  /** TRUE; JUMP over; FALSE: entered at the front it pushes true, entered at
      FALSE it pushes false. */
  lemma BoolEnd(v: bool, p: Prog, ks: seq<Value>, i: nat, l: seq<Value>, stk: seq<Value>, brk: int, cont: int)
    returns (n: nat)
    requires Agrees(p, i, [Plain(TRUE), Jump(JUMP, 1), Plain(FALSE)], brk, cont)
    ensures IRun(p, ks, Running(if v then i else i + 2, l, stk), n) == Running(i + 3, l, stk + [Bool(v)])
  {
    hide IRun, IStep;
    var c := [Plain(TRUE), Jump(JUMP, 1), Plain(FALSE)];
    AgreesAt(p, i, c, 0, brk, cont);
    AgreesAt(p, i, c, 1, brk, cont);
    AgreesAt(p, i, c, 2, brk, cont);
    var s1 := stk + [Bool(v)];
    if v {
      StepPlain(p, ks, i, TRUE, l, stk, s1);
      StepJump(p, ks, i + 1, 1, l, s1);
      IRunOne(p, ks, Running(i, l, stk));
      ChainStep(p, ks, Running(i, l, stk), 1, Running(i + 1, l, s1));
      n := 2;
    } else {
      StepPlain(p, ks, i + 2, FALSE, l, stk, s1);
      IRunOne(p, ks, Running(i + 2, l, stk));
      n := 1;
    }
  }

  // -------------------------------------------------- conditional jumps

  lemma AfterJump(c: Prog, op: byte, t: int, p: Prog, ks: seq<Value>, i: nat, l: seq<Value>, stk: seq<Value>,
                  v: Value, m: nat, brk: int, cont: int)
    requires op == JUMP_IF_FALSE_POP || op == JUMP_IF_TRUE_POP
    requires Agrees(p, i, c + [Jump(op, t)], brk, cont)
    requires IRun(p, ks, Running(i, l, stk), m) == Running(i + |c|, l, stk + [v])
    ensures IRun(p, ks, Running(i, l, stk), m + 1) == Running(CondLanding(op, Truthy(v), i + |c| + 1, t), l, stk)
  {
    hide IRun, IStep;
    AgreesAt(p, i, c + [Jump(op, t)], |c|, brk, cont);
    StepCondJump(p, ks, i + |c|, op, t, l, stk, v);
    ChainStep(p, ks, Running(i, l, stk), m, Running(i + |c|, l, stk + [v]));
  }

  /** A conditional jump emitted after an expression, with NOT folded into it
      and a comparison of two locals fused into it where they apply, jumps
      exactly when the expression is false, and leaves the stack as it was. */
  lemma {:induction false} JumpRuns(e: Expr, ls: Locals, k: nat, t: nat, env: Env, p: Prog, ks: seq<Value>, i: nat,
                                    l: seq<Value>, stk: seq<Value>, brk: int, cont: int) returns (n: nat)
    requires Agrees(p, i, WithJump(ExprCode(e, ls, k).code, JUMP_IF_FALSE_POP, t), brk, cont)
    requires PoolAt(ks, k, ExprCode(e, ls, k).ks)
    requires Rel(env, ls, l) && Eval(e, env).Some?
    ensures var hi := i + |WithJump(ExprCode(e, ls, k).code, JUMP_IF_FALSE_POP, t)|;
            n > 0 && IRun(p, ks, Running(i, l, stk), n) ==
            Running(if Truth(Eval(e, env).value) then hi else hi + t, l, stk)
    decreases e, 6
  {
    hide IRun, IStep, Rel, ExprCode, Eval;
    var c := ExprCode(e, ls, k).code;
    if FoldsNot(c, JUMP_IF_FALSE_POP) {
      n := FoldedJumpRuns(e, ls, k, t, env, p, ks, i, l, stk, brk, cont);
    } else if Fuses(c, JUMP_IF_FALSE_POP) {
      LastInstrOf(e, ls, k);
      UnwrapSame(e, ls, k, env);
      n := FusedJumpRuns(Unwrap(e), ls, k, JUMP_IF_FALSE_POP, t, env, p, ks, i, l, stk, brk, cont);
    } else {
      AgreesSplit(p, i, c, [Jump(JUMP_IF_FALSE_POP, t)], brk, cont);
      n := ExprRuns(e, ls, k, env, p, ks, i, l, stk, brk, cont);
      AfterJump(c, JUMP_IF_FALSE_POP, t, p, ks, i, l, stk, ToVM(Eval(e, env).value), n, brk, cont);
      n := n + 1;
    }
  }

  /** The fused jump after the code of a comparison of two locals. */
  lemma {:induction false} FusedJumpRuns(e: Expr, ls: Locals, k: nat, op: byte, t: nat, env: Env, p: Prog,
                                         ks: seq<Value>, i: nat, l: seq<Value>, stk: seq<Value>, brk: int, cont: int)
    returns (n: nat)
    requires op == JUMP_IF_FALSE_POP || op == JUMP_IF_TRUE_POP
    requires e.Bin? && (e.op == Lt || e.op == Gt) && Fuses(ExprCode(e, ls, k).code, op)
    requires Agrees(p, i, FusedCode(ExprCode(e, ls, k).code, op, t), brk, cont)
    requires Rel(env, ls, l) && Eval(e, env).Some?
    ensures var hi := i + |FusedCode(ExprCode(e, ls, k).code, op, t)|;
            n > 0 && IRun(p, ks, Running(i, l, stk), n) ==
            Running(CondLanding(op, Truth(Eval(e, env).value), hi, t), l, stk)
    decreases e, 2
  {
    hide IRun, IStep, Rel, TypeOf;
    var c := ExprCode(e, ls, k).code;
    TwoLocals(e, ls, k, op);
    UnwrapSame(e.l, ls, k, env);
    UnwrapSame(e.r, ls, k + |ExprCode(e.l, ls, k).ks|, env);
    var x, y := Unwrap(e.l).x, Unwrap(e.r).x;
    VarHolds(x, env, ls, l);
    VarHolds(y, env, ls, l);
    AgreesAt(p, i, FusedCode(c, op, t), 0, brk, cont);
    StepFused(p, ks, i, c[2].op, op, c[0].s, c[1].s, t, l, stk);
    IRunOne(p, ks, Running(i, l, stk));
    n := 1;
  }

  lemma CompareCode(e: Expr, ls: Locals, k: nat) returns (z: Instr)
    requires e.Bin? && (e.op == Lt || e.op == Gt)
    ensures var fa := ExprCode(e.l, ls, k);
            var fb := ExprCode(e.r, ls, k + |fa.ks|);
            ExprCode(e, ls, k) == Frag(fa.code + fb.code + [z], fa.ks + fb.ks)
    ensures IsFusibleCompare(z) ==> z == Plain(if e.op == Lt then LESS_NUM else GREATER_NUM)
  {
    hide TypeOf;
    z := BinCode(e.op, Numeric(TypeOf(e.l, ls)) && Numeric(TypeOf(e.r, ls)))[0];
  }

  /** Code ending in two local reads and a comparison is nothing but that. */
  lemma TwoLocals(e: Expr, ls: Locals, k: nat, op: byte)
    requires e.Bin? && (e.op == Lt || e.op == Gt) && Fuses(ExprCode(e, ls, k).code, op)
    ensures var c := ExprCode(e, ls, k).code;
            |c| == 3 && Unwrap(e.l).Var? && Unwrap(e.r).Var? &&
            ExprCode(e.l, ls, k).code == [c[0]] &&
            ExprCode(e.r, ls, k + |ExprCode(e.l, ls, k).ks|).code == [c[1]] &&
            c[2] == Plain(if e.op == Lt then LESS_NUM else GREATER_NUM)
  {
    hide TypeOf, SlotOf, ExprCode, BinCode, Unwrap;
    var c := ExprCode(e, ls, k).code;
    var fa := ExprCode(e.l, ls, k);
    var fb := ExprCode(e.r, ls, k + |fa.ks|);
    var z := CompareCode(e, ls, k);
    LastInstrOf(e.r, ls, k + |fa.ks|);
    LastInstrOf(e.l, ls, k);
    assert c[|c| - 2] == fb.code[|fb.code| - 1];
    assert c[|c| - 3] == fa.code[|fa.code| - 1];
  }

  /** A jump after code ending in NOT. */
  lemma {:induction false} FoldedJumpRuns(e: Expr, ls: Locals, k: nat, t: nat, env: Env, p: Prog, ks: seq<Value>,
                                          i: nat, l: seq<Value>, stk: seq<Value>, brk: int, cont: int)
    returns (n: nat)
    requires FoldsNot(ExprCode(e, ls, k).code, JUMP_IF_FALSE_POP)
    requires Agrees(p, i, WithJump(ExprCode(e, ls, k).code, JUMP_IF_FALSE_POP, t), brk, cont)
    requires PoolAt(ks, k, ExprCode(e, ls, k).ks)
    requires Rel(env, ls, l) && Eval(e, env).Some?
    ensures var hi := i + |WithJump(ExprCode(e, ls, k).code, JUMP_IF_FALSE_POP, t)|;
            n > 0 && IRun(p, ks, Running(i, l, stk), n) ==
            Running(if Truth(Eval(e, env).value) then hi else hi + t, l, stk)
    decreases e, 5
  {
    LastInstrOf(e, ls, k);
    UnwrapSame(e, ls, k, env);
    if e.Group? {
      n := FoldedJumpRuns(e.e, ls, k, t, env, p, ks, i, l, stk, brk, cont);
    } else if e.Not? {
      n := NotJumpRuns(e, ls, k, t, env, p, ks, i, l, stk, brk, cont);
    } else {
      n := NegatedCompareRuns(e, ls, k, t, env, p, ks, i, l, stk, brk, cont);
    }
  }

  lemma NotCode(e: Expr, ls: Locals, k: nat)
    requires e.Not?
    ensures ExprCode(e, ls, k).code == ExprCode(e.e, ls, k).code + [Plain(NOT)]
    ensures ExprCode(e, ls, k).ks == ExprCode(e.e, ls, k).ks
  {
  }

  lemma WithJumpAfterNot(c: Prog, t: int)
    ensures WithJump(c + [Plain(NOT)], JUMP_IF_FALSE_POP, t) ==
            if Fuses(c, JUMP_IF_TRUE_POP) then FusedCode(c, JUMP_IF_TRUE_POP, t)
            else c + [Jump(JUMP_IF_TRUE_POP, t)]
  {
    assert (c + [Plain(NOT)])[..|c|] == c;
  }

  lemma {:induction false} NotJumpRuns(e: Expr, ls: Locals, k: nat, t: nat, env: Env, p: Prog, ks: seq<Value>,
                                       i: nat, l: seq<Value>, stk: seq<Value>, brk: int, cont: int)
    returns (n: nat)
    requires e.Not?
    requires Agrees(p, i, WithJump(ExprCode(e, ls, k).code, JUMP_IF_FALSE_POP, t), brk, cont)
    requires PoolAt(ks, k, ExprCode(e, ls, k).ks)
    requires Rel(env, ls, l) && Eval(e, env).Some?
    ensures var hi := i + |WithJump(ExprCode(e, ls, k).code, JUMP_IF_FALSE_POP, t)|;
            n > 0 && IRun(p, ks, Running(i, l, stk), n) ==
            Running(if Truth(Eval(e, env).value) then hi else hi + t, l, stk)
    decreases e, 4
  {
    hide IRun, IStep, Rel, WithJump, ExprCode, FusedCode, Unwrap, Agrees, PoolAt;
    var c1 := ExprCode(e.e, ls, k).code;
    NotCode(e, ls, k);
    WithJumpAfterNot(c1, t);
    var op := JUMP_IF_TRUE_POP;
    var v := Eval(e.e, env).value;
    if Fuses(c1, op) {
      LastInstrOf(e.e, ls, k);
      UnwrapSame(e.e, ls, k, env);
      UnwrapSmaller(e.e);
      n := FusedJumpRuns(Unwrap(e.e), ls, k, op, t, env, p, ks, i, l, stk, brk, cont);
    } else {
      AgreesSplit(p, i, c1, [Jump(op, t)], brk, cont);
      n := ExprRuns(e.e, ls, k, env, p, ks, i, l, stk, brk, cont);
      AfterJump(c1, op, t, p, ks, i, l, stk, ToVM(v), n, brk, cont);
      n := n + 1;
    }
  }

  lemma UnwrapSmaller(e: Expr)
    ensures Unwrap(e) == e || Unwrap(e) < e
  {
  }

  /** The code of !=, >= and <= is that of the opposite test, then NOT. */
  lemma NegatedCompareCode(e: Expr, ls: Locals, k: nat)
    requires e.Bin? && (e.op == Ne || e.op == Ge || e.op == Le)
    ensures var fa := ExprCode(e.l, ls, k);
            var fb := ExprCode(e.r, ls, k + |fa.ks|);
            var head := BinCode(e.op, Numeric(TypeOf(e.l, ls)) && Numeric(TypeOf(e.r, ls)))[0];
            var c1 := fa.code + fb.code + [head];
            head.Plain? && ExprCode(e, ls, k) == Frag(c1 + [Plain(NOT)], fa.ks + fb.ks) &&
            (e.op == Ne ==> head == Plain(EQUAL)) &&
            (e.op != Ne ==> ExprCode(Bin(if e.op == Ge then Lt else Gt, e.l, e.r), ls, k).code == c1)
  {
    hide ExprCode, BinCode, TypeOf;
    ArithCode(e, ls, k);
    NegatedParts(e.op, Numeric(TypeOf(e.l, ls)) && Numeric(TypeOf(e.r, ls)));
    if e.op != Ne { ArithCode(Bin(if e.op == Ge then Lt else Gt, e.l, e.r), ls, k); }
  }

  lemma NegatedParts(op: BinOp, numeric: bool)
    requires op == Ne || op == Ge || op == Le
    ensures var head := BinCode(op, numeric)[0];
            head.Plain? && BinCode(op, numeric) == [head] + [Plain(NOT)] && (op == Ne ==> head == Plain(EQUAL)) &&
            (op != Ne ==> BinCode(if op == Ge then Lt else Gt, numeric) == [head])
  {
  }

  lemma {:induction false} NegatedCompareRuns(e: Expr, ls: Locals, k: nat, t: nat, env: Env, p: Prog,
                                              ks: seq<Value>, i: nat, l: seq<Value>, stk: seq<Value>,
                                              brk: int, cont: int)
    returns (n: nat)
    requires e.Bin? && (e.op == Ne || e.op == Ge || e.op == Le)
    requires Agrees(p, i, WithJump(ExprCode(e, ls, k).code, JUMP_IF_FALSE_POP, t), brk, cont)
    requires PoolAt(ks, k, ExprCode(e, ls, k).ks)
    requires Rel(env, ls, l) && Eval(e, env).Some?
    ensures var hi := i + |WithJump(ExprCode(e, ls, k).code, JUMP_IF_FALSE_POP, t)|;
            n > 0 && IRun(p, ks, Running(i, l, stk), n) ==
            Running(if Truth(Eval(e, env).value) then hi else hi + t, l, stk)
    decreases e, 4
  {
    hide IRun, IStep, Rel, TypeOf, WithJump, ExprCode, FusedCode, Agrees, PoolAt, BinCode, HeadValue, Apply2,
         ExecPlain, FoldNot;
    var fa := ExprCode(e.l, ls, k);
    var fb := ExprCode(e.r, ls, k + |fa.ks|);
    var numeric := Numeric(TypeOf(e.l, ls)) && Numeric(TypeOf(e.r, ls));
    var head := BinCode(e.op, numeric)[0];
    var c1 := fa.code + fb.code + [head];
    NegatedCompareCode(e, ls, k);
    WithJumpAfterNot(c1, t);
    var op := JUMP_IF_TRUE_POP;
    if Fuses(c1, op) {
      var pos := Bin(if e.op == Ge then Lt else Gt, e.l, e.r);
      CompareOpposite(e, env);
      n := FusedJumpRuns(pos, ls, k, op, t, env, p, ks, i, l, stk, brk, cont);
    } else {
      n := PlainNegatedRuns(e, ls, k, t, env, p, ks, i, l, stk, brk, cont);
    }
  }

  /** The same where the jump is not fused with the comparison. */
  lemma {:induction false} PlainNegatedRuns(e: Expr, ls: Locals, k: nat, t: nat, env: Env, p: Prog,
                                            ks: seq<Value>, i: nat, l: seq<Value>, stk: seq<Value>,
                                            brk: int, cont: int)
    returns (n: nat)
    requires e.Bin? && (e.op == Ne || e.op == Ge || e.op == Le)
    requires var fa := ExprCode(e.l, ls, k);
             var fb := ExprCode(e.r, ls, k + |fa.ks|);
             var head := BinCode(e.op, Numeric(TypeOf(e.l, ls)) && Numeric(TypeOf(e.r, ls)))[0];
             Agrees(p, i, fa.code + fb.code + [head] + [Jump(JUMP_IF_TRUE_POP, t)], brk, cont)
    requires PoolAt(ks, k, ExprCode(e, ls, k).ks)
    requires Rel(env, ls, l) && Eval(e, env).Some?
    ensures var fa := ExprCode(e.l, ls, k);
            var hi := i + |fa.code| + |ExprCode(e.r, ls, k + |fa.ks|).code| + 2;
            n > 0 && IRun(p, ks, Running(i, l, stk), n) ==
            Running(if Truth(Eval(e, env).value) then hi else hi + t, l, stk)
    decreases e, 3
  {
    hide IRun, IStep, Rel, TypeOf, WithJump, ExprCode, FusedCode, Agrees, PoolAt, BinCode, HeadValue, Apply2,
         ExecPlain, FoldNot, Fuses, Unwrap;
    var fa := ExprCode(e.l, ls, k);
    var fb := ExprCode(e.r, ls, k + |fa.ks|);
    var numeric := Numeric(TypeOf(e.l, ls)) && Numeric(TypeOf(e.r, ls));
    var head := BinCode(e.op, numeric)[0];
    var c1 := fa.code + fb.code + [head];
    NegatedCompareCode(e, ls, k);
    AgreesSplit(p, i, c1, [Jump(JUMP_IF_TRUE_POP, t)], brk, cont);
    AgreesSplit(p, i, fa.code + fb.code, [head], brk, cont);
    n := OperandsRun(e, ls, k, env, p, ks, i, l, stk, brk, cont);
    var a, b := Eval(e.l, env).value, Eval(e.r, env).value;
    EvalGood(e.l, env, ls, l);
    EvalGood(e.r, env, ls, l);
    var at := i + |fa.code| + |fb.code|;
    AgreesAt(p, at, [head], 0, brk, cont);
    BinCodeHead(e.op, numeric, a, b, l, stk);
    ResultOfCompare(e.op, a, b);
    StepPlain(p, ks, at, head.op, l, stk + [ToVM(a), ToVM(b)], stk + [HeadValue(e.op, a, b)]);
    ChainStep(p, ks, Running(i, l, stk), n, Running(at, l, stk + [ToVM(a), ToVM(b)]));
    AfterJump(c1, JUMP_IF_TRUE_POP, t, p, ks, i, l, stk, HeadValue(e.op, a, b), n + 1, brk, cont);
    n := n + 2;
  }

  /** e >= is not <, e <= is not >. */
  lemma CompareOpposite(e: Expr, env: Env)
    requires e.Bin? && (e.op == Ge || e.op == Le) && Eval(e, env).Some?
    ensures var pos := Bin(if e.op == Ge then Lt else Gt, e.l, e.r);
            Eval(pos, env).Some? && Truth(Eval(pos, env).value) == !Truth(Eval(e, env).value)
  {
    var op := if e.op == Ge then Lt else Gt;
    var a, b := Eval(e.l, env).value, Eval(e.r, env).value;
    assert Eval(e, env) == Apply2(e.op, a, b);
    assert Eval(Bin(op, e.l, e.r), env) == Apply2(op, a, b);
    assert a.VInt? && b.VInt?;
    if e.op == Ge {
      assert Eval(e, env).value == VBool(a.i >= b.i);
      assert Eval(Bin(op, e.l, e.r), env).value == VBool(a.i < b.i);
    } else {
      assert Eval(e, env).value == VBool(a.i <= b.i);
      assert Eval(Bin(op, e.l, e.r), env).value == VBool(a.i > b.i);
    }
  }
}
