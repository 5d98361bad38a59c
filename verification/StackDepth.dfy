/** Operand depths of compiled code. Every instruction has one depth, whatever
    path leads to it: expressions leave one value more, statements none, and
    SET_LOCAL only ever finds the value that it stores. */
module StackDepth {
  import opened Options
  import opened Machine
  import opened Assembly
  import opened Source
  import opened CodeGen
  import opened ExprCorrect
  import opened Layout
  import opened JitCorrect

  /** What an instruction adds to the stack when it falls through. */
  function Delta(ins: Instr): int {
    match ins
    case Plain(op) =>
      if op == NIL || op == TRUE || op == FALSE then 1 else if op == NOT || op == NEGATE then 0 else -1
    case Slot(op, _) => if op == GET_LOCAL then 1 else if op == INC_LOCAL || op == DEC_LOCAL then 0 else -1
    case Const(_) => 1
    case Global(op, _) => if op == GET_GLOBAL then 1 else -1
    case Jump(op, _) => if op == JUMP_IF_FALSE_POP || op == JUMP_IF_TRUE_POP then -1 else 0
    case RangeInit(_, _, _, argc) => 0 - (argc as int)
    case _ => 0
  }

  /** What it adds when it jumps. */
  function Taken(ins: Instr): int { if ins.Jump? then Delta(ins) else 0 }

  predicate Stops(ins: Instr) { ins == Plain(RETURN) || (ins.Jump? && (ins.op == JUMP || ins.op == LOOP)) }

  /** The depth suits the instruction, as the executor relies on it. */
  predicate Suits(ins: Instr, d: nat) {
    Uses(ins) <= d && (ins.Slot? && ins.op == SET_LOCAL ==> d == 1) && (ins.RangeInit? ==> ins.argc != 3)
  }

  predicate Waiting(ins: Instr) { ins == Jump(JUMP, BREAK_HOLE) || ins == Jump(JUMP, CONTINUE_HOLE) }

  /** Where a jump goes the depth is d: inside the code, or at one of the places
      outside that `ext` lists. Jumps that still wait will land at depth 0. */
  ghost predicate Lands(c: Prog, i: nat, D: seq<nat>, ext: map<int, nat>, d: int)
    requires i < |c| && |D| == |c| + 1
  {
    if Waiting(c[i]) then d == 0
    else
      var t := Target(c, i);
      (0 <= t <= |c| && D[t] == d) || (t in ext && ext[t] == d)
  }

  ghost predicate FlowAt(c: Prog, i: nat, D: seq<nat>, ext: map<int, nat>)
    requires i < |c| && |D| == |c| + 1
  {
    Suits(c[i], D[i]) && (!Stops(c[i]) ==> D[i + 1] == D[i] + Delta(c[i])) &&
    (HasOperand(c[i]) ==> Lands(c, i, D, ext, D[i] + Taken(c[i])))
  }

  /** D gives the depth before each instruction, and at the end. */
  ghost predicate Flow(c: Prog, D: seq<nat>, ext: map<int, nat>) {
    |D| == |c| + 1 && forall i :: 0 <= i < |c| ==> FlowAt(c, i, D, ext)
  }

  /** Depths from `from` to `to`. */
  ghost predicate Between(c: Prog, D: seq<nat>, ext: map<int, nat>, from: nat, to: nat) {
    Flow(c, D, ext) && D[0] == from && D[|c|] == to
  }

  // ----------------------------------------------------------------- joining

  /** The places outside the first part are in the second or stay outside. */
  predicate Reaches(ext: map<int, nat>, shift: int, D: seq<nat>, whole: map<int, nat>) {
    forall t :: t in ext ==>
      (0 <= t - shift < |D| && D[t - shift] == ext[t]) || (t in whole && whole[t] == ext[t])
  }

  lemma TargetLeft(a: Prog, b: Prog, i: nat)
    requires i < |a|
    ensures Target(a + b, i) == Target(a, i)
  {
  }

  lemma TargetRight(a: Prog, b: Prog, i: nat)
    requires i < |b|
    ensures Target(a + b, |a| + i) == |a| + Target(b, i)
  {
  }

  lemma Join(a: Prog, Da: seq<nat>, exta: map<int, nat>, b: Prog, Db: seq<nat>, extb: map<int, nat>,
             ext: map<int, nat>, from: nat, mid: nat, to: nat) returns (D: seq<nat>)
    requires Between(a, Da, exta, from, mid) && Between(b, Db, extb, mid, to)
    requires Reaches(exta, |a|, Db, ext)
    requires forall t :: t in extb ==>
               (-|a| <= t <= 0 && Da[|a| + t] == extb[t]) || (|a| + t in ext && ext[|a| + t] == extb[t])
    ensures Between(a + b, D, ext, from, to) && D == Da[..|a|] + Db
  {
    D := Da[..|a|] + Db;
    var c := a + b;
    forall i | 0 <= i < |c| ensures FlowAt(c, i, D, ext) {
      if i < |a| {
        JoinLeft(a, Da, exta, b, Db, ext, i);
      } else {
        JoinRight(a, Da, b, Db, extb, ext, i - |a|);
      }
    }
  }

  lemma JoinLeft(a: Prog, Da: seq<nat>, exta: map<int, nat>, b: Prog, Db: seq<nat>, ext: map<int, nat>, i: nat)
    requires i < |a| && |Da| == |a| + 1 && |Db| == |b| + 1 && FlowAt(a, i, Da, exta) && Da[|a|] == Db[0]
    requires Reaches(exta, |a|, Db, ext)
    ensures FlowAt(a + b, i, Da[..|a|] + Db, ext)
  {
    TargetLeft(a, b, i);
    var D := Da[..|a|] + Db;
    assert forall j :: 0 <= j <= |a| ==> D[j] == Da[j];
    assert forall j :: 0 <= j <= |b| ==> D[|a| + j] == Db[j];
    var t := Target(a, i);
    if HasOperand(a[i]) && !Waiting(a[i]) && !(0 <= t <= |a| && Da[t] == Da[i] + Taken(a[i])) {
      assert t in exta;
      if 0 <= t - |a| < |Db| && Db[t - |a|] == exta[t] { assert D[t] == Db[t - |a|]; }
    }
  }

  lemma JoinRight(a: Prog, Da: seq<nat>, b: Prog, Db: seq<nat>, extb: map<int, nat>, ext: map<int, nat>, i: nat)
    requires i < |b| && |Da| == |a| + 1 && |Db| == |b| + 1 && FlowAt(b, i, Db, extb) && Da[|a|] == Db[0]
    requires forall t :: t in extb ==>
               (-|a| <= t <= 0 && Da[|a| + t] == extb[t]) || (|a| + t in ext && ext[|a| + t] == extb[t])
    ensures FlowAt(a + b, |a| + i, Da[..|a|] + Db, ext)
  {
    TargetRight(a, b, i);
    var D := Da[..|a|] + Db;
    assert forall j :: 0 <= j <= |a| ==> D[j] == Da[j];
    assert forall j :: 0 <= j <= |b| ==> D[|a| + j] == Db[j];
    assert (a + b)[|a| + i] == b[i];
  }

  /** Code without jumps to the outside, then more code. */
  lemma Then(a: Prog, Da: seq<nat>, b: Prog, Db: seq<nat>, from: nat, mid: nat, to: nat)
    returns (D: seq<nat>)
    requires Between(a, Da, map[], from, mid) && Between(b, Db, map[], mid, to)
    ensures Between(a + b, D, map[], from, to) && D == Da[..|a|] + Db
  {
    D := Join(a, Da, map[], b, Db, map[], map[], from, mid, to);
  }

  lemma One(ins: Instr, d: nat) returns (D: seq<nat>)
    requires !HasOperand(ins) && Suits(ins, d) && d + Delta(ins) >= 0
    ensures Between([ins], D, map[], d, d + Delta(ins))
  {
    D := [d, d + Delta(ins)];
  }

  // ------------------------------------------------------------- expressions

  lemma BinCodeDepth(op: BinOp, numeric: bool, d: nat) returns (D: seq<nat>)
    ensures Between(BinCode(op, numeric), D, map[], d + 2, d + 1)
  {
    D := if |BinCode(op, numeric)| == 1 then [d + 2, d + 1] else [d + 2, d + 1, d + 1];
  }

  /** An expression leaves one value on top of what was there. */
  lemma {:induction false} ExprDepth(e: Expr, ls: Locals, k: nat, d: nat) returns (D: seq<nat>)
    ensures Between(ExprCode(e, ls, k).code, D, map[], d, d + 1)
    decreases e, 1
  {
    hide EvalConst, TypeOf, SlotOf, BinCode, WithJump, Between, AndCode, OrCode;
    var c := ExprCode(e, ls, k).code;
    match e
    case IntLit(_) => D := One(c[0], d);
    case BoolLit(_) => D := One(c[0], d);
    case Var(x) => D := One(c[0], d);
    case Group(e1) => D := ExprDepth(e1, ls, k, d);
    case Neg(e1) =>
      if EvalConst(e).Some? && EvalConst(e).value.Number? {
        D := One(c[0], d);
      } else {
        D := OperatorDepth(e1, Plain(NEGATE), ls, k, d);
      }
    case Not(e1) => D := OperatorDepth(e1, Plain(NOT), ls, k, d);
    case Bin(op, l, r) =>
      if op == And || op == Or { D := LogicDepth(e, ls, k, d); } else { D := ArithDepth(e, ls, k, d); }
  }

  lemma {:induction false} OperatorDepth(e: Expr, ins: Instr, ls: Locals, k: nat, d: nat) returns (D: seq<nat>)
    requires ins == Plain(NEGATE) || ins == Plain(NOT)
    ensures Between(ExprCode(e, ls, k).code + [ins], D, map[], d, d + 1)
    decreases e, 2
  {
    hide Between, ExprCode;
    var De := ExprDepth(e, ls, k, d);
    var Di := One(ins, d + 1);
    D := Then(ExprCode(e, ls, k).code, De, [ins], Di, d, d + 1, d + 1);
  }

  lemma {:induction false} ArithDepth(e: Expr, ls: Locals, k: nat, d: nat) returns (D: seq<nat>)
    requires e.Bin? && e.op != And && e.op != Or
    ensures Between(ExprCode(e, ls, k).code, D, map[], d, d + 1)
    decreases e, 0
  {
    hide Between, ExprCode, BinCode, TypeOf;
    ArithCode(e, ls, k);
    var fa := ExprCode(e.l, ls, k);
    var fb := ExprCode(e.r, ls, k + |fa.ks|);
    var bc := BinCode(e.op, Numeric(TypeOf(e.l, ls)) && Numeric(TypeOf(e.r, ls)));
    var Da := ExprDepth(e.l, ls, k, d);
    var Db := ExprDepth(e.r, ls, k + |fa.ks|, d + 1);
    var Dc := BinCodeDepth(e.op, Numeric(TypeOf(e.l, ls)) && Numeric(TypeOf(e.r, ls)), d);
    var Dab := Then(fa.code, Da, fb.code, Db, d, d + 1, d + 2);
    D := Then(fa.code + fb.code, Dab, bc, Dc, d, d + 2, d + 1);
  }

  // -------------------------------------------------------------- conditions

  /** The code in front of a folded NOT. */
  lemma PrefixDepth(c: Prog, D: seq<nat>, slots: nat, consts: nat, d: nat)
    requires Between(c, D, map[], d, d + 1) && |c| > 0 && c[|c| - 1] == Plain(NOT)
    requires FragOk(c[..|c| - 1], slots, consts, INSIDE)
    ensures Between(c[..|c| - 1], D[..|c|], map[], d, d + 1)
  {
    var p := c[..|c| - 1];
    assert FlowAt(c, |c| - 1, D, map[]);
    forall i | 0 <= i < |p| ensures FlowAt(p, i, D[..|c|], map[]) {
      assert FlowAt(c, i, D, map[]) && InstrOk(p[i], i, |p|, slots, consts, INSIDE);
    }
  }

  lemma JumpDepth(op: byte, t: nat, d: nat) returns (D: seq<nat>)
    requires op == JUMP_IF_FALSE_POP || op == JUMP_IF_TRUE_POP
    ensures Between([Jump(op, t)], D, map[1 + t := d], d + 1, d)
  {
    D := [d + 1, d];
  }

  lemma FusedDepth(c: Prog, op: byte, t: nat, d: nat) returns (D: seq<nat>)
    requires Fuses(c, op) && |c| == 3
    ensures |FusedCode(c, op, t)| == 1 && Between(FusedCode(c, op, t), D, map[1 + t := d], d, d)
  {
    D := [d, d];
    assert FusedCode(c, op, t) == [CmpJump(FusedOp(c[2].op, op), c[0].s, c[1].s, t)];
  }

  /** A condition and its rewritten jump leave nothing, whichever way they go. */
  lemma {:induction false} CondDepth(e: Expr, ls: Locals, k: nat, t: nat, d: nat) returns (D: seq<nat>)
    ensures var w := WithJump(ExprCode(e, ls, k).code, JUMP_IF_FALSE_POP, t); Between(w, D, map[|w| + t := d], d, d)
    decreases e, 2
  {
    hide Between, ExprCode, FragOk, FusedCode, Fuses;
    var c := ExprCode(e, ls, k).code;
    var f := FoldNot(c, JUMP_IF_FALSE_POP);
    ConditionShape(e, ls, k);
    var w := WithJump(c, JUMP_IF_FALSE_POP, t);
    if Fuses(f.0, f.1) {
      D := FusedDepth(f.0, f.1, t, d);
    } else {
      var De := ExprDepth(e, ls, k, d);
      ExprOk(e, ls, k);
      BetweenLength(c, De, map[], d, d + 1);
      if FoldsNot(c, JUMP_IF_FALSE_POP) {
        PrefixDepth(c, De, |ls|, k + |ExprCode(e, ls, k).ks|, d);
        De := De[..|c|];
      }
      var Dj := JumpDepth(f.1, t, d);
      D := Join(f.0, De, map[], [Jump(f.1, t)], Dj, map[1 + t := d], map[|w| + t := d], d, d + 1, d);
    }
  }

  lemma EndDepth(d: nat) returns (D: seq<nat>)
    ensures Between([Plain(TRUE), Jump(JUMP, 1), Plain(FALSE)], D, map[], d, d + 1)
    ensures D[2] == d
  {
    D := [d, d + 1, d, d + 1];
  }

  lemma YesDepth(t: nat, d: nat) returns (D: seq<nat>)
    ensures Between([Plain(TRUE), Jump(JUMP, t)], D, map[2 + t := d + 1], d, d)
  {
    D := [d, d + 1, d];
  }

  lemma {:induction false} LogicDepth(e: Expr, ls: Locals, k: nat, d: nat) returns (D: seq<nat>)
    requires e.Bin? && (e.op == And || e.op == Or)
    ensures Between(ExprCode(e, ls, k).code, D, map[], d, d + 1)
    decreases e, 0
  {
    hide ExprCode, WithJump, Between, AndCode, OrCode;
    LogicCode(e, ls, k);
    var k1 := k + |ExprCode(e.l, ls, k).ks|;
    var l, r := ExprCode(e.l, ls, k).code, ExprCode(e.r, ls, k1).code;
    var rj := WithJump(r, JUMP_IF_FALSE_POP, 2);
    var Dr := CondDepth(e.r, ls, k1, 2, d);
    if e.op == And {
      var Dl := CondDepth(e.l, ls, k, |rj| + 2, d);
      D := AndDepth(l, Dl, r, Dr, d);
    } else {
      var Dl := CondDepth(e.l, ls, k, 2, d);
      D := OrDepth(l, Dl, r, Dr, d);
    }
  }

  /** A condition, and code that it jumps into at depth d. */
  lemma CondThen(w: Prog, Dw: seq<nat>, t: nat, b: Prog, Db: seq<nat>, d: nat, to: nat) returns (D: seq<nat>)
    requires Between(w, Dw, map[|w| + t := d], d, d) && Between(b, Db, map[], d, to)
    requires t < |Db| && Db[t] == d
    ensures Between(w + b, D, map[], d, to) && D == Dw[..|w|] + Db
  {
    D := Join(w, Dw, map[|w| + t := d], b, Db, map[], map[], d, d, to);
  }

  /** The right operand of && or ||, and the ends. */
  lemma RightDepth(r: Prog, Dr: seq<nat>, d: nat) returns (D: seq<nat>)
    requires var rj := WithJump(r, JUMP_IF_FALSE_POP, 2); Between(rj, Dr, map[|rj| + 2 := d], d, d)
    ensures var rj := WithJump(r, JUMP_IF_FALSE_POP, 2);
            Between(rj + [Plain(TRUE), Jump(JUMP, 1), Plain(FALSE)], D, map[], d, d + 1) &&
            |D| == |rj| + 4 && D[|rj| + 2] == d
  {
    hide Between, WithJump;
    var rj := WithJump(r, JUMP_IF_FALSE_POP, 2);
    var end := [Plain(TRUE), Jump(JUMP, 1), Plain(FALSE)];
    var De := EndDepth(d);
    BetweenLength(end, De, map[], d, d + 1);
    BetweenLength(rj, Dr, map[|rj| + 2 := d], d, d);
    D := CondThen(rj, Dr, 2, end, De, d, d + 1);
    assert D[|rj| + 2] == De[2];
  }

  lemma AndDepth(l: Prog, Dl: seq<nat>, r: Prog, Dr: seq<nat>, d: nat) returns (D: seq<nat>)
    requires var rj := WithJump(r, JUMP_IF_FALSE_POP, 2); Between(rj, Dr, map[|rj| + 2 := d], d, d)
    requires var lj := WithJump(l, JUMP_IF_FALSE_POP, |WithJump(r, JUMP_IF_FALSE_POP, 2)| + 2);
             Between(lj, Dl, map[|lj| + (|WithJump(r, JUMP_IF_FALSE_POP, 2)| + 2) := d], d, d)
    ensures Between(AndCode(l, r), D, map[], d, d + 1)
  {
    hide Between, WithJump;
    var rj := WithJump(r, JUMP_IF_FALSE_POP, 2);
    var lj := WithJump(l, JUMP_IF_FALSE_POP, |rj| + 2);
    var end := [Plain(TRUE), Jump(JUMP, 1), Plain(FALSE)];
    var Dre := RightDepth(r, Dr, d);
    D := CondThen(lj, Dl, |rj| + 2, rj + end, Dre, d, d + 1);
    assert lj + (rj + end) == AndCode(l, r);
  }

  lemma OrDepth(l: Prog, Dl: seq<nat>, r: Prog, Dr: seq<nat>, d: nat) returns (D: seq<nat>)
    requires var rj := WithJump(r, JUMP_IF_FALSE_POP, 2); Between(rj, Dr, map[|rj| + 2 := d], d, d)
    requires var lj := WithJump(l, JUMP_IF_FALSE_POP, 2); Between(lj, Dl, map[|lj| + 2 := d], d, d)
    ensures Between(OrCode(l, r), D, map[], d, d + 1)
  {
    hide Between, WithJump;
    var rj := WithJump(r, JUMP_IF_FALSE_POP, 2);
    var lj := WithJump(l, JUMP_IF_FALSE_POP, 2);
    var end, yes := [Plain(TRUE), Jump(JUMP, 1), Plain(FALSE)], [Plain(TRUE), Jump(JUMP, |rj| + 3)];
    var Dre := RightDepth(r, Dr, d);
    var Dy := YesDepth(|rj| + 3, d);
    var ext := map[2 + (|rj| + 3) := d + 1];
    BetweenLength(yes, Dy, ext, d, d);
    BetweenLength(rj + end, Dre, map[], d, d + 1);
    var Dyre := Join(yes, Dy, ext, rj + end, Dre, map[], map[], d, d, d + 1);
    assert Dyre[2] == Dre[0];
    D := CondThen(lj, Dl, 2, yes + (rj + end), Dyre, d, d + 1);
    assert lj + (yes + (rj + end)) == OrCode(l, r);
  }

  lemma BetweenLength(c: Prog, D: seq<nat>, ext: map<int, nat>, from: nat, to: nat)
    requires Between(c, D, ext, from, to)
    ensures |D| == |c| + 1 && D[0] == from && D[|c|] == to
  {
  }
}
