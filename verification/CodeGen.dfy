/** The code each construct compiles to, as a function: instruction sequences
    whose jumps count instructions, composed from the code of the parts. The
    single-pass, back-patching compiler is proved to produce exactly this. */
module CodeGen {
  import opened Options
  import opened Machine
  import opened Assembly
  import opened Source

  datatype Constant = KInt(i: int) | KName(s: string)

  /** The constant pool as the machine resolves it; names are never operands of
      the modelled instructions. */
  function Resolved(k: Constant): Value {
    match k
    case KInt(i) => IntValue(i)
    case KName(_) => Nil
  }

  function Pool(ks: seq<Constant>): (vs: seq<Value>)
    ensures |vs| == |ks|
    ensures forall i :: 0 <= i < |ks| ==> vs[i] == Resolved(ks[i])
  {
    seq(|ks|, i requires 0 <= i < |ks| => Resolved(ks[i]))
  }

  // ------------------------------------------------------- compile-time facts

  /** A declared local; its slot is its position. */
  datatype Local = Local(name: string, typ: Type)
  type Locals = seq<Local>

  /** The innermost local of that name: its slot, or -1. */
  function SlotOf(ls: Locals, x: string): (r: int)
    ensures -1 <= r < |ls|
    ensures r >= 0 ==> ls[r].name == x
  {
    if |ls| == 0 then -1
    else if ls[|ls| - 1].name == x then |ls| - 1
    else SlotOf(ls[..|ls| - 1], x)
  }

  predicate Numeric(t: Type) { t.TInt? || t.TNumber? }

  /** inferExprType. */
  function TypeOf(e: Expr, ls: Locals): Type {
    match e
    case IntLit(_) => TInt
    case BoolLit(_) => TBool
    case Var(x) => var s := SlotOf(ls, x); if s >= 0 then ls[s].typ else TNone
    case Group(e1) => TypeOf(e1, ls)
    case Neg(e1) => TypeOf(e1, ls)
    case Not(_) => TBool
    case Bin(op, l, r) =>
      if op == Add || op == Sub || op == Mul || op == Mod then
        var tl, tr := TypeOf(l, ls), TypeOf(r, ls);
        if !Numeric(tl) || !Numeric(tr) then TNone
        else if tl.TInt? && tr.TInt? then TInt
        else TNumber
      else TBool
  }

  /** evalConstExpr: compile-time value of a closed expression. Integer folding
      goes through doubles, as the compiler's does. */
  function EvalConst(e: Expr): Option<Value> {
    match e
    case IntLit(n) => Some(IntValue(n))
    case BoolLit(b) => Some(Bool(b))
    case Var(_) => None
    case Group(e1) => EvalConst(e1)
    case Neg(e1) =>
      (match EvalConst(e1)
       case Some(Number(_, f)) => Some(IntValue(Wrap64(-Wrap64(f))))
       case _ => None)
    case Not(e1) =>
      (match EvalConst(e1)
       case Some(v) => Some(Bool(!Truthy(v)))
       case None => None)
    case Bin(op, l, r) =>
      match EvalConst(l)
      case None => None
      case Some(a) =>
        match EvalConst(r)
        case None => None
        case Some(b) => FoldConst(op, a, b)
  }

  /** int64 of the fold `x % 0`, which is a NaN. */
  const INT_OF_NAN: int := -TWO_63

  function FoldConst(op: BinOp, a: Value, b: Value): Option<Value> {
    if op == And then Some(Bool(Truthy(a) && Truthy(b)))
    else if op == Or then Some(Bool(Truthy(a) || Truthy(b)))
    else if op == Eq then Some(Bool(ValuesEqual(a, b)))
    else if op == Ne then Some(Bool(!ValuesEqual(a, b)))
    else if !a.Number? || !b.Number? then None
    else if op == Add then Some(IntValue(Wrap64(F64(a.f + b.f))))
    else if op == Sub then Some(IntValue(Wrap64(F64(a.f - b.f))))
    else if op == Mul then Some(IntValue(Wrap64(F64(a.f * b.f))))
    else if op == Mod then Some(IntValue(if b.f == 0 then INT_OF_NAN else Wrap64(TruncMod(a.f, b.f))))
    else if op == Lt then Some(Bool(a.f < b.f))
    else if op == Gt then Some(Bool(a.f > b.f))
    else if op == Le then Some(Bool(a.f <= b.f))
    else Some(Bool(a.f >= b.f))
  }

  function Unwrap(e: Expr): Expr {
    match e
    case Group(e1) => Unwrap(e1)
    case _ => e
  }

  // -------------------------------------------------------- conditional jumps

  predicate IsFusibleCompare(ins: Instr) {
    ins == Plain(LESS_NUM) || ins == Plain(GREATER_NUM)
  }

  predicate IsGetLocal(ins: Instr) { ins.Slot? && ins.op == GET_LOCAL }

  /** NOT before a jump-if-false turns into the opposite jump. */
  predicate FoldsNot(c: Prog, op: byte) {
    (op == JUMP_IF_FALSE || op == JUMP_IF_FALSE_POP) && |c| > 0 && c[|c| - 1] == Plain(NOT)
  }

  function FoldNot(c: Prog, op: byte): (Prog, byte) {
    if FoldsNot(c, op) then
      (c[..|c| - 1], if op == JUMP_IF_FALSE_POP then JUMP_IF_TRUE_POP else JUMP_IF_TRUE)
    else (c, op)
  }

  /** The code ends in GET_LOCAL a; GET_LOCAL b; LESS_NUM or GREATER_NUM. */
  predicate Fuses(c: Prog, op: byte) {
    (op == JUMP_IF_FALSE_POP || op == JUMP_IF_TRUE_POP) && |c| >= 3 &&
    IsGetLocal(c[|c| - 3]) && IsGetLocal(c[|c| - 2]) && IsFusibleCompare(c[|c| - 1])
  }

  function FusedOp(cmp: byte, op: byte): byte {
    if cmp == LESS_NUM then
      if op == JUMP_IF_TRUE_POP then JUMP_IF_LOCAL_LT_LOCAL_TRUE else JUMP_IF_LOCAL_LT_LOCAL_FALSE
    else
      if op == JUMP_IF_TRUE_POP then JUMP_IF_LOCAL_GT_LOCAL_TRUE else JUMP_IF_LOCAL_GT_LOCAL_FALSE
  }

  function FusedCode(c: Prog, op: byte, t: int): Prog
    requires Fuses(c, op)
  {
    var n := |c|;
    c[..n - 3] + [CmpJump(FusedOp(c[n - 1].op, op), c[n - 3].s, c[n - 2].s, t)]
  }

  /** `c` followed by a conditional jump, after both rewrites. */
  function WithJump(c: Prog, op: byte, t: int): (r: Prog)
    ensures |r| > 0 && HasOperand(r[|r| - 1]) && Operand(r[|r| - 1]) == t
  {
    var f := FoldNot(c, op);
    if Fuses(f.0, f.1) then FusedCode(f.0, f.1, t) else f.0 + [Jump(f.1, t)]
  }

  // ------------------------------------------------------------- expressions

  /** Code together with the constants it adds to the pool. */
  datatype Frag = Frag(code: Prog, ks: seq<Constant>)

  /** The instructions of a binary operator other than && and ||. */
  function BinCode(op: BinOp, numeric: bool): (r: Prog)
    ensures 1 <= |r| <= 2
  {
    var less, greater := if numeric then LESS_NUM else LESS, if numeric then GREATER_NUM else GREATER;
    if op == Add then [Plain(if numeric then ADD_NUM else ADD)]
    else if op == Sub then [Plain(if numeric then SUB_NUM else SUB)]
    else if op == Mul then [Plain(if numeric then MUL_NUM else MUL)]
    else if op == Mod then [Plain(if numeric then MOD_NUM else MOD)]
    else if op == Eq then [Plain(EQUAL)]
    else if op == Ne then [Plain(EQUAL), Plain(NOT)]
    else if op == Lt then [Plain(less)]
    else if op == Gt then [Plain(greater)]
    else if op == Ge then [Plain(less), Plain(NOT)]
    else [Plain(greater), Plain(NOT)]
  }

  function AndCode(l: Prog, r: Prog): Prog {
    var rj := WithJump(r, JUMP_IF_FALSE_POP, 2);
    WithJump(l, JUMP_IF_FALSE_POP, |rj| + 2) + rj + [Plain(TRUE), Jump(JUMP, 1), Plain(FALSE)]
  }

  function OrCode(l: Prog, r: Prog): Prog {
    var rj := WithJump(r, JUMP_IF_FALSE_POP, 2);
    WithJump(l, JUMP_IF_FALSE_POP, 2) + [Plain(TRUE), Jump(JUMP, |rj| + 3)] +
    rj + [Plain(TRUE), Jump(JUMP, 1), Plain(FALSE)]
  }

  /** compileExpr; `k` is the number of constants already in the pool. */
  function ExprCode(e: Expr, ls: Locals, k: nat): Frag {
    match e
    case IntLit(n) => Frag([Const(k)], [KInt(n)])
    case BoolLit(b) => Frag([Plain(if b then TRUE else FALSE)], [])
    case Var(x) =>
      var s := SlotOf(ls, x);
      if s >= 0 then Frag([Slot(GET_LOCAL, s)], []) else Frag([Global(GET_GLOBAL, k)], [KName(x)])
    case Group(e1) => ExprCode(e1, ls, k)
    case Neg(e1) =>
      (match EvalConst(e)
       case Some(Number(i, _)) => Frag([Const(k)], [KInt(i)])
       case _ =>
         var f := ExprCode(e1, ls, k);
         Frag(f.code + [Plain(NEGATE)], f.ks))
    case Not(e1) =>
      var f := ExprCode(e1, ls, k);
      Frag(f.code + [Plain(NOT)], f.ks)
    case Bin(op, l, r) =>
      var fl := ExprCode(l, ls, k);
      var fr := ExprCode(r, ls, k + |fl.ks|);
      if op == And then Frag(AndCode(fl.code, fr.code), fl.ks + fr.ks)
      else if op == Or then Frag(OrCode(fl.code, fr.code), fl.ks + fr.ks)
      else
        Frag(fl.code + fr.code + BinCode(op, Numeric(TypeOf(l, ls)) && Numeric(TypeOf(r, ls))),
             fl.ks + fr.ks)
  }

  /** The code of a binary operator other than && and ||. */
  lemma ArithCode(e: Expr, ls: Locals, k: nat)
    requires e.Bin? && e.op != And && e.op != Or
    ensures var fa := ExprCode(e.l, ls, k);
            var fb := ExprCode(e.r, ls, k + |fa.ks|);
            var bc := BinCode(e.op, Numeric(TypeOf(e.l, ls)) && Numeric(TypeOf(e.r, ls)));
            ExprCode(e, ls, k) == Frag(fa.code + fb.code + bc, fa.ks + fb.ks)
  {
  }

  // -------------------------------------------------------------- statements

  /** The innermost loop as seen from a piece of code: none, one whose
      `continue` jumps back `here` instructions from the start of the piece, or
      one whose `continue` jumps forward. */
  datatype LoopCtx = NoLoop | Backward(here: nat) | Forward

  function Shift(lc: LoopCtx, n: nat): LoopCtx {
    if lc.Backward? then Backward(lc.here + n) else lc
  }

  /** Jumps that wait for the end of the loop body they leave. */
  const BREAK_HOLE: int := -1
  const CONTINUE_HOLE: int := -2

  /** Lead every jump waiting as `hole` to instruction `target`. */
  function Fill(c: Prog, hole: int, target: int): (r: Prog)
    ensures |r| == |c|
    ensures forall j :: 0 <= j < |c| ==>
      r[j] == if c[j] == Jump(JUMP, hole) then Jump(JUMP, target - j - 1) else c[j]
  {
    seq(|c|, j requires 0 <= j < |c| =>
      if c[j] == Jump(JUMP, hole) then Jump(JUMP, target - j - 1) else c[j])
  }

  /** Statement code, its constants, the locals declared after it, the most
      locals alive at once, and whether every break and continue is in a loop. */
  datatype SFrag = SFrag(code: Prog, ks: seq<Constant>, ls: Locals, max: nat, ok: bool)

  /** emitFastAddConstLocalAssign: the constant that the assignment adds. */
  function AddedConst(x: string, op: AssignOp, e: Expr, t: Type): Option<int> {
    if !Numeric(t) then None
    else
      match op
      case AddSet => ConstInt(e, false)
      case SubSet => ConstInt(e, true)
      case MulSet => None
      case Set =>
        if !e.Bin? then None
        else if e.op == Add then
          if e.l == Var(x) then ConstInt(e.r, false)
          else if e.r == Var(x) then ConstInt(e.l, false)
          else None
        else if e.op == Sub && e.l == Var(x) then ConstInt(e.r, true)
        else None
  }

  function ConstInt(e: Expr, negate: bool): Option<int> {
    match EvalConst(e)
    case Some(Number(i, _)) => Some(if negate then Wrap64(-i) else i)
    case _ => None
  }

  /** emitFastAddLocalLocal: the slot of the int local that is added. */
  function AddedLocal(x: string, op: AssignOp, e: Expr, ls: Locals, t: Type): Option<nat> {
    if !t.TInt? then None
    else
      var src: Option<Expr> := if op == AddSet then Some(e)
                 else if op == Set && e.Bin? && e.op == Add then
                   if e.l == Var(x) then Some(e.r) else if e.r == Var(x) then Some(e.l) else None
                 else None;
      match src
      case Some(Var(y)) =>
        var s := SlotOf(ls, y);
        if s >= 0 && ls[s].typ.TInt? then Some(s) else None
      case _ => None
  }

  function ToLocalOp(op: BinOp): byte {
    if op == Add then ADD_TO_LOCAL else if op == Sub then SUB_TO_LOCAL else MUL_TO_LOCAL
  }

  /** emitFastNumericSelfAssign: `x = x op e` (or `x = e op x` when op
      commutes) as an update of x by e. */
  function SelfUpdate(x: string, e: Expr, ls: Locals, t: Type): Option<(byte, Expr)> {
    if !Numeric(t) || !e.Bin? || !(e.op == Add || e.op == Sub || e.op == Mul) then None
    else if e.l == Var(x) then
      if Numeric(TypeOf(e.r, ls)) then Some((ToLocalOp(e.op), e.r)) else None
    else if e.op != Sub && e.r == Var(x) then
      if Numeric(TypeOf(e.l, ls)) then Some((ToLocalOp(e.op), e.l)) else None
    else None
  }

  function CompoundOp(op: AssignOp): BinOp {
    if op == AddSet then Add else if op == SubSet then Sub else Mul
  }

  /** Assignment to the local in slot `s`. */
  function AssignCode(x: string, op: AssignOp, e: Expr, ls: Locals, k: nat, s: nat): (Frag, Locals)
    requires s < |ls|
  {
    var t := ls[s].typ;
    match AddedConst(x, op, e, t)
    case Some(1) => (Frag([Slot(INC_LOCAL, s)], []), ls)
    case Some(-1) => (Frag([Slot(DEC_LOCAL, s)], []), ls)
    case Some(c) => (Frag([AddConst(s, k)], [KInt(c)]), ls)
    case None =>
      match AddedLocal(x, op, e, ls, t)
      case Some(src) => (Frag([AddLocal(s, src)], []), ls)
      case None =>
        var te := TypeOf(e, ls);
        if op != Set then
          var f := ExprCode(e, ls, k);
          var numeric := Numeric(t) && Numeric(te);
          if numeric then (Frag(f.code + [Slot(ToLocalOp(CompoundOp(op)), s)], f.ks), ls)
          else
            (Frag([Slot(GET_LOCAL, s)] + f.code + BinCode(CompoundOp(op), numeric) + [Slot(SET_LOCAL, s)], f.ks), ls)
        else
          match SelfUpdate(x, e, ls, t)
          case Some((toLocal, rhs)) =>
            var f := ExprCode(rhs, ls, k);
            (Frag(f.code + [Slot(toLocal, s)], f.ks), ls)
          case None =>
            var f := ExprCode(e, ls, k);
            (Frag(f.code + [Slot(SET_LOCAL, s)], f.ks),
             if t.TNone? then ls[s := Local(ls[s].name, te)] else ls)
  }

  /** Assignment to a name that is no local: the global instructions. */
  function GlobalAssignCode(x: string, op: AssignOp, e: Expr, ls: Locals, k: nat): Frag {
    var f := ExprCode(e, ls, k);
    var k1 := k + |f.ks|;
    if op == Set then Frag(f.code + [Global(SET_GLOBAL, k1)], f.ks + [KName(x)])
    else
      var g := ExprCode(e, ls, k1 + 1);
      Frag(f.code + [Global(GET_GLOBAL, k1)] + g.code + BinCode(CompoundOp(op), false) + [Global(SET_GLOBAL, k1)],
           f.ks + [KName(x)] + g.ks)
  }

  /** compileFastIfStmt: a condition `x <= c` or `x % c == 0` on a local. */
  datatype FastIf = FastIf(op: byte, s: nat, c: int)

  function MatchLessEqual(c: Expr, ls: Locals): Option<FastIf> {
    var b := Unwrap(c);
    if b.Bin? && b.op == Le && Unwrap(b.l).Var? && SlotOf(ls, Unwrap(b.l).x) >= 0 then
      match EvalConst(b.r)
      case Some(Number(_, f)) => Some(FastIf(JUMP_IF_LOCAL_LE_CONST_FALSE, SlotOf(ls, Unwrap(b.l).x), Wrap64(f)))
      case _ => None
    else None
  }

  predicate IsZeroConst(e: Expr) {
    var v := EvalConst(e);
    v.Some? && v.value.Number? && v.value.f == 0
  }

  function MatchDivisible(c: Expr, ls: Locals): Option<FastIf> {
    var b := Unwrap(c);
    if !(b.Bin? && b.op == Eq) then None
    else
      var l, r := Unwrap(b.l), Unwrap(b.r);
      if IsZeroConst(r) then MatchRemainder(l, ls)
      else if IsZeroConst(l) then MatchRemainder(r, ls)
      else None
  }

  function MatchRemainder(m: Expr, ls: Locals): Option<FastIf> {
    if m.Bin? && m.op == Mod && Unwrap(m.l).Var? && SlotOf(ls, Unwrap(m.l).x) >= 0 then
      match EvalConst(m.r)
      case Some(Number(_, f)) =>
        Some(FastIf(JUMP_IF_LOCAL_DIVISIBLE_CONST_FALSE, SlotOf(ls, Unwrap(m.l).x), Wrap64(f)))
      case _ => None
    else None
  }

  /** The code that tests an if-condition, jumping `t` ahead when it fails. */
  function IfHead(c: Expr, ls: Locals, k: nat, t: int): (r: Frag)
    ensures |r.code| > 0
  {
    match MatchLessEqual(c, ls)
    case Some(m) => Frag([ConstJump(m.op, m.s, k, t)], [KInt(m.c)])
    case None =>
      match MatchDivisible(c, ls)
      case Some(m) => Frag([ConstJump(m.op, m.s, k, t)], [KInt(m.c)])
      case None =>
        var f := ExprCode(c, ls, k);
        Frag(WithJump(f.code, JUMP_IF_FALSE_POP, t), f.ks)
  }

  /** A loop condition: code that jumps `t` ahead when it fails, or nothing. */
  function LoopHead(c: Option<Expr>, ls: Locals, k: nat, t: int): Frag {
    match c
    case None => Frag([], [])
    case Some(e) =>
      var f := ExprCode(e, ls, k);
      Frag(WithJump(f.code, JUMP_IF_FALSE_POP, t), f.ks)
  }

  function ArgsCode(args: seq<Expr>, ls: Locals, k: nat): Frag {
    if |args| == 0 then Frag([], [])
    else
      var f := ArgsCode(args[..|args| - 1], ls, k);
      var g := ExprCode(args[|args| - 1], ls, k + |f.ks|);
      Frag(f.code + g.code, f.ks + g.ks)
  }

  function RangeLocals(x: string): Locals {
    [Local(x, TNumber), Local("__range_current_" + x, TNumber),
     Local("__range_end_" + x, TNumber), Local("__range_step_" + x, TNumber)]
  }

  function Max(a: nat, b: nat): nat { if a >= b then a else b }

  /** compileStmt. */
  function StmtCode(s: Stmt, ls: Locals, k: nat, lc: LoopCtx): SFrag
    decreases s
  {
    match s
    case Let(x, declared, e) =>
      var t := if declared.Some? then declared.value else TypeOf(e, ls);
      var f := ExprCode(e, ls, k);
      SFrag(f.code + [Slot(SET_LOCAL, |ls|)], f.ks, ls + [Local(x, t)], |ls| + 1, true)
    case Assign(x, op, e) =>
      var slot := SlotOf(ls, x);
      if slot >= 0 then
        var a := AssignCode(x, op, e, ls, k, slot);
        SFrag(a.0.code, a.0.ks, a.1, |ls|, true)
      else
        var f := GlobalAssignCode(x, op, e, ls, k);
        SFrag(f.code, f.ks, ls, |ls|, true)
    case ExprStmt(e) =>
      var f := ExprCode(e, ls, k);
      SFrag(f.code + [Plain(POP)], f.ks, ls, |ls|, true)
    case If(c, thn, els) =>
      var h := IfHead(c, ls, k, 0);
      var b1 := ScopeCode(thn, ls, k + |h.ks|, Shift(lc, |h.code|));
      (match els
       case None =>
         SFrag(IfHead(c, ls, k, |b1.code|).code + b1.code, h.ks + b1.ks, b1.ls, b1.max, b1.ok)
       case Some(eb) =>
         var n1 := |h.code| + |b1.code| + 1;
         var b2 := ScopeCode(eb, b1.ls, k + |h.ks| + |b1.ks|, Shift(lc, n1));
         SFrag(IfHead(c, ls, k, |b1.code| + 1).code + b1.code + [Jump(JUMP, |b2.code|)] + b2.code,
               h.ks + b1.ks + b2.ks, b2.ls, Max(b1.max, b2.max), b1.ok && b2.ok))
    case While(c, body) =>
      var h := LoopHead(c, ls, k, 0);
      var b := ScopeCode(body, ls, k + |h.ks|, Backward(|h.code|));
      var code := LoopHead(c, ls, k, |b.code| + 1).code + b.code + [Jump(LOOP, |h.code| + |b.code| + 1)];
      SFrag(Fill(code, BREAK_HOLE, |code|), h.ks + b.ks, b.ls, b.max, b.ok)
    case DoLoop(body, c) =>
      var b := ScopeCode(body, ls, k, Forward);
      var h := LoopHead(c, b.ls, k + |b.ks|, 1);
      var code := Fill(b.code, CONTINUE_HOLE, |b.code|) + h.code + [Jump(LOOP, |b.code| + |h.code| + 1)];
      SFrag(Fill(code, BREAK_HOLE, |code|), b.ks + h.ks, b.ls, b.max, b.ok)
    case ForRange(x, args, filter, body) =>
      var n := |ls|;
      var ls1 := ls + RangeLocals(x);
      var a := ArgsCode(args, ls1, k);
      var loop := RangeLoop(n, filter, body, ls1, k + |a.ks|);
      SFrag(a.code + [RangeInit(n + 1, n + 2, n + 3, |args|)] + Fill(loop.code, BREAK_HOLE, |loop.code|),
            a.ks + loop.ks, Keep(loop.ls, n), Max(n + 4, loop.max), loop.ok && 1 <= |args| <= 3)
    case Break => SFrag([Jump(JUMP, BREAK_HOLE)], [], ls, |ls|, !lc.NoLoop?)
    case Continue =>
      if lc.Backward? then SFrag([Jump(LOOP, lc.here + 1)], [], ls, |ls|, true)
      else SFrag([Jump(JUMP, CONTINUE_HOLE)], [], ls, |ls|, lc.Forward?)
  }

  /** The loop of a range-for whose variable is in slot n, from RANGE_NEXT_FAST
      to its last LOOP; breaks still wait. A filtered loop has a second LOOP
      that a failing filter jumps to. */
  function RangeLoop(n: nat, filter: Option<Expr>, body: Block, ls: Locals, k: nat): SFrag
    decreases body, 2
  {
    var h := LoopHead(filter, ls, k, 0);
    var b := ScopeCode(body, ls, k + |h.ks|, Backward(1 + |h.code|));
    var m := 1 + |h.code| + |b.code| + 1;
    var back := if filter.Some? then [Jump(LOOP, m), Jump(LOOP, m + 1)] else [Jump(LOOP, m)];
    var tail := LoopHead(filter, ls, k, |b.code| + 1).code + b.code + back;
    SFrag([RangeNext(n + 1, n + 2, n + 3, n, |tail|)] + tail, h.ks + b.ks, b.ls, b.max, b.ok)
  }

  /** The first n locals: what is left when a scope that began with n ends. */
  function Keep(ls: Locals, n: nat): Locals {
    if n <= |ls| then ls[..n] else ls
  }

  function BlockCode(b: Block, ls: Locals, k: nat, lc: LoopCtx): SFrag
    decreases b, 0
  {
    match b
    case Done => SFrag([], [], ls, |ls|, true)
    case Then(s, rest) =>
      var f := StmtCode(s, ls, k, lc);
      var g := BlockCode(rest, f.ls, k + |f.ks|, Shift(lc, |f.code|));
      SFrag(f.code + g.code, f.ks + g.ks, g.ls, Max(f.max, g.max), f.ok && g.ok)
  }

  /** compileBlock: a block in its own scope. */
  function ScopeCode(b: Block, ls: Locals, k: nat, lc: LoopCtx): SFrag
    decreases b, 1
  {
    var f := BlockCode(b, ls, k, lc);
    f.(ls := Keep(f.ls, |ls|))
  }
}
