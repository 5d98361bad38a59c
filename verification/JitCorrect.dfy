/** The lowered program simulates the bytecode, step for step, although it
    leaves the operands of SET_LOCAL under its stack. */
module JitCorrect {
  import opened Options
  import opened Machine
  import opened Assembly
  import opened JitIr
  import opened JitLower

  /** The stack that the bytecode sees is on top of dead leftovers. */
  ghost predicate OnTop(stk: seq<Value>, jstk: seq<Value>) {
    |stk| <= |jstk| && jstk[|jstk| - |stk|..] == stk
  }

  /** The executor's state that stands for a machine state. */
  ghost predicate Related(index: map<int, nat>, st: Status, j: JState) {
    match st
    case Running(pc, l, stk) =>
      pc in index && j.JRunning? && j.ip == index[pc] && j.l == l && OnTop(stk, j.stk)
    case Returned(v, _) => j == JReturned(v)
    case Fault => j == JError
  }

  /** How many operands an instruction uses. */
  function Uses(ins: Instr): nat {
    match ins
    case Plain(op) =>
      if op == NIL || op == TRUE || op == FALSE then 0
      else if op == POP || op == RETURN || op == NOT || op == NEGATE then 1
      else 2
    case Slot(op, _) => if op == SET_LOCAL then 1 else 0
    case Jump(op, _) => if op == JUMP || op == LOOP then 0 else 1
    case RangeInit(_, _, _, argc) => argc
    case _ => 0
  }

  /** What the executor relies on: the operands are there, SET_LOCAL finds just
      the one it consumes, a negated integer is the one its double says, and no
      range has a step argument. */
  predicate Disciplined(ins: Instr, stk: seq<Value>) {
    Uses(ins) <= |stk| &&
    (ins.Slot? && ins.op == SET_LOCAL ==> |stk| == 1) &&
    (ins == Plain(NEGATE) && stk[|stk| - 1].Number? ==> Wrap64(-Wrap64(stk[|stk| - 1].f)) == Wrap64(-stk[|stk| - 1].i)) &&
    (ins.RangeInit? ==> ins.argc != 3)
  }

  /** The same effect, on stacks that agree from the top. */
  ghost predicate SameEffect(a: Effect, b: Effect) {
    match a
    case Next(l, stk) => b.Next? && b.l == l && OnTop(stk, b.stk)
    case Branch(l, stk) => b.Branch? && b.l == l && OnTop(stk, b.stk)
    case Leave(v) => b == Leave(v)
    case Raise => b == Raise
  }

  // ------------------------------------------------------------ stack facts

  lemma TopOf(stk: seq<Value>, jstk: seq<Value>, i: nat)
    requires OnTop(stk, jstk) && i < |stk|
    ensures jstk[|jstk| - |stk| + i] == stk[i]
  {
    assert jstk[|jstk| - |stk|..][i] == stk[i];
  }

  lemma Pushed(stk: seq<Value>, jstk: seq<Value>, v: Value)
    requires OnTop(stk, jstk)
    ensures OnTop(stk + [v], jstk + [v])
  {
    var d := |jstk| - |stk|;
    assert (jstk + [v])[d..] == jstk[d..] + [v];
  }

  lemma Popped(stk: seq<Value>, jstk: seq<Value>, n: nat)
    requires OnTop(stk, jstk) && n <= |stk|
    ensures OnTop(stk[..|stk| - n], jstk[..|jstk| - n])
  {
    var d := |jstk| - |stk|;
    assert jstk[..|jstk| - n][d..] == jstk[d..][..|stk| - n];
  }

  // ------------------------------------------------------------ instructions

  /** The IR operation of an instruction without operands. */
  function PlainOp(op: byte): IrOp
    requires IsPlainOp(op) && op != LESS && op != GREATER && op != RETURN
  {
    if op == NIL then LoadNil else if op == TRUE then LoadTrue else if op == FALSE then LoadFalse
    else if op == POP then Pop else if op == ADD then AddValue
    else if op == SUB || op == SUB_NUM then SubNumber else if op == MUL || op == MUL_NUM then MulNumber
    else if op == MOD || op == MOD_NUM then ModNumber else if op == EQUAL then Equal
    else if op == LESS_NUM then LessNum else if op == GREATER_NUM then GreaterNum
    else if op == NOT then Not else if op == ADD_NUM then AddNumber else NegNumber
  }

  lemma EqualSame(x: Value, y: Value)
    ensures JitEqual(x, y) == ValuesEqual(x, y) || (x.Number? && y.Number?)
    ensures x.Number? && y.Number? ==> JitEqual(x, y) == ValuesEqual(x, y)
  {
  }

  /** Two-operand instructions compute the same value. */
  lemma BinarySame(op: byte, x: Value, y: Value)
    requires IsPlainOp(op) && op != LESS && op != GREATER && op != RETURN && Uses(Plain(op)) == 2
    ensures IrBinary(PlainOp(op), x, y) == Binary(op, x, y)
  {
    hide Wrap64, TruncMod, F64;
    EqualSame(x, y);
  }

  lemma PushSame(op: byte, p: Lowered, l: seq<Value>, stk: seq<Value>, jstk: seq<Value>)
    requires (op == NIL || op == TRUE || op == FALSE) && OnTop(stk, jstk)
    ensures SameEffect(ExecPlain(op, l, stk), IrExec(Ir(PlainOp(op), 0, 0), p, l, jstk))
  {
    var v := if op == NIL then Nil else Bool(op == TRUE);
    Pushed(stk, jstk, v);
  }

  lemma UnarySame(op: byte, p: Lowered, l: seq<Value>, stk: seq<Value>, jstk: seq<Value>)
    requires (op == POP || op == NOT || op == NEGATE) && OnTop(stk, jstk) && Disciplined(Plain(op), stk)
    ensures SameEffect(ExecPlain(op, l, stk), IrExec(Ir(PlainOp(op), 0, 0), p, l, jstk))
  {
    if op == NEGATE { NegateSame(p, l, stk, jstk); }
    else {
      var top := stk[|stk| - 1];
      TopOf(stk, jstk, |stk| - 1);
      Popped(stk, jstk, 1);
      if op == NOT { Pushed(stk[..|stk| - 1], jstk[..|jstk| - 1], Bool(!Truthy(top))); }
    }
  }

  lemma NegateSame(p: Lowered, l: seq<Value>, stk: seq<Value>, jstk: seq<Value>)
    requires OnTop(stk, jstk) && Disciplined(Plain(NEGATE), stk)
    ensures SameEffect(ExecPlain(NEGATE, l, stk), IrExec(Ir(NegNumber, 0, 0), p, l, jstk))
  {
    NegateIs(p, l, jstk);
    hide Wrap64, F64, IntValue, IrExec;
    var top := stk[|stk| - 1];
    TopOf(stk, jstk, |stk| - 1);
    Popped(stk, jstk, 1);
    if top.Number? { Pushed(stk[..|stk| - 1], jstk[..|jstk| - 1], IntValue(Wrap64(-top.i))); }
  }

  lemma NegateIs(p: Lowered, l: seq<Value>, stk: seq<Value>)
    requires |stk| >= 1
    ensures var top := stk[|stk| - 1];
            IrExec(Ir(NegNumber, 0, 0), p, l, stk) ==
            if top.Number? then Next(l, stk[..|stk| - 1] + [IntValue(Wrap64(-top.i))]) else Raise
  {
    hide Wrap64, IntValue, IrBinary, InitRange, NextRange, AddProduct;
  }

  lemma PlainIs(op: byte, l: seq<Value>, stk: seq<Value>)
    requires IsPlainOp(op) && op != RETURN && Uses(Plain(op)) == 2 && |stk| >= 2
    ensures ExecPlain(op, l, stk) == match Binary(op, stk[|stk| - 2], stk[|stk| - 1])
                                     case Some(v) => Next(l, stk[..|stk| - 2] + [v])
                                     case None => Raise
  {
    hide Binary;
  }

  lemma IrIs(op: byte, p: Lowered, l: seq<Value>, stk: seq<Value>)
    requires IsPlainOp(op) && op != LESS && op != GREATER && op != RETURN && Uses(Plain(op)) == 2 && |stk| >= 2
    ensures IrExec(Ir(PlainOp(op), 0, 0), p, l, stk) ==
            match IrBinary(PlainOp(op), stk[|stk| - 2], stk[|stk| - 1])
            case Some(v) => Next(l, stk[..|stk| - 2] + [v])
            case None => Raise
  {
    hide IrBinary, InitRange, NextRange, AddProduct;
  }

  lemma BinaryEffect(op: byte, p: Lowered, l: seq<Value>, stk: seq<Value>, jstk: seq<Value>)
    requires IsPlainOp(op) && op != LESS && op != GREATER && op != RETURN && Uses(Plain(op)) == 2
    requires OnTop(stk, jstk) && |stk| >= 2
    ensures SameEffect(ExecPlain(op, l, stk), IrExec(Ir(PlainOp(op), 0, 0), p, l, jstk))
  {
    PlainIs(op, l, stk);
    IrIs(op, p, l, jstk);
    hide Binary, IrBinary, ExecPlain, IrExec;
    var x, y := stk[|stk| - 2], stk[|stk| - 1];
    TopOf(stk, jstk, |stk| - 1);
    TopOf(stk, jstk, |stk| - 2);
    BinarySame(op, x, y);
    Popped(stk, jstk, 2);
    if Binary(op, x, y).Some? { Pushed(stk[..|stk| - 2], jstk[..|jstk| - 2], Binary(op, x, y).value); }
  }

  lemma JumpSame(op: byte, p: Lowered, i: Ir, l: seq<Value>, stk: seq<Value>, jstk: seq<Value>)
    requires op == JUMP || op == LOOP || op == JUMP_IF_FALSE || op == JUMP_IF_TRUE
    requires i.op == if op == JUMP_IF_FALSE then IrJumpIfFalse else if op == JUMP_IF_TRUE then IrJumpIfTrue else IrJump
    requires OnTop(stk, jstk) && (op == JUMP || op == LOOP || |stk| >= 1)
    ensures SameEffect(ExecJump(op, l, stk), IrExec(i, p, l, jstk))
  {
    if |stk| >= 1 { TopOf(stk, jstk, |stk| - 1); }
  }

  lemma InitSame(ins: Instr, p: Lowered, i: Ir, l: seq<Value>, stk: seq<Value>, jstk: seq<Value>)
    requires ins.RangeInit? && i.op == RangeInitFast && i.operand < |p.meta|
    requires p.meta[i.operand] == InitMeta(ins.cur, ins.end, ins.step, ins.argc)
    requires OnTop(stk, jstk) && ins.argc <= |stk| && ins.argc != 3
    ensures SameEffect(ExecRangeInit(ins, l, stk), IrExec(i, p, l, jstk))
  {
    RangeIs(i, p, l, jstk);
    hide Wrap64, F64, IntValue, IrExec;
    var n := |stk|;
    Popped(stk, jstk, ins.argc);
    if 1 <= ins.argc { TopOf(stk, jstk, n - 1); }
    if 2 <= ins.argc { TopOf(stk, jstk, n - 2); }
  }

  lemma NextSame(ins: Instr, p: Lowered, i: Ir, l: seq<Value>, stk: seq<Value>, jstk: seq<Value>)
    requires ins.RangeNext? && i.op == RangeNextFast && i.aux < |p.meta|
    requires p.meta[i.aux] == NextMeta(ins.cur, ins.end, ins.step, ins.val) && OnTop(stk, jstk)
    ensures SameEffect(ExecRangeNext(ins, l, stk), IrExec(i, p, l, jstk))
  {
    RangeIs(i, p, l, jstk);
    hide Wrap64, F64, IrExec;
  }

  lemma RangeIs(i: Ir, p: Lowered, l: seq<Value>, stk: seq<Value>)
    ensures i.op == RangeInitFast ==> IrExec(i, p, l, stk) == InitRange(i, p, l, stk)
    ensures i.op == RangeNextFast ==> IrExec(i, p, l, stk) == NextRange(i, p, l, stk)
  {
    hide InitRange, NextRange, IrBinary, AddProduct;
  }

  // ---------------------------------------------------------------- one step

  /** The byte-level instruction that an accepted opcode decodes to. */
  lemma DecodeLowered(code: seq<byte>, pool: seq<Value>, p: Lowered, i: Ir, o: int)
    requires Lowers(code, pool, o, i, p.constants, p.meta) && code[o] != ADD_LOCAL_MUL_LOCAL
    ensures Decode(code, o).Some?
    ensures var ins := Decode(code, o).value;
            var op := code[o];
            Size(ins) == SizeAt(code, o) &&
            match ins
            case Plain(z) => z == op && IsPlainOp(op) && op != LESS && op != GREATER && (op != RETURN ==> i.op == PlainOp(op)) &&
              (op == RETURN ==> i.op == IrReturn)
            case Slot(z, s) => z == op && i.operand == s && (op == GET_LOCAL || op == SET_LOCAL) &&
              i.op == (if op == GET_LOCAL then LoadLocal else SetLocal)
            case Const(k) => i.op == LoadConst && k < |pool| && i.operand < |p.constants| && p.constants[i.operand] == pool[k]
            case Jump(z, t) => z == op && Jumps(i.op) && i.op != RangeNextFast &&
              (op == JUMP || op == LOOP || op == JUMP_IF_FALSE || op == JUMP_IF_TRUE) &&
              i.op == (if op == JUMP_IF_FALSE then IrJumpIfFalse else if op == JUMP_IF_TRUE then IrJumpIfTrue else IrJump)
            case RangeInit(c, e, st, n) => i.op == RangeInitFast && i.operand < |p.meta| &&
              p.meta[i.operand] == InitMeta(c, e, st, n)
            case RangeNext(c, e, st, v, t) => i.op == RangeNextFast && i.aux < |p.meta| && p.meta[i.aux] == NextMeta(c, e, st, v)
            case _ => false
  {
  }

  /** Its jump leads where the pass recorded. */
  lemma TargetLowered(code: seq<byte>, pool: seq<Value>, p: Lowered, i: Ir, o: int)
    requires Lowers(code, pool, o, i, p.constants, p.meta) && code[o] != ADD_LOCAL_MUL_LOCAL
    requires Jumps(RuleOf(code[o]).value.op) && Decode(code, o).Some?
    ensures var ins := Decode(code, o).value;
            TargetOf(code, o, RuleOf(code[o]).value) ==
            if IsBackward(ins) then o + Size(ins) - Operand(ins) else o + Size(ins) + Operand(ins)
  {
  }

  /** One instruction has the same effect in both. */
  lemma ExecSame(code: seq<byte>, pool: seq<Value>, p: Lowered, i: Ir, o: int, l: seq<Value>, stk: seq<Value>,
                 jstk: seq<Value>)
    requires Lowers(code, pool, o, i, p.constants, p.meta) && code[o] != ADD_LOCAL_MUL_LOCAL && Decode(code, o).Some?
    requires OnTop(stk, jstk) && Disciplined(Decode(code, o).value, stk)
    ensures SameEffect(Exec(Decode(code, o).value, pool, l, stk), IrExec(i, p, l, jstk))
  {
    hide Decode, Lowers, ExecPlain, ExecJump, ExecRangeInit, ExecRangeNext, OnTop, SizeAt, PlainOp, InitRange,
         NextRange, AddProduct, IrBinary;
    DecodeLowered(code, pool, p, i, o);
    var ins := Decode(code, o).value;
    match ins
    case Plain(op) =>
      if op == RETURN { ReturnSame(p, i, l, stk, jstk); }
      else {
        OperandFree(i, p, l, jstk, op);
        if Uses(ins) == 0 { PushSame(op, p, l, stk, jstk); }
        else if Uses(ins) == 1 { UnarySame(op, p, l, stk, jstk); }
        else { BinaryEffect(op, p, l, stk, jstk); }
      }
    case Slot(op, s) => SlotSame(op, s, p, i, l, stk, jstk);
    case Const(k) => Pushed(stk, jstk, pool[k]);
    case Jump(op, _) => JumpSame(op, p, i, l, stk, jstk);
    case RangeInit(_, _, _, _) => InitSame(ins, p, i, l, stk, jstk);
    case RangeNext(_, _, _, _, _) => NextSame(ins, p, i, l, stk, jstk);
    case _ =>
  }

  lemma ReturnSame(p: Lowered, i: Ir, l: seq<Value>, stk: seq<Value>, jstk: seq<Value>)
    requires i.op == IrReturn && OnTop(stk, jstk) && |stk| >= 1
    ensures SameEffect(ExecPlain(RETURN, l, stk), IrExec(i, p, l, jstk))
  {
    TopOf(stk, jstk, |stk| - 1);
  }

  /** SET_LOCAL leaves its operand under the JIT's stack. */
  lemma SlotSame(op: byte, s: nat, p: Lowered, i: Ir, l: seq<Value>, stk: seq<Value>, jstk: seq<Value>)
    requires op == GET_LOCAL || op == SET_LOCAL
    requires i.operand == s && i.op == (if op == GET_LOCAL then LoadLocal else SetLocal)
    requires OnTop(stk, jstk) && (op == SET_LOCAL ==> |stk| == 1)
    ensures SameEffect(ExecSlot(op, s, l, stk), IrExec(i, p, l, jstk))
  {
    if op == GET_LOCAL {
      if s < |l| { Pushed(stk, jstk, l[s]); }
    } else {
      TopOf(stk, jstk, 0);
      assert jstk[|jstk|..] == [];
    }
  }

  lemma OperandFree(i: Ir, p: Lowered, l: seq<Value>, jstk: seq<Value>, op: byte)
    requires IsPlainOp(op) && op != LESS && op != GREATER && op != RETURN && i.op == PlainOp(op)
    ensures IrExec(i, p, l, jstk) == IrExec(Ir(PlainOp(op), 0, 0), p, l, jstk)
  {
    hide IrBinary;
  }

  /** Every state the machine may be in allows its next instruction to be
      simulated. */
  ghost predicate StepFits(code: seq<byte>, st: Status) {
    st.Running? && 0 <= st.pc < |code| ==>
      code[st.pc] != ADD_LOCAL_MUL_LOCAL &&
      (Decode(code, st.pc).Some? ==> Disciplined(Decode(code, st.pc).value, st.stk))
  }

  lemma StepSimulated(code: seq<byte>, pool: seq<Value>, p: Lowered, index: map<int, nat>, st: Status, j: JState)
    requires Corresponds(code, pool, p, index) && Related(index, st, j) && StepFits(code, st)
    ensures Related(index, Step(code, pool, st), IrStep(p, j))
  {
    hide Decode, Exec, IrExec, RuleOf, Lowers, TargetOf, Disciplined, OnTop;
    if st.Running? {
      var o := st.pc;
      if o == |code| {
        EndFaults(code);
      } else {
        assert OffsetOk(code, pool, p, index, o);
        InstructionLands(code, pool, p, index, o, st.l, st.stk, j.stk);
      }
    }
  }

  /** Where the instruction at an indexed offset leads in both. */
  lemma InstructionLands(code: seq<byte>, pool: seq<Value>, p: Lowered, index: map<int, nat>, o: int, l: seq<Value>,
                         stk: seq<Value>, jstk: seq<Value>)
    requires o in index && OffsetOk(code, pool, p, index, o) && code[o] != ADD_LOCAL_MUL_LOCAL && OnTop(stk, jstk)
    requires Decode(code, o).Some? ==> Disciplined(Decode(code, o).value, stk)
    ensures Related(index, Step(code, pool, Running(o, l, stk)), IrStep(p, JRunning(index[o], l, jstk)))
  {
    hide Decode, Exec, IrExec, RuleOf, Lowers, TargetOf, Disciplined, OnTop, SizeAt, Related, Size;
    var i := p.ir[index[o]];
    NextAndTarget(code, pool, p, index, o);
    var ins := Decode(code, o).value;
    ExecSame(code, pool, p, i, o, l, stk, jstk);
    OnlyJumpsBranch(code, pool, p, i, o, l, jstk);
    ReturnsLeave(code, pool, p, i, o, l, jstk);
    EffectLands(index, Exec(ins, pool, l, stk), IrExec(i, p, l, jstk), o + Size(ins), Landing(ins, o), index[o],
                i.operand, l);
  }

  lemma NextAndTarget(code: seq<byte>, pool: seq<Value>, p: Lowered, index: map<int, nat>, o: int)
    requires o in index && OffsetOk(code, pool, p, index, o) && code[o] != ADD_LOCAL_MUL_LOCAL
    ensures Decode(code, o).Some? && RuleOf(code[o]).Some?
    ensures var ins, i := Decode(code, o).value, p.ir[index[o]];
            (code[o] != RETURN ==> o + Size(ins) in index && index[o + Size(ins)] == index[o] + 1) &&
            (Jumps(RuleOf(code[o]).value.op) ==> Landing(ins, o) in index && i.operand == index[Landing(ins, o)])
  {
    hide Decode, RuleOf, Lowers, TargetOf, Operand, IsBackward;
    LowersDecode(code, pool, p, p.ir[index[o]], o);
  }

  /** An accepted opcode decodes, to the length and target that the pass used. */
  lemma LowersDecode(code: seq<byte>, pool: seq<Value>, p: Lowered, i: Ir, o: int)
    requires Lowers(code, pool, o, i, p.constants, p.meta) && code[o] != ADD_LOCAL_MUL_LOCAL
    ensures Decode(code, o).Some? && RuleOf(code[o]).Some? && o + RuleOf(code[o]).value.size <= |code|
    ensures var ins := Decode(code, o).value;
            Size(ins) == RuleOf(code[o]).value.size &&
            (Jumps(RuleOf(code[o]).value.op) ==> TargetOf(code, o, RuleOf(code[o]).value) == Landing(ins, o))
  {
    hide Decode, RuleOf, Lowers, TargetOf, Operand, IsBackward;
    DecodeLowered(code, pool, p, i, o);
    LowersSize(code, pool, o, i, p.constants, p.meta);
    if Jumps(RuleOf(code[o]).value.op) { TargetLowered(code, pool, p, i, o); }
  }

  lemma EffectLands(index: map<int, nat>, a: Effect, b: Effect, after: int, target: int, ip: nat, operand: nat, l: seq<Value>)
    requires SameEffect(a, b)
    requires b.Next? ==> after in index && index[after] == ip + 1
    requires b.Branch? ==> target in index && index[target] == operand
    ensures Related(index, Apply(a, after, target, l),
                    match b
                    case Next(l', stk') => JRunning(ip + 1, l', stk')
                    case Branch(l', stk') => JRunning(operand, l', stk')
                    case Leave(v) => JReturned(v)
                    case Raise => JError)
  {
    hide OnTop;
  }

  lemma EndFaults(code: seq<byte>)
    ensures Decode(code, |code|) == None
  {
  }

  lemma OnlyJumpsBranch(code: seq<byte>, pool: seq<Value>, p: Lowered, i: Ir, o: int, l: seq<Value>, stk: seq<Value>)
    requires Lowers(code, pool, o, i, p.constants, p.meta)
    ensures IrExec(i, p, l, stk).Branch? ==> Jumps(RuleOf(code[o]).value.op)
  {
    LowersSize(code, pool, o, i, p.constants, p.meta);
    hide RuleOf, IrBinary, Lowers;
  }

  lemma ReturnsLeave(code: seq<byte>, pool: seq<Value>, p: Lowered, i: Ir, o: int, l: seq<Value>, stk: seq<Value>)
    requires Lowers(code, pool, o, i, p.constants, p.meta)
    ensures code[o] == RETURN ==> !IrExec(i, p, l, stk).Next? && !IrExec(i, p, l, stk).Branch?
  {
    hide RuleOf, Lowers, IrExec;
    LowersSize(code, pool, o, i, p.constants, p.meta);
    if i.op == IrReturn { ReturnOnlyLeaves(i, p, l, stk); }
  }

  lemma ReturnOnlyLeaves(i: Ir, p: Lowered, l: seq<Value>, stk: seq<Value>)
    requires i.op == IrReturn
    ensures !IrExec(i, p, l, stk).Next? && !IrExec(i, p, l, stk).Branch?
  {
  }

  /** A run in which every state allows the next step. */
  ghost predicate RunFits(code: seq<byte>, pool: seq<Value>, st: Status, n: nat)
    decreases n
  {
    n > 0 ==> StepFits(code, st) && RunFits(code, pool, Step(code, pool, st), n - 1)
  }

  lemma {:induction false} RunSimulated(code: seq<byte>, pool: seq<Value>, p: Lowered, index: map<int, nat>, st: Status,
                                        j: JState, n: nat)
    requires Corresponds(code, pool, p, index) && Related(index, st, j) && RunFits(code, pool, st, n)
    ensures Related(index, Run(code, pool, st, n), IrRun(p, j, n))
    decreases n
  {
    hide Step, IrStep, Corresponds, Related, StepFits;
    if n > 0 {
      StepSimulated(code, pool, p, index, st, j);
      RunSimulated(code, pool, p, index, Step(code, pool, st), IrStep(p, j), n - 1);
    }
  }

  // ----------------------------------------------------- where it would not

  /** After SET_LOCAL the bytecode's stack is still on top of the JIT's if and
      only if the operands below the consumed one repeat it: with one operand
      always, with two different ones never. */
  lemma SetLocalExactly(stk: seq<Value>, jstk: seq<Value>)
    requires OnTop(stk, jstk) && |stk| >= 1
    ensures OnTop(stk[..|stk| - 1], jstk) <==> stk[..|stk| - 1] == stk[1..]
  {
    var d := |jstk| - |stk|;
    assert jstk[d + 1..] == jstk[d..][1..] == stk[1..];
    assert |jstk| - |stk[..|stk| - 1]| == d + 1;
  }
}
