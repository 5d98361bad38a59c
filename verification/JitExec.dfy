/** The executor: encoded instructions, a locals array that is updated in place,
    and a stack. */
module JitExec {
  import opened Options
  import opened Machine
  import opened JitIr

  /** An instruction as a backend encodes it. */
  datatype Instruction = Instruction(opcode: byte, operand: nat, aux: nat)

  ghost predicate Encodes(code: seq<Instruction>, ir: seq<Ir>, base: byte) {
    |code| == |ir| &&
    forall i :: 0 <= i < |ir| ==> code[i] == Instruction(OpcodeFor(ir[i].op, base), ir[i].operand, ir[i].aux)
  }

  method EncodeInstructions(ir: seq<Ir>, base: byte) returns (code: seq<Instruction>)
    ensures Encodes(code, ir, base)
  {
    code := [];
    for i := 0 to |ir|
      invariant Encodes(code, ir[..i], base)
    {
      code := code + [Instruction(OpcodeFor(ir[i].op, base), ir[i].operand, ir[i].aux)];
    }
    assert ir[..|ir|] == ir;
  }

  /** How one instruction ends. */
  datatype Outcome = Continue | Jumped | Finished(v: Value) | Failed

  /** The instruction did to the array and the stack what `e` says. */
  ghost predicate Did(e: Effect, outcome: Outcome, l: seq<Value>, stk: seq<Value>) {
    match e
    case Next(l', stk') => outcome == Continue && l == l' && stk == stk'
    case Branch(l', stk') => outcome == Jumped && l == l' && stk == stk'
    case Leave(v) => outcome == Finished(v)
    case Raise => outcome == Failed
  }

  /** jitInitFastRange. */
  method InitFastRange(i: Ir, p: Lowered, locals: array<Value>, stack: seq<Value>)
    returns (outcome: Outcome, stack': seq<Value>)
    requires i.op == RangeInitFast
    modifies locals
    ensures Did(InitRange(i, p, old(locals[..]), stack), outcome, locals[..], stack')
  {
    hide Wrap64, F64;
    outcome, stack' := Failed, stack;
    if i.operand >= |p.meta| || !p.meta[i.operand].InitMeta? { return; }
    var m, n := p.meta[i.operand], |stack|;
    if n < m.argc || m.cur >= locals.Length || m.end >= locals.Length || m.step >= locals.Length { return; }
    ghost var l := locals[..];
    if m.argc == 1 {
      var end := stack[n - 1];
      stack' := stack[..n - 1];
      if !end.Number? { return; }
      locals[m.cur] := IntValue(-1);
      locals[m.end] := end;
      locals[m.step] := IntValue(1);
      outcome := Continue;
    } else if m.argc == 2 {
      var start, end := stack[n - 2], stack[n - 1];
      stack' := stack[..n - 2];
      if !start.Number? || !end.Number? { return; }
      var step := 1;
      if start.i > end.i { step := -1; }
      locals[m.cur] := IntValue(Wrap64(start.i - step));
      locals[m.end] := end;
      locals[m.step] := IntValue(step);
      outcome := Continue;
    }
  }

  /** jitRangeNextFast, and the copy into the loop variable. */
  method RangeNext(i: Ir, p: Lowered, locals: array<Value>, stack: seq<Value>) returns (outcome: Outcome)
    requires i.op == RangeNextFast
    modifies locals
    ensures Did(NextRange(i, p, old(locals[..]), stack), outcome, locals[..], stack)
  {
    hide Wrap64, F64;
    outcome := Failed;
    if i.aux >= |p.meta| || !p.meta[i.aux].NextMeta? { return; }
    var m := p.meta[i.aux];
    if m.cur >= locals.Length || m.end >= locals.Length || m.step >= locals.Length || m.val >= locals.Length { return; }
    var current, end, step := locals[m.cur], locals[m.end], locals[m.step];
    if !current.Number? || !end.Number? || !step.Number? { return; }
    var next := Wrap64(current.i + step.i);
    if (step.i > 0 && next >= end.i) || (step.i < 0 && next <= end.i) { return Jumped; }
    locals[m.cur] := IntValue(next);
    locals[m.val] := locals[m.cur];
    outcome := Continue;
  }

  predicate IsPush(op: IrOp) {
    op == LoadLocal || op == LoadConst || op == LoadNil || op == LoadTrue || op == LoadFalse
  }

  predicate IsOneOperand(op: IrOp) {
    op == Pop || op == Not || op == NegNumber || op == IrJumpIfFalse || op == IrJumpIfTrue || op == IrReturn
  }

  method ExecutePush(i: Ir, p: Lowered, l: seq<Value>, stack: seq<Value>) returns (outcome: Outcome, stack': seq<Value>)
    requires IsPush(i.op)
    ensures Did(IrExec(i, p, l, stack), outcome, l, stack')
  {
    outcome, stack' := Failed, stack;
    var v;
    if i.op == LoadLocal {
      if i.operand >= |l| { return; }
      v := l[i.operand];
    } else if i.op == LoadConst {
      if i.operand >= |p.constants| { return; }
      v := p.constants[i.operand];
    } else if i.op == LoadNil {
      v := Nil;
    } else {
      v := Bool(i.op == LoadTrue);
    }
    outcome, stack' := Continue, stack + [v];
  }

  method ExecuteOneOperand(i: Ir, p: Lowered, l: seq<Value>, stack: seq<Value>)
    returns (outcome: Outcome, stack': seq<Value>)
    requires IsOneOperand(i.op)
    ensures Did(IrExec(i, p, l, stack), outcome, l, stack')
  {
    hide Wrap64, F64, IntValue;
    outcome, stack' := Failed, stack;
    var n := |stack|;
    if n < 1 { return; }
    var top := stack[n - 1];
    if i.op == Pop {
      outcome, stack' := Continue, stack[..n - 1];
    } else if i.op == Not {
      outcome, stack' := Continue, stack[..n - 1] + [Bool(!Truthy(top))];
    } else if i.op == NegNumber {
      if top.Number? { outcome, stack' := Continue, stack[..n - 1] + [IntValue(Wrap64(-top.i))]; }
    } else if i.op == IrJumpIfFalse {
      outcome := if Truthy(top) then Continue else Jumped;
    } else if i.op == IrJumpIfTrue {
      outcome := if Truthy(top) then Jumped else Continue;
    } else {
      outcome := Finished(top);
    }
  }

  /** The operations on two operands; the ones that are not modelled fail. */
  method ExecuteTwoOperand(i: Ir, p: Lowered, l: seq<Value>, stack: seq<Value>)
    returns (outcome: Outcome, stack': seq<Value>)
    requires !IsPush(i.op) && !IsOneOperand(i.op) && i.op != SetLocal && i.op != RangeInitFast && i.op != RangeNextFast
    requires i.op != AddLocalMulLocal && i.op != IrJump
    ensures Did(IrExec(i, p, l, stack), outcome, l, stack')
  {
    hide IrBinary;
    outcome, stack' := Failed, stack;
    var n := |stack|;
    if n < 2 { return; }
    var result := IrBinary(i.op, stack[n - 2], stack[n - 1]);
    if result.Some? { outcome, stack' := Continue, stack[..n - 2] + [result.value]; }
  }

  /** One case of the executor's switch. */
  method ExecuteOne(i: Ir, p: Lowered, locals: array<Value>, stack: seq<Value>) returns (outcome: Outcome, stack': seq<Value>)
    modifies locals
    ensures Did(IrExec(i, p, old(locals[..]), stack), outcome, locals[..], stack')
  {
    hide Wrap64, F64, InitRange, NextRange, IrBinary;
    outcome, stack' := Failed, stack;
    var n := |stack|;
    if i.op == SetLocal {
      if n < 1 || i.operand >= locals.Length { return; }
      locals[i.operand] := stack[n - 1];
      outcome := Continue;
    } else if i.op == RangeInitFast {
      outcome, stack' := InitFastRange(i, p, locals, stack);
    } else if i.op == RangeNextFast {
      outcome := RangeNext(i, p, locals, stack);
    } else if i.op == AddLocalMulLocal {
      outcome := AddLocalProduct(i, locals, stack);
    } else if i.op == IrJump {
      outcome := Jumped;
    } else if IsPush(i.op) {
      outcome, stack' := ExecutePush(i, p, locals[..], stack);
    } else if IsOneOperand(i.op) {
      outcome, stack' := ExecuteOneOperand(i, p, locals[..], stack);
    } else {
      outcome, stack' := ExecuteTwoOperand(i, p, locals[..], stack);
    }
  }

  /** jitAddLocalMulLocal. */
  method AddLocalProduct(i: Ir, locals: array<Value>, stack: seq<Value>) returns (outcome: Outcome)
    modifies locals
    ensures Did(AddProduct(i.operand % 256, i.operand / 256 % 256, i.aux, old(locals[..]), stack), outcome, locals[..], stack)
  {
    hide Wrap64, F64;
    var t, a, b := i.operand % 256, i.operand / 256 % 256, i.aux;
    if t >= locals.Length || a >= locals.Length || b >= locals.Length { return Failed; }
    if !locals[t].Number? || !locals[a].Number? || !locals[b].Number? { return Failed; }
    locals[t] := IntValue(Wrap64(locals[t].i + Wrap64(locals[a].i * locals[b].i)));
    return Continue;
  }

  /** executeProgram for `steps` turns of its loop, on either backend. */
  method ExecuteProgram(code: seq<Instruction>, base: byte, p: Lowered, locals: array<Value>, steps: nat)
    returns (state: JState)
    requires (base == WINDOWS_BASE || base == POSIX_BASE) && Encodes(code, p.ir, base)
    modifies locals
    ensures state == IrRun(p, JRunning(0, old(locals[..]), []), steps)
    ensures state.JRunning? ==> state.l == locals[..]
  {
    hide OpcodeFor, Dispatch, IrExec;
    ghost var start := JRunning(0, locals[..], []);
    var ip, stack: seq<Value> := 0, [];
    for n := 0 to steps
      invariant IrRun(p, start, steps) == IrRun(p, JRunning(ip, locals[..], stack), steps - n)
    {
      if !(0 <= ip < |code|) {
        Stays(p, JError, steps - n - 1);
        return JError;
      }
      var instruction := code[ip];
      DispatchFinds(p.ir[ip].op, base);
      var op := Dispatch(instruction.opcode, base).value;
      var outcome;
      outcome, stack := ExecuteOne(Ir(op, instruction.operand, instruction.aux), p, locals, stack);
      match outcome
      case Continue => ip := ip + 1;
      case Jumped => ip := instruction.operand;
      case Finished(v) =>
        Stays(p, JReturned(v), steps - n - 1);
        return JReturned(v);
      case Failed =>
        Stays(p, JError, steps - n - 1);
        return JError;
    }
    return JRunning(ip, locals[..], stack);
  }

  lemma {:induction false} Stays(p: Lowered, st: JState, n: nat)
    requires !st.JRunning?
    ensures IrRun(p, st, n) == st
  {
    if n > 0 { Stays(p, st, n - 1); }
  }
}
