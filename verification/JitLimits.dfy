/** Functions on which the JIT and the bytecode differ, and exactly when their
    steps do. */
module JitLimits {
  import opened Options
  import opened Machine
  import opened JitIr
  import opened JitLower
  import opened JitCompile
  import opened JitCorrect
  import opened JitSound
  import opened ScriptCorrect

  const TWO_OPERANDS: seq<byte> := [TRUE, FALSE, SET_LOCAL, 0, RETURN]

  /** SET_LOCAL over a second operand: accepted, but the results differ. */
  lemma SetLocalDiverges(v: Value)
    ensures Lower(TWO_OPERANDS, []).Some?
    ensures Run(TWO_OPERANDS, [], Running(0, [v], []), 4) == Returned(Bool(true), [Bool(false)])
    ensures IrRun(Lower(TWO_OPERANDS, []).value.0, JRunning(0, [v], []), 4) == JReturned(Bool(false))
  {
    var code := TWO_OPERANDS;
    LowerTwoOperands();
    var p := Lower(code, []).value.0;
    hide Lower;
    MachineSteps(v);
    ExecutorSteps(p, v);
    hide Step, IrStep;
    FourSteps(code, [], Running(0, [v], []));
    FourIrSteps(p, JRunning(0, [v], []));
  }

  lemma MachineSteps(v: Value)
    ensures var t, f := Bool(true), Bool(false); var code := TWO_OPERANDS;
            Step(code, [], Running(0, [v], [])) == Running(1, [v], [t]) &&
            Step(code, [], Running(1, [v], [t])) == Running(2, [v], [t, f]) &&
            Step(code, [], Running(2, [v], [t, f])) == Running(4, [f], [t]) &&
            Step(code, [], Running(4, [f], [t])) == Returned(t, [f])
  {
    hide Binary, ExecJump, ExecRangeInit, ExecRangeNext, ExecConstJump, ExecCmpJump;
    var code := TWO_OPERANDS;
    assert Decode(code, 0) == Some(Plain(TRUE)) && Decode(code, 1) == Some(Plain(FALSE));
    assert Decode(code, 2) == Some(Slot(SET_LOCAL, 0)) && Decode(code, 4) == Some(Plain(RETURN));
    hide Decode;
  }

  lemma ExecutorSteps(p: Lowered, v: Value)
    requires p.ir == [Ir(LoadTrue, 0, 0), Ir(LoadFalse, 0, 0), Ir(SetLocal, 0, 0), Ir(IrReturn, 0, 0)]
    ensures var t, f := Bool(true), Bool(false);
            IrStep(p, JRunning(0, [v], [])) == JRunning(1, [v], [t]) &&
            IrStep(p, JRunning(1, [v], [t])) == JRunning(2, [v], [t, f]) &&
            IrStep(p, JRunning(2, [v], [t, f])) == JRunning(3, [f], [t, f]) &&
            IrStep(p, JRunning(3, [f], [t, f])) == JReturned(f)
  {
    hide IrStep;
    var t, f := Bool(true), Bool(false);
    assert IrStep(p, JRunning(0, [v], [])) == JRunning(1, [v], [t]) by {
      LoadStep(p, 0, [v], []);
      assert [] + [t] == [t];
    }
    assert IrStep(p, JRunning(1, [v], [t])) == JRunning(2, [v], [t, f]) by {
      LoadStep(p, 1, [v], [t]);
      assert [t] + [f] == [t, f];
    }
    assert IrStep(p, JRunning(2, [v], [t, f])) == JRunning(3, [f], [t, f]) by { SetStep(p, 2, v, [t, f]); }
    assert IrStep(p, JRunning(3, [f], [t, f])) == JReturned(f) by { ReturnStep(p, 3, [f], [t, f]); }
  }

  lemma LoadStep(p: Lowered, ip: nat, l: seq<Value>, stk: seq<Value>)
    requires ip < |p.ir| && (p.ir[ip].op == LoadTrue || p.ir[ip].op == LoadFalse)
    ensures IrStep(p, JRunning(ip, l, stk)) == JRunning(ip + 1, l, stk + [Bool(p.ir[ip].op == LoadTrue)])
  {
    hide IrBinary, InitRange, NextRange, AddProduct;
  }

  lemma SetStep(p: Lowered, ip: nat, v: Value, stk: seq<Value>)
    requires ip < |p.ir| && p.ir[ip] == Ir(SetLocal, 0, 0) && |stk| > 0
    ensures IrStep(p, JRunning(ip, [v], stk)) == JRunning(ip + 1, [stk[|stk| - 1]], stk)
  {
    hide IrBinary, InitRange, NextRange, AddProduct;
    assert [v][0 := stk[|stk| - 1]] == [stk[|stk| - 1]];
  }

  lemma ReturnStep(p: Lowered, ip: nat, l: seq<Value>, stk: seq<Value>)
    requires ip < |p.ir| && p.ir[ip].op == IrReturn && |stk| > 0
    ensures IrStep(p, JRunning(ip, l, stk)) == JReturned(stk[|stk| - 1])
  {
    hide IrBinary, InitRange, NextRange, AddProduct;
  }

  lemma FourSteps(code: seq<byte>, pool: seq<Value>, st: Status)
    ensures Run(code, pool, st, 4) == Step(code, pool, Step(code, pool, Step(code, pool, Step(code, pool, st))))
  {
    hide Step;
    var a := Step(code, pool, st);
    var b := Step(code, pool, a);
    var c := Step(code, pool, b);
    assert Run(code, pool, st, 4) == Run(code, pool, a, 3) == Run(code, pool, b, 2) == Run(code, pool, c, 1);
    assert Run(code, pool, c, 1) == Run(code, pool, Step(code, pool, c), 0);
  }

  lemma FourIrSteps(p: Lowered, st: JState)
    ensures IrRun(p, st, 4) == IrStep(p, IrStep(p, IrStep(p, IrStep(p, st))))
  {
    hide IrStep;
    var a := IrStep(p, st);
    var b := IrStep(p, a);
    var c := IrStep(p, b);
    assert IrRun(p, st, 4) == IrRun(p, a, 3) == IrRun(p, b, 2) == IrRun(p, c, 1);
    assert IrRun(p, c, 1) == IrRun(p, IrStep(p, c), 0);
  }

  // --------------------------------------------------------------- lowering

  /** The pass after one more instruction without a jump. */
  function After(s: Scan, i: Ir, size: nat, delta: int): Scan {
    var depth := s.depth + delta;
    s.(offset := s.offset + size, depth := depth, maxStack := if depth > s.maxStack then depth else s.maxStack,
       ir := s.ir + [i], index := s.index[s.offset := |s.ir|])
  }

  /** Nothing jumps to the current offset. */
  predicate Unjumped(s: Scan) { s.depths == map[] && s.patches == [] }

  lemma PlainTurn(code: seq<byte>, pool: seq<Value>, s: Scan, rule: Rule)
    requires s.offset + rule.size <= |code| && s.offset < |code| && RuleOf(code[s.offset]) == Some(rule) && Unjumped(s)
    requires rule.op != LoadConst && rule.op != RangeInitFast && !Jumps(rule.op) && rule.op != AddLocalMulLocal
    requires s.depth >= rule.needs >= 0 && code[s.offset] != RETURN && rule.size >= 1
    ensures var i := Ir(rule.op, if rule.size == 2 then code[s.offset + 1] else 0, 0);
            LowerFrom(code, pool, s) == LowerFrom(code, pool, After(s, i, rule.size, rule.delta))
  {
    hide LowerFrom, RuleOf, Turn;
    var i := Ir(rule.op, if rule.size == 2 then code[s.offset + 1] else 0, 0);
    assert LoweredPlain(code, s, Moved(code, s, rule), rule) == After(s, i, rule.size, rule.delta);
    PlainGives(code, pool, s, rule, After(s, i, rule.size, rule.delta));
  }

  lemma PlainGives(code: seq<byte>, pool: seq<Value>, s: Scan, rule: Rule, t: Scan)
    requires s.offset + rule.size <= |code| && s.offset < |code| && RuleOf(code[s.offset]) == Some(rule) && Unjumped(s)
    requires rule.op != LoadConst && rule.op != RangeInitFast && !Jumps(rule.op) && rule.op != AddLocalMulLocal
    requires s.depth >= rule.needs >= 0 && code[s.offset] != RETURN && t.offset > s.offset
    requires LoweredPlain(code, s, Moved(code, s, rule), rule) == t
    ensures LowerFrom(code, pool, s) == LowerFrom(code, pool, t)
  {
    hide LoweredConst, LoweredInit, LoweredNext, LoweredJump, LoweredPlain, RuleOf, Finish, Moved;
  }

  /** A constant with a key that is or is not known. */
  lemma ConstTurn(code: seq<byte>, pool: seq<Value>, s: Scan, v: Value)
    requires s.offset + 3 <= |code| && code[s.offset] == CONSTANT && code[s.offset + 1] == 0 && code[s.offset + 2] == 0
    requires pool == [v] && Unjumped(s) && s.depth >= 0
    requires if CacheKey(v) in s.keys then s.keys[CacheKey(v)] == 0 else s.constants == []
    ensures var t := After(s, Ir(LoadConst, 0, 0), 3, 1);
            LowerFrom(code, pool, s) ==
            LowerFrom(code, pool, if CacheKey(v) in s.keys then t
                                  else t.(constants := [v], keys := s.keys[CacheKey(v) := 0]))
  {
    hide CacheKey, LowerFrom;
    var t := After(s, Ir(LoadConst, 0, 0), 3, 1);
    var t' := if CacheKey(v) in s.keys then t else t.(constants := [v], keys := s.keys[CacheKey(v) := 0]);
    var next := Moved(code, s, Rule(LoadConst, 3, 0, 1));
    assert ReadUint16(code, s.offset + 1) == 0;
    assert [] + [v] == [v];
    assert LoweredConst(code, pool, s, next) == Some(t');
    TurnGives(code, pool, s, t');
  }

  lemma TurnGives(code: seq<byte>, pool: seq<Value>, s: Scan, t: Scan)
    requires s.offset + 3 <= |code| && code[s.offset] == CONSTANT && s.depth >= 0 && Unjumped(s) && t.offset > s.offset
    requires LoweredConst(code, pool, s, Moved(code, s, Rule(LoadConst, 3, 0, 1))) == Some(t)
    ensures LowerFrom(code, pool, s) == LowerFrom(code, pool, t)
  {
    hide LoweredConst, LoweredInit, LoweredNext, LoweredJump, Finish, Moved;
    assert RuleOf(CONSTANT) == Some(Rule(LoadConst, 3, 0, 1));
    hide RuleOf;
  }

  lemma EndTurn(code: seq<byte>, pool: seq<Value>, s: Scan)
    requires s.offset == |code| - 1 && code[s.offset] == RETURN && Unjumped(s) && s.depth >= 1
    ensures LowerFrom(code, pool, s).Some?
    ensures var p := LowerFrom(code, pool, s).value.0;
            p.ir == s.ir + [Ir(IrReturn, 0, 0)] && p.constants == s.constants && p.meta == s.meta
  {
    hide Turn;
  }

  lemma LowerTwoOperands()
    ensures Lower(TWO_OPERANDS, []).Some?
    ensures Lower(TWO_OPERANDS, []).value.0.ir ==
            [Ir(LoadTrue, 0, 0), Ir(LoadFalse, 0, 0), Ir(SetLocal, 0, 0), Ir(IrReturn, 0, 0)]
  {
    hide LowerFrom;
    var code := TWO_OPERANDS;
    var s1 := After(START, Ir(LoadTrue, 0, 0), 1, 1);
    var s2 := After(s1, Ir(LoadFalse, 0, 0), 1, 1);
    var s3 := After(s2, Ir(SetLocal, 0, 0), 2, 0);
    PlainTurn(code, [], START, Rule(LoadTrue, 1, 0, 1));
    PlainTurn(code, [], s1, Rule(LoadFalse, 1, 0, 1));
    PlainTurn(code, [], s2, Rule(SetLocal, 2, 1, 0));
    EndTurn(code, [], s3);
  }

  // -------------------------------------------------------------- underflow

  const NO_OPERAND: seq<byte> := [TRUE, SET_LOCAL, 0, RETURN]

  /** Returning an operand that SET_LOCAL has consumed: the executor returns it;
      the interpreter takes an operand of the callers, whose stack the frames
      share, and fails in the outermost frame. */
  lemma UnderflowDiverges(v: Value, callers: seq<Value>)
    ensures Lower(NO_OPERAND, []).Some?
    ensures Run(NO_OPERAND, [], Running(0, [v], callers), 3) ==
            if callers == [] then Fault else Returned(callers[|callers| - 1], [Bool(true)])
    ensures IrRun(Lower(NO_OPERAND, []).value.0, JRunning(0, [v], []), 3) == JReturned(Bool(true))
  {
    hide LowerFrom, Step, IrStep;
    var code, t := NO_OPERAND, Bool(true);
    var s1 := After(START, Ir(LoadTrue, 0, 0), 1, 1);
    var s2 := After(s1, Ir(SetLocal, 0, 0), 2, 0);
    PlainTurn(code, [], START, Rule(LoadTrue, 1, 0, 1));
    PlainTurn(code, [], s1, Rule(SetLocal, 2, 1, 0));
    EndTurn(code, [], s2);
    var p := Lower(code, []).value.0;
    assert p.ir == [Ir(LoadTrue, 0, 0), Ir(SetLocal, 0, 0), Ir(IrReturn, 0, 0)];
    UnderflowMachine(v, callers);
    ThreeSteps(code, [], Running(0, [v], callers));
    LoadStep(p, 0, [v], []);
    SetStep(p, 1, v, [] + [t]);
    ReturnStep(p, 2, [t], [] + [t]);
    ThreeIrSteps(p, JRunning(0, [v], []));
  }

  lemma UnderflowMachine(v: Value, under: seq<Value>)
    ensures var t := Bool(true);
            Step(NO_OPERAND, [], Running(0, [v], under)) == Running(1, [v], under + [t]) &&
            Step(NO_OPERAND, [], Running(1, [v], under + [t])) == Running(3, [t], under) &&
            Step(NO_OPERAND, [], Running(3, [t], under)) ==
            if under == [] then Fault else Returned(under[|under| - 1], [t])
  {
    hide Exec, Decode;
    UnderflowDecoded();
    UnderflowEffects(v, under);
  }

  lemma UnderflowDecoded()
    ensures Decode(NO_OPERAND, 0) == Some(Plain(TRUE)) && Decode(NO_OPERAND, 1) == Some(Slot(SET_LOCAL, 0))
    ensures Decode(NO_OPERAND, 3) == Some(Plain(RETURN))
  {
  }

  lemma UnderflowEffects(v: Value, under: seq<Value>)
    ensures Exec(Plain(TRUE), [], [v], under) == Next([v], under + [Bool(true)])
    ensures Exec(Slot(SET_LOCAL, 0), [], [v], under + [Bool(true)]) == Next([Bool(true)], under)
    ensures Exec(Plain(RETURN), [], [Bool(true)], under) == if under == [] then Raise else Leave(under[|under| - 1])
  {
    hide Binary, ExecJump, ExecRangeInit, ExecRangeNext, ExecConstJump, ExecCmpJump;
    var stk := under + [Bool(true)];
    assert stk[..|stk| - 1] == under;
  }

  lemma ThreeSteps(code: seq<byte>, pool: seq<Value>, st: Status)
    ensures Run(code, pool, st, 3) == Step(code, pool, Step(code, pool, Step(code, pool, st)))
  {
    hide Step;
    var a := Step(code, pool, st);
    var b := Step(code, pool, a);
    assert Run(code, pool, st, 3) == Run(code, pool, a, 2) == Run(code, pool, b, 1);
    assert Run(code, pool, b, 1) == Run(code, pool, Step(code, pool, b), 0);
  }

  lemma ThreeIrSteps(p: Lowered, st: JState)
    ensures IrRun(p, st, 3) == IrStep(p, IrStep(p, IrStep(p, st)))
  {
    hide IrStep;
    var a := IrStep(p, st);
    var b := IrStep(p, a);
    assert IrRun(p, st, 3) == IrRun(p, a, 2) == IrRun(p, b, 1);
    assert IrRun(p, b, 1) == IrRun(p, IrStep(p, b), 0);
  }

  /** Without an operand, RETURN, POP and NOT do the same in both exactly when
      the executor has no leftover either. */
  lemma UnderflowExactly(op: byte, p: Lowered, l: seq<Value>, jstk: seq<Value>)
    requires op == RETURN || op == POP || op == NOT
    ensures SameEffect(ExecPlain(op, l, []), IrExec(Ir(if op == RETURN then IrReturn else PlainOp(op), 0, 0), p, l, jstk)) <==>
            jstk == []
  {
    assert ExecPlain(op, l, []) == Raise;
    if op == RETURN { IrReturns(p, l, jstk); } else if op == POP { PopFails(p, l, jstk); } else { NotFails(p, l, jstk); }
  }

  /** RETURN without an operand of the frame's own: the same in both exactly when
      neither has any, or the callers' last one is the leftover. */
  lemma ReturnExactly(p: Lowered, l: seq<Value>, callers: seq<Value>, jstk: seq<Value>)
    ensures SameEffect(ExecPlain(RETURN, l, callers), IrExec(Ir(IrReturn, 0, 0), p, l, jstk)) <==>
            if callers == [] || jstk == [] then callers == jstk else callers[|callers| - 1] == jstk[|jstk| - 1]
  {
    hide IrExec, ExecPlain, OnTop;
    PlainReturns(l, callers);
    IrReturns(p, l, jstk);
  }

  lemma PlainReturns(l: seq<Value>, stk: seq<Value>)
    ensures ExecPlain(RETURN, l, stk) == if stk == [] then Raise else Leave(stk[|stk| - 1])
  {
    hide Binary, Wrap64;
  }

  lemma IrReturns(p: Lowered, l: seq<Value>, jstk: seq<Value>)
    ensures IrExec(Ir(IrReturn, 0, 0), p, l, jstk) == if jstk == [] then Raise else Leave(jstk[|jstk| - 1])
  {
    hide IrBinary, InitRange, NextRange, AddProduct, Wrap64;
  }

  lemma PopFails(p: Lowered, l: seq<Value>, jstk: seq<Value>)
    ensures IrExec(Ir(PlainOp(POP), 0, 0), p, l, jstk).Raise? <==> jstk == []
  {
    hide IrBinary, InitRange, NextRange, AddProduct;
  }

  lemma NotFails(p: Lowered, l: seq<Value>, jstk: seq<Value>)
    ensures IrExec(Ir(PlainOp(NOT), 0, 0), p, l, jstk).Raise? <==> jstk == []
  {
    hide IrBinary, InitRange, NextRange, AddProduct;
  }

  // --------------------------------------------------------------- negation

  const NEGATION: seq<byte> := [CONSTANT, 0, 0, NEGATE, RETURN]

  /** Negating 2^53 + 1: the interpreter negates its double. */
  lemma NegationDiverges(l: seq<Value>)
    ensures var pool := [IntValue(TWO_53 + 1)];
            Lower(NEGATION, pool).Some? &&
            Run(NEGATION, pool, Running(0, l, []), 3) == Returned(IntValue(-TWO_53), l) &&
            IrRun(Lower(NEGATION, pool).value.0, JRunning(0, l, []), 3) == JReturned(IntValue(-TWO_53 - 1)) &&
            IntValue(-TWO_53) != IntValue(-TWO_53 - 1)
  {
    hide Lower, Step, IrStep, F64;
    var code, v := NEGATION, IntValue(TWO_53 + 1);
    LowerNegation(v);
    var p := Lower(code, [v]).value.0;
    NegationMachine(l);
    ThreeSteps(code, [v], Running(0, l, []));
    ConstStep(p, 0, l, []);
    assert [] + [v] == [v];
    NegStep(p, 1, l, [v]);
    assert [v][..0] + [IntValue(-TWO_53 - 1)] == [IntValue(-TWO_53 - 1)];
    ReturnStep(p, 2, l, [IntValue(-TWO_53 - 1)]);
    ThreeIrSteps(p, JRunning(0, l, []));
  }

  lemma LowerNegation(v: Value)
    ensures Lower(NEGATION, [v]).Some?
    ensures var p := Lower(NEGATION, [v]).value.0;
            p.ir == [Ir(LoadConst, 0, 0), Ir(NegNumber, 0, 0), Ir(IrReturn, 0, 0)] && p.constants == [v]
  {
    hide LowerFrom, CacheKey;
    var code := NEGATION;
    ConstTurn(code, [v], START, v);
    var s1 := After(START, Ir(LoadConst, 0, 0), 3, 1).(constants := [v], keys := START.keys[CacheKey(v) := 0]);
    PlainTurn(code, [v], s1, Rule(NegNumber, 1, 1, 0));
    EndTurn(code, [v], After(s1, Ir(NegNumber, 0, 0), 1, 0));
  }

  lemma RoundedDouble()
    ensures F64(TWO_53 + 1) == TWO_53
  {
    assert Ulp(TWO_53 + 1, 1) == 2;
    assert (TWO_53 + 1) / 2 == TWO_53 / 2 && (TWO_53 / 2) % 2 == 0;
  }

  lemma NegationMachine(l: seq<Value>)
    ensures var v := IntValue(TWO_53 + 1);
            Step(NEGATION, [v], Running(0, l, [])) == Running(3, l, [v]) &&
            Step(NEGATION, [v], Running(3, l, [v])) == Running(4, l, [IntValue(-TWO_53)]) &&
            Step(NEGATION, [v], Running(4, l, [IntValue(-TWO_53)])) == Returned(IntValue(-TWO_53), l)
  {
    NegationDecodes();
    RoundedDouble();
    var v := IntValue(TWO_53 + 1);
    hide Decode, F64;
    MachineConst(NEGATION, [v], 0, l, []);
    assert [] + [v] == [v];
    MachineNegates(NEGATION, [v], 3, l, [v]);
    assert [v][..0] + [IntValue(-TWO_53)] == [IntValue(-TWO_53)];
    MachineReturns(NEGATION, [v], 4, l, [IntValue(-TWO_53)]);
  }

  lemma NegationDecodes()
    ensures Decode(NEGATION, 0) == Some(Const(0)) && Decode(NEGATION, 3) == Some(Plain(NEGATE))
    ensures Decode(NEGATION, 4) == Some(Plain(RETURN))
  {
  }

  lemma MachineConst(code: seq<byte>, pool: seq<Value>, o: int, l: seq<Value>, stk: seq<Value>)
    requires Decode(code, o) == Some(Const(0)) && |pool| > 0
    ensures Step(code, pool, Running(o, l, stk)) == Running(o + 3, l, stk + [pool[0]])
  {
    hide Decode;
  }

  lemma MachineReturns(code: seq<byte>, pool: seq<Value>, o: int, l: seq<Value>, stk: seq<Value>)
    requires Decode(code, o) == Some(Plain(RETURN)) && |stk| > 0
    ensures Step(code, pool, Running(o, l, stk)) == Returned(stk[|stk| - 1], l)
  {
    hide Decode, Binary;
  }

  lemma ConstStep(p: Lowered, ip: nat, l: seq<Value>, stk: seq<Value>)
    requires ip < |p.ir| && p.ir[ip] == Ir(LoadConst, 0, 0) && |p.constants| > 0
    ensures IrStep(p, JRunning(ip, l, stk)) == JRunning(ip + 1, l, stk + [p.constants[0]])
  {
    hide IrBinary, InitRange, NextRange, AddProduct;
  }

  lemma NegStep(p: Lowered, ip: nat, l: seq<Value>, stk: seq<Value>)
    requires ip < |p.ir| && p.ir[ip] == Ir(NegNumber, 0, 0) && |stk| > 0 && stk[|stk| - 1].Number?
    ensures IrStep(p, JRunning(ip, l, stk)) ==
            JRunning(ip + 1, l, stk[..|stk| - 1] + [IntValue(Wrap64(-stk[|stk| - 1].i))])
  {
    NegateIs(p, l, stk);
    hide IrExec, F64;
  }

  /** With its operand there, NEGATE does the same in both exactly when the
      operand is no number or its double negates to the same integer. */
  lemma NegationExactly(p: Lowered, l: seq<Value>, stk: seq<Value>, jstk: seq<Value>)
    requires OnTop(stk, jstk) && |stk| > 0
    ensures var top := stk[|stk| - 1];
            SameEffect(ExecPlain(NEGATE, l, stk), IrExec(Ir(NegNumber, 0, 0), p, l, jstk)) <==>
            (top.Number? ==> Wrap64(-Wrap64(top.f)) == Wrap64(-top.i))
  {
    hide Wrap64, F64, IrExec;
    var top := stk[|stk| - 1];
    TopOf(stk, jstk, |stk| - 1);
    NegateIs(p, l, jstk);
    Popped(stk, jstk, 1);
    if top.Number? {
      var a, b := IntValue(Wrap64(-Wrap64(top.f))), IntValue(Wrap64(-top.i));
      var s1, s2 := stk[..|stk| - 1] + [a], jstk[..|jstk| - 1] + [b];
      if a == b { Pushed(stk[..|stk| - 1], jstk[..|jstk| - 1], b); }
      if OnTop(s1, s2) { TopOf(s1, s2, |s1| - 1); }
    }
  }

  // ------------------------------------------------------------------ steps

  const STEP_RANGE: seq<byte> :=
    [CONSTANT, 0, 0, CONSTANT, 0, 0, CONSTANT, 0, 0, RANGE_INIT_FAST, 0, 1, 2, 3, NIL, RETURN]

  /** A range with a step argument: accepted, runs in the interpreter, fails in
      the executor. */
  lemma StepRangeDiverges(a: Value, b: Value, c: Value)
    ensures var pool := [IntValue(1)];
            Lower(STEP_RANGE, pool).Some? &&
            Run(STEP_RANGE, pool, Running(0, [a, b, c], []), 6).Returned? &&
            IrRun(Lower(STEP_RANGE, pool).value.0, JRunning(0, [a, b, c], []), 4) == JError
  {
    hide Lower, Step, IrStep, F64, Run;
    var code, v, l := STEP_RANGE, IntValue(1), [a, b, c];
    LowerStepRange(v);
    var p := Lower(code, [v]).value.0;
    StepRangeMachine(a, b, c);
    ConstStep(p, 0, l, []);
    ConstStep(p, 1, l, [v]);
    ConstStep(p, 2, l, [v, v]);
    assert [] + [v] == [v] && [v] + [v] == [v, v] && [v, v] + [v] == [v, v, v];
    InitFails(p, 3, l, [v, v, v]);
    FourIrSteps(p, JRunning(0, l, []));
  }

  lemma LowerStepRange(v: Value)
    ensures Lower(STEP_RANGE, [v]).Some?
    ensures var p := Lower(STEP_RANGE, [v]).value.0;
            |p.ir| == 6 && p.ir[..4] == [Ir(LoadConst, 0, 0), Ir(LoadConst, 0, 0), Ir(LoadConst, 0, 0), Ir(RangeInitFast, 0, 0)] &&
            p.constants == [v] && p.meta == [InitMeta(0, 1, 2, 3)]
  {
    hide LowerFrom, CacheKey;
    var code, e := STEP_RANGE, InitMeta(0, 1, 2, 3);
    ConstTurn(code, [v], START, v);
    var s1 := After(START, Ir(LoadConst, 0, 0), 3, 1).(constants := [v], keys := START.keys[CacheKey(v) := 0]);
    ConstTurn(code, [v], s1, v);
    var s2 := After(s1, Ir(LoadConst, 0, 0), 3, 1);
    ConstTurn(code, [v], s2, v);
    var s3 := After(s2, Ir(LoadConst, 0, 0), 3, 1);
    var s4 := After(s3, Ir(RangeInitFast, 0, 0), 5, -3).(meta := [e], metaKeys := map[e := 0]);
    InitTurn(code, [v], s3, s4);
    PlainTurn(code, [v], s4, Rule(LoadNil, 1, 0, 1));
    var s5 := After(s4, Ir(LoadNil, 0, 0), 1, 1);
    EndTurn(code, [v], s5);
    assert (s5.ir + [Ir(IrReturn, 0, 0)])[..4] == s4.ir;
  }

  lemma InitTurn(code: seq<byte>, pool: seq<Value>, s: Scan, t: Scan)
    requires s.offset + 5 <= |code| && code[s.offset] == RANGE_INIT_FAST && code[s.offset + 4] == 3 && Unjumped(s)
    requires s.depth == 3 && s.meta == [] && s.metaKeys == map[]
    requires var e := InitMeta(code[s.offset + 1], code[s.offset + 2], code[s.offset + 3], 3);
             t == After(s, Ir(RangeInitFast, 0, 0), 5, -3).(meta := [e], metaKeys := map[e := 0])
    ensures LowerFrom(code, pool, s) == LowerFrom(code, pool, t)
  {
    hide LowerFrom, Turn;
    var e := InitMeta(code[s.offset + 1], code[s.offset + 2], code[s.offset + 3], 3);
    assert [] + [e] == [e];
    assert LoweredInit(code, s, Moved(code, s, Rule(RangeInitFast, 5, 0, 0))) == t;
    InitGives(code, pool, s, t);
  }

  lemma InitGives(code: seq<byte>, pool: seq<Value>, s: Scan, t: Scan)
    requires s.offset + 5 <= |code| && code[s.offset] == RANGE_INIT_FAST && code[s.offset + 4] == 3 && s.depth == 3
    requires Unjumped(s) && t.offset > s.offset
    requires LoweredInit(code, s, Moved(code, s, Rule(RangeInitFast, 5, 0, 0))) == t
    ensures LowerFrom(code, pool, s) == LowerFrom(code, pool, t)
  {
    hide LoweredConst, LoweredInit, LoweredNext, LoweredJump, Finish, Moved;
    assert RuleOf(RANGE_INIT_FAST) == Some(Rule(RangeInitFast, 5, 0, 0));
    hide RuleOf;
  }

  lemma InitFails(p: Lowered, ip: nat, l: seq<Value>, stk: seq<Value>)
    requires ip < |p.ir| && p.ir[ip] == Ir(RangeInitFast, 0, 0) && |p.meta| > 0 && p.meta[0].InitMeta? && p.meta[0].argc == 3
    ensures IrStep(p, JRunning(ip, l, stk)) == JError
  {
    RangeIs(p.ir[ip], p, l, stk);
    hide IrExec;
  }

  lemma StepRangeMachine(a: Value, b: Value, c: Value)
    ensures Run(STEP_RANGE, [IntValue(1)], Running(0, [a, b, c], []), 6).Returned?
  {
    hide Step, Run, F64;
    var code, v, l := STEP_RANGE, IntValue(1), [a, b, c];
    StepRangeConstants(l);
    var l' := l[0 := IntValue(0)][1 := v][2 := v];
    StepRangeRest(l, l');
    ThreeSteps(code, [v], Running(0, l, []));
    ThreeSteps(code, [v], Running(9, l, [v, v, v]));
    RunAdds(code, [v], Running(0, l, []), 3, 3);
  }

  lemma StepRangeDecodes()
    ensures var code := STEP_RANGE;
            Decode(code, 0) == Some(Const(0)) && Decode(code, 3) == Some(Const(0)) && Decode(code, 6) == Some(Const(0)) &&
            Decode(code, 9) == Some(RangeInit(0, 1, 2, 3)) && Decode(code, 14) == Some(Plain(NIL)) &&
            Decode(code, 15) == Some(Plain(RETURN))
  {
  }

  lemma StepRangeConstants(l: seq<Value>)
    ensures var v := IntValue(1);
            Step(STEP_RANGE, [v], Running(0, l, [])) == Running(3, l, [v]) &&
            Step(STEP_RANGE, [v], Running(3, l, [v])) == Running(6, l, [v, v]) &&
            Step(STEP_RANGE, [v], Running(6, l, [v, v])) == Running(9, l, [v, v, v])
  {
    StepRangeDecodes();
    hide Decode, Step;
    var v := IntValue(1);
    MachineConst(STEP_RANGE, [v], 0, l, []);
    MachineConst(STEP_RANGE, [v], 3, l, [v]);
    MachineConst(STEP_RANGE, [v], 6, l, [v, v]);
    assert [] + [v] == [v] && [v] + [v] == [v, v] && [v, v] + [v] == [v, v, v];
  }

  lemma StepRangeRest(l: seq<Value>, l': seq<Value>)
    requires |l| == 3 && l' == l[0 := IntValue(0)][1 := IntValue(1)][2 := IntValue(1)]
    ensures var v := IntValue(1);
            Step(STEP_RANGE, [v], Running(9, l, [v, v, v])) == Running(14, l', []) &&
            Step(STEP_RANGE, [v], Running(14, l', [])) == Running(15, l', [Nil]) &&
            Step(STEP_RANGE, [v], Running(15, l', [Nil])) == Returned(Nil, l')
  {
    StepRangeDecodes();
    hide Decode, F64;
    var v := IntValue(1);
    MachineInit(l, l');
    MachineNil(STEP_RANGE, [v], 14, l', []);
    assert [] + [Nil] == [Nil];
    MachineReturns(STEP_RANGE, [v], 15, l', [Nil]);
  }

  lemma MachineNil(code: seq<byte>, pool: seq<Value>, o: int, l: seq<Value>, stk: seq<Value>)
    requires Decode(code, o) == Some(Plain(NIL))
    ensures Step(code, pool, Running(o, l, stk)) == Running(o + 1, l, stk + [Nil])
  {
    hide Decode, Binary;
  }

  lemma MachineInit(l: seq<Value>, l': seq<Value>)
    requires |l| == 3 && l' == l[0 := IntValue(0)][1 := IntValue(1)][2 := IntValue(1)]
    requires Decode(STEP_RANGE, 9) == Some(RangeInit(0, 1, 2, 3))
    ensures var v := IntValue(1); Step(STEP_RANGE, [v], Running(9, l, [v, v, v])) == Running(14, l', [])
  {
    hide Decode, F64;
    var v := IntValue(1);
    assert [v, v, v][..0] == [];
  }

  /** With its operands there, RANGE_INIT_FAST does the same in both exactly
      when it has no step argument or the interpreter fails. */
  lemma StepRangeExactly(ins: Instr, p: Lowered, i: Ir, l: seq<Value>, stk: seq<Value>, jstk: seq<Value>)
    requires ins.RangeInit? && i.op == RangeInitFast && i.operand < |p.meta|
    requires p.meta[i.operand] == InitMeta(ins.cur, ins.end, ins.step, ins.argc)
    requires OnTop(stk, jstk) && ins.argc <= |stk|
    ensures SameEffect(ExecRangeInit(ins, l, stk), IrExec(i, p, l, jstk)) <==>
            ins.argc != 3 || ExecRangeInit(ins, l, stk).Raise?
  {
    hide IrExec, Wrap64, F64;
    if ins.argc == 3 { RangeIs(i, p, l, jstk); } else { InitSame(ins, p, i, l, stk, jstk); }
  }
}
