/** Which functions the JIT runs like the interpreter, as a condition on their
    bytes alone, and exactly where a run of such a function parts. */
module JitSound {
  import opened Options
  import opened Machine
  import opened Assembly
  import opened JitIr
  import opened JitLower
  import opened JitCorrect
  import opened StackDepth

  /** One operand depth for every offset that can be reached: each instruction
      finds the operands it uses, SET_LOCAL exactly one, ranges have no step
      argument, and every opcode is known to the interpreter. */
  ghost predicate Verified(code: seq<byte>, depth: map<int, nat>) {
    0 in depth && depth[0] == 0 && forall o :: o in depth ==> OffsetFlows(code, depth, o)
  }

  ghost predicate OffsetFlows(code: seq<byte>, depth: map<int, nat>, o: int)
    requires o in depth
  {
    0 <= o <= |code| &&
    (o < |code| ==>
       Decode(code, o).Some? && code[o] != ADD_LOCAL_MUL_LOCAL &&
       var ins := Decode(code, o).value;
       Suits(ins, depth[o]) &&
       (!Stops(ins) ==> Arrives(depth, o + Size(ins), depth[o] + Delta(ins))) &&
       (HasOperand(ins) ==> Arrives(depth, Landing(ins, o), depth[o] + Taken(ins))))
  }

  predicate Arrives(depth: map<int, nat>, o: int, d: int) { o in depth && depth[o] == d }

  /** The code contains no negation that can be reached. */
  ghost predicate NoNegation(code: seq<byte>, depth: map<int, nat>) {
    forall o :: o in depth && o < |code| ==> Decode(code, o) != Some(Plain(NEGATE))
  }

  /** The next instruction negates an integer that its double rounds: the
      interpreter negates the double, the executor the integer. */
  predicate Rounds(code: seq<byte>, st: Status) {
    st.Running? && Decode(code, st.pc) == Some(Plain(NEGATE)) && |st.stk| > 0 &&
    var top := st.stk[|st.stk| - 1];
    top.Number? && Wrap64(-Wrap64(top.f)) != Wrap64(-top.i)
  }

  ghost predicate NeverRounds(code: seq<byte>, pool: seq<Value>, st: Status, n: nat)
    decreases n
  {
    n > 0 ==> !Rounds(code, st) && NeverRounds(code, pool, Step(code, pool, st), n - 1)
  }

  /** The states of both, after every number of steps up to n. */
  ghost predicate AllRelated(code: seq<byte>, pool: seq<Value>, p: Lowered, index: map<int, nat>, st: Status, j: JState,
                             n: nat)
    decreases n
  {
    Related(index, st, j) && (n > 0 ==> AllRelated(code, pool, p, index, Step(code, pool, st), IrStep(p, j), n - 1))
  }

  // ---------------------------------------------------------------- depths

  /** What an instruction does to the number of operands. */
  lemma EffectDepth(ins: Instr, ks: seq<Value>, l: seq<Value>, stk: seq<Value>)
    ensures var e := Exec(ins, ks, l, stk);
            (e.Next? ==> |e.stk| == |stk| + Delta(ins) && !Stops(ins)) &&
            (e.Branch? ==> |e.stk| == |stk| + Taken(ins) && HasOperand(ins))
  {
    hide F64, Wrap64;
    match ins
    case Plain(op) => PlainDepth(op, l, stk);
    case RangeInit(_, _, _, _) => InitDepth(ins, l, stk);
    case _ =>
  }

  lemma PlainDepth(op: byte, l: seq<Value>, stk: seq<Value>)
    ensures var e := ExecPlain(op, l, stk);
            (e.Next? ==> |e.stk| == |stk| + Delta(Plain(op)) && op != RETURN) && !e.Branch?
  {
    hide Binary, Wrap64, IntValue;
  }

  lemma InitDepth(ins: Instr, l: seq<Value>, stk: seq<Value>)
    requires ins.RangeInit?
    ensures var e := ExecRangeInit(ins, l, stk);
            (e.Next? ==> |e.stk| == |stk| + Delta(ins)) && !e.Branch?
  {
    hide Wrap64, IntValue;
  }

  /** A state whose depth is the one of its offset. */
  predicate AtDepth(st: Status, depth: map<int, nat>) { st.Running? ==> st.pc in depth && |st.stk| == depth[st.pc] }

  lemma StepDepth(code: seq<byte>, pool: seq<Value>, depth: map<int, nat>, st: Status)
    requires Verified(code, depth) && AtDepth(st, depth)
    ensures AtDepth(Step(code, pool, st), depth)
  {
    hide Decode, Exec, Suits, Size, Operand, IsBackward;
    if st.Running? {
      assert OffsetFlows(code, depth, st.pc);
      if st.pc < |code| {
        EffectDepth(Decode(code, st.pc).value, pool, st.l, st.stk);
      } else {
        EndFaults(code);
      }
    }
  }

  lemma DepthFits(code: seq<byte>, depth: map<int, nat>, st: Status)
    requires Verified(code, depth) && AtDepth(st, depth) && !Rounds(code, st)
    ensures StepFits(code, st)
  {
    hide Decode, Size, Operand, IsBackward;
    if st.Running? { assert OffsetFlows(code, depth, st.pc); }
  }

  lemma NoNegationNeverRounds(code: seq<byte>, pool: seq<Value>, depth: map<int, nat>, st: Status, n: nat)
    requires Verified(code, depth) && AtDepth(st, depth) && NoNegation(code, depth)
    ensures NeverRounds(code, pool, st, n)
    decreases n
  {
    hide Decode, Step, Verified;
    if n > 0 {
      if st.Running? && st.pc >= |code| { EndDecodes(code, depth, st.pc); }
      StepDepth(code, pool, depth, st);
      NoNegationNeverRounds(code, pool, depth, Step(code, pool, st), n - 1);
    }
  }

  lemma EndDecodes(code: seq<byte>, depth: map<int, nat>, o: int)
    requires Verified(code, depth) && o in depth && o >= |code|
    ensures Decode(code, o) == None
  {
    assert OffsetFlows(code, depth, o);
  }

  // ------------------------------------------------------------- simulation

  /** A negation that rounds leaves different operands. */
  lemma RoundingParts(code: seq<byte>, pool: seq<Value>, p: Lowered, index: map<int, nat>, st: Status, j: JState)
    requires Corresponds(code, pool, p, index) && Related(index, st, j) && Rounds(code, st)
    requires 0 <= st.pc < |code| && code[st.pc] != ADD_LOCAL_MUL_LOCAL
    ensures !Related(index, Step(code, pool, st), IrStep(p, j))
  {
    hide Lowers, RuleOf, TargetOf, Wrap64, F64, Decode, Step, IrStep, SizeAt, Jumps;
    var o := st.pc;
    assert OffsetOk(code, pool, p, index, o);
    var stk, jstk := st.stk, j.stk;
    TopOf(stk, jstk, |stk| - 1);
    MachineNegates(code, pool, o, st.l, stk);
    ExecutorNegates(code, pool, p, o, index[o], j.l, jstk);
    var top := stk[|stk| - 1];
    var s1, s2 := stk[..|stk| - 1] + [IntValue(Wrap64(-Wrap64(top.f)))], jstk[..|jstk| - 1] + [IntValue(Wrap64(-top.i))];
    if OnTop(s1, s2) { TopOf(s1, s2, |s1| - 1); }
  }

  lemma MachineNegates(code: seq<byte>, pool: seq<Value>, o: int, l: seq<Value>, stk: seq<Value>)
    requires Decode(code, o) == Some(Plain(NEGATE)) && |stk| > 0 && stk[|stk| - 1].Number?
    ensures Step(code, pool, Running(o, l, stk)) ==
            Running(o + 1, l, stk[..|stk| - 1] + [IntValue(Wrap64(-Wrap64(stk[|stk| - 1].f)))])
  {
    hide Decode, Wrap64, F64;
  }

  lemma ExecutorNegates(code: seq<byte>, pool: seq<Value>, p: Lowered, o: int, ip: nat, l: seq<Value>, jstk: seq<Value>)
    requires ip < |p.ir| && Lowers(code, pool, o, p.ir[ip], p.constants, p.meta) && code[o] != ADD_LOCAL_MUL_LOCAL
    requires Decode(code, o) == Some(Plain(NEGATE)) && |jstk| > 0 && jstk[|jstk| - 1].Number?
    ensures IrStep(p, JRunning(ip, l, jstk)) ==
            JRunning(ip + 1, l, jstk[..|jstk| - 1] + [IntValue(Wrap64(-jstk[|jstk| - 1].i))])
  {
    hide Decode, Wrap64, F64, Lowers, SizeAt, IrExec;
    DecodeLowered(code, pool, p, p.ir[ip], o);
    OperandFree(p.ir[ip], p, l, jstk, NEGATE);
    NegateIs(p, l, jstk);
  }

  /** From related states: they stay related for n steps exactly as long as no
      negation rounds. */
  lemma {:induction false} RelatedExactly(code: seq<byte>, pool: seq<Value>, p: Lowered, index: map<int, nat>,
                                          depth: map<int, nat>, st: Status, j: JState, n: nat)
    requires Corresponds(code, pool, p, index) && Verified(code, depth) && AtDepth(st, depth) && Related(index, st, j)
    ensures AllRelated(code, pool, p, index, st, j, n) <==> NeverRounds(code, pool, st, n)
    decreases n
  {
    hide Step, IrStep, Corresponds, Related, StepFits, Verified, Rounds, AtDepth;
    if n > 0 {
      var next, jnext := Step(code, pool, st), IrStep(p, j);
      StepDepth(code, pool, depth, st);
      if Rounds(code, st) {
        RoundingInside(code, depth, st);
        RoundingParts(code, pool, p, index, st, j);
        NotRelated(code, pool, p, index, next, jnext, n - 1);
      } else {
        DepthFits(code, depth, st);
        StepSimulated(code, pool, p, index, st, j);
        RelatedExactly(code, pool, p, index, depth, next, jnext, n - 1);
      }
    }
  }

  lemma NotRelated(code: seq<byte>, pool: seq<Value>, p: Lowered, index: map<int, nat>, st: Status, j: JState, n: nat)
    requires !Related(index, st, j)
    ensures !AllRelated(code, pool, p, index, st, j, n)
  {
  }

  lemma RoundingInside(code: seq<byte>, depth: map<int, nat>, st: Status)
    requires Verified(code, depth) && AtDepth(st, depth) && Rounds(code, st)
    ensures st.Running? && 0 <= st.pc < |code| && code[st.pc] != ADD_LOCAL_MUL_LOCAL
  {
    hide Suits;
    assert OffsetFlows(code, depth, st.pc);
    if st.pc == |code| { EndFaults(code); }
  }

  lemma {:induction false} RelatedLast(code: seq<byte>, pool: seq<Value>, p: Lowered, index: map<int, nat>, st: Status,
                                       j: JState, n: nat)
    requires AllRelated(code, pool, p, index, st, j, n)
    ensures Related(index, Run(code, pool, st, n), IrRun(p, j, n))
    decreases n
  {
    hide Step, IrStep, Related;
    if n > 0 { RelatedLast(code, pool, p, index, Step(code, pool, st), IrStep(p, j), n - 1); }
  }

  /** Every function that lowering accepts and whose code has operand depths
      runs in the executor like its bytecode, from any locals and for any number
      of steps: same locals, same operands above the leftovers, same result, same
      failure, exactly as long as the run does not negate an integer that its
      double rounds. */
  lemma VerifiedRuns(code: seq<byte>, pool: seq<Value>, depth: map<int, nat>, l: seq<Value>, n: nat)
    requires |code| < 65536 && Scalars(pool) && Lower(code, pool).Some? && Verified(code, depth)
    ensures var r := Lower(code, pool).value;
            AllRelated(code, pool, r.0, r.1, Running(0, l, []), JRunning(0, l, []), n) <==>
            NeverRounds(code, pool, Running(0, l, []), n)
    ensures var r := Lower(code, pool).value;
            NeverRounds(code, pool, Running(0, l, []), n) ==>
              Related(r.1, Run(code, pool, Running(0, l, []), n), IrRun(r.0, JRunning(0, l, []), n))
    ensures NoNegation(code, depth) ==> NeverRounds(code, pool, Running(0, l, []), n)
  {
    hide Lower, Run, IrRun, AllRelated, NeverRounds, Verified, NoNegation;
    LowerCorresponds(code, pool);
    var r := Lower(code, pool).value;
    var st, j := Running(0, l, []), JRunning(0, l, []);
    StartsAtDepth(code, depth, r.1, l, pool, r.0);
    RelatedExactly(code, pool, r.0, r.1, depth, st, j, n);
    if NeverRounds(code, pool, st, n) { RelatedLast(code, pool, r.0, r.1, st, j, n); }
    if NoNegation(code, depth) { NoNegationNeverRounds(code, pool, depth, st, n); }
  }

  lemma StartsAtDepth(code: seq<byte>, depth: map<int, nat>, index: map<int, nat>, l: seq<Value>, pool: seq<Value>,
                      p: Lowered)
    requires Verified(code, depth) && Corresponds(code, pool, p, index)
    ensures AtDepth(Running(0, l, []), depth) && Related(index, Running(0, l, []), JRunning(0, l, []))
  {
  }
}
