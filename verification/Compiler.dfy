/** The single-pass compiler: it appends bytes, rewrites the ones at the end,
    and patches jumps when their target is reached. `prog` is the program those
    bytes stand for; `exact` says that no jump has yet been emitted behind a
    misaligned window. */
module SinglePass {
  import opened Options
  import opened Machine
  import opened Assembly
  import opened Source
  import opened CodeGen
  import opened ExprCorrect
  import opened Layout
  import opened Peephole
  import opened Emission
  import opened Conditions
  import opened Alignment
  import opened CompilerState
  import opened LoopState
  import opened StmtParts
  import opened StmtCorrect
  import opened RawCode
  import RawExact

  class Compiler {
    var code: seq<byte>
    var lines: seq<int>
    var constants: seq<Constant>
    var lastOpcodeOffset: nat
    var locals: seq<LocalVar>
    var depth: int
    var maxLocals: nat
    var loops: seq<LoopContext>
    ghost var prog: Prog
    ghost var exact: bool
    ghost const theLine: int

    /** The bytes are the program's, and the last opcode is its last one. */
    ghost predicate LaidOut()
      reads `code, `prog, `lastOpcodeOffset
    {
      Settled(prog) && code == Assemble(prog) &&
      (|prog| > 0 ==> lastOpcodeOffset == Off(prog, |prog| - 1))
    }

    /** Every byte has the line of the text that is compiled. */
    ghost predicate OneLine()
      reads `lines
    {
      forall i :: 0 <= i < |lines| ==> lines[i] == theLine
    }

    ghost predicate Valid()
      reads `code, `lines, `prog, `exact, `lastOpcodeOffset, `locals, `maxLocals, `depth
    {
      |lines| == |code| && OneLine() && maxLocals >= |locals| && (exact ==> LaidOut()) &&
      forall i :: 0 <= i < |locals| ==> locals[i].depth <= depth && locals[i].slot == Low8(i)
    }

    constructor (ghost line: int)
      ensures theLine == line
      ensures Valid() && exact && code == [] && prog == [] && constants == [] && locals == [] && loops == []
      ensures maxLocals == 0 && depth == 0 && lastOpcodeOffset == 0
    {
      code, lines, constants, lastOpcodeOffset, locals, depth, maxLocals, loops := [], [], [], 0, [], 0, 0, [];
      prog, exact, theLine := [], true, line;
    }

    lemma CodeLength()
      requires Valid()
      ensures exact ==> |code| == Off(prog, |prog|)
    {
    }

    /** What later bytes depend on. */
    ghost function Bytes(): Raw
      reads `code, `lastOpcodeOffset, `loops, `exact
    {
      Raw(code, lastOpcodeOffset, loops, exact)
    }

    // ------------------------------------------------------------- emission

    method Emit(op: byte, line: int)
      modifies `code, `lines, `lastOpcodeOffset
      ensures code == old(code) + [op] && lines == old(lines) + [line] && lastOpcodeOffset == |old(code)|
      ensures old(OneLine()) && line == theLine ==> OneLine()
    {
      lastOpcodeOffset := |code|;
      EmitByte(op, line);
    }

    method EmitByte(b: byte, line: int)
      modifies `code, `lines
      ensures code == old(code) + [b] && lines == old(lines) + [line]
      ensures old(OneLine()) && line == theLine ==> OneLine()
    {
      code := code + [b];
      lines := lines + [line];
    }

    method EmitUint16(v: int, line: int)
      modifies `code, `lines
      ensures code == old(code) + [Hi(v), Lo(v)] && lines == old(lines) + [line, line]
      ensures old(OneLine()) && line == theLine ==> OneLine()
    {
      EmitByte(Hi(v), line);
      EmitByte(Lo(v), line);
    }

    method AddConstant(v: Constant) returns (index: int)
      modifies `constants
      ensures constants == old(constants) + [v] && index == |old(constants)| % 65536
    {
      constants := constants + [v];
      index := (|constants| - 1) % 65536;
    }

    /** An instruction of one opcode. */
    method EmitPlain(op: byte, line: int)
      requires line == theLine
      requires Valid()
      modifies `code, `lines, `lastOpcodeOffset, `prog
      ensures Valid() && prog == old(prog) + [Plain(op)]
      ensures Bytes() == Put(old(Bytes()), Plain(op))
    {
      ghost var p := prog;
      Emit(op, line);
      prog := prog + [Plain(op)];
      if exact { AppendBytes(p, Plain(op)); }
    }

    /** An opcode and a slot; `s` is the slot before it was cut to a byte. */
    method EmitSlot(op: byte, slot: byte, ghost s: nat, line: int)
      requires line == theLine
      requires Valid() && slot == Low8(s)
      modifies `code, `lines, `lastOpcodeOffset, `prog
      ensures Valid() && prog == old(prog) + [Slot(op, s)]
      ensures Bytes() == Put(old(Bytes()), Slot(op, s))
    {
      hide OneLine, Low8, Assemble;
      ghost var p := prog;
      Emit(op, line);
      EmitByte(slot, line);
      prog := prog + [Slot(op, s)];
      if exact { AppendBytes(p, Slot(op, s)); }
    }

    /** CONSTANT, or a global instruction, on a new constant. */
    method EmitConstant(op: byte, v: Constant, line: int)
      requires line == theLine
      requires Valid()
      modifies `code, `lines, `lastOpcodeOffset, `prog, `constants
      ensures Valid() && constants == old(constants) + [v]
      ensures prog == old(prog) + [if op == CONSTANT then Const(|old(constants)|) else Global(op, |old(constants)|)]
      ensures Bytes() == Put(old(Bytes()), if op == CONSTANT then Const(|old(constants)|) else Global(op, |old(constants)|))
    {
      hide Bytes, Put, Valid;
      ghost var k := |constants|;
      var index := AddConstant(v);
      EmitIndexed(op, index, k, line);
    }

    /** An instruction on a constant; k is its index before it was cut to 16
        bits. */
    method EmitIndexed(op: byte, index: int, ghost k: nat, line: int)
      requires line == theLine
      requires Valid() && index == k % 65536
      modifies `code, `lines, `lastOpcodeOffset, `prog
      ensures Valid() && prog == old(prog) + [if op == CONSTANT then Const(k) else Global(op, k)]
      ensures Bytes() == Put(old(Bytes()), if op == CONSTANT then Const(k) else Global(op, k))
    {
      hide OneLine, Hi, Lo, Assemble, Settled, Low8;
      ghost var p, ins := prog, if op == CONSTANT then Const(k) else Global(op, k);
      Emit(op, line);
      EmitUint16(index, line);
      Uint16OfIndex(k);
      prog := prog + [ins];
      if exact { AppendBytes(p, ins); }
    }

    /** PatchUint16, guarded: an offset outside the code, where the original
        stops with an index error, is only possible off alignment. */
    method PatchUint16(offset: int, v: int)
      requires exact ==> 0 <= offset && offset + 1 < |code|
      modifies `code, `exact
      ensures exact == old(exact) && |code| == |old(code)|
      ensures exact ==> code == Overwrite(old(code), offset, Hi(v), Lo(v))
      ensures code == PatchedAt(old(code), offset, v)
    {
      if 0 <= offset && offset + 1 < |code| {
        code := code[..offset] + [Hi(v), Lo(v)] + code[offset + 2..];
      }
    }

    method PatchJump(offset: int, ghost at: int)
      requires Valid()
      requires exact ==> PatchReady(prog, at, offset)
      modifies `code, `prog, `exact
      ensures Valid() && exact == old(exact)
      ensures if exact then prog == Patched(old(prog), at) else prog == old(prog)
      ensures Bytes() == RawPatch(old(Bytes()), offset)
    {
      hide Hi, Lo, Assemble, Settled, Overwrite;
      ghost var p := prog;
      if exact { PatchBytes(p, at); }
      var distance := |code| - offset - 2;
      PatchUint16(offset, distance);
      if exact {
        prog := Patched(p, at);
        OffPatched(p, at, |p| - 1);
      }
    }

    method EmitLoop(loopStart: nat, ghost start: nat, line: int)
      requires line == theLine
      requires Valid()
      requires exact ==> start <= |prog| && loopStart == Off(prog, start)
      modifies `code, `lines, `lastOpcodeOffset, `prog
      ensures Valid() && prog == old(prog) + [Jump(LOOP, |old(prog)| - start + 1)]
      ensures Bytes() == RawLoop(old(Bytes()), loopStart)
    {
      hide OneLine, Hi, Lo, Assemble, Settled;
      ghost var p := prog;
      Emit(LOOP, line);
      var distance := |code| - loopStart + 2;
      EmitUint16(distance, line);
      prog := prog + [Jump(LOOP, |p| - start + 1)];
      if exact { AppendLoop(p, start); }
    }

    // ----------------------------------------------------- jump rewrites

    method PeepholeNotFold(op: byte) returns (op': byte)
      requires |lines| == |code| && OneLine()
      modifies `code, `lines
      ensures (code, op') == NotFoldBytes(old(code), lastOpcodeOffset, op) && |lines| == |code| && OneLine()
    {
      op' := op;
      if op != JUMP_IF_FALSE && op != JUMP_IF_FALSE_POP { return; }
      if lastOpcodeOffset >= |code| || code[lastOpcodeOffset] != NOT { return; }
      code := code[..lastOpcodeOffset];
      lines := lines[..lastOpcodeOffset];
      op' := if op == JUMP_IF_FALSE_POP then JUMP_IF_TRUE_POP else JUMP_IF_TRUE;
    }

    method PeepholeArrayFieldCmp(op: byte, line: int) returns (placeholder: int, done: bool)
      requires |lines| == |code| && OneLine() && line == theLine
      modifies `code, `lines, `lastOpcodeOffset
      ensures done == LooksLikeArrayField(old(code), op) && |lines| == |code| && OneLine()
      ensures var c, n := old(code), |old(code)|;
              done <==>
                op == JUMP_IF_FALSE_POP && n >= 7 && c[n - 7] == GET_LOCAL_ARRAY_FIELD && c[n - 3] == GET_LOCAL &&
                (c[n - 1] == LESS_NUM || c[n - 1] == GREATER_NUM)
      ensures done ==>
                var c, n := old(code), |old(code)|;
                var fused := if c[n - 1] == LESS_NUM then JUMP_IF_ARRAY_FIELD_GTE_LOCAL_TRUE
                             else JUMP_IF_ARRAY_FIELD_LTE_LOCAL_TRUE;
                code == c[..n - 7] + [fused, c[n - 6], c[n - 5], c[n - 4], c[n - 2], 0, 0]
      ensures done ==> code == CompareJumpBytes(old(code), op) && placeholder + 2 == |code| &&
                       lastOpcodeOffset == |old(code)| - 7
      ensures !done ==> code == old(code) && lastOpcodeOffset == old(lastOpcodeOffset)
    {
      placeholder, done := 0, false;
      if op != JUMP_IF_FALSE_POP { return; }
      var n := |code|;
      if n < 7 { return; }
      var compareOp := code[n - 1];
      if compareOp != LESS_NUM && compareOp != GREATER_NUM { return; }
      if code[n - 7] != GET_LOCAL_ARRAY_FIELD || code[n - 3] != GET_LOCAL { return; }
      var arrSlot, idxSlot, fieldSlot, cmpSlot := code[n - 6], code[n - 5], code[n - 4], code[n - 2];
      var fusedOp := if compareOp == LESS_NUM then JUMP_IF_ARRAY_FIELD_GTE_LOCAL_TRUE
                     else JUMP_IF_ARRAY_FIELD_LTE_LOCAL_TRUE;
      code := code[..n - 7];
      lines := lines[..n - 7];
      Emit(fusedOp, line);
      EmitByte(arrSlot, line);
      EmitByte(idxSlot, line);
      EmitByte(fieldSlot, line);
      EmitByte(cmpSlot, line);
      placeholder, done := |code|, true;
      EmitUint16(0, line);
    }

    method PeepholeLocalLocalCmp(op: byte, line: int) returns (placeholder: int, done: bool)
      requires |lines| == |code| && OneLine() && line == theLine
      modifies `code, `lines, `lastOpcodeOffset
      ensures done == LooksLikeLocals(old(code), op) && |lines| == |code| && OneLine()
      ensures var c, n := old(code), |old(code)|;
              done <==>
                (op == JUMP_IF_TRUE_POP || op == JUMP_IF_FALSE_POP) && n >= 5 && c[n - 5] == GET_LOCAL &&
                c[n - 3] == GET_LOCAL && (c[n - 1] == LESS_NUM || c[n - 1] == GREATER_NUM)
      ensures done ==>
                var c, n := old(code), |old(code)|;
                code == c[..n - 5] + [FusedOp(c[n - 1], op), c[n - 4], c[n - 2], 0, 0]
      ensures done ==> placeholder + 2 == |code| && lastOpcodeOffset == |old(code)| - 5
      ensures !done ==> code == old(code) && lastOpcodeOffset == old(lastOpcodeOffset)
    {
      placeholder, done := 0, false;
      if op != JUMP_IF_TRUE_POP && op != JUMP_IF_FALSE_POP { return; }
      var n := |code|;
      if n < 5 { return; }
      var compareOp := code[n - 1];
      if compareOp != LESS_NUM && compareOp != GREATER_NUM { return; }
      if code[n - 5] != GET_LOCAL || code[n - 3] != GET_LOCAL { return; }
      var slotA, slotB := code[n - 4], code[n - 2];
      var fusedOp := FusedOp(compareOp, op);
      code := code[..n - 5];
      lines := lines[..n - 5];
      Emit(fusedOp, line);
      EmitByte(slotA, line);
      EmitByte(slotB, line);
      placeholder, done := |code|, true;
      EmitUint16(0, line);
    }

    /** The bytes and the returned operand offset, whatever the code. */
    method EmitJumpCode(op: byte, line: int) returns (offset: int)
      requires |lines| == |code| && OneLine() && line == theLine
      modifies `code, `lines, `lastOpcodeOffset
      ensures code == EmitJumpBytes(old(code), old(lastOpcodeOffset), op) && |lines| == |code| && OneLine()
      ensures offset + 2 == |code|
      ensures lastOpcodeOffset == JumpStart(old(code), old(lastOpcodeOffset), op)
    {
      hide OneLine, LooksLikeArrayField, LooksLikeLocals;
      var op' := PeepholeNotFold(op);
      var placeholder, done := PeepholeArrayFieldCmp(op', line);
      if done { return placeholder; }
      placeholder, done := PeepholeLocalLocalCmp(op', line);
      if done { return placeholder; }
      Emit(op', line);
      offset := |code|;
      EmitUint16(0, line);
    }

    /** emitJump. Its bytes are those of the rewritten instructions, unless the
        window it looks at is misaligned. */
    method EmitJump(op: byte, ghost hole: int, line: int) returns (offset: int)
      requires line == theLine
      requires Valid() && hole < 0
      requires op == JUMP || (op == JUMP_IF_FALSE_POP && hole == PENDING)
      requires exact && op != JUMP ==>
                 |prog| > 0 && WellFormed(prog[|prog| - 1]) && Cuttable(prog, op) && Settled(WithJump(prog, op, PENDING))
      modifies `code, `lines, `lastOpcodeOffset, `prog, `exact
      ensures Valid() && exact == (old(exact) && Aligned(old(prog), op))
      ensures prog == WithJump(old(prog), op, hole)
      ensures old(exact) ==> (code == Assemble(prog) <==> Aligned(old(prog), op))
      ensures op == JUMP ==> prog == old(prog) + [Jump(JUMP, hole)] && exact == old(exact)
      ensures code == EmitJumpBytes(old(code), old(lastOpcodeOffset), op)
      ensures exact ==> offset == Off(prog, |prog|) - 2
      ensures Jumped(Bytes(), offset) == RawJump(old(Bytes()).(good := exact), op)
      ensures op == JUMP ==> Jumped(Bytes(), offset) == RawJump(old(Bytes()), op)
    {
      hide OneLine, Settled, Assemble, Aligned, Cuttable, EmitJumpBytes, JumpStart, WithJump;
      ghost var p, last := prog, lastOpcodeOffset;
      offset := EmitJumpCode(op, line);
      if exact && op != JUMP { JumpExactlyOnAligned(p, last, op); }
      exact := exact && Aligned(p, op);
      prog := WithJump(p, op, hole);
      if op == JUMP { JumpAppends(p, hole); }
      if exact {
        if op == JUMP {
          PlainJump(p, last, hole);
        } else {
          JumpOnAligned(p, last, op);
          JumpStartAligned(p, last, op);
        }
      }
    }

    // ----------------------------------------------------------- expressions

    /** The innermost local of that name: its slot, and its position. */
    method ResolveLocal(name: string) returns (slot: byte, index: nat, found: bool)
      requires Valid()
      ensures found == (SlotOf(Names(locals), name) >= 0)
      ensures found ==> index == SlotOf(Names(locals), name) && slot == Low8(index)
    {
      hide Low8;
      ghost var ls := Names(locals);
      var i := |locals|;
      assert ls[..i] == ls;
      while i > 0
        invariant 0 <= i <= |locals| && SlotOf(ls, name) == SlotOf(ls[..i], name)
      {
        i := i - 1;
        assert ls[..i + 1][..i] == ls[..i];
        if locals[i].name == name { return locals[i].slot, i, true; }
      }
      return 0, 0, false;
    }

    method CompileExpr(e: Expr, line: int)
      requires line == theLine
      requires Valid()
      modifies `code, `lines, `constants, `lastOpcodeOffset, `prog, `exact
      ensures Valid()
      ensures constants == old(constants) + ExprCode(e, Names(locals), |old(constants)|).ks
      ensures exact == (old(exact) && ExprAligned(old(prog), e, Names(locals), |old(constants)|))
      ensures exact ==> old(exact) && prog == old(prog) + ExprCode(e, Names(locals), |old(constants)|).code
      ensures Bytes() == RawExpr(e, Names(locals), |old(constants)|, old(Bytes()))
      decreases e, 1
    {
      hide OneLine, Settled, Assemble, EvalConst, SlotOf, Low8, TypeOf, Aligned, AndCode, OrCode, BinCode, WithJump, Put, Puts,
           RawAnd, RawOr;
      if e.IntLit? || e.BoolLit? || e.Var? || (e.Neg? && IsFolded(e)) { RawLeaf(e, Names(locals), |constants|, Bytes()); }
      match e
      case IntLit(n) => EmitConstant(CONSTANT, KInt(n), line);
      case BoolLit(b) => EmitPlain(if b then TRUE else FALSE, line);
      case Var(x) =>
        var slot, index, found := ResolveLocal(x);
        if found { EmitSlot(GET_LOCAL, slot, index, line); }
        else { EmitConstant(GET_GLOBAL, KName(x), line); }
      case Group(e1) => CompileExpr(e1, line);
      case Neg(e1) =>
        var folded := EvalConst(e);
        if folded.Some? && folded.value.Number? {
          EmitConstant(CONSTANT, KInt(folded.value.i), line);
        } else {
          ghost var p := prog;
          CompileExpr(e1, line);
          EmitPlain(NEGATE, line);
        }
      case Not(e1) =>
        CompileExpr(e1, line);
        EmitPlain(NOT, line);
      case Bin(op, l, r) =>
        if op == And { CompileAnd(e, line); }
        else if op == Or { CompileOr(e, line); }
        else { CompileOperator(e, line); }
    }

    /** compileExpr followed by emitJump(JUMP_IF_FALSE_POP). */
    method CompileCondition(e: Expr, line: int) returns (jump: int, ghost at: nat)
      requires line == theLine
      requires Valid()
      modifies `code, `lines, `constants, `lastOpcodeOffset, `prog, `exact
      ensures Valid()
      ensures constants == old(constants) + ExprCode(e, Names(locals), |old(constants)|).ks
      ensures exact == (old(exact) && ConditionAligned(old(prog), e, Names(locals), |old(constants)|))
      ensures exact ==>
                old(exact) &&
                prog == old(prog) + WithJump(ExprCode(e, Names(locals), |old(constants)|).code, JUMP_IF_FALSE_POP, PENDING)
      ensures exact ==> |prog| > 0 && at == |prog| - 1 && jump == Off(prog, |prog|) - 2
      ensures Jumped(Bytes(), jump) == RawCond(e, Names(locals), |old(constants)|, old(Bytes()))
      decreases e, 2
    {
      hide ExprCode, ExprAligned, WithJump, Aligned, Settled, Cuttable, Assemble, SeesRight, RawExpr, RawJump;
      ghost var p, k := prog, |constants|;
      CompileExpr(e, line);
      if exact {
        ConditionAtEnd(p, e, Names(locals), k);
        ConditionSees(p, e, Names(locals), k, lastOpcodeOffset);
      }
      jump := EmitJump(JUMP_IF_FALSE_POP, PENDING, line);
      at := |prog| - 1;
    }

    method CompileAnd(e: Expr, line: int)
      requires line == theLine
      requires Valid() && e.Bin? && e.op == And
      modifies `code, `lines, `constants, `lastOpcodeOffset, `prog, `exact
      ensures Valid()
      ensures constants == old(constants) + ExprCode(e, Names(locals), |old(constants)|).ks
      ensures exact == (old(exact) && ExprAligned(old(prog), e, Names(locals), |old(constants)|))
      ensures exact ==> old(exact) && prog == old(prog) + ExprCode(e, Names(locals), |old(constants)|).code
      ensures Bytes() == RawAnd(e, Names(locals), |old(constants)|, old(Bytes()))
      decreases e, 0
    {
      hide RawAndEnd, Bytes, Valid, ExprCode, ExprAligned, ConditionAligned, WithJump, Aligned, Patched, Off,
           PatchReady, AndCode, Put, RawJump, RawPatch, RawExpr, RawCond;
      ghost var p, ls, k := prog, Names(locals), |constants|;
      ghost var fl := ExprCode(e.l, ls, k);
      ghost var fr := ExprCode(e.r, ls, k + |fl.ks|);
      BinParts(e, ls, k);
      AlignedParts(p, e, ls, k);
      var leftFalse, at1 := CompileCondition(e.l, line);
      ghost var p1 := prog;
      var rightFalse, at2 := CompileCondition(e.r, line);
      FinishAnd(leftFalse, rightFalse, p, p1, fl.code, fr.code, line);
    }

    /** Behind both operands: true, and false for the jumps of either. */
    method FinishAnd(leftFalse: int, rightFalse: int, ghost p: Prog, ghost p1: Prog, ghost l: Prog, ghost r: Prog, line: int)
      requires line == theLine
      requires Valid()
      requires exact ==>
                 p1 == p + WithJump(l, JUMP_IF_FALSE_POP, PENDING) && leftFalse == Off(p1, |p1|) - 2 &&
                 prog == p1 + WithJump(r, JUMP_IF_FALSE_POP, PENDING) && rightFalse == Off(prog, |prog|) - 2
      modifies `code, `lines, `lastOpcodeOffset, `prog, `exact
      ensures Valid() && exact == old(exact) && (exact ==> prog == p + AndCode(l, r))
      ensures Bytes() == RawAndEnd(leftFalse, Jumped(old(Bytes()), rightFalse))
    {
      hide Bytes, Valid, WithJump, Aligned, Patched, Off, PatchReady, AndCode, Put, RawJump, RawPatch;
      ghost var p2 := prog;
      AndPatches(p, l, r);
      EmitPlain(TRUE, line);
      ghost var at3 := |prog|;
      var endJump := EmitJump(JUMP, PENDING, line);
      PatchJump(leftFalse, |p1| - 1);
      PatchJump(rightFalse, |p2| - 1);
      EmitPlain(FALSE, line);
      PatchJump(endJump, at3);
    }

    method CompileOr(e: Expr, line: int)
      requires line == theLine
      requires Valid() && e.Bin? && e.op == Or
      modifies `code, `lines, `constants, `lastOpcodeOffset, `prog, `exact
      ensures Valid()
      ensures constants == old(constants) + ExprCode(e, Names(locals), |old(constants)|).ks
      ensures exact == (old(exact) && ExprAligned(old(prog), e, Names(locals), |old(constants)|))
      ensures exact ==> old(exact) && prog == old(prog) + ExprCode(e, Names(locals), |old(constants)|).code
      ensures Bytes() == RawOr(e, Names(locals), |old(constants)|, old(Bytes()))
      decreases e, 0
    {
      hide RawOrEnd, Names, Bytes, Valid, ExprCode, ExprAligned, ConditionAligned, WithJump, Aligned, Patched, Off,
           PatchReady, OrCode, Put, RawJump, RawPatch, RawExpr, RawCond, RawOrLeft;
      ghost var p, ls, k := prog, Names(locals), |constants|;
      ghost var fl := ExprCode(e.l, ls, k);
      ghost var fr := ExprCode(e.r, ls, k + |fl.ks|);
      BinParts(e, ls, k);
      AlignedParts(p, e, ls, k);
      var endJump, at2 := CompileOrLeft(e.l, line);
      ghost var p1 := prog;
      var rightFalse, at3 := CompileCondition(e.r, line);
      FinishOr(endJump, rightFalse, p, p1, fl.code, fr.code, line);
    }

    /** Behind both operands: the right one's result, and the jumps led there. */
    method FinishOr(endJump: int, rightFalse: int, ghost p: Prog, ghost p1: Prog, ghost l: Prog, ghost r: Prog, line: int)
      requires line == theLine
      requires Valid()
      requires exact ==>
                 p1 == p + WithJump(l, JUMP_IF_FALSE_POP, 2) + [Plain(TRUE), Jump(JUMP, PENDING)] &&
                 PatchReady(p1, |p1| - 1, endJump) && prog == p1 + WithJump(r, JUMP_IF_FALSE_POP, PENDING) &&
                 rightFalse == Off(prog, |prog|) - 2
      modifies `code, `lines, `lastOpcodeOffset, `prog, `exact
      ensures Valid() && exact == old(exact) && (exact ==> prog == p + OrCode(l, r))
      ensures Bytes() == RawOrEnd(endJump, Jumped(old(Bytes()), rightFalse))
    {
      hide Bytes, Valid, WithJump, Aligned, Patched, Off, PatchReady, OrCode, Put, RawJump, RawPatch;
      ghost var p2 := prog;
      if exact { OrRight(p, l, r, endJump); }
      EmitPlain(TRUE, line);
      ghost var at4 := |prog|;
      var endJumpRight := EmitJump(JUMP, PENDING, line);
      PatchJump(rightFalse, |p2| - 1);
      EmitPlain(FALSE, line);
      PatchJump(endJump, |p1| - 1);
      PatchJump(endJumpRight, at4);
    }

    /** Up to the right operand: when the left one holds, push true and leave. */
    method CompileOrLeft(l: Expr, line: int) returns (endJump: int, ghost at: nat)
      requires line == theLine
      requires Valid()
      modifies `code, `lines, `constants, `lastOpcodeOffset, `prog, `exact
      ensures Valid()
      ensures constants == old(constants) + ExprCode(l, Names(locals), |old(constants)|).ks
      ensures exact == (old(exact) && ConditionAligned(old(prog), l, Names(locals), |old(constants)|))
      ensures exact ==>
                old(exact) && at == |prog| - 1 && PatchReady(prog, at, endJump) &&
                prog == old(prog) + WithJump(ExprCode(l, Names(locals), |old(constants)|).code, JUMP_IF_FALSE_POP, 2) +
                        [Plain(TRUE), Jump(JUMP, PENDING)]
      ensures Jumped(Bytes(), endJump) == RawOrLeft(l, Names(locals), |old(constants)|, old(Bytes()))
      decreases l, 3
    {
      hide Bytes, Names, Valid, ExprCode, ConditionAligned, WithJump, Aligned, Patched, Off, PatchReady, Put, RawJump,
           RawPatch, RawExpr, RawCond;
      OrLeft(prog, ExprCode(l, Names(locals), |constants|).code);
      var leftFalse, at1 := CompileCondition(l, line);
      EmitPlain(TRUE, line);
      at := |prog|;
      endJump := EmitJump(JUMP, PENDING, line);
      PatchJump(leftFalse, at1);
    }

    /** The operators other than && and ||. */
    method CompileOperator(e: Expr, line: int)
      requires line == theLine
      requires Valid() && e.Bin? && e.op != And && e.op != Or
      modifies `code, `lines, `constants, `lastOpcodeOffset, `prog, `exact
      ensures Valid()
      ensures constants == old(constants) + ExprCode(e, Names(locals), |old(constants)|).ks
      ensures exact == (old(exact) && ExprAligned(old(prog), e, Names(locals), |old(constants)|))
      ensures exact ==> old(exact) && prog == old(prog) + ExprCode(e, Names(locals), |old(constants)|).code
      ensures Bytes() == RawExpr(e, Names(locals), |old(constants)|, old(Bytes()))
      decreases e, 0
    {
      hide Valid, ExprCode, ExprAligned, Aligned, TypeOf, BinCode, Put, Puts, RawExpr;
      ghost var p, ls, k := prog, Names(locals), |constants|;
      BinParts(e, ls, k);
      AlignedParts(p, e, ls, k);
      RawOperator(e, ls, k, Bytes());
      CompileExpr(e.l, line);
      CompileExpr(e.r, line);
      var numeric := Numeric(TypeOf(e.l, Names(locals))) && Numeric(TypeOf(e.r, Names(locals)));
      EmitOperator(e.op, numeric, line);
    }

    lemma OperatorPuts(op: BinOp, numeric: bool)
      ensures var b := BinCode(op, numeric);
              Puts(Bytes(), b) == if |b| == 1 then Put(Bytes(), b[0]) else Put(Put(Bytes(), b[0]), b[1])
    {
      var b := BinCode(op, numeric);
      if |b| == 1 { assert b == [b[0]]; PutsOne(Bytes(), b[0]); } else { assert b == [b[0], b[1]]; PutsTwo(Bytes(), b[0], b[1]); }
    }

    /** The instructions of an operator on two operands. */
    method EmitOperator(op: BinOp, numeric: bool, line: int)
      requires line == theLine
      requires Valid() && op != And && op != Or
      modifies `code, `lines, `lastOpcodeOffset, `prog
      ensures Valid() && prog == old(prog) + BinCode(op, numeric)
      ensures Bytes() == Puts(old(Bytes()), BinCode(op, numeric))
    {
      hide OneLine, Settled, Assemble, Put, Puts;
      OperatorPuts(op, numeric);
      match op
      case Add => EmitPlain(if numeric then ADD_NUM else ADD, line);
      case Sub => EmitPlain(if numeric then SUB_NUM else SUB, line);
      case Mul => EmitPlain(if numeric then MUL_NUM else MUL, line);
      case Mod => EmitPlain(if numeric then MOD_NUM else MOD, line);
      case Eq => EmitPlain(EQUAL, line);
      case Ne => EmitPlain(EQUAL, line); EmitPlain(NOT, line);
      case Gt => EmitPlain(if numeric then GREATER_NUM else GREATER, line);
      case Lt => EmitPlain(if numeric then LESS_NUM else LESS, line);
      case Ge => EmitPlain(if numeric then LESS_NUM else LESS, line); EmitPlain(NOT, line);
      case Le => EmitPlain(if numeric then GREATER_NUM else GREATER, line); EmitPlain(NOT, line);
      case _ =>
    }

    // ------------------------------------------------------ scopes and locals

    ghost function State(): Snap
      reads this
    {
      Snap(prog, exact, constants, locals, depth, maxLocals, loops)
    }

    method BeginScope()
      requires Valid()
      modifies `depth
      ensures Valid() && depth == old(depth) + 1
    {
      depth := depth + 1;
    }

    /** Drops the locals of the scope, the ones from n on. */
    method EndScope(ghost n: nat)
      requires Valid() && n <= |locals|
      requires forall i :: 0 <= i < n ==> locals[i].depth < depth
      requires forall i :: n <= i < |locals| ==> locals[i].depth == depth
      modifies `locals, `depth
      ensures Valid() && locals == old(locals)[..n] && depth == old(depth) - 1
    {
      hide Low8, LaidOut;
      while |locals| > 0 && locals[|locals| - 1].depth >= depth
        invariant depth == old(depth) && n <= |locals| <= |old(locals)| && locals == old(locals)[..|locals|]
        decreases |locals|
      {
        locals := locals[..|locals| - 1];
      }
      depth := depth - 1;
    }

    method DeclareLocal(name: string, typ: Type) returns (slot: byte)
      requires Valid()
      modifies `locals, `maxLocals
      ensures Valid() && slot == Low8(|old(locals)|)
      ensures locals == old(locals) + [LocalVar(name, depth, slot, typ)] && maxLocals == Max(old(maxLocals), |locals|)
    {
      hide Low8, LaidOut;
      slot := Low8(|locals|);
      locals := locals + [LocalVar(name, depth, slot, typ)];
      if |locals| > maxLocals { maxLocals := |locals|; }
    }

    method SetLocalType(index: nat, typ: Type)
      requires Valid() && index < |locals|
      modifies `locals
      ensures Valid() && DepthsKept(old(locals), locals, depth)
      ensures Names(locals) == if typ.TNone? then old(Names(locals))
                               else old(Names(locals))[index := Local(old(locals)[index].name, typ)]
    {
      hide Low8, LaidOut;
      if typ.TNone? { return; }
      var v := locals[index];
      locals := locals[index := LocalVar(v.name, v.depth, v.slot, typ)];
    }

    // ----------------------------------------------------- simple statements

    method CompileLet(x: string, declared: Option<Type>, e: Expr, line: int, ghost lc: LoopCtx)
      requires line == theLine
      requires Valid()
      modifies this
      ensures Valid() && Compiled(old(State()), State(), StmtCode(Let(x, declared, e), old(Names(locals)), |old(constants)|, lc))
      ensures exact == (old(exact) && ExprAligned(old(prog), e, old(Names(locals)), |old(constants)|))
      ensures Bytes() == RawStmt(Let(x, declared, e), old(Names(locals)), |old(constants)|, lc, old(Bytes()))
    {
      hide OneLine, Valid, ExprCode, ExprAligned, TypeOf, Low8, Grown, NoHoles, StmtCode, Put, RawExpr;
      ghost var s, ls, k := Let(x, declared, e), Names(locals), |constants|;
      var typ := if declared.Some? then declared.value else TypeOf(e, Names(locals));
      CompileExpr(e, line);
      var slot := DeclareLocal(x, typ);
      EmitSlot(SET_LOCAL, slot, |ls|, line);
      LetCode(x, declared, e, ls, k, lc);
      NoneWaits(s, ls, k, lc);
      GrownNone(loops, StmtCode(s, ls, k, lc).code, Off(old(prog), |old(prog)|));
    }

    method CompileExprStmt(e: Expr, line: int, ghost lc: LoopCtx)
      requires line == theLine
      requires Valid()
      modifies this
      ensures Valid() && Compiled(old(State()), State(), StmtCode(ExprStmt(e), old(Names(locals)), |old(constants)|, lc))
      ensures exact == (old(exact) && ExprAligned(old(prog), e, old(Names(locals)), |old(constants)|))
      ensures Bytes() == RawStmt(ExprStmt(e), old(Names(locals)), |old(constants)|, lc, old(Bytes()))
    {
      hide OneLine, ExprCode, ExprAligned, LaidOut, Low8, Grown, NoHoles, StmtCode, Put, RawExpr;
      ghost var s, ls, k := ExprStmt(e), Names(locals), |constants|;
      CompileExpr(e, line);
      EmitPlain(POP, line);
      ExprStmtCode(e, ls, k, lc);
      NoneWaits(s, ls, k, lc);
      GrownNone(loops, StmtCode(s, ls, k, lc).code, Off(old(prog), |old(prog)|));
    }

    /** Adding a constant to a numeric local. */
    method EmitFastAddConst(x: string, op: AssignOp, e: Expr, slot: byte, index: nat, line: int) returns (done: bool)
      requires line == theLine
      requires Valid() && index < |locals| && slot == Low8(index)
      modifies `code, `lines, `constants, `lastOpcodeOffset, `prog
      ensures Valid() && done == AddedConst(x, op, e, locals[index].typ).Some?
      ensures done ==>
                var c := AddedConst(x, op, e, locals[index].typ).value;
                prog == old(prog) + (if c == 1 then [Slot(INC_LOCAL, index)]
                                     else if c == -1 then [Slot(DEC_LOCAL, index)]
                                     else [AddConst(index, |old(constants)|)]) &&
                constants == old(constants) + (if c == 1 || c == -1 then [] else [KInt(c)])
      ensures !done ==> code == old(code) && prog == old(prog) && constants == old(constants)
      ensures done ==>
                Bytes() == Put(old(Bytes()), ConstUpdate(AddedConst(x, op, e, locals[index].typ).value, index, |old(constants)|))
      ensures !done ==> Bytes() == old(Bytes())
    {
      hide OneLine, Low8, Put, Encode, Assemble, Settled, AddedConst, Hi, Lo;
      var added := AddedConst(x, op, e, locals[index].typ);
      if added.None? { return false; }
      if added.value == 1 { EmitSlot(INC_LOCAL, slot, index, line); return true; }
      if added.value == -1 { EmitSlot(DEC_LOCAL, slot, index, line); return true; }
      ghost var k := |constants|;
      var constant := AddConstant(KInt(added.value));
      EmitAddConst(slot, index, constant, k, line);
      done := true;
    }

    /** ADD_CONST_LOCAL_INT; k is the constant's index before it was cut to 16
        bits. */
    method EmitAddConst(slot: byte, ghost s: nat, constant: int, ghost k: nat, line: int)
      requires line == theLine
      requires Valid() && slot == Low8(s) && constant == k % 65536
      modifies `code, `lines, `lastOpcodeOffset, `prog
      ensures Valid() && prog == old(prog) + [AddConst(s, k)]
      ensures Bytes() == Put(old(Bytes()), AddConst(s, k))
    {
      hide OneLine, Low8, Hi, Lo, Assemble, Settled;
      ghost var p := prog;
      Emit(ADD_CONST_LOCAL_INT, line);
      EmitByte(slot, line);
      EmitUint16(constant, line);
      prog := p + [AddConst(s, k)];
      Uint16OfIndex(k);
      if exact { AppendBytes(p, AddConst(s, k)); }
    }

    /** Adding an int local to an int local. */
    method EmitFastAddLocal(x: string, op: AssignOp, e: Expr, slot: byte, index: nat, line: int) returns (done: bool)
      requires line == theLine
      requires Valid() && index < |locals| && slot == Low8(index)
      modifies `code, `lines, `lastOpcodeOffset, `prog
      ensures Valid() && done == AddedLocal(x, op, e, Names(locals), locals[index].typ).Some?
      ensures done ==>
                prog == old(prog) + [AddLocal(index, AddedLocal(x, op, e, Names(locals), locals[index].typ).value)]
      ensures !done ==> code == old(code) && prog == old(prog)
      ensures done ==>
                Bytes() == Put(old(Bytes()), AddLocal(index, AddedLocal(x, op, e, Names(locals), locals[index].typ).value))
      ensures !done ==> Bytes() == old(Bytes())
    {
      hide OneLine, Low8, Assemble, Settled, AddedLocal;
      var source := AddedLocal(x, op, e, Names(locals), locals[index].typ);
      if source.None? { return false; }
      AddedLocalBelow(x, op, e, Names(locals), locals[index].typ);
      ghost var p := prog;
      ghost var ins := AddLocal(index, source.value);
      Emit(ADD_LOCAL_LOCAL, line);
      EmitByte(slot, line);
      EmitByte(locals[source.value].slot, line);
      prog := p + [ins];
      if exact { AppendBytes(p, ins); }
      done := true;
    }

    method CompileLocalAssign(x: string, op: AssignOp, e: Expr, slot: byte, index: nat, line: int)
      requires line == theLine
      requires Valid() && index < |locals| && slot == Low8(index)
      modifies `code, `lines, `constants, `lastOpcodeOffset, `prog, `exact, `locals
      ensures Valid() && DepthsKept(old(locals), locals, depth)
      ensures Names(locals) == AssignCode(x, op, e, old(Names(locals)), |old(constants)|, index).1
      ensures constants == old(constants) + AssignCode(x, op, e, old(Names(locals)), |old(constants)|, index).0.ks
      ensures exact ==>
                old(exact) &&
                prog == old(prog) + AssignCode(x, op, e, old(Names(locals)), |old(constants)|, index).0.code
      ensures exact == (old(exact) && AssignAligned(old(prog), x, op, e, old(Names(locals)), |old(constants)|, index))
      ensures Bytes() == RawAssign(x, op, e, old(Names(locals)), |old(constants)|, index, old(Bytes()))
    {
      hide Bytes, Valid, Low8, ExprCode, ExprAligned, AddedConst, AddedLocal, SelfUpdate, TypeOf, BinCode, Put,
           RawCompound, RawSet, ConstUpdate;
      var done := EmitFastAddConst(x, op, e, slot, index, line);
      if done { return; }
      done := EmitFastAddLocal(x, op, e, slot, index, line);
      if done { return; }
      if op != Set { CompileCompound(op, e, slot, index, line); }
      else { CompileSet(x, e, slot, index, line); }
    }

    /** `x op= e` where no fast form applies. */
    method CompileCompound(op: AssignOp, e: Expr, slot: byte, index: nat, line: int)
      requires line == theLine
      requires Valid() && index < |locals| && slot == Low8(index) && op != Set
      modifies `code, `lines, `constants, `lastOpcodeOffset, `prog, `exact
      ensures Valid()
      ensures constants == old(constants) + ExprCode(e, Names(locals), |old(constants)|).ks
      ensures var f := ExprCode(e, Names(locals), |old(constants)|).code;
              var numeric := Numeric(locals[index].typ) && Numeric(TypeOf(e, Names(locals)));
              exact ==>
                old(exact) &&
                prog == old(prog) +
                        if numeric then f + [Slot(ToLocalOp(CompoundOp(op)), index)]
                        else [Slot(GET_LOCAL, index)] + f + BinCode(CompoundOp(op), false) + [Slot(SET_LOCAL, index)]
      ensures var numeric := Numeric(locals[index].typ) && Numeric(TypeOf(e, Names(locals)));
              var p := if numeric then old(prog) else old(prog) + [Slot(GET_LOCAL, index)];
              exact == (old(exact) && ExprAligned(p, e, Names(locals), |old(constants)|))
      ensures Bytes() == RawCompound(op, e, Names(locals), |old(constants)|, index, old(Bytes()))
    {
      hide ToLocalOp, Bytes, Valid, Low8, ExprCode, ExprAligned, TypeOf, BinCode, Put, Puts, RawExpr;
      if Numeric(locals[index].typ) && Numeric(TypeOf(e, Names(locals))) {
        CompileExpr(e, line);
        EmitSlot(ToLocalOp(CompoundOp(op)), slot, index, line);
      } else {
        EmitSlot(GET_LOCAL, slot, index, line);
        CompileOperand(op, e, line);
        EmitSlot(SET_LOCAL, slot, index, line);
      }
    }

    /** The right operand and the operator of `op=`. */
    method CompileOperand(op: AssignOp, e: Expr, line: int)
      requires line == theLine
      requires Valid() && op != Set
      modifies `code, `lines, `constants, `lastOpcodeOffset, `prog, `exact
      ensures Valid() && constants == old(constants) + ExprCode(e, Names(locals), |old(constants)|).ks
      ensures exact == (old(exact) && ExprAligned(old(prog), e, Names(locals), |old(constants)|))
      ensures exact ==>
                prog == old(prog) + ExprCode(e, Names(locals), |old(constants)|).code + BinCode(CompoundOp(op), false)
      ensures Bytes() ==
              Puts(RawExpr(e, Names(locals), |old(constants)|, old(Bytes())), BinCode(CompoundOp(op), false))
    {
      hide Bytes, Valid, ExprCode, ExprAligned, BinCode, Puts, RawExpr;
      CompileExpr(e, line);
      EmitOperator(CompoundOp(op), false, line);
    }

    /** `x = e` where no constant or local is added. */
    method CompileSet(x: string, e: Expr, slot: byte, index: nat, line: int)
      requires line == theLine
      requires Valid() && index < |locals| && slot == Low8(index)
      requires AddedConst(x, Set, e, locals[index].typ).None?
      requires AddedLocal(x, Set, e, Names(locals), locals[index].typ).None?
      modifies `code, `lines, `constants, `lastOpcodeOffset, `prog, `exact, `locals
      ensures Valid() && DepthsKept(old(locals), locals, depth)
      ensures Names(locals) == AssignCode(x, Set, e, old(Names(locals)), |old(constants)|, index).1
      ensures constants == old(constants) + AssignCode(x, Set, e, old(Names(locals)), |old(constants)|, index).0.ks
      ensures exact ==>
                old(exact) &&
                prog == old(prog) + AssignCode(x, Set, e, old(Names(locals)), |old(constants)|, index).0.code
      ensures exact == (old(exact) && AssignAligned(old(prog), x, Set, e, old(Names(locals)), |old(constants)|, index))
      ensures Bytes() == RawSet(x, e, old(Names(locals)), |old(constants)|, index, old(Bytes()))
    {
      hide Valid, Low8, ExprCode, ExprAligned, AddedConst, AddedLocal, SelfUpdate, TypeOf, BinCode, Put, Puts, RawExpr;
      var targetType, assignedType := locals[index].typ, TypeOf(e, Names(locals));
      var update := SelfUpdate(x, e, Names(locals), targetType);
      if update.Some? {
        CompileExpr(update.value.1, line);
        EmitSlot(update.value.0, slot, index, line);
        return;
      }
      CompileExpr(e, line);
      if targetType.TNone? { SetLocalType(index, assignedType); }
      EmitSlot(SET_LOCAL, slot, index, line);
    }

    /** Assignment to a name that is no local. */
    method CompileGlobalAssign(x: string, op: AssignOp, e: Expr, line: int)
      requires line == theLine
      requires Valid()
      modifies `code, `lines, `constants, `lastOpcodeOffset, `prog, `exact
      ensures Valid()
      ensures constants == old(constants) + GlobalAssignCode(x, op, e, Names(locals), |old(constants)|).ks
      ensures exact ==>
                old(exact) && prog == old(prog) + GlobalAssignCode(x, op, e, Names(locals), |old(constants)|).code
      ensures exact == (old(exact) && GlobalAssignAligned(old(prog), x, op, e, Names(locals), |old(constants)|))
      ensures Bytes() == RawGlobalAssign(x, op, e, Names(locals), |old(constants)|, old(Bytes()))
    {
      hide Names, Bytes, Valid, ExprCode, ExprAligned, BinCode, Put, Puts, RawExpr;
      CompileExpr(e, line);
      ghost var k := |constants|;
      var name := AddConstant(KName(x));
      if op == Set {
        EmitIndexed(SET_GLOBAL, name, k, line);
      } else {
        EmitIndexed(GET_GLOBAL, name, k, line);
        CompileOperand(op, e, line);
        EmitIndexed(SET_GLOBAL, name, k, line);
      }
    }

    method CompileAssign(x: string, op: AssignOp, e: Expr, line: int, ghost lc: LoopCtx)
      requires line == theLine
      requires Valid()
      modifies this
      ensures Valid() && Compiled(old(State()), State(), StmtCode(Assign(x, op, e), old(Names(locals)), |old(constants)|, lc))
      ensures exact == (old(exact) && StmtAligned(old(prog), Assign(x, op, e), old(Names(locals)), |old(constants)|, lc))
      ensures Bytes() == RawStmt(Assign(x, op, e), old(Names(locals)), |old(constants)|, lc, old(Bytes()))
    {
      hide OneLine, LaidOut, ExprCode, AssignCode, AssignAligned, GlobalAssignCode, GlobalAssignAligned, Low8, Grown, NoHoles,
           StmtCode, ExprAligned, RawAssign, RawGlobalAssign;
      ghost var s, ls, k := Assign(x, op, e), Names(locals), |constants|;
      var slot, index, found := ResolveLocal(x);
      if found { CompileLocalAssign(x, op, e, slot, index, line); }
      else { CompileGlobalAssign(x, op, e, line); }
      AssignStmtCode(x, op, e, ls, k, lc);
      NoneWaits(s, ls, k, lc);
      GrownNone(loops, StmtCode(s, ls, k, lc).code, Off(old(prog), |old(prog)|));
    }

    // ------------------------------------------------------------- branches

    /** A conditional jump on a local and a constant; returns the operand. */
    method EmitJumpLocalConst(op: byte, slot: byte, ghost s: nat, c: int, line: int) returns (offset: int)
      requires line == theLine
      requires Valid() && slot == Low8(s)
      modifies `code, `lines, `constants, `lastOpcodeOffset, `prog
      ensures Valid() && constants == old(constants) + [KInt(c)]
      ensures prog == old(prog) + [ConstJump(op, s, |old(constants)|, PENDING)]
      ensures exact ==> offset == Off(prog, |prog|) - 2
      ensures Jumped(Bytes(), offset) == PutWaiting(old(Bytes()), ConstJump(op, s, |old(constants)|, 0))
    {
      hide OneLine, Hi, Lo, Low8, Assemble, Settled, Off, Encode, WithOperand;
      ConstJumpBytes(op, s, |constants|);
      SameOperand(op, s, |constants|);
      ZeroBytes();
      ghost var p := prog;
      ghost var ins := ConstJump(op, s, |constants|, PENDING);
      Emit(op, line);
      EmitByte(slot, line);
      var index := AddConstant(KInt(c));
      EmitUint16(index, line);
      EmitUint16(0, line);
      offset := |code| - 2;
      Uint16OfIndex(|old(constants)|);
      assert code == old(code) + [op, slot, Hi(index), Lo(index), 0, 0];
      prog := p + [ins];
      if exact {
        PendingAppended(p, ins);
      }
    }

    /** The test of an if-statement. */
    method CompileIfHead(c: Expr, line: int) returns (jump: int)
      requires line == theLine
      requires Valid()
      modifies `code, `lines, `constants, `lastOpcodeOffset, `prog, `exact
      ensures Valid()
      ensures constants == old(constants) + IfHead(c, Names(locals), |old(constants)|, PENDING).ks
      ensures exact == (old(exact) && HeadAligned(old(prog), c, Names(locals), |old(constants)|))
      ensures exact ==>
                old(exact) && prog == old(prog) + IfHead(c, Names(locals), |old(constants)|, PENDING).code &&
                jump == Off(prog, |prog|) - 2
      ensures Jumped(Bytes(), jump) == RawIfHead(c, Names(locals), |old(constants)|, old(Bytes()))
    {
      hide OneLine, LaidOut, Low8, MatchLessEqual, MatchDivisible, ExprCode, ConditionAligned, Off, WithJump, PutWaiting,
           RawCond;
      MatchesBelow(c, Names(locals));
      var match1 := MatchLessEqual(c, Names(locals));
      if match1.Some? {
        var m := match1.value;
        jump := EmitJumpLocalConst(m.op, locals[m.s].slot, m.s, m.c, line);
        return;
      }
      var match2 := MatchDivisible(c, Names(locals));
      if match2.Some? {
        var m := match2.value;
        jump := EmitJumpLocalConst(m.op, locals[m.s].slot, m.s, m.c, line);
        return;
      }
      ghost var at;
      jump, at := CompileCondition(c, line);
    }

    // --------------------------------------------------------------- blocks

    method CompileStatements(b: Block, line: int, ghost lc: LoopCtx) returns (ok: bool)
      requires line == theLine
      requires Valid() && LoopsFit(State(), lc)
      modifies this
      ensures ok == BlockCode(b, old(Names(locals)), |old(constants)|, lc).ok
      ensures ok ==> Valid() && Compiled(old(State()), State(), BlockCode(b, old(Names(locals)), |old(constants)|, lc))
      ensures ok ==> exact == (old(exact) && BlockAligned(old(prog), b, old(Names(locals)), |old(constants)|, lc))
      ensures ok ==> Bytes() == RawBlock(b, old(Names(locals)), |old(constants)|, lc, old(Bytes()))
      decreases b, 0
    {
      hide OneLine, LaidOut, StmtCode, StmtAligned, Compiled, LoopsFit, Names, Shift, Bytes, RawStmt, RawBlock, BlockAligned,
           BlockCode;
      ghost var s0, ls0, k0, r0 := State(), Names(locals), |constants|, Bytes();
      ghost var total := BlockCode(b, ls0, k0, lc);
      ghost var done, at := Empty(ls0), lc;
      var rest := b;
      BothEmpty(b, ls0, k0, lc);
      StartCompiled(s0);
      ShiftTwice(lc, 0, 0);
      while rest.Then?
        invariant Valid() && Compiled(s0, State(), done)
        invariant done.ok && done.ls == Names(locals) && |done.ls| <= done.max
        invariant at == Shift(lc, |done.code|) && LoopsFit(State(), at)
        invariant total == Both(done, BlockCode(rest, done.ls, |constants|, at))
        invariant s0.exact && BlockAligned(s0.prog, b, ls0, k0, lc) <==>
                  exact && BlockAligned(prog, rest, done.ls, |constants|, at)
        invariant RawBlock(b, ls0, k0, lc, r0) == RawBlock(rest, done.ls, |constants|, at, Bytes())
        invariant rest == b || rest < b
        decreases rest
      {
        ghost var s1, k1 := State(), |constants|;
        ghost var f := StmtCode(rest.s, done.ls, k1, at);
        RawThen(rest, done.ls, k1, at, Bytes());
        AlignedThen(prog, rest, done.ls, k1, at);
        ok := CompileStmt(rest.s, line, at);
        if !ok { return; }
        StmtLocals(rest.s, done.ls, k1, at);
        Sequence(s0, s1, State(), done, f);
        FitsAfter(s1, State(), f, at);
        ShiftTwice(lc, |done.code|, |f.code|);
        CompiledFields(s1, State(), f);
        BothAssoc(done, f, BlockCode(rest.rest, f.ls, k1 + |f.ks|, Shift(at, |f.code|)));
        done, at := Both(done, f), Shift(at, |f.code|);
        rest := rest.rest;
      }
      ok := true;
      BothDone(done, |constants|, at);
      RawThen(rest, done.ls, |constants|, at, Bytes());
      AlignedThen(prog, rest, done.ls, |constants|, at);
    }

    method CompileBlock(b: Block, line: int, ghost lc: LoopCtx) returns (ok: bool)
      requires line == theLine
      requires Valid() && LoopsFit(State(), lc)
      modifies this
      ensures ok == ScopeCode(b, old(Names(locals)), |old(constants)|, lc).ok
      ensures ok ==> Valid() && Compiled(old(State()), State(), ScopeCode(b, old(Names(locals)), |old(constants)|, lc))
      ensures ok ==> exact == (old(exact) && BlockAligned(old(prog), b, old(Names(locals)), |old(constants)|, lc))
      ensures ok ==> Bytes() == RawBlock(b, old(Names(locals)), |old(constants)|, lc, old(Bytes()))
      decreases b, 1
    {
      hide OneLine, LaidOut, BlockCode, BlockAligned, Names, Grown, Low8, Bytes, RawBlock;
      ghost var s0, n := State(), |locals|;
      ghost var f := BlockCode(b, Names(locals), |constants|, lc);
      BeginScope();
      ok := CompileStatements(b, line, lc);
      if !ok { return; }
      ghost var t := State();
      EndScope(n);
      ScopeCompiled(s0, t, State(), f, n);
    }

    method CompileIf(st: Stmt, line: int, ghost lc: LoopCtx) returns (ok: bool)
      requires line == theLine
      requires Valid() && LoopsFit(State(), lc) && st.If?
      modifies this
      ensures ok == StmtCode(st, old(Names(locals)), |old(constants)|, lc).ok
      ensures ok ==> Valid() && Compiled(old(State()), State(), StmtCode(st, old(Names(locals)), |old(constants)|, lc))
      ensures ok ==> exact == (old(exact) && StmtAligned(old(prog), st, old(Names(locals)), |old(constants)|, lc))
      ensures ok ==> Bytes() == RawStmt(st, old(Names(locals)), |old(constants)|, lc, old(Bytes()))
      decreases st, 1
    {
      hide RawIfHead, RawBlock, RawPatch, Bytes, Valid, IfHead, ScopeCode, BlockAligned, HeadAligned, Names, Off,
           PatchReady, Patched, Compiled, StmtCode, LoopsFit;
      ghost var s, ls, k := State(), Names(locals), |constants|;
      IfCode(st, ls, k, lc);
      var jump := CompileIfHead(st.c, line);
      ghost var t := State();
      ghost var h := IfHead(st.c, ls, k, PENDING);
      FitsHead(s, t, |h.code|, lc);
      ok := CompileBlock(st.thn, line, Shift(lc, |h.code|));
      if !ok { return; }
      ghost var u := State();
      if st.els.None? {
        IfCompiled(st, s, t, u, lc, jump);
        PatchJump(jump, |t.prog| - 1);
      } else {
        ok := CompileElse(st, line, s, t, lc, jump);
      }
    }

    /** Between the branches: the jump over the second one, and the test led to
        where it starts. */
    method EmitOver(st: Stmt, line: int, ghost s: Snap, ghost t: Snap, ghost lc: LoopCtx, jump: int) returns (over: int)
      requires line == theLine
      requires Valid() && LoopsFit(s, lc) && st.If?
      requires AfterHead(st.c, s, t, jump) && Compiled(t, State(), BranchCode(st, s, lc))
      modifies `code, `lines, `lastOpcodeOffset, `prog, `exact
      ensures Valid() && exact == old(exact)
      ensures exact ==> prog == ElseProg(st, s, lc) && PatchReady(prog, |prog| - 1, over)
      ensures Bytes() == RawPatch(RawJump(old(Bytes()), JUMP).raw, jump) && over == RawJump(old(Bytes()), JUMP).at
      ensures LoopsFit(State(), Shift(lc, |IfHead(st.c, Names(s.locals), |s.constants|, PENDING).code| +
                                         |BranchCode(st, s, lc).code| + 1))
    {
      hide Valid, IfHead, BranchCode, Names, Off, PatchReady, Patched, Compiled, LoopsFit, ElseProg, AfterHead,
           WithJump, Bytes, RawPatch, RawJump;
      ghost var u := State();
      ElseStart(st, s, t, u, lc, jump);
      over := EmitJump(JUMP, PENDING, line);
      ghost var q := prog;
      PatchJump(jump, |t.prog| - 1);
      assert State() == u.(prog := prog);
    }

    /** From the end of the first branch on. */
    method CompileElse(st: Stmt, line: int, ghost s: Snap, ghost t: Snap, ghost lc: LoopCtx, jump: int) returns (ok: bool)
      requires line == theLine
      requires Valid() && LoopsFit(s, lc) && st.If? && st.els.Some? && BranchCode(st, s, lc).ok
      requires AfterHead(st.c, s, t, jump) && Compiled(t, State(), BranchCode(st, s, lc))
      requires var h := IfHead(st.c, Names(s.locals), |s.constants|, PENDING);
               exact ==>
                 HeadAligned(s.prog, st.c, Names(s.locals), |s.constants|) &&
                 BlockAligned(s.prog + h.code, st.thn, Names(s.locals), |s.constants| + |h.ks|, Shift(lc, |h.code|))
      modifies this
      ensures ok == StmtCode(st, Names(s.locals), |s.constants|, lc).ok
      ensures ok ==> Valid() && Compiled(s, State(), StmtCode(st, Names(s.locals), |s.constants|, lc))
      ensures ok ==> exact == (old(exact) && StmtAligned(s.prog, st, Names(s.locals), |s.constants|, lc))
      ensures var h := IfHead(st.c, Names(s.locals), |s.constants|, PENDING);
              var f := BranchCode(st, s, lc);
              ok ==> Bytes() == RawElse(st.els.value, f.ls, |s.constants| + |h.ks| + |f.ks|,
                                        Shift(lc, |h.code| + |f.code| + 1), jump, old(Bytes()))
      decreases st, 0
    {
      hide Valid, IfHead, ScopeCode, BlockAligned, HeadAligned, Names, Off, PatchReady, Patched, Compiled, StmtCode,
           LoopsFit, AfterHead, Bytes, RawBlock, RawJump, RawPatch;
      ghost var u := State();
      IfCode(st, Names(s.locals), |s.constants|, lc);
      CompiledFields(t, u, BranchCode(st, s, lc));
      HeadFields(st.c, s, t, jump);
      var over := EmitOver(st, line, s, t, lc, jump);
      ghost var v := State();
      ghost var h := IfHead(st.c, Names(s.locals), |s.constants|, PENDING);
      ok := CompileBlock(st.els.value, line, Shift(lc, |h.code| + |BranchCode(st, s, lc).code| + 1));
      if !ok { return; }
      ElseCompiled(st, s, t, u, v, State(), lc, jump, over);
      PatchJump(over, |v.prog| - 1);
    }

    // ---------------------------------------------------------------- loops

    /** The waiting jumps of c, which starts behind p, led to the end of c. */
    method PatchAll(jumps: seq<int>, ghost p: Prog, ghost c: Prog, ghost hole: int)
      requires Valid() && hole < 0
      requires exact ==> prog == p + c && jumps == HoleOffsets(c, Off(p, |p|), hole)
      modifies `code, `prog, `exact
      ensures Valid() && exact == old(exact)
      ensures if exact then prog == p + Fill(c, hole, |c|) else prog == old(prog)
      ensures Bytes() == RawPatches(old(Bytes()), jumps)
    {
      hide Valid, Waits, HoleOffsets, Off, Fill, PartFilled, Patched, Bytes, RawPatch;
      ghost var ats := Waits(c, hole);
      AllFilled(c, hole);
      HolesCount(c, Off(p, |p|), hole);
      var i := 0;
      assert ats[..0] == [];
      while i < |jumps|
        invariant Valid() && exact == old(exact) && i <= |jumps|
        invariant if exact then |jumps| == |ats| && prog == p + PartFilled(c, ats[..i]) else prog == old(prog)
        invariant Bytes() == RawPatches(old(Bytes()), jumps[..i])
      {
        assert jumps[..i + 1][..i] == jumps[..i];
        ghost var at := 0;
        if exact {
          PatchNext(p, c, hole, i);
          at := |p| + ats[i];
          assert PatchReady(prog, at, jumps[i]);
        }
        PatchJump(jumps[i], at);
        i := i + 1;
      }
      assert jumps[..i] == jumps && (exact ==> ats[..i] == ats);
    }

    /** Ends the breaks of the innermost loop, whose code c starts behind p. */
    method PatchLoopBreaks(ghost p: Prog, ghost c: Prog)
      requires Valid() && |loops| > 0
      requires exact ==> prog == p + c && loops[|loops| - 1].breakJumps == HoleOffsets(c, Off(p, |p|), BREAK_HOLE)
      modifies `code, `prog, `exact, `loops
      ensures Valid() && exact == old(exact) && |loops| == |old(loops)| && loops[..|loops| - 1] == old(loops)[..|loops| - 1]
      ensures if exact then prog == p + Fill(c, BREAK_HOLE, |c|) else prog == old(prog)
      ensures Bytes().(loops := loops[..|loops| - 1]) == EndLoop(old(Bytes()))
    {
      hide Valid, HoleOffsets, Off, Fill, RawPatches;
      var ctx := loops[|loops| - 1];
      PatchAll(ctx.breakJumps, p, c, BREAK_HOLE);
      loops := loops[|loops| - 1 := ctx.(breakJumps := [])];
    }

    /** Ends the continues of the innermost loop. */
    method PatchLoopContinues(ghost p: Prog, ghost c: Prog)
      requires Valid() && |loops| > 0
      requires exact ==> prog == p + c && loops[|loops| - 1].continueJumps == HoleOffsets(c, Off(p, |p|), CONTINUE_HOLE)
      modifies `code, `prog, `exact, `loops
      ensures Valid() && exact == old(exact)
      ensures loops == old(loops)[|old(loops)| - 1 := old(loops)[|old(loops)| - 1].(continueJumps := [])]
      ensures if exact then prog == p + Fill(c, CONTINUE_HOLE, |c|) else prog == old(prog)
      ensures Bytes() == RawPatches(old(Bytes()), old(loops)[|old(loops)| - 1].continueJumps).(loops := loops)
    {
      hide Valid, HoleOffsets, Off, Fill, RawPatches;
      var ctx := loops[|loops| - 1];
      PatchAll(ctx.continueJumps, p, c, CONTINUE_HOLE);
      loops := loops[|loops| - 1 := ctx.(continueJumps := [])];
    }

    method CompileLoop(c: Option<Expr>, body: Block, line: int, ghost lc: LoopCtx) returns (ok: bool)
      requires line == theLine
      requires Valid()
      modifies this
      ensures ok == StmtCode(While(c, body), old(Names(locals)), |old(constants)|, lc).ok
      ensures ok ==>
                Valid() &&
                Compiled(old(State()), State(), StmtCode(While(c, body), old(Names(locals)), |old(constants)|, lc))
      ensures ok ==> exact == (old(exact) && StmtAligned(old(prog), While(c, body), old(Names(locals)), |old(constants)|, lc))
      ensures ok ==> Bytes() == RawStmt(While(c, body), old(Names(locals)), |old(constants)|, lc, old(Bytes()))
      decreases body, 4
    {
      hide Valid, LoopHead, ScopeCode, BlockAligned, LoopHeadAligned, Names, Off, PatchReady, Patched, Compiled,
           StmtCode, LoopsFit, Fill, WhileEntered, RawLoopHead, RawBlock, Finish;
      ghost var s := State();
      WhileIsRaw(c, body, Names(locals), |constants|, lc);
      CodeLength();
      var loopStart := |code|;
      var exitJump := CompileLoopCondition(c, line);
      loops := loops + [LoopContext(loopStart, true, [], [])];
      ghost var t := State();
      WhileStarts(c, s, t, exitJump);
      WhileFits(c, s, t, exitJump);
      ghost var h := LoopHead(c, Names(locals), |s.constants|, PENDING);
      ok := CompileBlock(body, line, Backward(|h.code|));
      if !ok { return; }
      CompiledFields(t, State(), WhileBody(c, body, s));
      FinishLoop(c, body, line, loopStart, exitJump, s, t, lc);
    }

    /** The condition of a loop, if it has one; returns the exit jump. */
    method CompileLoopCondition(c: Option<Expr>, line: int) returns (exitJump: int)
      requires line == theLine
      requires Valid()
      modifies `code, `lines, `constants, `lastOpcodeOffset, `prog, `exact
      ensures Valid() && constants == old(constants) + LoopHead(c, Names(locals), |old(constants)|, PENDING).ks
      ensures exact == (old(exact) && LoopHeadAligned(old(prog), c, Names(locals), |old(constants)|))
      ensures exact ==> old(exact) && prog == old(prog) + LoopHead(c, Names(locals), |old(constants)|, PENDING).code
      ensures exact && c.Some? ==> exitJump == Off(prog, |prog|) - 2
      ensures Jumped(Bytes(), exitJump) == RawLoopHead(c, Names(locals), |old(constants)|, old(Bytes()))
    {
      hide Valid, ExprCode, WithJump, ConditionAligned, Off, Bytes, RawCond;
      exitJump := 0;
      if c.Some? {
        ghost var at;
        exitJump, at := CompileCondition(c.value, line);
      }
    }

    /** The jump back, the exit and the breaks. */
    method FinishLoop(c: Option<Expr>, body: Block, line: int, loopStart: nat, exitJump: int,
                      ghost s: Snap, ghost t: Snap, ghost lc: LoopCtx)
      requires line == theLine
      requires Valid() && WhileEntered(c, s, t, exitJump) && WhileBody(c, body, s).ok
      requires Compiled(t, State(), WhileBody(c, body, s)) && (exact ==> loopStart == Off(s.prog, |s.prog|))
      modifies this
      ensures Valid() && Compiled(s, State(), StmtCode(While(c, body), Names(s.locals), |s.constants|, lc))
      ensures exact == old(exact)
      ensures Bytes() == Finish(c.Some?, exitJump, loopStart, old(Bytes()))
    {
      hide Valid, LoopHead, Names, Off, PatchReady, Patched, Compiled, StmtCode, Fill, WhileEntered, HoleOffsets,
           WhileBody, WhileRaw, EndLoop, RawPatch, RawLoop;
      ghost var u := State();
      ghost var r := WhileRaw(c, body, Names(s.locals), |s.constants|);
      if exact { WhileEnd(c, body, s, t, u, exitJump); }
      LoopsThere(c, body, s, t, u, exitJump);
      EmitLoop(loopStart, |s.prog|, line);
      if c.Some? { PatchJump(exitJump, |t.prog| - 1); }
      PatchLoopBreaks(s.prog, r.code);
      loops := loops[..|loops| - 1];
      WhileCompiled(c, body, s, t, u, exitJump, prog, lc);
      assert State() == Left(u, prog);
    }

    method CompileDoLoop(body: Block, c: Option<Expr>, line: int, ghost lc: LoopCtx) returns (ok: bool)
      requires line == theLine
      requires Valid()
      modifies this
      ensures ok == StmtCode(DoLoop(body, c), old(Names(locals)), |old(constants)|, lc).ok
      ensures ok ==>
                Valid() &&
                Compiled(old(State()), State(), StmtCode(DoLoop(body, c), old(Names(locals)), |old(constants)|, lc))
      ensures ok ==> exact == (old(exact) && StmtAligned(old(prog), DoLoop(body, c), old(Names(locals)), |old(constants)|, lc))
      ensures ok ==> Bytes() == RawStmt(DoLoop(body, c), old(Names(locals)), |old(constants)|, lc, old(Bytes()))
      decreases body, 4
    {
      hide OneLine, Valid, LoopHead, ScopeCode, BlockAligned, LoopHeadAligned, Names, Off, Compiled, StmtCode, Fill, HoleOffsets,
           RawLoopHead, RawBlock, Finish, RawPatches;
      ghost var s, ls, k := State(), Names(locals), |constants|;
      DoIsRaw(body, c, ls, k, lc);
      CodeLength();
      var loopStart := |code|;
      loops := loops + [LoopContext(0, false, [], [])];
      ok := CompileBlock(body, line, Forward);
      if !ok { return; }
      ghost var u, b := State(), ScopeCode(body, ls, k, Forward);
      CompiledFields(Entered(s, FRESH), u, b);
      DoBodyDone(s, u, b);
      var ctx := loops[|loops| - 1];
      ghost var r := Bytes();
      loops := loops[|loops| - 1 := LoopContext(|code|, false, ctx.breakJumps, ctx.continueJumps)];
      PatchLoopContinues(s.prog, b.code);
      assert Bytes() == RawBody(r);
      FinishDoLoop(body, c, line, loopStart, s, u, lc);
    }

    /** The condition, the jump back, the exit and the breaks. */
    method FinishDoLoop(body: Block, c: Option<Expr>, line: int, loopStart: nat, ghost s: Snap, ghost u: Snap,
                        ghost lc: LoopCtx)
      requires line == theLine
      requires Valid() && |loops| > 0 && ScopeCode(body, Names(s.locals), |s.constants|, Forward).ok
      requires Compiled(Entered(s, FRESH), u, ScopeCode(body, Names(s.locals), |s.constants|, Forward))
      requires State() == u.(prog := prog, loops := loops) && loops[..|loops| - 1] == u.loops[..|u.loops| - 1]
      requires exact ==>
                 s.exact && prog == s.prog + DoBody(body, Names(s.locals), |s.constants|) &&
                 loopStart == Off(s.prog, |s.prog|) &&
                 loops[|loops| - 1].breakJumps == u.loops[|u.loops| - 1].breakJumps
      modifies this
      ensures Valid() && Compiled(s, State(), StmtCode(DoLoop(body, c), Names(s.locals), |s.constants|, lc))
      ensures exact == (old(exact) && LoopHeadAligned(old(prog), c, old(Names(locals)), |old(constants)|))
      ensures var a := RawLoopHead(c, old(Names(locals)), |old(constants)|, old(Bytes()));
              Bytes() == Finish(c.Some?, a.at, loopStart, a.raw)
    {
      hide RawLoopHead, EndLoop, RawPatch, RawLoop, Valid, LoopHead, ScopeCode, LoopHeadAligned, Names, Off, Compiled,
           StmtCode, Fill, HoleOffsets, PatchReady, Patched;
      ghost var ls, k := Names(s.locals), |s.constants|;
      ghost var b := ScopeCode(body, ls, k, Forward);
      ghost var r := DoRaw(body, c, ls, k);
      CompiledFields(Entered(s, FRESH), u, b);
      var exitJump := CompileLoopCondition(c, line);
      ghost var v := State();
      LoopHeadHoles(c, b.ls, k + |b.ks|, 1);
      if exact { DoEnd(body, c, s, u, v, exitJump); }
      EmitLoop(loopStart, |s.prog|, line);
      if c.Some? { PatchJump(exitJump, |v.prog| - 1); }
      PatchLoopBreaks(s.prog, r.code);
      loops := loops[..|loops| - 1];
      DoCompiled(body, c, s, u, State(), lc);
    }

    /** RANGE_INIT_FAST on the three hidden slots. */
    method EmitRangeInit(current: byte, end: byte, step: byte, argc: nat, ghost n: nat, line: int)
      requires line == theLine
      requires Valid() && current == Low8(n + 1) && end == Low8(n + 2) && step == Low8(n + 3)
      modifies `code, `lines, `lastOpcodeOffset, `prog
      ensures Valid() && prog == old(prog) + [RangeInit(n + 1, n + 2, n + 3, argc)]
      ensures Bytes() == Put(old(Bytes()), RangeInit(n + 1, n + 2, n + 3, argc))
    {
      hide OneLine, Low8, Assemble, Settled, Off;
      ghost var p, ins := prog, RangeInit(n + 1, n + 2, n + 3, argc);
      Emit(RANGE_INIT_FAST, line);
      EmitByte(current, line);
      EmitByte(end, line);
      EmitByte(step, line);
      EmitByte(Low8(argc), line);
      assert code == old(code) + [RANGE_INIT_FAST, current, end, step, Low8(argc)];
      prog := p + [ins];
      if exact { AppendBytes(p, ins); }
    }

    /** RANGE_NEXT_FAST, its exit waiting; returns the operand. */
    method EmitRangeNextFast(current: byte, end: byte, step: byte, value: byte, ghost n: nat, line: int)
      returns (offset: int)
      requires line == theLine
      requires Valid() && value == Low8(n) && current == Low8(n + 1) && end == Low8(n + 2) && step == Low8(n + 3)
      modifies `code, `lines, `lastOpcodeOffset, `prog
      ensures Valid() && prog == old(prog) + [WaitingNext(n)]
      ensures exact ==> offset == Off(prog, |prog|) - 2
      ensures Jumped(Bytes(), offset) == PutWaiting(old(Bytes()), WaitingNext(n))
    {
      hide OneLine, Low8, Assemble, Settled, Off, Encode, WithOperand;
      NextBytes(n);
      ZeroBytes();
      ghost var p := prog;
      Emit(RANGE_NEXT_FAST, line);
      EmitByte(current, line);
      EmitByte(end, line);
      EmitByte(step, line);
      EmitByte(value, line);
      offset := |code|;
      EmitUint16(0, line);
      assert code == old(code) + [RANGE_NEXT_FAST, current, end, step, value, 0, 0];
      prog := p + [WaitingNext(n)];
      if exact {
        PendingAppended(p, WaitingNext(n));
      }
    }

    method CompileArguments(args: seq<Expr>, line: int)
      requires line == theLine
      requires Valid()
      modifies `code, `lines, `constants, `lastOpcodeOffset, `prog, `exact
      ensures Valid() && constants == old(constants) + ArgsCode(args, Names(locals), |old(constants)|).ks
      ensures exact == (old(exact) && ArgsAligned(old(prog), args, Names(locals), |old(constants)|))
      ensures exact ==> old(exact) && prog == old(prog) + ArgsCode(args, Names(locals), |old(constants)|).code
      ensures Bytes() == RawArgs(args, Names(locals), |old(constants)|, old(Bytes()))
    {
      hide Bytes, Valid, ExprCode, ExprAligned, RawExpr;
      ghost var ls, k, p, r := Names(locals), |constants|, prog, Bytes();
      var i := 0;
      assert args[..|args|] == args;
      while i < |args|
        invariant 0 <= i <= |args| && Valid() && Names(locals) == ls
        invariant constants == old(constants) + ArgsCode(args[..i], ls, k).ks
        invariant exact ==> old(exact) && prog == p + ArgsCode(args[..i], ls, k).code
        invariant exact == (old(exact) && ArgsAligned(p, args[..i], ls, k))
        invariant Bytes() == RawArgs(args[..i], ls, k, r)
      {
        assert args[..i + 1][..i] == args[..i];
        CompileExpr(args[i], line);
        i := i + 1;
      }
    }

    /** The locals of a range loop, its arguments, and RANGE_INIT_FAST. */
    method CompileRangeStart(x: string, args: seq<Expr>, line: int)
      requires line == theLine
      requires Valid()
      modifies this
      ensures Valid() && Compiled(old(State()), State(), RangeStart(x, args, old(Names(locals)), |old(constants)|))
      ensures loops == old(loops) && |locals| == |old(locals)| + 4
      ensures exact == (old(exact) && ArgsAligned(old(prog), args, old(Names(locals)) + RangeLocals(x), |old(constants)|))
      ensures Bytes() == RawStart(x, args, old(Names(locals)), |old(constants)|, old(Bytes()))
    {
      hide OneLine, Bytes, Put, RawArgs, LaidOut, Low8, ArgsCode, ArgsAligned, Off, Grown, FragOk;
      ghost var s, n, k := State(), |locals|, |constants|;
      ghost var ls1 := Names(locals) + RangeLocals(x);
      var loopVar := DeclareLocal(x, TNumber);
      var current := DeclareLocal("__range_current_" + x, TNumber);
      var end := DeclareLocal("__range_end_" + x, TNumber);
      var step := DeclareLocal("__range_step_" + x, TNumber);
      assert Names(locals) == ls1;
      CompileArguments(args, line);
      EmitRangeInit(current, end, step, |args|, n, line);
      ghost var f := RangeStart(x, args, Names(s.locals), k);
      StartHoles(x, args, Names(s.locals), k);
      GrownNone(loops, f.code, Off(s.prog, |s.prog|));
    }

    /** From RANGE_NEXT_FAST to the end of the loop; its variable is local n. */
    method CompileRangeLoop(n: nat, filter: Option<Expr>, body: Block, line: int) returns (ok: bool)
      requires line == theLine
      requires Valid() && |locals| == n + 4
      modifies this
      ensures ok == RangeLoop(n, filter, body, old(Names(locals)), |old(constants)|).ok
      ensures ok ==>
                Valid() &&
                Compiled(old(State()), State(), FilledLoop(n, filter, body, old(Names(locals)), |old(constants)|))
      ensures var p1 := old(prog) + [WaitingNext(n)];
              var h := LoopHead(filter, old(Names(locals)), |old(constants)|, PENDING);
              ok ==>
              (exact <==>
                old(exact) && LoopHeadAligned(p1, filter, old(Names(locals)), |old(constants)|) &&
                BlockAligned(p1 + h.code, body, old(Names(locals)), |old(constants)| + |h.ks|, Backward(1 + |h.code|)))
      ensures ok ==> Bytes() == RawRange(n, filter, body, old(Names(locals)), |old(constants)|, old(Bytes()))
      decreases body, 4
    {
      hide OneLine, LaidOut, Low8, LoopHead, ScopeCode, BlockAligned, LoopHeadAligned, Names, Off, Compiled, RangeLoop, LoopsFit,
           RangeEntered, RawLoopHead, RawBlock, FinishRange, PutWaiting;
      ghost var s := State();
      RangeParts(n, filter, body, s);
      CodeLength();
      var loopStart := |code|;
      loops := loops + [LoopContext(loopStart, true, [], [])];
      var exitJump := EmitRangeNextFast(locals[n + 1].slot, locals[n + 2].slot, locals[n + 3].slot, locals[n].slot, n, line);
      var skip := CompileLoopCondition(filter, line);
      ghost var t := State();
      RangeStarts(n, filter, s, t, exitJump, skip);
      RangeFits(n, filter, s, t, exitJump, skip);
      ghost var h := LoopHead(filter, Names(locals), |s.constants|, PENDING);
      ok := CompileBlock(body, line, Backward(1 + |h.code|));
      if !ok { return; }
      CompiledFields(t, State(), RangeBody(filter, body, s));
      FinishRangeLoop(n, filter, body, line, loopStart, exitJump, skip, s, t);
    }

    /** The jumps back, the filter's skip, the exit and the breaks. */
    method FinishRangeLoop(n: nat, filter: Option<Expr>, body: Block, line: int, loopStart: nat, exitJump: int,
                           skip: int, ghost s: Snap, ghost t: Snap)
      requires line == theLine
      requires Valid() && RangeEntered(n, filter, s, t, exitJump, skip) && RangeBody(filter, body, s).ok
      requires |s.locals| == n + 4
      requires Compiled(t, State(), RangeBody(filter, body, s)) && (exact ==> loopStart == Off(s.prog, |s.prog|))
      modifies this
      ensures Valid() && Compiled(s, State(), FilledLoop(n, filter, body, Names(s.locals), |s.constants|))
      ensures exact == old(exact)
      ensures Bytes() == FinishRange(filter.Some?, exitJump, skip, loopStart, old(Bytes()))
    {
      hide Valid, LoopHead, Names, Off, PatchReady, Patched, Compiled, Fill, RangeEntered, HoleOffsets, RangeBody,
           RangeLoop, FilledLoop, EndLoop, RawPatch, RawLoop;
      ghost var u := State();
      ghost var ls, k := Names(s.locals), |s.constants|;
      ghost var r := RangeLoop(n, filter, body, ls, k);
      RangeThere(n, filter, body, s, t, u, exitJump, skip);
      if exact {
        RangeBreaks(n, filter, body, s, t, u, exitJump, skip);
        RangeEnd(n, filter, body, s, t, u, exitJump, skip);
      }
      EmitLoop(loopStart, |s.prog|, line);
      if filter.Some? {
        PatchJump(skip, |t.prog| - 1);
        EmitLoop(loopStart, |s.prog|, line);
      }
      PatchJump(exitJump, |s.prog|);
      PatchLoopBreaks(s.prog, r.code);
      loops := loops[..|loops| - 1];
      RangeCompiled(n, filter, body, s, t, u, exitJump, skip, prog);
      assert State() == Left(u, prog);
    }

    /** `for x in range(args) where filter: body end`. Other argument counts go
        through the generic iterator, which is not part of this model. */
    method CompileFastRangeFor(st: Stmt, line: int, ghost lc: LoopCtx) returns (ok: bool)
      requires line == theLine
      requires Valid() && st.ForRange?
      modifies this
      ensures ok == StmtCode(st, old(Names(locals)), |old(constants)|, lc).ok
      ensures ok ==> Valid() && Compiled(old(State()), State(), StmtCode(st, old(Names(locals)), |old(constants)|, lc))
      ensures ok ==> exact == (old(exact) && StmtAligned(old(prog), st, old(Names(locals)), |old(constants)|, lc))
      ensures ok ==> Bytes() == RawStmt(st, old(Names(locals)), |old(constants)|, lc, old(Bytes()))
      decreases st, 0
    {
      hide OneLine, Bytes, RawStart, RawRange, LaidOut, Low8, LoopHead, BlockAligned, LoopHeadAligned, ArgsAligned, Names, Off,
           Grown, StmtCode, RangeLoop, StmtAligned, ArgsCode, HoleOffsets, Fill;
      ok := false;
      ghost var s, ls, k, n := State(), Names(locals), |constants|, |locals|;
      if !(1 <= |st.args| <= 3) { ForNeedsArgs(st, ls, k, lc); return; }
      ForCode(st, ls, k, lc);
      ForAligned(prog, st, ls, k, lc);
      BeginScope();
      ghost var s1, a := State(), RangeStart(st.x, st.args, ls, k);
      CompileRangeStart(st.x, st.args, line);
      ghost var s2 := State();
      CompiledFields(s1, s2, a);
      ok := CompileRangeLoop(|locals| - 4, st.filter, st.body, line);
      if !ok { return; }
      ghost var r := FilledLoop(n, st.filter, st.body, a.ls, k + |a.ks|);
      Sequence(s1, s2, State(), a, r);
      ghost var s3 := State();
      EndScope(n);
      ScopeCompiled(s, s3, State(), Both(a, r), n);
    }

    // ----------------------------------------------------------- statements

    method CompileBreak(line: int, ghost lc: LoopCtx) returns (ok: bool)
      requires line == theLine
      requires Valid() && LoopsFit(State(), lc)
      modifies this
      ensures ok == StmtCode(Break, old(Names(locals)), |old(constants)|, lc).ok && exact == old(exact)
      ensures ok ==> Valid() && Compiled(old(State()), State(), StmtCode(Break, old(Names(locals)), |old(constants)|, lc))
      ensures ok ==> Bytes() == RawStmt(Break, old(Names(locals)), |old(constants)|, lc, old(Bytes()))
    {
      hide OneLine, LaidOut, Low8, Names, StmtCode, Grown, Off, HoleOffsets, Assemble;
      JumpStmtCode(Names(locals), |constants|, lc);
      if |loops| == 0 { return false; }
      ghost var s := State();
      CodeLength();
      var jump := EmitJump(JUMP, BREAK_HOLE, line);
      var ctx := loops[|loops| - 1];
      loops := loops[|loops| - 1 := LoopContext(ctx.continueTarget, ctx.continueBackward, ctx.breakJumps + [jump],
                                                ctx.continueJumps)];
      OneHole(s.prog, s.loops, BREAK_HOLE);
      ok := true;
    }

    method CompileContinue(line: int, ghost lc: LoopCtx) returns (ok: bool)
      requires line == theLine
      requires Valid() && LoopsFit(State(), lc)
      modifies this
      ensures ok == StmtCode(Continue, old(Names(locals)), |old(constants)|, lc).ok && exact == old(exact)
      ensures ok ==> Valid() && Compiled(old(State()), State(), StmtCode(Continue, old(Names(locals)), |old(constants)|, lc))
      ensures ok ==> Bytes() == RawStmt(Continue, old(Names(locals)), |old(constants)|, lc, old(Bytes()))
    {
      hide OneLine, LaidOut, Low8, Names, StmtCode, Grown, Off, HoleOffsets, Assemble;
      JumpStmtCode(Names(locals), |constants|, lc);
      if |loops| == 0 { return false; }
      ghost var s := State();
      CodeLength();
      var ctx := loops[|loops| - 1];
      ok := true;
      if ctx.continueBackward {
        EmitLoop(ctx.continueTarget, if lc.here <= |prog| then |prog| - lc.here else 0, line);
        GrownNone(loops, [Jump(LOOP, lc.here + 1)], Off(s.prog, |s.prog|));
      } else {
        var jump := EmitJump(JUMP, CONTINUE_HOLE, line);
        loops := loops[|loops| - 1 := LoopContext(ctx.continueTarget, ctx.continueBackward, ctx.breakJumps,
                                                  ctx.continueJumps + [jump])];
        OneHole(s.prog, s.loops, CONTINUE_HOLE);
      }
    }

    /** compileStmt: fails exactly on a break or continue outside a loop, and on
        a range without one to three arguments, whose loop over the generic
        iterator is not part of this model. */
    method CompileStmt(s: Stmt, line: int, ghost lc: LoopCtx) returns (ok: bool)
      requires line == theLine
      requires Valid() && LoopsFit(State(), lc)
      modifies this
      ensures ok == StmtCode(s, old(Names(locals)), |old(constants)|, lc).ok == Placed(s, |old(loops)| > 0)
      ensures ok ==> Valid() && Compiled(old(State()), State(), StmtCode(s, old(Names(locals)), |old(constants)|, lc))
      ensures ok ==> exact == (old(exact) && StmtAligned(old(prog), s, old(Names(locals)), |old(constants)|, lc))
      ensures ok ==> Bytes() == RawStmt(s, old(Names(locals)), |old(constants)|, lc, old(Bytes()))
      decreases s, 2
    {
      hide Valid, LoopsFit, Compiled, Names, Off, Bytes, RawStmt;
      StmtPlaced(s, Names(locals), |constants|, lc);
      FitsInLoop(State(), lc);
      ok := true;
      match s
      case Let(x, declared, e) => CompileLet(x, declared, e, line, lc);
      case Assign(x, op, e) =>
        AssignStmtCode(x, op, e, Names(locals), |constants|, lc);
        CompileAssign(x, op, e, line, lc);
      case ExprStmt(e) => CompileExprStmt(e, line, lc);
      case If(_, _, _) => ok := CompileIf(s, line, lc);
      case While(c, body) => ok := CompileLoop(c, body, line, lc);
      case DoLoop(body, c) => ok := CompileDoLoop(body, c, line, lc);
      case ForRange(_, _, _, _) => ok := CompileFastRangeFor(s, line, lc);
      case Break => ok := CompileBreak(line, lc);
      case Continue => ok := CompileContinue(line, lc);
    }

    /** The end of a script, which belongs to no line. */
    method EmitEnd()
      requires Valid()
      modifies `code, `lines, `lastOpcodeOffset, `prog
      ensures lines == old(lines) + [0, 0] && |lines| == |code| && prog == old(prog) + [Plain(NIL)] + [Plain(RETURN)]
      ensures exact ==> LaidOut()
      ensures Bytes() == Put(Put(old(Bytes()), Plain(NIL)), Plain(RETURN))
    {
      hide OneLine, Assemble, Settled;
      ghost var p := prog;
      Emit(NIL, 0);
      if exact { AppendBytes(p, Plain(NIL)); }
      Emit(RETURN, 0);
      prog := p + [Plain(NIL)] + [Plain(RETURN)];
      if exact { AppendBytes(p + [Plain(NIL)], Plain(RETURN)); }
    }

    /** compileProgram, on a new compiler: its bytes, whatever the windows hold;
        they are the laid-out code of the program if and only if every
        conditional jump sees an aligned window. */
    method CompileProgram(b: Block, line: int) returns (ok: bool)
      requires line == theLine
      requires Valid() && exact && prog == [] && constants == [] && locals == [] && loops == [] && maxLocals == 0
      requires code == [] && lastOpcodeOffset == 0
      modifies this
      ensures ok == ProgramCode(b).ok == PlacedIn(b, false)
      ensures ok ==>
                |lines| == |code| >= 2 && lines[|lines| - 2..] == [0, 0] &&
                (forall i :: 0 <= i < |lines| - 2 ==> lines[i] == line)
      ensures ok ==>
                constants == ProgramCode(b).ks && Names(locals) == ProgramCode(b).ls &&
                maxLocals == ProgramCode(b).max
      ensures ok ==> code == RawProgram(b)
      ensures ok ==> (code == Assemble(ProgramCode(b).code) <==> BlockAligned([], b, [], 0, NoLoop))
    {
      hide Put, RawBlock, Settled, Assemble, BlockCode, BlockAligned, Off, Grown, Low8;
      ghost var f := BlockCode(b, [], 0, NoLoop);
      BlockPlaced(b, [], 0, NoLoop);
      ok := CompileStatements(b, line, NoLoop);
      if !ok { return; }
      if RawProgram(b) == Assemble(ProgramCode(b).code) { RawExact.SeenInBytes(b); }
      PutsTwo(Bytes(), Plain(NIL), Plain(RETURN));
      EmitEnd();
      assert [] + f.code + [Plain(NIL)] + [Plain(RETURN)] == f.code + [Plain(NIL), Plain(RETURN)];
      assert [] + f.ks == f.ks;
    }
  }
}
