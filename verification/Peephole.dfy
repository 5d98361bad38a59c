/** The jump peepholes as they act on raw bytes: when they produce the code of
    the rewritten instructions, and when they cut an instruction in half. */
module Peephole {
  import opened Options
  import opened Machine
  import opened Assembly
  import opened Source
  import opened CodeGen
  import opened ExprCorrect
  import opened Layout

  // ------------------------------------------------------------ the rewrites

  /** peepholeNotFold on the emitted bytes: the shortened code and the jump. */
  function NotFoldBytes(code: seq<byte>, last: nat, op: byte): (seq<byte>, byte) {
    if (op == JUMP_IF_FALSE || op == JUMP_IF_FALSE_POP) && last < |code| && code[last] == NOT then
      (code[..last], if op == JUMP_IF_FALSE_POP then JUMP_IF_TRUE_POP else JUMP_IF_TRUE)
    else (code, op)
  }

  predicate IsCompareByte(b: byte) { b == LESS_NUM || b == GREATER_NUM }

  /** The byte tests of peepholeArrayFieldCmp. */
  predicate LooksLikeArrayField(code: seq<byte>, op: byte) {
    var n := |code|;
    op == JUMP_IF_FALSE_POP && n >= 7 && IsCompareByte(code[n - 1]) &&
    code[n - 7] == GET_LOCAL_ARRAY_FIELD && code[n - 3] == GET_LOCAL
  }

  /** The byte tests of peepholeLocalLocalCmp. */
  predicate LooksLikeLocals(code: seq<byte>, op: byte) {
    var n := |code|;
    (op == JUMP_IF_TRUE_POP || op == JUMP_IF_FALSE_POP) && n >= 5 && IsCompareByte(code[n - 1]) &&
    code[n - 5] == GET_LOCAL && code[n - 3] == GET_LOCAL
  }

  /** The comparison rewrites and the plain jump, after NOT folding. */
  function CompareJumpBytes(c: seq<byte>, op: byte): seq<byte> {
    var n := |c|;
    if LooksLikeArrayField(c, op) then
      c[..n - 7] + [if c[n - 1] == LESS_NUM then JUMP_IF_ARRAY_FIELD_GTE_LOCAL_TRUE
                    else JUMP_IF_ARRAY_FIELD_LTE_LOCAL_TRUE,
                    c[n - 6], c[n - 5], c[n - 4], c[n - 2], 0, 0]
    else if LooksLikeLocals(c, op) then
      c[..n - 5] + [FusedOp(c[n - 1], op), c[n - 4], c[n - 2], 0, 0]
    else c + [op, 0, 0]
  }

  /** emitJump on the emitted bytes; the last two bytes are the placeholder. */
  function EmitJumpBytes(code: seq<byte>, last: nat, op: byte): seq<byte> {
    var f := NotFoldBytes(code, last, op);
    CompareJumpBytes(f.0, f.1)
  }

  // ---------------------------------------------------- growing laid-out code

  /** Jumps that have a target have it inside; negative operands still wait. */
  ghost predicate Settled(p: Prog) {
    forall i :: 0 <= i < |p| && HasOperand(p[i]) && Operand(p[i]) >= 0 ==> 0 <= Target(p, i) <= |p|
  }

  lemma SameResolve(p: Prog, q: Prog, i: nat)
    requires i < |p| && i < |q| && p[i] == q[i]
    requires HasOperand(p[i]) && Operand(p[i]) >= 0 ==> 0 <= Target(p, i) <= |p| && 0 <= Target(q, i) <= |q|
    requires forall j :: 0 <= j <= |p| && j <= |q| ==> Off(p, j) == Off(q, j)
    ensures Resolve(p, i) == Resolve(q, i)
  {
  }

  lemma {:induction false} JoinSame(cs: seq<seq<byte>>, ds: seq<seq<byte>>, n: nat)
    requires n <= |cs| && n <= |ds| && cs[..n] == ds[..n]
    ensures Join(cs, n) == Join(ds, n)
  {
    if n > 0 {
      assert cs[..n][..n - 1] == cs[..n - 1] && ds[..n][..n - 1] == ds[..n - 1];
      assert cs[n - 1] == cs[..n][n - 1] == ds[..n][n - 1] == ds[n - 1];
      JoinSame(cs, ds, n - 1);
    }
  }

  lemma OffSame(p: Prog, q: Prog, n: nat)
    requires n <= |p| && n <= |q| && p[..n] == q[..n]
    ensures forall j :: 0 <= j <= n ==> Off(p, j) == Off(q, j)
  {
    forall j | 0 <= j <= n ensures Off(p, j) == Off(q, j) {
      assert p[..n][..j] == p[..j] && q[..n][..j] == q[..j];
      OffOfPrefix(p, q, j);
    }
  }

  /** A settled program's bytes are a prefix of the bytes of any extension. */
  lemma AssemblePrefix(p: Prog, q: Prog)
    requires Settled(p) && |p| <= |q| && q[..|p|] == p
    ensures |Assemble(p)| == Off(q, |p|) <= |Assemble(q)|
    ensures Assemble(q)[..|Assemble(p)|] == Assemble(p)
  {
    hide Encode, Size, Resolve;
    var cs, ds, n := Chunks(p), Chunks(q), |p|;
    assert p[..n] == p;
    OffSame(p, q, n);
    forall i | 0 <= i < n ensures cs[i] == ds[i] {
      assert q[..n][i] == q[i];
      SameResolve(p, q, i);
    }
    assert cs[..n] == ds[..n];
    JoinSame(cs, ds, n);
    JoinPrefix(ds, n, |ds|);
    OffMonotone(q, n, |q|);
    assert Join(cs, n) == Assemble(p) && Join(ds, |ds|) == Assemble(q);
  }

  lemma {:induction false} JoinPrefix(cs: seq<seq<byte>>, m: nat, n: nat)
    requires m <= n <= |cs|
    ensures |Join(cs, m)| <= |Join(cs, n)| && Join(cs, n)[..|Join(cs, m)|] == Join(cs, m)
  {
    if m < n {
      JoinPrefix(cs, m, n - 1);
      assert Join(cs, n)[..|Join(cs, m)|] == Join(cs, n - 1)[..|Join(cs, m)|];
    }
  }

  /** Appending an instruction appends its bytes. */
  lemma AssembleAppend(p: Prog, ins: Instr)
    requires Settled(p)
    ensures Assemble(p + [ins]) == Assemble(p) + Encode(Resolve(p + [ins], |p|))
  {
    hide Encode, Size, Resolve;
    var q, n := p + [ins], |p|;
    var cs, ds := Chunks(p), Chunks(q);
    assert p[..n] == p && q[..n] == p;
    OffSame(p, q, n);
    forall i | 0 <= i < n ensures cs[i] == ds[i] {
      assert q[..n][i] == q[i];
      SameResolve(p, q, i);
    }
    assert cs[..n] == ds[..n];
    JoinSame(cs, ds, n);
  }

  // ----------------------------------------------------- when they are right

  /** The rewrites see what the instructions are: where the bytes look like a
      fusible comparison, it is one. */
  ghost predicate Aligned(p: Prog, op: byte) {
    var f := FoldNot(p, op);
    !LooksLikeArrayField(Assemble(f.0), f.1) && (LooksLikeLocals(Assemble(f.0), f.1) ==> Fuses(f.0, f.1))
  }

  /** What may be cut off the end of settled code without touching a jump. */
  ghost predicate Cuttable(p: Prog, op: byte) {
    Settled(p) &&
    (FoldsNot(p, op) ==> Settled(p[..|p| - 1])) &&
    (Fuses(FoldNot(p, op).0, FoldNot(p, op).1) ==>
      Settled(FoldNot(p, op).0[..|FoldNot(p, op).0| - 3]))
  }

  lemma LastByteOf(p: Prog)
    requires |p| > 0
    ensures Off(p, |p| - 1) < |Assemble(p)| && Assemble(p)[Off(p, |p| - 1)] == Opcode(p[|p| - 1])
  {
    hide Encode, Resolve;
    BytesAt(p, |p| - 1);
    OpcodeKept(p, |p| - 1);
    assert Assemble(p)[Off(p, |p| - 1)..Off(p, |p|)][0] == Assemble(p)[Off(p, |p| - 1)];
  }

  lemma OpcodeKept(p: Prog, i: nat)
    requires i < |p|
    ensures Opcode(Resolve(p, i)) == Opcode(p[i])
  {
  }

  /** Folding NOT on bytes is folding it on instructions. */
  lemma NotFoldAgrees(p: Prog, last: nat, op: byte)
    requires |p| > 0 && last == Off(p, |p| - 1) && WellFormed(p[|p| - 1]) && Cuttable(p, op)
    ensures NotFoldBytes(Assemble(p), last, op) == (Assemble(FoldNot(p, op).0), FoldNot(p, op).1)
  {
    hide Encode, Resolve, Settled, Assemble;
    LastByteOf(p);
    var z := p[|p| - 1];
    assert Opcode(z) == NOT <==> z == Plain(NOT) by { OnlyNot(z); }
    if FoldsNot(p, op) {
      AssemblePrefix(p[..|p| - 1], p);
    }
  }

  lemma OnlyNot(z: Instr)
    requires WellFormed(z)
    ensures Opcode(z) == NOT <==> z == Plain(NOT)
  {
  }

  /** The five bytes of a fusible comparison. */
  lemma WindowBytes(p: Prog, op: byte)
    requires Fuses(p, op) && Settled(p) && Settled(p[..|p| - 3])
    ensures var n := |p|; var c := Assemble(p); var m := |c|;
            m >= 5 && c[..m - 5] == Assemble(p[..n - 3]) && LooksLikeLocals(c, op) &&
            c[m - 5] == GET_LOCAL && c[m - 4] == Low8(p[n - 3].s) && c[m - 3] == GET_LOCAL &&
            c[m - 2] == Low8(p[n - 2].s) && c[m - 1] == p[n - 1].op
  {
    hide Low8, Settled, Assemble, Encode;
    var n := |p|;
    AssemblePrefix(p[..n - 3], p);
    OffSteps(p, n);
    SlotBytes(p, n - 3);
    SlotBytes(p, n - 2);
    PlainByte(p, n - 1);
  }

  lemma SlotBytes(p: Prog, i: nat)
    requires i < |p| && p[i].Slot?
    ensures Off(p, i) + 2 <= |Assemble(p)|
    ensures Assemble(p)[Off(p, i)] == p[i].op && Assemble(p)[Off(p, i) + 1] == Low8(p[i].s)
  {
    hide Low8, Assemble;
    BytesAt(p, i);
    var o := Off(p, i);
    assert Assemble(p)[o..o + 2] == [p[i].op, Low8(p[i].s)];
    assert Assemble(p)[o] == Assemble(p)[o..o + 2][0] && Assemble(p)[o + 1] == Assemble(p)[o..o + 2][1];
  }

  lemma PlainByte(p: Prog, i: nat)
    requires i < |p| && p[i].Plain?
    ensures Off(p, i) < |Assemble(p)| && Assemble(p)[Off(p, i)] == p[i].op
  {
    hide Assemble;
    BytesAt(p, i);
    var o := Off(p, i);
    assert Assemble(p)[o..o + 1] == [p[i].op];
    assert Assemble(p)[o] == Assemble(p)[o..o + 1][0];
  }

  lemma OffSteps(p: Prog, n: nat)
    requires n == |p| >= 3 && IsGetLocal(p[n - 3]) && IsGetLocal(p[n - 2]) && IsFusibleCompare(p[n - 1])
    ensures Off(p, n - 2) == Off(p, n - 3) + 2 && Off(p, n - 1) == Off(p, n - 3) + 4
    ensures Off(p, n) == Off(p, n - 3) + 5
  {
  }

  /** The operand of a jump that waits for its target. */
  const PENDING: int := -3

  lemma AppendPending(p: Prog, ins: Instr)
    requires Settled(p) && HasOperand(ins) && Operand(ins) < 0
    ensures Assemble(p + [ins]) == Assemble(p) + Encode(WithOperand(ins, 0))
  {
    hide Encode, Assemble;
    AssembleAppend(p, ins);
  }

  lemma PendingBytes(op: byte, a: nat, b: nat)
    ensures Encode(WithOperand(Jump(op, PENDING), 0)) == [op, 0, 0]
    ensures Encode(WithOperand(CmpJump(op, a, b, PENDING), 0)) == [op, Low8(a), Low8(b), 0, 0]
  {
  }

  lemma FusedOnBytes(c: Prog, op: byte)
    requires Fuses(c, op) && Settled(c) && Settled(c[..|c| - 3]) && !LooksLikeArrayField(Assemble(c), op)
    ensures CompareJumpBytes(Assemble(c), op) == Assemble(FusedCode(c, op, PENDING))
  {
    hide Settled, Assemble, LooksLikeArrayField, LooksLikeLocals, Encode, Low8, WithOperand;
    WindowBytes(c, op);
    var q := c[..|c| - 3];
    var jump := FusedCode(c, op, PENDING)[|q|];
    AppendPending(q, jump);
    PendingBytes(jump.op, jump.a, jump.b);
  }

  lemma PlainOnBytes(c: Prog, op: byte)
    requires Settled(c) && !LooksLikeArrayField(Assemble(c), op) && !LooksLikeLocals(Assemble(c), op)
    ensures CompareJumpBytes(Assemble(c), op) == Assemble(c + [Jump(op, PENDING)])
  {
    hide Settled, Assemble, LooksLikeArrayField, LooksLikeLocals, Encode, WithOperand;
    AppendPending(c, Jump(op, PENDING));
    PendingBytes(op, 0, 0);
  }

  /** On aligned code the byte rewrites produce exactly the bytes of the
      rewritten instructions. */
  lemma JumpOnAligned(p: Prog, last: nat, op: byte)
    requires |p| > 0 && last == Off(p, |p| - 1) && WellFormed(p[|p| - 1]) && Cuttable(p, op) && Aligned(p, op)
    ensures EmitJumpBytes(Assemble(p), last, op) == Assemble(WithJump(p, op, PENDING))
  {
    hide Settled, Assemble, LooksLikeLocals, LooksLikeArrayField, CompareJumpBytes, FusedCode, Fuses, NotFoldBytes,
         FoldNot, Cuttable;
    NotFoldAgrees(p, last, op);
    CutSettled(p, op);
    var f := FoldNot(p, op);
    if Fuses(f.0, f.1) { FusedOnBytes(f.0, f.1); } else { PlainOnBytes(f.0, f.1); }
  }

  lemma CutSettled(p: Prog, op: byte)
    requires Cuttable(p, op)
    ensures var c := FoldNot(p, op).0;
            Settled(c) && (Fuses(c, FoldNot(p, op).1) ==> Settled(c[..|c| - 3]))
  {
  }

  /** Off alignment they do not: the result is not even as long as the code it
      should be. So the rewrites are right if and only if the code is aligned. */
  lemma JumpExactlyOnAligned(p: Prog, last: nat, op: byte)
    requires |p| > 0 && last == Off(p, |p| - 1) && WellFormed(p[|p| - 1]) && Cuttable(p, op)
    ensures EmitJumpBytes(Assemble(p), last, op) == Assemble(WithJump(p, op, PENDING)) <==> Aligned(p, op)
  {
    hide Settled, Assemble, Resolve;
    NotFoldAgrees(p, last, op);
    var f := FoldNot(p, op);
    var c, op1 := f.0, f.1;
    if Aligned(p, op) {
      JumpOnAligned(p, last, op);
    } else {
      var n := |Assemble(c)|;
      if Fuses(c, op1) {
        WindowBytes(c, op1);
        var q := c[..|c| - 3];
        var jump := FusedCode(c, op1, PENDING)[|q|];
        AssembleAppend(q, jump);
        assert Assemble(WithJump(p, op, PENDING))[n - 7] == Assemble(c)[n - 7] == GET_LOCAL_ARRAY_FIELD;
        assert EmitJumpBytes(Assemble(p), last, op)[n - 7] != GET_LOCAL_ARRAY_FIELD;
      } else {
        AssembleAppend(c, Jump(op1, PENDING));
        assert |Assemble(WithJump(p, op, PENDING))| == n + 3;
        assert |EmitJumpBytes(Assemble(p), last, op)| == n;
      }
    }
  }

  // ------------------------------------------------------------ off alignment

  /** x + y < z over the locals in slots a, b and c. */
  function SumCompare(a: nat, b: nat, c: nat): Prog {
    [Slot(GET_LOCAL, a), Slot(GET_LOCAL, b), Plain(ADD_NUM), Slot(GET_LOCAL, c), Plain(LESS_NUM)]
  }

  lemma SumCompareBytes(a: nat, b: nat, c: nat)
    requires a < 256 && b < 256 && c < 256
    ensures Assemble(SumCompare(a, b, c)) ==
            [GET_LOCAL, a, GET_LOCAL, b, ADD_NUM, GET_LOCAL, c, LESS_NUM]
  {
    hide Assemble;
    var p := SumCompare(a, b, c);
    assert Off(p, 5) == 8 && Off(p, 4) == 7 && Off(p, 3) == 5 && Off(p, 2) == 4 && Off(p, 1) == 2;
    SlotBytes(p, 0);
    SlotBytes(p, 1);
    PlainByte(p, 2);
    SlotBytes(p, 3);
    PlainByte(p, 4);
  }

  lemma SumCompareCode(x: string, y: string, z: string, ls: Locals, k: nat)
    requires SlotOf(ls, x) >= 0 && SlotOf(ls, y) >= 0 && SlotOf(ls, z) >= 0
    requires TypeOf(Var(x), ls) == TypeOf(Var(y), ls) == TypeOf(Var(z), ls) == TInt
    ensures ExprCode(Bin(Lt, Bin(Add, Var(x), Var(y)), Var(z)), ls, k).code ==
            SumCompare(SlotOf(ls, x), SlotOf(ls, y), SlotOf(ls, z))
  {
    hide SlotOf;
    var sum := Bin(Add, Var(x), Var(y));
    assert ExprCode(sum, ls, k).code == SumCompare(SlotOf(ls, x), SlotOf(ls, y), 0)[..3];
    assert ExprCode(Var(z), ls, k) == Frag([Slot(GET_LOCAL, SlotOf(ls, z))], []);
    assert TypeOf(sum, ls) == TInt && ExprCode(sum, ls, k).ks == [];
  }

  /** The bytes that the misread comparison leaves, and their run. */
  lemma CutInstructionFaults(code: seq<byte>, a: byte, b: byte, ks: seq<Value>, l: seq<Value>)
    requires |code| >= 4 && code[..4] == [GET_LOCAL, a, GET_LOCAL, b]
    requires a < |l| <= b
    ensures Run(code, ks, Running(0, l, []), 2) == Fault
  {
    hide ExecPlain, ExecJump, ExecCmpJump, ExecConstJump, ExecRangeInit, ExecRangeNext;
    assert code[0] == code[..4][0] && code[1] == code[..4][1] && code[2] == code[..4][2] && code[3] == code[..4][3];
    assert Decode(code, 0) == Some(Slot(GET_LOCAL, a));
    assert Step(code, ks, Running(0, l, [])) == Running(2, l, [] + [l[a]]);
    assert Decode(code, 2) == Some(Slot(GET_LOCAL, b));
    assert Step(code, ks, Running(2, l, [] + [l[a]])) == Fault;
    assert Run(code, ks, Running(2, l, [] + [l[a]]), 1) == Run(code, ks, Fault, 0);
  }

  lemma CutStartFaults(code: seq<byte>, a: byte, ks: seq<Value>, l: seq<Value>)
    requires |code| >= 2 && code[..2] == [GET_LOCAL, a]
    requires |l| <= a
    ensures Run(code, ks, Running(0, l, []), 2) == Fault
  {
    hide ExecPlain, ExecJump, ExecCmpJump, ExecConstJump, ExecRangeInit, ExecRangeNext;
    assert code[0] == code[..2][0] && code[1] == code[..2][1];
    assert Decode(code, 0) == Some(Slot(GET_LOCAL, a));
    assert Step(code, ks, Running(0, l, [])) == Fault;
    assert Run(code, ks, Fault, 1) == Run(code, ks, Fault, 0);
  }

  /** A condition `x + y < z` over int locals with y in slot 7: the operand of
      its second GET_LOCAL is taken for an opcode. The jump then starts in the
      middle of that instruction, and the condition faults whatever the locals
      hold, as long as there are no more than 109 of them. */
  lemma SlotSevenMisfires(x: string, y: string, z: string, ls: Locals, k: nat, ks: seq<Value>, l: seq<Value>)
    requires 0 <= SlotOf(ls, x) < 256 && SlotOf(ls, y) == 7 && 0 <= SlotOf(ls, z) < 256
    requires TypeOf(Var(x), ls) == TypeOf(Var(y), ls) == TypeOf(Var(z), ls) == TInt
    requires SlotOf(ls, x) < |l| <= 109
    ensures var p := ExprCode(Bin(Lt, Bin(Add, Var(x), Var(y)), Var(z)), ls, k).code;
            |p| > 0 && !Aligned(p, JUMP_IF_FALSE_POP) &&
            Run(EmitJumpBytes(Assemble(p), Off(p, |p| - 1), JUMP_IF_FALSE_POP), ks, Running(0, l, []), 2) == Fault
  {
    hide ExprCode, Assemble, SlotOf, TypeOf, Run, Step;
    var a, c := SlotOf(ls, x), SlotOf(ls, z);
    var p := SumCompare(a, 7, c);
    SumCompareCode(x, y, z, ls, k);
    SumCompareBytes(a, 7, c);
    assert Off(p, 4) == 7;
    var code := EmitJumpBytes(Assemble(p), 7, JUMP_IF_FALSE_POP);
    if a == GET_LOCAL_ARRAY_FIELD {
      CutStartFaults(code, JUMP_IF_ARRAY_FIELD_GTE_LOCAL_TRUE, ks, l);
    } else {
      CutInstructionFaults(code, a, JUMP_IF_LOCAL_LT_LOCAL_FALSE, ks, l);
    }
  }
}
