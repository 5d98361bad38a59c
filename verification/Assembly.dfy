/** Instruction sequences whose jumps count instructions, their layout as
    bytes, and the proof that running the bytes is running the instructions. */
module Assembly {
  import opened Options
  import opened Machine

  type Prog = seq<Instr>

  /** Byte offset of instruction i. */
  function Off(p: Prog, i: nat): (r: nat)
    requires i <= |p|
    ensures r >= i
  {
    if i == 0 then 0 else Off(p, i - 1) + Size(p[i - 1])
  }

  /** The instruction a jump at i leads to. */
  function Target(p: Prog, i: nat): int
    requires i < |p|
  {
    if IsBackward(p[i]) then i + 1 - Operand(p[i]) else i + 1 + Operand(p[i])
  }

  /** All jumps stay inside the program or go to its very end. */
  ghost predicate Closed(p: Prog) {
    forall i :: 0 <= i < |p| && HasOperand(p[i]) ==> TargetInside(p, i)
  }

  predicate TargetInside(p: Prog, i: nat)
    requires i < |p|
  {
    0 <= Target(p, i) <= |p| && Operand(p[i]) >= 0
  }

  function WithOperand(ins: Instr, t: int): (r: Instr)
    ensures Size(r) == Size(ins)
  {
    match ins
    case Jump(op, _) => Jump(op, t)
    case CmpJump(op, a, b, _) => CmpJump(op, a, b, t)
    case ConstJump(op, s, k, _) => ConstJump(op, s, k, t)
    case RangeNext(c, e, st, v, _) => RangeNext(c, e, st, v, t)
    case _ => ins
  }

  /** The byte distance that the jump at i encodes. */
  function Distance(p: Prog, i: nat): int
    requires i < |p| && 0 <= Target(p, i) <= |p|
  {
    if IsBackward(p[i]) then Off(p, i + 1) - Off(p, Target(p, i))
    else Off(p, Target(p, i)) - Off(p, i + 1)
  }

  /** Instruction i with its jump counted in bytes; a jump that still waits for
      its target has a negative operand and encodes distance 0. */
  function Resolve(p: Prog, i: nat): (r: Instr)
    requires i < |p|
    ensures Size(r) == Size(p[i])
  {
    if !HasOperand(p[i]) then p[i]
    else if Operand(p[i]) >= 0 && 0 <= Target(p, i) <= |p| then WithOperand(p[i], Distance(p, i))
    else WithOperand(p[i], 0)
  }

  /** The first n chunks joined. */
  function Join(cs: seq<seq<byte>>, n: nat): (bs: seq<byte>)
    requires n <= |cs|
  {
    if n == 0 then [] else Join(cs, n - 1) + cs[n - 1]
  }

  /** The encoding of each instruction. */
  function Chunks(p: Prog): (cs: seq<seq<byte>>)
    ensures |cs| == |p|
    ensures forall i :: 0 <= i < |p| ==> cs[i] == Encode(Resolve(p, i)) && |cs[i]| == Size(p[i])
  {
    seq(|p|, i requires 0 <= i < |p| => Encode(Resolve(p, i)))
  }

  /** The program as bytes. */
  function Assemble(p: Prog): (bs: seq<byte>)
    ensures |bs| == Off(p, |p|)
  {
    JoinLength(p, Chunks(p), |p|);
    Join(Chunks(p), |p|)
  }

  lemma {:induction false} JoinLength(p: Prog, cs: seq<seq<byte>>, n: nat)
    requires n <= |cs| == |p| && forall i :: 0 <= i < |p| ==> |cs[i]| == Size(p[i])
    ensures |Join(cs, n)| == Off(p, n)
  {
    if n > 0 { JoinLength(p, cs, n - 1); }
  }

  /** Operands fit their encoded widths. */
  predicate OperandsFit(ins: Instr) {
    match ins
    case Plain(_) => true
    case Slot(_, s) => s < 256
    case Const(k) => k < 65536
    case Global(_, k) => k < 65536
    case AddConst(s, k) => s < 256 && k < 65536
    case AddLocal(d, s) => d < 256 && s < 256
    case Jump(_, _) => true
    case CmpJump(_, a, b, _) => a < 256 && b < 256
    case ConstJump(_, s, k, _) => s < 256 && k < 65536
    case RangeInit(c, e, st, n) => c < 256 && e < 256 && st < 256 && n < 256
    case RangeNext(c, e, st, v, _) => c < 256 && e < 256 && st < 256 && v < 256
  }

  /** The program can be laid out without losing anything: jumps closed, every
      operand in its width, and fewer than 65536 bytes of code. */
  ghost predicate Fits(p: Prog) {
    Closed(p) && Off(p, |p|) < 65536 &&
    forall i :: 0 <= i < |p| ==> WellFormed(p[i]) && OperandsFit(p[i])
  }

  lemma OffMonotone(p: Prog, i: nat, j: nat)
    requires i <= j <= |p|
    ensures Off(p, i) + (j - i) <= Off(p, j)
  {
    if i < j { OffMonotone(p, i, j - 1); }
  }

  lemma OffOfPrefix(p: Prog, q: Prog, i: nat)
    requires i <= |p| && i <= |q| && p[..i] == q[..i]
    ensures Off(p, i) == Off(q, i)
  {
    if i > 0 {
      assert p[..i][..i - 1] == p[..i - 1] && q[..i][..i - 1] == q[..i - 1];
      assert p[i - 1] == p[..i][i - 1] == q[..i][i - 1] == q[i - 1];
      OffOfPrefix(p, q, i - 1);
    }
  }

  /** Chunk i sits between the i-th and the next offset of the joined bytes. */
  lemma {:induction false} ChunkAt(p: Prog, cs: seq<seq<byte>>, n: nat, i: nat)
    requires i < n <= |cs| == |p| && forall i :: 0 <= i < |p| ==> |cs[i]| == Size(p[i])
    ensures Off(p, i + 1) <= |Join(cs, n)|
    ensures Join(cs, n)[Off(p, i)..Off(p, i + 1)] == cs[i]
  {
    JoinLength(p, cs, n - 1);
    OffMonotone(p, i + 1, n);
    if i < n - 1 { ChunkAt(p, cs, n - 1, i); }
  }

  lemma BytesAt(p: Prog, i: nat)
    requires i < |p|
    ensures Off(p, i) <= Off(p, i + 1) <= |Assemble(p)|
    ensures Assemble(p)[Off(p, i)..Off(p, i + 1)] == Encode(Resolve(p, i))
  {
    ChunkAt(p, Chunks(p), |p|, i);
  }

  lemma DecodeEncoded(code: seq<byte>, pc: nat, ins: Instr)
    requires pc + Size(ins) <= |code| && code[pc..pc + Size(ins)] == Encode(ins)
    requires WellFormed(ins) && OperandsFit(ins) && 0 <= Operand(ins) < 65536
    ensures Decode(code, pc) == Some(ins)
  {
    hide Hi, Lo, Low8;
    var bs := Encode(ins);
    forall j | 0 <= j < |bs| ensures code[pc + j] == bs[j] {
      assert code[pc..pc + |bs|][j] == code[pc + j];
    }
    assert code[pc] == bs[0];
    match ins
    case Plain(_) =>
    case Slot(_, s) => ByteFits(s); assert code[pc + 1] == bs[1];
    case Const(k) => Uint16Fits(k); assert code[pc + 1] == bs[1] && code[pc + 2] == bs[2];
    case Global(_, k) => Uint16Fits(k); assert code[pc + 1] == bs[1] && code[pc + 2] == bs[2];
    case AddConst(s, k) =>
      ByteFits(s); Uint16Fits(k);
      assert code[pc + 1] == bs[1] && code[pc + 2] == bs[2] && code[pc + 3] == bs[3];
    case AddLocal(d, s) => ByteFits(d); ByteFits(s); assert code[pc + 1] == bs[1] && code[pc + 2] == bs[2];
    case Jump(_, t) => Uint16Fits(t); assert code[pc + 1] == bs[1] && code[pc + 2] == bs[2];
    case CmpJump(_, a, b, t) =>
      ByteFits(a); ByteFits(b); Uint16Fits(t);
      assert code[pc + 1] == bs[1] && code[pc + 2] == bs[2] && code[pc + 3] == bs[3] && code[pc + 4] == bs[4];
    case ConstJump(_, s, k, t) =>
      ByteFits(s); Uint16Fits(k); Uint16Fits(t);
      assert code[pc + 1] == bs[1] && code[pc + 2] == bs[2] && code[pc + 3] == bs[3] && code[pc + 4] == bs[4] &&
             code[pc + 5] == bs[5];
    case RangeInit(c, e, st, n) =>
      ByteFits(c); ByteFits(e); ByteFits(st); ByteFits(n);
      assert code[pc + 1] == bs[1] && code[pc + 2] == bs[2] && code[pc + 3] == bs[3] && code[pc + 4] == bs[4];
    case RangeNext(c, e, st, v, t) =>
      ByteFits(c); ByteFits(e); ByteFits(st); ByteFits(v); Uint16Fits(t);
      assert code[pc + 1] == bs[1] && code[pc + 2] == bs[2] && code[pc + 3] == bs[3] && code[pc + 4] == bs[4] &&
             code[pc + 5] == bs[5] && code[pc + 6] == bs[6];
  }

  lemma DistanceInRange(p: Prog, i: nat)
    requires i < |p| && HasOperand(p[i]) && TargetInside(p, i)
    ensures 0 <= Distance(p, i) <= Off(p, |p|)
  {
    var t := Target(p, i);
    if IsBackward(p[i]) {
      OffMonotone(p, t, i + 1);
      OffMonotone(p, i + 1, |p|);
    } else {
      OffMonotone(p, i + 1, t);
      OffMonotone(p, t, |p|);
    }
  }

  /** Decoding at an instruction's offset recovers it, its jump in bytes. */
  lemma DecodeAssembled(p: Prog, i: nat)
    requires Fits(p) && i < |p|
    ensures Off(p, i) < |Assemble(p)|
    ensures Decode(Assemble(p), Off(p, i)) == Some(Resolve(p, i))
  {
    hide Encode, Decode;
    BytesAt(p, i);
    if HasOperand(p[i]) {
      assert TargetInside(p, i);
      DistanceInRange(p, i);
    }
    DecodeEncoded(Assemble(p), Off(p, i), Resolve(p, i));
  }

  // -------------------------------------------------- running instructions

  /** One step where the program counter indexes instructions. */
  function IStep(p: Prog, ks: seq<Value>, st: Status): Status {
    if !st.Running? then st
    else if !(0 <= st.pc < |p|) then Fault
    else Apply(Exec(p[st.pc], ks, st.l, st.stk), st.pc + 1, Target(p, st.pc), st.l)
  }

  function IRun(p: Prog, ks: seq<Value>, st: Status, n: nat): Status
    decreases n
  {
    if n == 0 then st else IRun(p, ks, IStep(p, ks, st), n - 1)
  }

  /** The byte-level status that an instruction-level status stands for. */
  function AtByte(p: Prog, st: Status): Status
    requires st.Running? ==> 0 <= st.pc <= |p|
  {
    if st.Running? then st.(pc := Off(p, st.pc)) else st
  }

  ghost predicate Inside(p: Prog, st: Status) { st.Running? ==> 0 <= st.pc <= |p| }

  lemma ExecIgnoresOperand(ins: Instr, t: int, ks: seq<Value>, l: seq<Value>, stk: seq<Value>)
    ensures Exec(WithOperand(ins, t), ks, l, stk) == Exec(ins, ks, l, stk)
  {
  }

  lemma {:induction false} BranchNeedsOperand(ins: Instr, ks: seq<Value>, l: seq<Value>, stk: seq<Value>)
    ensures Exec(ins, ks, l, stk).Branch? ==> HasOperand(ins)
  {
  }

  lemma DecodeAtEnd(code: seq<byte>)
    ensures Decode(code, |code|) == None
  {
  }

  lemma StepAssembled(p: Prog, ks: seq<Value>, st: Status)
    requires Fits(p) && Inside(p, st)
    ensures Inside(p, IStep(p, ks, st))
    ensures Step(Assemble(p), ks, AtByte(p, st)) == AtByte(p, IStep(p, ks, st))
  {
    hide Exec, Decode, Encode;
    DecodeAtEnd(Assemble(p));
    if st.Running? && st.pc < |p| {
      var i := st.pc;
      var ins := p[i];
      DecodeAssembled(p, i);
      BranchNeedsOperand(ins, ks, st.l, st.stk);
      if HasOperand(ins) {
        assert TargetInside(p, i);
        ExecIgnoresOperand(ins, Distance(p, i), ks, st.l, st.stk);
      }
      assert Exec(Resolve(p, i), ks, st.l, st.stk) == Exec(ins, ks, st.l, st.stk);
      assert Off(p, i) + Size(ins) == Off(p, i + 1);
    }
  }

  /** Running the assembled bytes is running the instructions, step for step. */
  lemma {:induction false} RunAssembled(p: Prog, ks: seq<Value>, st: Status, n: nat)
    requires Fits(p) && Inside(p, st)
    ensures Inside(p, IRun(p, ks, st, n))
    ensures Run(Assemble(p), ks, AtByte(p, st), n) == AtByte(p, IRun(p, ks, st, n))
    decreases n
  {
    if n > 0 {
      StepAssembled(p, ks, st);
      RunAssembled(p, ks, IStep(p, ks, st), n - 1);
    }
  }

  lemma {:induction false} IRunAdds(p: Prog, ks: seq<Value>, st: Status, m: nat, n: nat)
    ensures IRun(p, ks, st, m + n) == IRun(p, ks, IRun(p, ks, st, m), n)
    decreases m
  {
    if m > 0 {
      IRunAdds(p, ks, IStep(p, ks, st), m - 1, n);
    }
  }

  // ------------------------------------------------------ whole instructions

  /** The offsets at which a left-to-right disassembly of code[pc..] meets an
      instruction; None if it meets an unknown or truncated one. */
  function Starts(code: seq<byte>, pc: nat): Option<seq<nat>>
    requires pc <= |code|
    decreases |code| - pc
  {
    if pc == |code| then Some([])
    else
      match Decode(code, pc)
      case None => None
      case Some(ins) =>
        if pc + Size(ins) > |code| then None
        else
          match Starts(code, pc + Size(ins))
          case None => None
          case Some(rest) => Some([pc] + rest)
  }

  /** The offsets of instructions i, i+1, ... */
  function Offsets(p: Prog, i: nat): (r: seq<nat>)
    requires i <= |p|
    decreases |p| - i
  {
    if i == |p| then [] else [Off(p, i)] + Offsets(p, i + 1)
  }

  lemma {:induction false} OffsetListed(p: Prog, i: nat, j: nat)
    requires i <= j < |p|
    ensures Off(p, j) in Offsets(p, i)
    decreases |p| - i
  {
    if i < j { OffsetListed(p, i + 1, j); }
  }

  lemma StartsStep(code: seq<byte>, pc: nat, ins: Instr, rest: seq<nat>)
    requires pc + Size(ins) <= |code| && Decode(code, pc) == Some(ins)
    requires Starts(code, pc + Size(ins)) == Some(rest)
    ensures Starts(code, pc) == Some([pc] + rest)
  {
    hide Decode, Size;
  }

  /** Disassembling the bytes from instruction i on meets exactly the
      instructions of the program. */
  lemma {:induction false} SplitsIntoInstructions(p: Prog, i: nat)
    requires Fits(p) && i <= |p|
    ensures Off(p, i) <= |Assemble(p)|
    ensures Starts(Assemble(p), Off(p, i)) == Some(Offsets(p, i))
    decreases |p| - i
  {
    hide Decode, Encode, Resolve, Size, Assemble, Fits, Closed;
    OffMonotone(p, i, |p|);
    if i < |p| {
      SplitsIntoInstructions(p, i + 1);
      DecodeAssembled(p, i);
      StartsStep(Assemble(p), Off(p, i), Resolve(p, i), Offsets(p, i + 1));
    }
  }

  /** The byte a decoded jump at pc leads to. */
  function Landing(ins: Instr, pc: int): int {
    if IsBackward(ins) then pc + Size(ins) - Operand(ins) else pc + Size(ins) + Operand(ins)
  }

  /** Every jump of the bytes leads to the start of an instruction or to the
      end of the code. */
  lemma JumpsLandOnInstructions(p: Prog, i: nat)
    requires Fits(p) && i < |p| && HasOperand(p[i])
    ensures Decode(Assemble(p), Off(p, i)).Some?
    ensures var t := Landing(Decode(Assemble(p), Off(p, i)).value, Off(p, i));
            t == |Assemble(p)| || t in Offsets(p, 0)
  {
    hide Decode, Encode;
    DecodeAssembled(p, i);
    assert TargetInside(p, i);
    var j := Target(p, i);
    assert Landing(Resolve(p, i), Off(p, i)) == Off(p, j);
    if j < |p| { OffsetListed(p, 0, j); }
  }
}
