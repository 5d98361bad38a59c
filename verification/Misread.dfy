/** What the machine does at a misread window: the byte rewrite puts its jump's
    opcode into an operand, and the instruction that it belongs to reads another
    local or constant. */
module Misreads {
  import opened Options
  import opened Machine
  import opened Assembly
  import opened Source
  import opened CodeGen
  import opened ExprCorrect
  import opened StmtParts
  import opened StmtCorrect
  import opened Layout
  import opened ScriptCorrect
  import opened Peephole
  import opened Emission
  import opened Conditions
  import opened CompilerState
  import opened Alignment
  import opened RawCode
  import RawBounds
  import RawExact
  import CleanCode

  // ------------------------------------------------------------ simple code

  /** What numeric expressions compile to: no jumps, no stores. */
  predicate Simple(ins: Instr) { IsGetLocal(ins) || ins.Const? || (ins.Plain? && WellFormed(ins) && ins.op != RETURN) }

  ghost predicate AllSimple(c: Prog) { forall i :: 0 <= i < |c| ==> Simple(c[i]) }

  lemma SimpleJoined(a: Prog, b: Prog)
    requires AllSimple(a) && AllSimple(b)
    ensures AllSimple(a + b)
  {
  }

  lemma {:induction false} PutsJoined(r: Raw, a: Prog, b: Prog)
    ensures Puts(r, a + b) == Puts(Puts(r, a), b)
    decreases |b|
  {
    hide Put;
    if b == [] {
      assert a + b == a;
    } else {
      var n := |b| - 1;
      assert (a + b)[..|a| + n] == a + b[..n];
      PutsJoined(r, a, b[..n]);
    }
  }

  lemma OperatorSimple(op: BinOp, numeric: bool)
    requires op != And && op != Or
    ensures AllSimple(BinCode(op, numeric))
  {
  }

  lemma LeafSimple(e: Expr, ls: Locals, k: nat, r: Raw)
    requires e.IntLit? || e.Var? || (e.Neg? && IsFolded(e))
    requires Numeric(TypeOf(e, ls))
    ensures AllSimple(ExprCode(e, ls, k).code) && RawExpr(e, ls, k, r) == Puts(r, ExprCode(e, ls, k).code)
  {
    hide SlotOf, Put;
  }

  /** A numeric expression emits its instructions one after the other. */
  lemma {:induction false} NumericSimple(e: Expr, ls: Locals, k: nat, r: Raw)
    requires Numeric(TypeOf(e, ls))
    ensures AllSimple(ExprCode(e, ls, k).code) && RawExpr(e, ls, k, r) == Puts(r, ExprCode(e, ls, k).code)
    decreases e, 1
  {
    hide Puts, Put, SlotOf, BinCode, EvalConst, RawAnd, RawOr, AndCode, OrCode;
    match e
    case Group(e1) => NumericSimple(e1, ls, k, r);
    case Neg(e1) =>
      if IsFolded(e) {
        LeafSimple(e, ls, k, r);
      } else {
        NumericSimple(e1, ls, k, r);
        var c := ExprCode(e1, ls, k).code;
        PutsJoined(r, c, [Plain(NEGATE)]);
        PutsOne(Puts(r, c), Plain(NEGATE));
        SimpleJoined(c, [Plain(NEGATE)]);
      }
    case Bin(_, _, _) =>
      RawBounds.NumericOperands(e, ls);
      NumericOperator(e);
      OperandsSimple(e, ls, k, r);
    case _ => LeafSimple(e, ls, k, r);
  }

  lemma NumericOperator(e: Expr)
    requires e.Bin? && exists ls :: Numeric(TypeOf(e, ls))
    ensures e.op != And && e.op != Or
  {
  }

  /** An operator other than && and || on numeric operands. */
  lemma {:induction false} OperandsSimple(e: Expr, ls: Locals, k: nat, r: Raw)
    requires e.Bin? && e.op != And && e.op != Or && Numeric(TypeOf(e.l, ls)) && Numeric(TypeOf(e.r, ls))
    ensures AllSimple(ExprCode(e, ls, k).code) && RawExpr(e, ls, k, r) == Puts(r, ExprCode(e, ls, k).code)
    decreases e, 0
  {
    hide Puts, RawExpr, ExprCode, TypeOf, BinCode;
    var fl := ExprCode(e.l, ls, k);
    var k1 := k + |fl.ks|;
    var cr := ExprCode(e.r, ls, k1).code;
    var b := BinCode(e.op, true);
    NumericSimple(e.l, ls, k, r);
    NumericSimple(e.r, ls, k1, Puts(r, fl.code));
    RawOperator(e, ls, k, r);
    ArithCode(e, ls, k);
    OperatorSimple(e.op, true);
    SimpleJoined(fl.code, cr);
    SimpleJoined(fl.code + cr, b);
    PutsJoined(r, fl.code, cr);
    PutsJoined(r, fl.code + cr, b);
  }

  /** The bytes of simple code do not depend on where it stands. */
  lemma {:induction false} SimpleBytes(r: Raw, c: Prog)
    requires AllSimple(c)
    ensures Puts(r, c).code == r.code + Assemble(c)
    decreases |c|
  {
    hide Encode, Assemble;
    if c == [] {
      NoBytes();
      assert r.code + [] == r.code;
    } else {
      var n := |c| - 1;
      SimpleBytes(r, c[..n]);
      SimpleSettled(c[..n]);
      AssembleAppend(c[..n], c[n]);
      assert c[..n] + [c[n]] == c;
      assert Resolve(c, n) == c[n];
    }
  }

  lemma NoBytes()
    ensures Assemble([]) == []
  {
  }

  lemma SimpleSettled(c: Prog)
    requires AllSimple(c)
    ensures Settled(c)
  {
  }

  // -------------------------------------------------------- the cut operand

  /** Where a rewrite that matches starts writing. */
  function CutAt(d: seq<byte>, op: byte): int {
    if LooksLikeArrayField(d, op) then |d| - 7 else |d| - 5
  }

  /** The rewrite keeps what is before, and a byte behind. */
  lemma CutBytes(d: seq<byte>, op: byte)
    requires LooksLikeArrayField(d, op) || LooksLikeLocals(d, op)
    ensures var m, x := CutAt(d, op), CompareJumpBytes(d, op);
            0 <= m && m + 5 <= |d| == |x| && x[..m] == d[..m] && x[m + 1] == d[m + 1] && x[|x| - 1] == 0 &&
            (m + 5 == |x| || m + 7 == |x|) && (d[m] == GET_LOCAL || d[m] == GET_LOCAL_ARRAY_FIELD)
  {
  }

  /** The condition without a final NOT, when a window is seen: simple code that
      stands at the end of the bytes. */
  lemma SeenSimple(e: Expr, ls: Locals, k: nat, r: Raw)
    requires RawBounds.SeesCompare(RawExpr(e, ls, k, r).code)
    ensures var g := ExprCode(e, ls, k).code;
            AllSimple(g) && RawExpr(e, ls, k, r).code == r.code + Assemble(g)
  {
    hide RawExpr, ExprCode, Unwrap, Puts, TypeOf, Assemble;
    var c := ExprCode(e, ls, k).code;
    LastInstrOf(e, ls, k);
    RawBounds.ExprTail(e, ls, k, r);
    RawBounds.LastKinds(e, ls, k);
    RawBounds.UnwrapRaw(e, ls, k, r);
    UnwrapSame(e, ls, k, []);
    var z := c[|c| - 1];
    if IsGetLocal(z) {
      RawLeaf(Unwrap(e), ls, k, r);
      OnePuts(r, c);
      assert c == [z];
    } else {
      SeenKind(RawExpr(e, ls, k, r), r, z);
      CompareNumeric(Unwrap(e), ls, k);
      OperandsSimple(Unwrap(e), ls, k, r);
    }
    SimpleBytes(r, c);
  }

  lemma SeenKind(q: Raw, r: Raw, z: Instr)
    requires RawBounds.SeesCompare(q.code) && RawBounds.EndsIn(r, q, z)
    requires z.Const? || z.Global? || z.Plain?
    ensures IsFusibleCompare(z)
  {
  }

  lemma CompareNumeric(e: Expr, ls: Locals, k: nat)
    requires e.Bin? && (e.op == Lt || e.op == Gt)
    requires var c := ExprCode(e, ls, k).code; |c| > 0 && IsFusibleCompare(c[|c| - 1])
    ensures Numeric(TypeOf(e.l, ls)) && Numeric(TypeOf(e.r, ls))
  {
    hide ExprCode, TypeOf;
    ArithCode(e, ls, k);
  }

  /** The jump of condition e behind r misreads its window. */
  predicate Misread(e: Expr, ls: Locals, k: nat, r: Raw) {
    var q := RawExpr(e, ls, k, r);
    !SeesRight(q.code, q.last, JUMP_IF_FALSE_POP, ExprCode(e, ls, k).code)
  }

  /** The condition that the jump sees, its code and its bytes behind r. */
  function SeenCode(e: Expr, ls: Locals, k: nat): Prog { ExprCode(RawBounds.Stripped(e), ls, k).code }

  function SeenBytes(e: Expr, ls: Locals, k: nat, r: Raw): seq<byte> {
    RawExpr(RawBounds.Stripped(e), ls, k, r).code
  }

  function SeenOp(e: Expr): byte { if RawBounds.Negated(e) then JUMP_IF_TRUE_POP else JUMP_IF_FALSE_POP }

  /** What a misread window is: simple code of which it is no comparison of two
      locals, and a jump written over its end. */
  lemma MisreadSeen(e: Expr, ls: Locals, k: nat, r: Raw)
    requires Misread(e, ls, k, r)
    ensures var g, d, op := SeenCode(e, ls, k), SeenBytes(e, ls, k, r), SeenOp(e);
            (LooksLikeArrayField(d, op) || (LooksLikeLocals(d, op) && !Fuses(g, op))) &&
            AllSimple(g) && d == r.code + Assemble(g) &&
            RawCond(e, ls, k, r).raw.code == CompareJumpBytes(d, op)
  {
    hide RawExpr, ExprCode, Unwrap, NotFoldBytes, FoldNot, CompareJumpBytes, Assemble, Fuses, RawBounds.Stripped;
    RawBounds.StripRaw(e, ls, k, r);
    RawBounds.StripCode(e, ls, k);
    SeenSimple(RawBounds.Stripped(e), ls, k, r);
  }

  /** The written opcode falls into an operand. */
  lemma CutInside(g: Prog, r: Raw, op: byte) returns (i: nat)
    requires AllSimple(g)
    requires var d := r.code + Assemble(g);
             (LooksLikeArrayField(d, op) || (LooksLikeLocals(d, op) && !Fuses(g, op))) && CutAt(d, op) >= |r.code|
    ensures var m := CutAt(r.code + Assemble(g), op) - |r.code|;
            i < |g| && Off(g, i) < m < Off(g, i + 1) && !g[i].Plain?
  {
    hide Assemble, Encode, Fuses;
    var d := r.code + Assemble(g);
    var m := CutAt(d, op) - |r.code|;
    CutBytes(d, op);
    i := CleanCode.Locate(g, |g|, m);
    CleanCode.ByteOf(g, i, m);
    if Off(g, i) == m {
      assert Resolve(g, i) == g[i];
      SimpleOpcode(g[i]);
      assert Assemble(g)[m + 2] == d[|d| - 3] && Assemble(g)[m + 4] == d[|d| - 1];
      ComparedHere(g, i, op);
    }
  }

  lemma SimpleOpcode(ins: Instr)
    requires Simple(ins)
    ensures Opcode(ins) != GET_LOCAL_ARRAY_FIELD && (Opcode(ins) == GET_LOCAL ==> IsGetLocal(ins))
    ensures IsCompareByte(Opcode(ins)) ==> IsFusibleCompare(ins)
    ensures IsGetLocal(ins) ==> Size(ins) == 2
  {
  }

  /** Two local reads and a comparison in the last five bytes are instructions. */
  lemma ComparedHere(g: Prog, i: nat, op: byte)
    requires AllSimple(g) && i < |g| && IsGetLocal(g[i]) && Off(g, i) + 5 == |Assemble(g)|
    requires Assemble(g)[Off(g, i) + 2] == GET_LOCAL && IsCompareByte(Assemble(g)[Off(g, i) + 4])
    requires op == JUMP_IF_TRUE_POP || op == JUMP_IF_FALSE_POP
    ensures Fuses(g, op)
  {
    hide Assemble, Encode;
    assert Off(g, i + 1) == Off(g, i) + 2;
    assert i + 1 < |g|;
    OffMonotone(g, i + 2, |g|);
    assert Off(g, i + 2) == Off(g, i + 1) + Size(g[i + 1]);
    CleanCode.ByteOf(g, i + 1, Off(g, i + 1));
    assert Resolve(g, i + 1) == g[i + 1];
    SimpleOpcode(g[i + 1]);
    assert i + 2 < |g|;
    assert Off(g, i + 3) == Off(g, i + 2) + Size(g[i + 2]);
    OffMonotone(g, i + 3, |g|);
    CleanCode.ByteOf(g, i + 2, Off(g, i + 2));
    assert Resolve(g, i + 2) == g[i + 2];
    SimpleOpcode(g[i + 2]);
  }

  /** The instruction with byte n of its encoding replaced. */
  function Recut(ins: Instr, n: nat, f: byte): Instr {
    match ins
    case Slot(op, _) => Slot(op, f)
    case Const(k) => if n == 1 then Const(f * 256 + Lo(k)) else Const(Hi(k) * 256 + f)
    case _ => ins
  }

  lemma DecodeRecut(code: seq<byte>, pc: nat, ins: Instr, n: nat)
    requires Simple(ins) && !ins.Plain? && 0 < n < Size(ins) && pc + Size(ins) <= |code|
    requires forall j :: 0 <= j < Size(ins) && j != n ==> code[pc + j] == Encode(ins)[j]
    ensures Decode(code, pc) == Some(Recut(ins, n, code[pc + n]))
  {
    hide Hi, Lo, Low8;
    var bs := Encode(ins);
    assert code[pc + 0] == bs[0];
    if ins.Const? {
      if n == 1 { assert code[pc + 2] == bs[2]; } else { assert code[pc + 1] == bs[1]; }
    }
  }

  /** The replaced operand is in the frame or in the pool. */
  predicate Reads(ins: Instr, ks: seq<Value>, l: seq<Value>) {
    match ins
    case Slot(_, s) => s < |l|
    case Const(k) => k < |ks|
    case _ => true
  }

  lemma ReadSteps(code: seq<byte>, ks: seq<Value>, pc: nat, ins: Instr, l: seq<Value>, stk: seq<Value>)
    requires Decode(code, pc) == Some(ins) && (IsGetLocal(ins) || ins.Const?)
    ensures Step(code, ks, Running(pc, l, stk)) == Fault <==> !Reads(ins, ks, l)
    ensures Reads(ins, ks, l) ==>
              Step(code, ks, Running(pc, l, stk)) ==
              Running(pc + Size(ins), l, stk + [if ins.Slot? then l[ins.s] else ks[ins.k]])
  {
    hide Decode, ExecPlain, ExecJump, ExecCmpJump, ExecConstJump, ExecRangeInit, ExecRangeNext;
  }

  // ---------------------------------------------------------- embedded code

  /** The bytes of c stand at `at`, with anything around them. */
  ghost predicate Embedded(code: seq<byte>, at: nat, c: Prog) {
    at + |Assemble(c)| <= |code| && code[at..at + |Assemble(c)|] == Assemble(c)
  }

  function Shifted(c: Prog, at: nat, st: Status): Status
    requires Inside(c, st)
  {
    if st.Running? then st.(pc := at + Off(c, st.pc)) else st
  }

  lemma SliceOf(s: seq<byte>, at: nat, n: nat, a: nat, b: nat)
    requires a <= b <= n && at + n <= |s|
    ensures s[at + a..at + b] == s[at..at + n][a..b]
  {
    var t, u := s[at..at + n][a..b], s[at + a..at + b];
    assert |t| == |u| && forall j :: 0 <= j < |t| ==> t[j] == u[j];
  }

  /** Instructions run there as they run alone. */
  lemma StepEmbedded(code: seq<byte>, at: nat, c: Prog, ks: seq<Value>, st: Status)
    requires Fits(c) && Embedded(code, at, c) && st.Running? && 0 <= st.pc < |c|
    ensures Inside(c, IStep(c, ks, st))
    ensures Step(code, ks, Shifted(c, at, st)) == Shifted(c, at, IStep(c, ks, st))
  {
    hide Exec, Decode, Encode, Assemble;
    var i := st.pc;
    var ins := c[i];
    BytesAt(c, i);
    var a, b := Off(c, i), Off(c, i + 1);
    SliceOf(code, at, |Assemble(c)|, a, b);
    ResolvedRuns(c, i, ks, st.l, st.stk);
    DecodeEncoded(code, at + a, Resolve(c, i));
    BranchNeedsOperand(ins, ks, st.l, st.stk);
    if HasOperand(ins) { assert TargetInside(c, i); }
  }

  /** Encoding a jump's distance keeps what the instruction does. */
  lemma ResolvedRuns(c: Prog, i: nat, ks: seq<Value>, l: seq<Value>, stk: seq<Value>)
    requires Fits(c) && i < |c|
    ensures var r := Resolve(c, i);
            WellFormed(r) && OperandsFit(r) && 0 <= Operand(r) < 65536 && Exec(r, ks, l, stk) == Exec(c[i], ks, l, stk)
  {
    hide Exec;
    if HasOperand(c[i]) {
      assert TargetInside(c, i);
      DistanceInRange(c, i);
      ExecIgnoresOperand(c[i], Distance(c, i), ks, l, stk);
    }
  }

  lemma {:induction false} RunEmbedded(code: seq<byte>, at: nat, c: Prog, ks: seq<Value>, st: Status, n: nat)
    requires Fits(c) && Embedded(code, at, c) && Inside(c, st) && st.Running? && IRun(c, ks, st, n).Running?
    ensures Inside(c, IRun(c, ks, st, n))
    ensures Run(code, ks, Shifted(c, at, st), n) == Shifted(c, at, IRun(c, ks, st, n))
    decreases n
  {
    hide Embedded, Fits;
    if n > 0 {
      var t := IStep(c, ks, st);
      if !t.Running? { StoppedStays(c, ks, t, n - 1); }
      StepEmbedded(code, at, c, ks, st);
      RunEmbedded(code, at, c, ks, t, n - 1);
    }
  }

  lemma {:induction false} StoppedStays(c: Prog, ks: seq<Value>, st: Status, n: nat)
    requires !st.Running?
    ensures IRun(c, ks, st, n) == st
  {
    if n > 0 { StoppedStays(c, ks, st, n - 1); }
  }

  // ------------------------------------------------------ up to the cut operand

  lemma SimpleStep(ins: Instr, ks: seq<Value>, l: seq<Value>, stk: seq<Value>)
    requires Simple(ins)
    ensures var e := Exec(ins, ks, l, stk); e.Raise? || (e.Next? && e.l == l)
  {
    hide Binary;
  }

  /** Simple code goes on one instruction a step, and so does its beginning. */
  lemma {:induction false} SimpleRun(g: Prog, b: nat, ks: seq<Value>, a: nat, l: seq<Value>, stk: seq<Value>, n: nat, j: nat)
    returns (stk': seq<Value>)
    requires AllSimple(g) && a <= |g| && IRun(g, ks, Running(a, l, stk), n).Running? && j <= n && a + j <= b <= |g|
    ensures IRun(g, ks, Running(a, l, stk), j) == Running(a + j, l, stk')
    ensures IRun(g[..b], ks, Running(a, l, stk), j) == Running(a + j, l, stk')
    decreases j
  {
    stk' := stk;
    if j > 0 {
      hide Exec;
      var t := IStep(g, ks, Running(a, l, stk));
      SimpleStep(g[a], ks, l, stk);
      if !t.Running? { StoppedStays(g, ks, t, n - 1); }
      assert IStep(g[..b], ks, Running(a, l, stk)) == t;
      stk' := SimpleRun(g, b, ks, a + 1, l, t.stk, n - 1, j - 1);
    }
  }

  lemma {:induction false} SimpleEnd(g: Prog, ks: seq<Value>, a: nat, l: seq<Value>, stk: seq<Value>, n: nat)
    requires AllSimple(g) && a <= |g| && IRun(g, ks, Running(a, l, stk), n).Running?
    ensures IRun(g, ks, Running(a, l, stk), n).pc == a + n && a + n <= |g|
    decreases n
  {
    if n > 0 {
      hide Exec;
      var t := IStep(g, ks, Running(a, l, stk));
      if a < |g| { SimpleStep(g[a], ks, l, stk); }
      if !t.Running? { StoppedStays(g, ks, t, n - 1); }
      SimpleEnd(g, ks, a + 1, l, t.stk, n - 1);
    }
  }

  lemma StrippedValue(e: Expr, ls: Locals, k: nat, env: Env)
    requires Eval(e, env).Some?
    ensures Eval(RawBounds.Stripped(e), env).Some?
    ensures ExprCode(RawBounds.Stripped(e), ls, k).ks == ExprCode(e, ls, k).ks
  {
    hide Eval, ExprCode, Unwrap, BinCode, TypeOf;
    var u := Unwrap(e);
    UnwrapSame(e, ls, k, env);
    if u.Not? {
      NotCode(u, ls, k);
      NotValue(u, env);
    } else if RawBounds.Negated(e) {
      NegatedCompareCode(u, ls, k);
      ArithCode(RawBounds.Stripped(e), ls, k);
      CompareValue(u, env);
    }
  }

  lemma NotValue(e: Expr, env: Env)
    requires e.Not? && Eval(e, env).Some?
    ensures Eval(e.e, env).Some?
  {
  }

  lemma CompareValue(e: Expr, env: Env)
    requires e.Bin? && (e.op == Ne || e.op == Ge || e.op == Le) && Eval(e, env).Some?
    ensures Eval(Bin(if e.op == Ne then Eq else if e.op == Ge then Lt else Gt, e.l, e.r), env).Some?
  {
  }

  /** The code of the condition can be laid out. */
  lemma SeenFits(e: Expr, ls: Locals, k: nat, i: nat)
    requires AllSimple(SeenCode(e, ls, k)) && i <= |SeenCode(e, ls, k)|
    requires |ls| <= 256 && k + |ExprCode(RawBounds.Stripped(e), ls, k).ks| <= 65536
    requires Off(SeenCode(e, ls, k), |SeenCode(e, ls, k)|) < 65536
    ensures Fits(SeenCode(e, ls, k)[..i])
  {
    hide ExprCode, RawBounds.Stripped, Off, InstrOk;
    var e1 := RawBounds.Stripped(e);
    var g := SeenCode(e, ls, k);
    var n := k + |ExprCode(e1, ls, k).ks|;
    ExprOk(e1, ls, k);
    forall j | 0 <= j < i ensures WellFormed(g[j]) && OperandsFit(g[j]) && !HasOperand(g[j]) {
      assert InstrOk(g[j], j, |g|, |ls|, n, INSIDE);
      SimpleFits(g[j], j, |g|, |ls|, n);
    }
    OffMonotone(g, i, |g|);
    OffOfPrefix(g[..i], g, i);
  }

  lemma SimpleFits(ins: Instr, j: nat, len: nat, slots: nat, consts: nat)
    requires Simple(ins) && InstrOk(ins, j, len, slots, consts, INSIDE) && slots <= 256 && consts <= 65536
    ensures WellFormed(ins) && OperandsFit(ins) && !HasOperand(ins)
  {
  }

  /** The written opcode falls into instruction i. */
  predicate CutHere(e: Expr, ls: Locals, k: nat, r: Raw, i: nat) {
    var g := SeenCode(e, ls, k);
    i < |g| && Off(g, i) < CutAt(SeenBytes(e, ls, k, r), SeenOp(e)) - |r.code| < Off(g, i + 1) && !g[i].Plain?
  }

  /** It as the machine decodes it: with the jump's opcode in the cut byte. */
  function CutInstr(e: Expr, ls: Locals, k: nat, r: Raw, i: nat): Instr
    requires Misread(e, ls, k, r) && CutHere(e, ls, k, r, i)
  {
    MisreadSeen(e, ls, k, r);
    CutBytes(SeenBytes(e, ls, k, r), SeenOp(e));
    var g, m := SeenCode(e, ls, k), CutAt(SeenBytes(e, ls, k, r), SeenOp(e));
    Recut(g[i], m - |r.code| - Off(g, i), RawCond(e, ls, k, r).raw.code[m])
  }

  lemma CutPlace(e: Expr, ls: Locals, k: nat, r: Raw) returns (i: nat)
    requires Misread(e, ls, k, r) && CutAt(SeenBytes(e, ls, k, r), SeenOp(e)) >= |r.code|
    ensures CutHere(e, ls, k, r, i)
  {
    hide RawExpr, ExprCode, RawBounds.Stripped, Off, Assemble, CompareJumpBytes, LooksLikeLocals, LooksLikeArrayField;
    MisreadSeen(e, ls, k, r);
    i := CutInside(SeenCode(e, ls, k), r, SeenOp(e));
  }

  /** The bytes that a condition misread behind r leaves, up to the cut operand,
      are still there. */
  ghost predicate StillCut(e: Expr, ls: Locals, k: nat, r: Raw, code: seq<byte>) {
    var x, end := RawCond(e, ls, k, r).raw.code, CutAt(SeenBytes(e, ls, k, r), SeenOp(e)) + 2;
    0 <= end <= |x| && end <= |code| && code[..end] == x[..end]
  }

  /** A run that comes to the misread condition evaluates it up to the cut
      instruction, which then reads the wrong local or constant; it fails there if
      and only if there is none. */
  lemma MisreadRuns(e: Expr, ls: Locals, k: nat, r: Raw, i: nat, env: Env, ks: seq<Value>, l: seq<Value>,
                    stk: seq<Value>, code: seq<byte>) returns (stk': seq<Value>)
    requires Misread(e, ls, k, r) && CutHere(e, ls, k, r, i) && StillCut(e, ls, k, r, code)
    requires Rel(env, ls, l) && Eval(e, env).Some? && PoolAt(ks, k, ExprCode(e, ls, k).ks)
    requires Fits(SeenCode(e, ls, k)[..i])
    ensures var at := |r.code| + Off(SeenCode(e, ls, k), i);
            var ins := CutInstr(e, ls, k, r, i);
            Run(code, ks, Running(|r.code|, l, stk), i) == Running(at, l, stk') &&
            (Step(code, ks, Running(at, l, stk')) == Fault <==> !Reads(ins, ks, l)) &&
            (Reads(ins, ks, l) ==> Step(code, ks, Running(at, l, stk')).Running?)
  {
    hide RawExpr, ExprCode, RawBounds.Stripped, Assemble, CompareJumpBytes, LooksLikeLocals, LooksLikeArrayField, Eval,
         IRun, Run, Step, Rel, PoolAt, Fits, Recut, Reads, Fuses;
    var g := SeenCode(e, ls, k);
    MisreadSeen(e, ls, k, r);
    stk' := ReachesCut(e, ls, k, i, env, ks, l, stk);
    BeforeCut(e, ls, k, r, i, code);
    RunEmbedded(code, |r.code|, g[..i], ks, Running(0, l, stk), i);
    OffOfPrefix(g[..i], g, i);
    CutDecodes(e, ls, k, r, i, code);
    ReadSteps(code, ks, |r.code| + Off(g, i), CutInstr(e, ls, k, r, i), l, stk');
  }

  /** Evaluating the condition passes the cut instruction. */
  lemma ReachesCut(e: Expr, ls: Locals, k: nat, i: nat, env: Env, ks: seq<Value>, l: seq<Value>, stk: seq<Value>)
    returns (stk': seq<Value>)
    requires AllSimple(SeenCode(e, ls, k)) && i <= |SeenCode(e, ls, k)|
    requires Rel(env, ls, l) && Eval(e, env).Some? && PoolAt(ks, k, ExprCode(e, ls, k).ks)
    ensures IRun(SeenCode(e, ls, k)[..i], ks, Running(0, l, stk), i) == Running(i, l, stk')
  {
    hide ExprCode, RawBounds.Stripped, Eval, IRun, Rel, PoolAt, FragOk;
    var e1, g := RawBounds.Stripped(e), SeenCode(e, ls, k);
    StrippedValue(e, ls, k, env);
    ExprOk(e1, ls, k);
    AgreesSelf(g, g, |ls|, k + |ExprCode(e1, ls, k).ks|);
    var n := ExprRuns(e1, ls, k, env, g, ks, 0, l, stk, 0, 0);
    SimpleEnd(g, ks, 0, l, stk, n);
    stk' := SimpleRun(g, i, ks, 0, l, stk, n, i);
  }

  /** The code before the cut instruction is untouched. */
  lemma BeforeCut(e: Expr, ls: Locals, k: nat, r: Raw, i: nat, code: seq<byte>)
    requires Misread(e, ls, k, r) && CutHere(e, ls, k, r, i) && StillCut(e, ls, k, r, code)
    ensures Embedded(code, |r.code|, SeenCode(e, ls, k)[..i])
  {
    hide RawExpr, ExprCode, RawBounds.Stripped, Assemble, CompareJumpBytes, LooksLikeLocals, LooksLikeArrayField;
    MisreadSeen(e, ls, k, r);
    var g, d, op := SeenCode(e, ls, k), SeenBytes(e, ls, k, r), SeenOp(e);
    var m, at := CutAt(d, op), |r.code|;
    CutBytes(d, op);
    SimplePrefix(g, i);
    var n := Off(g, i);
    assert code[..m] == code[..m + 2][..m] == d[..m];
    assert code[at..at + n] == code[..m][at..at + n] == d[..m][at..at + n] == d[at..at + n] == Assemble(g)[..n];
  }

  lemma SimplePrefix(g: Prog, i: nat)
    requires AllSimple(g) && i <= |g|
    ensures Off(g, i) <= |Assemble(g)| && Assemble(g[..i]) == Assemble(g)[..Off(g, i)] && |Assemble(g[..i])| == Off(g, i)
  {
    hide Assemble;
    SimpleSettled(g[..i]);
    AssemblePrefix(g[..i], g);
    OffMonotone(g, i, |g|);
  }

  /** The cut instruction as it is decoded. */
  lemma CutDecodes(e: Expr, ls: Locals, k: nat, r: Raw, i: nat, code: seq<byte>)
    requires Misread(e, ls, k, r) && CutHere(e, ls, k, r, i) && StillCut(e, ls, k, r, code)
    ensures Decode(code, |r.code| + Off(SeenCode(e, ls, k), i)) == Some(CutInstr(e, ls, k, r, i))
    ensures IsGetLocal(CutInstr(e, ls, k, r, i)) || CutInstr(e, ls, k, r, i).Const?
  {
    hide RawExpr, ExprCode, RawBounds.Stripped, Assemble, CompareJumpBytes, LooksLikeLocals, LooksLikeArrayField, Decode,
         Encode;
    MisreadSeen(e, ls, k, r);
    var g, d, op := SeenCode(e, ls, k), SeenBytes(e, ls, k, r), SeenOp(e);
    var m, at, x := CutAt(d, op), |r.code|, RawCond(e, ls, k, r).raw.code;
    CutBytes(d, op);
    var pc, n := at + Off(g, i), m - at - Off(g, i);
    SmallSimple(g[i]);
    forall j | 0 <= j < Size(g[i]) && j != n ensures code[pc + j] == Encode(g[i])[j] {
      CleanCode.ByteOf(g, i, Off(g, i) + j);
      assert Resolve(g, i) == g[i];
      assert code[pc + j] == code[..m + 2][pc + j] == x[..m + 2][pc + j] == x[pc + j];
      if j < n { assert x[pc + j] == x[..m][pc + j] == d[..m][pc + j]; }
    }
    assert code[m] == code[..m + 2][m] == x[m];
    DecodeRecut(code, pc, g[i], n);
  }

  lemma SmallSimple(ins: Instr)
    requires Simple(ins)
    ensures Size(ins) <= 3
  {
  }

  // ------------------------------------------------------------- whole scripts

  /** b after a. */
  function Append(a: Block, b: Block): Block {
    match a
    case Done => b
    case Then(s, rest) => Then(s, Append(rest, b))
  }

  lemma {:induction false} AppendCompiled(a: Block, b: Block, ls: Locals, k: nat, r: Raw)
    ensures var f := BlockCode(a, ls, k, NoLoop);
            var g := BlockCode(b, f.ls, k + |f.ks|, NoLoop);
            var h := BlockCode(Append(a, b), ls, k, NoLoop);
            RawBlock(Append(a, b), ls, k, NoLoop, r) == RawBlock(b, f.ls, k + |f.ks|, NoLoop, RawBlock(a, ls, k, NoLoop, r)) &&
            h.code == f.code + g.code && h.ks == f.ks + g.ks && h.max >= f.max && h.max >= g.max
  {
    hide StmtCode, RawStmt, RawBlock, BlockCode;
    RawThen(a, ls, k, NoLoop, r);
    match a
    case Done =>
      BlockLocals(b, ls, k, NoLoop);
      DoneJoined(BlockCode(b, ls, k, NoLoop), ls, k);
    case Then(s, rest) =>
      var f := StmtCode(s, ls, k, NoLoop);
      var r1 := RawStmt(s, ls, k, NoLoop, r);
      AppendCompiled(rest, b, f.ls, k + |f.ks|, r1);
      RawThen(Then(s, Append(rest, b)), ls, k, NoLoop, r);
      AlignedThen([], a, ls, k, NoLoop);
      AlignedThen([], Then(s, Append(rest, b)), ls, k, NoLoop);
      var f1 := BlockCode(rest, f.ls, k + |f.ks|, NoLoop);
      JoinedThrice(f, f1, BlockCode(b, f1.ls, k + |f.ks| + |f1.ks|, NoLoop));
  }

  lemma DoneJoined(g: SFrag, ls: Locals, k: nat)
    ensures var f := BlockCode(Done, ls, k, NoLoop);
            f == SFrag([], [], ls, |ls|, true) && f.code + g.code == g.code && f.ks + g.ks == g.ks
  {
  }

  lemma JoinedThrice(a: SFrag, b: SFrag, c: SFrag)
    ensures a.code + (b.code + c.code) == a.code + b.code + c.code && a.ks + (b.ks + c.ks) == a.ks + b.ks + c.ks
  {
  }

  /** A patch of x's own jump later on leaves what is out of reach. */
  lemma PatchKept(x: seq<byte>, b: Raw)
    requires |x| >= 2 && RawBounds.BytesKept(x, b.code) && |b.code| >= |x|
    ensures RawBounds.BytesKept(x, RawPatch(b, |x| - 2).code)
  {
    hide Hi;
    var y := RawPatch(b, |x| - 2).code;
    forall m: nat | RawBounds.OutOfReach(x, m) ensures RawBounds.OutOfReach(y, m) && y[m] == x[m] {
      assert RawBounds.OutOfReach(b.code, m) && b.code[m] == x[m];
    }
  }

  lemma KeptThen(a: seq<byte>, q: Raw, t: Raw, c: Prog, P: set<int>)
    requires RawBounds.BytesKept(a, q.code) && RawBounds.Grows(q, t, c, P)
    ensures RawBounds.BytesKept(a, t.code)
  {
    hide RawBounds.OutOfReach;
    RawBounds.KeptThen(a, q.code, t.code);
  }

  lemma KeptSame(a: seq<byte>)
    ensures RawBounds.BytesKept(a, a)
  {
  }

  /** What follows the condition of an if-statement keeps its bytes. */
  lemma IfKept(s: Stmt, ls: Locals, k: nat, r: Raw)
    requires s.If? && MatchLessEqual(s.c, ls).None? && MatchDivisible(s.c, ls).None?
    requires var j := RawCond(s.c, ls, k, r); |j.raw.code| >= 2 && j.at == |j.raw.code| - 2
    ensures RawBounds.BytesKept(RawCond(s.c, ls, k, r).raw.code, RawIf(s, ls, k, NoLoop, r).code)
  {
    hide RawCond, RawBlock, IfHead, ScopeCode, PatchedAt, RawBounds.BytesKept, MatchLessEqual, MatchDivisible, RawJump;
    var h := IfHead(s.c, ls, k, PENDING);
    var lc1, k1 := Shift(NoLoop, |h.code|), k + |h.ks|;
    var x := RawCond(s.c, ls, k, r);
    assert RawIfHead(s.c, ls, k, r) == x;
    var f := ScopeCode(s.thn, ls, k1, lc1);
    var b := RawBlock(s.thn, ls, k1, lc1, x.raw);
    var P := RawExact.BlockGrows(s.thn, ls, k1, lc1, x.raw);
    KeptSame(x.raw.code);
    KeptThen(x.raw.code, x.raw, b, f.code, P);
    GrownLength(x.raw, b, f.code, P);
    if s.els.None? {
      PatchKept(x.raw.code, b);
    } else {
      var ls2, k2, lc2 := f.ls, k1 + |f.ks|, Shift(NoLoop, |h.code| + |f.code| + 1);
      var over := RawJump(b, JUMP);
      RawBounds.GrowsJump(b, 0);
      KeptThen(x.raw.code, b, over.raw, [Jump(JUMP, 0)], {over.at});
      GrownLength(b, over.raw, [Jump(JUMP, 0)], {over.at});
      PatchKept(x.raw.code, over.raw);
      var q := RawPatch(over.raw, x.at);
      var t := RawBlock(s.els.value, ls2, k2, lc2, q);
      var Q := RawExact.BlockGrows(s.els.value, ls2, k2, lc2, q);
      var g := ScopeCode(s.els.value, ls2, k2, lc2).code;
      KeptThen(x.raw.code, q, t, g, Q);
      GrownLength(q, t, g, Q);
      LaterPatchKept(x.raw.code, t, over.at);
    }
  }

  lemma GrownLength(r: Raw, q: Raw, c: Prog, P: set<int>)
    requires RawBounds.Grows(r, q, c, P)
    ensures |q.code| >= |r.code|
  {
  }

  /** A patch behind x. */
  lemma LaterPatchKept(x: seq<byte>, b: Raw, at: int)
    requires RawBounds.BytesKept(x, b.code) && at >= |x|
    ensures RawBounds.BytesKept(x, RawPatch(b, at).code)
  {
    hide Hi;
    var y := RawPatch(b, at).code;
    forall m: nat | RawBounds.OutOfReach(x, m) ensures RawBounds.OutOfReach(y, m) && y[m] == x[m] {
      assert RawBounds.OutOfReach(b.code, m) && b.code[m] == x[m];
    }
  }

  function Before(pre: Block): Raw { RawBlock(pre, [], 0, NoLoop, Raw([], 0, [], true)) }

  function BeforeCode(pre: Block): SFrag { BlockCode(pre, [], 0, NoLoop) }

  /** The script with an if-statement between pre and rest. */
  function IfScript(pre: Block, c: Expr, thn: Block, els: Option<Block>, rest: Block): Block {
    Append(pre, Then(If(c, thn, els), rest))
  }

  lemma EndSettled(c: Prog, slots: nat, n: nat)
    requires FragOk(c, slots, n, INSIDE)
    ensures Settled(c) && Settled(c + [Plain(NIL)])
    ensures Assemble(c + [Plain(NIL), Plain(RETURN)]) == Assemble(c) + [NIL, RETURN]
  {
    hide Assemble, FragOk, Settled;
    NothingSettled();
    SettledExpr([], c, slots, n);
    assert [] + c == c;
    SettledThenPlain(c, NIL);
    AssembleAppend(c, Plain(NIL));
    AssembleAppend(c + [Plain(NIL)], Plain(RETURN));
    assert c + [Plain(NIL)] + [Plain(RETURN)] == c + [Plain(NIL), Plain(RETURN)];
  }

  lemma NothingSettled()
    ensures Settled([])
  {
  }

  lemma SettledThenPlain(c: Prog, op: byte)
    requires Settled(c)
    ensures Settled(c + [Plain(op)])
  {
    SettledThen(c, [Plain(op)]);
  }

  /** The bytes of pre alone, when pre was compiled right. */
  lemma BeforeBytes(pre: Block)
    requires RawProgram(pre) == Assemble(ProgramCode(pre).code) && BeforeCode(pre).ok
    ensures Before(pre).code == Assemble(BeforeCode(pre).code)
  {
    hide RawBlock, BlockCode, Assemble, Put;
    var r, f := Before(pre), BeforeCode(pre);
    BlockOk(pre, [], 0, NoLoop);
    EndSettled(f.code, f.max, |f.ks|);
    PutsTwo(r, Plain(NIL), Plain(RETURN));
    EndBytes(r);
    var n := |r.code|;
    assert RawProgram(pre)[..n] == r.code && n == |Assemble(f.code)|;
    assert (Assemble(f.code) + [NIL, RETURN])[..n] == Assemble(f.code);
  }

  lemma EndBytes(r: Raw)
    ensures Put(Put(r, Plain(NIL)), Plain(RETURN)).code == r.code + [NIL, RETURN]
  {
  }

  /** pre runs inside any code that starts with its bytes. */
  lemma BeforeRuns(pre: Block, fuel: nat, env: Env, code: seq<byte>, ks: seq<Value>, l: seq<Value>)
    returns (n: nat, l': seq<Value>)
    requires BeforeCode(pre).ok && BeforeCode(pre).max <= |l| && PoolAt(ks, 0, BeforeCode(pre).ks)
    requires Fits(BeforeCode(pre).code) && Assemble(BeforeCode(pre).code) <= code
    requires ExecBlock(pre, [], fuel) == Normal(env)
    ensures Rel(env, BeforeCode(pre).ls, l') && |l'| == |l|
    ensures Run(code, ks, Start(l), n) == Running(|Assemble(BeforeCode(pre).code)|, l', [])
  {
    hide BlockCode, ExecBlock, IRun, Run, Rel, PoolAt, Assemble, Fits, FragOk;
    var f := BeforeCode(pre);
    BlockOk(pre, [], 0, NoLoop);
    AgreesSelf(f.code, f.code, f.max, |f.ks|);
    NoVariables(l);
    n := BlockRuns(pre, [], 0, NoLoop, [], fuel, f.code, ks, 0, l, [], 0, 0);
    var a := IRun(f.code, ks, Running(0, l, []), n);
    l' := a.l;
    assert code[0..0 + |Assemble(f.code)|] == Assemble(f.code);
    RunEmbedded(code, 0, f.code, ks, Running(0, l, []), n);
  }

  /** The sizes of the script bound those of its parts. */
  lemma ScriptParts(pre: Block, c: Expr, thn: Block, els: Option<Block>, rest: Block)
    requires BeforeCode(pre).ok && Small(ProgramCode(IfScript(pre, c, thn, els, rest)))
    requires var ls := BeforeCode(pre).ls; MatchLessEqual(c, ls).None? && MatchDivisible(c, ls).None?
    ensures var f, p := BeforeCode(pre), ProgramCode(IfScript(pre, c, thn, els, rest));
            var h := ExprCode(c, f.ls, |f.ks|);
            f.max <= p.max && |f.ls| <= 256 && Fits(f.code) && |f.ks| + |h.ks| <= 65536 &&
            Off(SeenCode(c, f.ls, |f.ks|), |SeenCode(c, f.ls, |f.ks|)|) < 65536 &&
            PoolAt(Pool(p.ks), 0, f.ks) && PoolAt(Pool(p.ks), |f.ks|, h.ks)
    ensures var f := BeforeCode(pre);
            RawBlock(IfScript(pre, c, thn, els, rest), [], 0, NoLoop, Raw([], 0, [], true)) ==
            RawBlock(Then(If(c, thn, els), rest), f.ls, |f.ks|, NoLoop, Before(pre))
  {
    hide BlockCode, RawBlock, ExprCode, Off, StmtCode, IfHead, MatchLessEqual, MatchDivisible, FragOk, SeenCode, Fits,
         PoolAt, Pool, WithJump, Append;
    var f := BeforeCode(pre);
    var s := If(c, thn, els);
    AppendCompiled(pre, Then(s, rest), [], 0, Raw([], 0, [], true));
    AlignedThen([], Then(s, rest), f.ls, |f.ks|, NoLoop);
    BlockOk(pre, [], 0, NoLoop);
    BlockLocals(pre, [], 0, NoLoop);
    var d := StmtCode(s, f.ls, |f.ks|, NoLoop);
    var t := IfFront(s, f.ls, |f.ks|);
    SeenShort(c, f.ls, |f.ks|, t);
    var p := ProgramCode(IfScript(pre, c, thn, els, rest));
    var head := WithJump(ExprCode(c, f.ls, |f.ks|).code, JUMP_IF_FALSE_POP, t);
    var g := BlockCode(Then(s, rest), f.ls, |f.ks|, NoLoop);
    PartSizes(f, g, head, ExprCode(c, f.ls, |f.ks|).ks, p);
  }

  lemma PartSizes(f: SFrag, g: SFrag, head: Prog, ks: seq<Constant>, p: SFrag)
    requires f.code + g.code <= p.code && p.ks == f.ks + g.ks && f.max <= p.max && head <= g.code && ks <= g.ks
    requires Small(p) && FragOk(f.code, f.max, |f.ks|, INSIDE)
    ensures Fits(f.code) && |f.ks| + |ks| <= 65536 && Off(head, |head|) < 65536
    ensures PoolAt(Pool(p.ks), 0, f.ks) && PoolAt(Pool(p.ks), |f.ks|, ks)
  {
    hide Off, FragOk, Fits, PoolAt, Pool;
    FrontOff(f.code, head, g.code, p.code);
    FragFits(f.code, f.max, |f.ks|);
    PoolFront(f.ks, ks, g.ks, p.ks);
  }

  /** The code of an if-statement begins with its condition. */
  lemma IfFront(s: Stmt, ls: Locals, k: nat) returns (t: int)
    requires s.If? && MatchLessEqual(s.c, ls).None? && MatchDivisible(s.c, ls).None?
    ensures var f := StmtCode(s, ls, k, NoLoop);
            WithJump(ExprCode(s.c, ls, k).code, JUMP_IF_FALSE_POP, t) <= f.code && ExprCode(s.c, ls, k).ks <= f.ks
  {
    hide ScopeCode, ExprCode, MatchLessEqual, MatchDivisible, WithJump;
    IfCode(s, ls, k, NoLoop);
    var h := IfHead(s.c, ls, k, PENDING);
    var b1 := ScopeCode(s.thn, ls, k + |h.ks|, Shift(NoLoop, |h.code|));
    t := if s.els.None? then |b1.code| else |b1.code| + 1;
  }

  /** The condition that the jump sees is no longer than with its jump. */
  lemma SeenShort(e: Expr, ls: Locals, k: nat, t: int)
    ensures var g := SeenCode(e, ls, k);
            var w := WithJump(ExprCode(e, ls, k).code, JUMP_IF_FALSE_POP, t);
            Off(g, |g|) <= Off(w, |w|)
  {
    hide ExprCode, RawBounds.Stripped, Off, FusedCode;
    RawBounds.StripCode(e, ls, k);
    ConditionShape(e, ls, k);
    RawBounds.JumpLen(SeenCode(e, ls, k), SeenOp(e), t);
    if Fuses(SeenCode(e, ls, k), SeenOp(e)) { OffSteps(SeenCode(e, ls, k), 3); NoOff(SeenCode(e, ls, k)); }
  }

  lemma NoOff(c: Prog)
    ensures Off(c, 0) == 0
  {
  }

  lemma PrefixOff(a: Prog, b: Prog)
    requires a <= b
    ensures Off(a, |a|) <= Off(b, |b|)
  {
    hide Off;
    assert b[..|a|] == a[..|a|];
    OffOfPrefix(b, a, |a|);
    OffMonotone(b, |a|, |b|);
  }

  lemma FrontOff(a: Prog, head: Prog, g: Prog, all: Prog)
    requires head <= g && a + g <= all
    ensures Off(a, |a|) <= Off(all, |all|) && Off(head, |head|) <= Off(all, |all|)
  {
    hide Off;
    PrefixOff(a + g, all);
    PrefixOff(head, g);
    JoinedOff(a, g);
  }

  lemma JoinedOff(a: Prog, g: Prog)
    ensures Off(a, |a|) <= Off(a + g, |a + g|) && Off(g, |g|) <= Off(a + g, |a + g|)
  {
    hide Off;
    PrefixOff(a, a + g);
    OffJoined(a, g, |g|);
  }

  lemma FragFits(c: Prog, slots: nat, n: nat)
    requires FragOk(c, slots, n, INSIDE) && slots <= 256 && n <= 65536 && Off(c, |c|) < 65536
    ensures Fits(c)
  {
    hide Off;
    forall i | 0 <= i < |c| ensures WellFormed(c[i]) && OperandsFit(c[i]) && (HasOperand(c[i]) ==> TargetInside(c, i)) {
      assert InstrOk(c[i], i, |c|, slots, n, INSIDE);
    }
  }

  lemma PoolFront(a: seq<Constant>, b: seq<Constant>, g: seq<Constant>, all: seq<Constant>)
    requires b <= g && all == a + g
    ensures PoolAt(Pool(all), 0, a) && PoolAt(Pool(all), |a|, b)
  {
  }

  /** The bytes up to the cut operand are those of the finished script. */
  lemma ScriptStillCut(pre: Block, c: Expr, thn: Block, els: Option<Block>, rest: Block)
    requires var ls := BeforeCode(pre).ls; MatchLessEqual(c, ls).None? && MatchDivisible(c, ls).None?
    requires var f := BeforeCode(pre);
             Misread(c, f.ls, |f.ks|, Before(pre)) &&
             CutAt(SeenBytes(c, f.ls, |f.ks|, Before(pre)), SeenOp(c)) >= |Before(pre).code| &&
             RawBlock(IfScript(pre, c, thn, els, rest), [], 0, NoLoop, Raw([], 0, [], true)) ==
             RawBlock(Then(If(c, thn, els), rest), f.ls, |f.ks|, NoLoop, Before(pre))
    ensures var f, code := BeforeCode(pre), RawProgram(IfScript(pre, c, thn, els, rest));
            StillCut(c, f.ls, |f.ks|, Before(pre), code) && Before(pre).code <= code
  {
    hide BlockCode, RawBlock, ExprCode, StmtCode, RawCond, RawExpr, RawBounds.BytesKept, CompareJumpBytes, MatchLessEqual,
         MatchDivisible, Put, Puts, LooksLikeLocals, LooksLikeArrayField, Before, SeenBytes, SeenCode, Misread;
    var f, r := BeforeCode(pre), Before(pre);
    var s := If(c, thn, els);
    var x := RawCond(c, f.ls, |f.ks|, r);
    MisreadBytes(c, f.ls, |f.ks|, r);
    IfKept(s, f.ls, |f.ks|, r);
    RawThen(Then(s, rest), f.ls, |f.ks|, NoLoop, r);
    RawIfIs(s, f.ls, |f.ks|, r);
    var d := StmtCode(s, f.ls, |f.ks|, NoLoop);
    var t := RawIf(s, f.ls, |f.ks|, NoLoop, r);
    var P := RawExact.BlockGrows(rest, d.ls, |f.ks| + |d.ks|, NoLoop, t);
    var u := RawBlock(rest, d.ls, |f.ks| + |d.ks|, NoLoop, t);
    KeptThen(x.raw.code, t, u, ScopeCode(rest, d.ls, |f.ks| + |d.ks|, NoLoop).code, P);
    EndGrows(u);
    KeptThen(x.raw.code, u, Puts(u, [Plain(NIL), Plain(RETURN)]), [Plain(NIL), Plain(RETURN)], {});
    KeptFront(x.raw.code, RawProgram(IfScript(pre, c, thn, els, rest)),
              CutAt(SeenBytes(c, f.ls, |f.ks|, r), SeenOp(c)) + 2, r.code);
  }

  lemma RawIfIs(s: Stmt, ls: Locals, k: nat, r: Raw)
    requires s.If?
    ensures RawStmt(s, ls, k, NoLoop, r) == RawIf(s, ls, k, NoLoop, r)
  {
    hide RawIf;
  }

  lemma EndGrows(u: Raw)
    ensures RawBounds.Grows(u, Puts(u, [Plain(NIL), Plain(RETURN)]), [Plain(NIL), Plain(RETURN)], {})
  {
    hide RawBounds.Grows, Puts;
    RawBounds.GrowsPuts(u, [Plain(NIL), Plain(RETURN)]);
  }

  /** The misread jump's bytes: what was there, then the jump, then its hole. */
  lemma MisreadBytes(e: Expr, ls: Locals, k: nat, r: Raw)
    requires Misread(e, ls, k, r) && CutAt(SeenBytes(e, ls, k, r), SeenOp(e)) >= |r.code|
    ensures var j, m := RawCond(e, ls, k, r), CutAt(SeenBytes(e, ls, k, r), SeenOp(e));
            var x := j.raw.code;
            j.at == |x| - 2 && |x| >= m + 5 && x[|x| - 1] == 0 && r.code <= x
  {
    hide RawExpr, ExprCode, CompareJumpBytes, LooksLikeLocals, LooksLikeArrayField, SeenCode, Misread, SeesRight, Assemble;
    MisreadSeen(e, ls, k, r);
    var d, op := SeenBytes(e, ls, k, r), SeenOp(e);
    CutBytes(d, op);
    var x, m := RawCond(e, ls, k, r).raw.code, CutAt(d, op);
    assert x[..m][..|r.code|] == d[..m][..|r.code|] == r.code;
  }

  lemma KeptFront(x: seq<byte>, y: seq<byte>, end: int, front: seq<byte>)
    requires RawBounds.BytesKept(x, y) && 0 <= end && end + 3 <= |x| && x[|x| - 1] == 0 && front <= x && |front| + 2 <= end
    ensures end <= |y| && y[..end] == x[..end] && front <= y
  {
    forall j | 0 <= j < end ensures j < |y| && y[j] == x[j] { assert RawBounds.OutOfReach(x, j); }
    if end > 0 { assert RawBounds.OutOfReach(x, end - 1); }
    assert y[..|front|] == x[..|front|];
  }

  /** A script whose first misread window is an if-condition behind code that was
      compiled right: whatever its branches and the statements after it are, on
      any frame with room for its locals the run comes to the cut instruction with
      the locals that evaluation says, reads the local or constant that the
      jump's opcode names, and fails there if and only if there is none. */
  lemma MisreadScript(pre: Block, c: Expr, thn: Block, els: Option<Block>, rest: Block, fuel: nat, env: Env, l: seq<Value>)
    returns (i: nat, n: nat, l': seq<Value>, stk: seq<Value>)
    requires BeforeCode(pre).ok && RawProgram(pre) == Assemble(ProgramCode(pre).code)
    requires Small(ProgramCode(IfScript(pre, c, thn, els, rest)))
    requires var ls := BeforeCode(pre).ls; MatchLessEqual(c, ls).None? && MatchDivisible(c, ls).None?
    requires var f := BeforeCode(pre);
             Misread(c, f.ls, |f.ks|, Before(pre)) &&
             CutAt(SeenBytes(c, f.ls, |f.ks|, Before(pre)), SeenOp(c)) >= |Before(pre).code|
    requires ExecBlock(pre, [], fuel) == Normal(env) && Eval(c, env).Some?
    requires ProgramCode(IfScript(pre, c, thn, els, rest)).max <= |l|
    ensures var f := BeforeCode(pre); CutHere(c, f.ls, |f.ks|, Before(pre), i)
    ensures var f, b := BeforeCode(pre), IfScript(pre, c, thn, els, rest);
            var code, ks := RawProgram(b), Pool(ProgramCode(b).ks);
            Rel(env, f.ls, l') && |l'| == |l| &&
            Run(code, ks, Start(l), n) ==
            Running(|Before(pre).code| + Off(SeenCode(c, f.ls, |f.ks|), i), l', stk) &&
            (Run(code, ks, Start(l), n + 1) == Fault <==> !Reads(CutInstr(c, f.ls, |f.ks|, Before(pre), i), ks, l))
  {
    hide BlockCode, RawBlock, ExprCode, Off, Run, Step, IfScript, ProgramCode, RawProgram, Assemble, Rel, PoolAt, Fits, Eval,
         ExecBlock, MatchLessEqual, MatchDivisible, StillCut, Misread, CutHere, CutInstr, Before, BeforeCode, Small;
    var f, r, b := BeforeCode(pre), Before(pre), IfScript(pre, c, thn, els, rest);
    var code, ks := RawProgram(b), Pool(ProgramCode(b).ks);
    ScriptParts(pre, c, thn, els, rest);
    i := CutPlace(c, f.ls, |f.ks|, r);
    ScriptStillCut(pre, c, thn, els, rest);
    BeforeBytes(pre);
    var n1;
    n1, l' := BeforeRuns(pre, fuel, env, code, ks, l);
    CutFits(c, f.ls, |f.ks|, r, i, env);
    stk := MisreadRuns(c, f.ls, |f.ks|, r, i, env, ks, l', [], code);
    SameRoom(CutInstr(c, f.ls, |f.ks|, r, i), ks, l, l');
    n := n1 + i;
    TwoRuns(code, ks, Start(l), n1, Running(|r.code|, l', []), i,
            Running(|r.code| + Off(SeenCode(c, f.ls, |f.ks|), i), l', stk));
  }

  lemma TwoRuns(code: seq<byte>, ks: seq<Value>, a: Status, m: nat, b: Status, n: nat, c: Status)
    requires Run(code, ks, a, m) == b && Run(code, ks, b, n) == c
    ensures Run(code, ks, a, m + n) == c && Run(code, ks, a, m + n + 1) == Step(code, ks, c)
  {
    hide Step, Run;
    RunAdds(code, ks, a, m, n);
    RunAdds(code, ks, a, m + n, 1);
    RunOne(code, ks, c);
  }

  lemma CutFits(e: Expr, ls: Locals, k: nat, r: Raw, i: nat, env: Env)
    requires Misread(e, ls, k, r) && CutHere(e, ls, k, r, i) && Eval(e, env).Some?
    requires |ls| <= 256 && k + |ExprCode(e, ls, k).ks| <= 65536
    requires Off(SeenCode(e, ls, k), |SeenCode(e, ls, k)|) < 65536
    ensures i < |SeenCode(e, ls, k)| && Fits(SeenCode(e, ls, k)[..i])
  {
    hide ExprCode, Off, Fits, Eval, Misread, RawBounds.Stripped, SeenBytes;
    MisreadSeen(e, ls, k, r);
    StrippedValue(e, ls, k, env);
    SeenFits(e, ls, k, i);
  }

  lemma RunOne(code: seq<byte>, ks: seq<Value>, st: Status)
    ensures Run(code, ks, st, 1) == Step(code, ks, st)
  {
    hide Step;
    assert Run(code, ks, Step(code, ks, st), 0) == Step(code, ks, st);
  }

  lemma SameRoom(ins: Instr, ks: seq<Value>, l: seq<Value>, l': seq<Value>)
    requires |l| == |l'|
    ensures Reads(ins, ks, l) == Reads(ins, ks, l')
  {
  }
}
