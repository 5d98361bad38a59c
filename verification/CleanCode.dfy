/** Programs on which no window misfires: no operand of the code has a byte that
    reads as GET_LOCAL or as GET_LOCAL_ARRAY_FIELD. */
module CleanCode {
  import opened Options
  import opened Machine
  import opened Assembly
  import opened Source
  import opened CodeGen
  import opened ExprCorrect
  import opened Layout
  import opened Peephole
  import opened Emission
  import opened Conditions
  import opened Alignment
  import opened CompilerState
  import opened LoopState
  import opened StmtParts
  import opened StmtCorrect
  import opened RawBounds

  predicate CleanByte(b: byte) { b != GET_LOCAL && b != GET_LOCAL_ARRAY_FIELD }

  /** The operand bytes of instruction i, the distance of a forward jump apart. */
  ghost predicate CleanAt(p: Prog, i: nat)
    requires i < |p|
  {
    WellFormed(p[i]) &&
    var bs := Encode(if IsBackward(p[i]) then Resolve(p, i) else WithOperand(p[i], 0));
    forall n :: 1 <= n < |bs| ==> CleanByte(bs[n])
  }

  ghost predicate Clean(p: Prog) {
    forall i :: 0 <= i < |p| ==> CleanAt(p, i)
  }

  // ---------------------------------------------------------------- windows

  /** The instruction that byte m belongs to. */
  lemma {:induction false} Locate(p: Prog, n: nat, m: nat) returns (i: nat)
    requires n <= |p| && m < Off(p, n)
    ensures i < n && Off(p, i) <= m < Off(p, i + 1)
  {
    if m >= Off(p, n - 1) { i := n - 1; } else { i := Locate(p, n - 1, m); }
  }

  lemma ByteOf(p: Prog, i: nat, m: nat)
    requires i < |p| && Off(p, i) <= m < Off(p, i + 1)
    ensures m < |Assemble(p)| && Assemble(p)[m] == Encode(Resolve(p, i))[m - Off(p, i)]
  {
    hide Assemble, Encode, Resolve;
    BytesAt(p, i);
    assert Assemble(p)[Off(p, i)..Off(p, i + 1)][m - Off(p, i)] == Assemble(p)[m];
  }

  lemma SmallBytes(v: int)
    requires 0 <= v < 7
    ensures CleanByte(Hi(v)) && CleanByte(Lo(v))
  {
  }

  /** Only the last two bytes of a jump depend on its distance. */
  lemma OperandBytes(ins: Instr, t: int, n: nat)
    requires 1 <= n < Size(ins) && !IsBackward(ins)
    ensures var a, b := Encode(WithOperand(ins, t)), Encode(WithOperand(ins, 0));
            a[n] == b[n] || (HasOperand(ins) && (a[n] == Hi(t) || a[n] == Lo(t)))
  {
    hide Hi, Lo, Low8;
  }

  lemma CleanOperand(p: Prog, i: nat, n: nat)
    requires i < |p| && CleanAt(p, i) && 1 <= n < Size(p[i])
    ensures CleanByte(Encode(if IsBackward(p[i]) then Resolve(p, i) else WithOperand(p[i], 0))[n])
  {
  }

  /** An operand byte among the last seven is clean: a forward jump there cannot
      be long. */
  lemma OperandClean(p: Prog, i: nat, m: nat)
    requires Clean(p) && i < |p| && Off(p, i) < m < Off(p, i + 1) && m + 7 >= |Assemble(p)|
    ensures m < |Assemble(p)| && CleanByte(Assemble(p)[m])
  {
    hide Assemble, Encode, CleanByte, Hi, Lo, CleanAt;
    ByteOf(p, i, m);
    var n := m - Off(p, i);
    assert CleanAt(p, i);
    CleanOperand(p, i, n);
    if !IsBackward(p[i]) && HasOperand(p[i]) && Resolve(p, i) != WithOperand(p[i], 0) {
      var d := Distance(p, i);
      OffMonotone(p, Target(p, i), |p|);
      OffMonotone(p, i + 1, Target(p, i));
      SmallBytes(d);
      OperandBytes(p[i], d, n);
      assert Resolve(p, i) == WithOperand(p[i], d);
    } else if !IsBackward(p[i]) {
      SameOperandless(p[i]);
    }
  }

  lemma SameOperandless(ins: Instr)
    ensures !HasOperand(ins) ==> WithOperand(ins, 0) == ins
  {
  }

  /** Bytes among the last seven that read as the opcode of a local read are. */
  lemma ReadAt(p: Prog, m: nat) returns (i: nat)
    requires Clean(p) && m < |Assemble(p)| <= m + 7 && !CleanByte(Assemble(p)[m])
    ensures i < |p| && Off(p, i) == m && IsGetLocal(p[i]) && Assemble(p)[m] == GET_LOCAL
  {
    hide Assemble, Encode, Resolve;
    i := Locate(p, |p|, m);
    if Off(p, i) < m { OperandClean(p, i, m); }
    ByteOf(p, i, m);
    OpcodeKept(p, i);
    assert CleanAt(p, i);
    OnlyReads(p[i]);
  }

  lemma OnlyReads(ins: Instr)
    requires WellFormed(ins)
    ensures Opcode(ins) != GET_LOCAL_ARRAY_FIELD && (Opcode(ins) == GET_LOCAL ==> IsGetLocal(ins))
  {
  }

  lemma OnlyCompares(ins: Instr)
    requires WellFormed(ins) && IsCompareByte(Opcode(ins))
    ensures IsFusibleCompare(ins)
  {
  }

  lemma CleanWindow(p: Prog, op: byte)
    requires Clean(p)
    ensures !LooksLikeArrayField(Assemble(p), op) && (LooksLikeLocals(Assemble(p), op) ==> Fuses(p, op))
  {
    hide Assemble, Encode, Resolve, Clean;
    var d := Assemble(p);
    var n := |d|;
    if LooksLikeArrayField(d, op) {
      var i := ReadAt(p, n - 7);
    }
    if LooksLikeLocals(d, op) {
      var i := ReadAt(p, n - 5);
      var j := ReadAt(p, n - 3);
      TwoReads(p, i, j);
    }
  }

  lemma TwoReads(p: Prog, i: nat, j: nat)
    requires i < |p| && j < |p| && IsGetLocal(p[i]) && IsGetLocal(p[j]) && Clean(p)
    requires var n := |Assemble(p)|; Off(p, i) == n - 5 && Off(p, j) == n - 3 && IsCompareByte(Assemble(p)[n - 1])
    ensures |p| >= 3 && j == |p| - 2 && i == |p| - 3 && IsFusibleCompare(p[|p| - 1])
  {
    hide Assemble, Encode, Resolve;
    var n := |p|;
    assert Off(p, j + 1) == Off(p, j) + 2 && Off(p, i + 1) == Off(p, i) + 2;
    if i + 1 < j { OffMonotone(p, i + 1, j); }
    if j < i { OffMonotone(p, j, i); }
    assert i + 1 == j;
    OffMonotone(p, j + 1, n);
    assert j + 1 < n;
    assert Off(p, j + 2) == Off(p, j + 1) + Size(p[j + 1]);
    OffMonotone(p, j + 2, n);
    assert j + 2 == n;
    ByteOf(p, j + 1, Off(p, j + 1));
    OpcodeKept(p, j + 1);
    assert CleanAt(p, j + 1);
    OnlyCompares(p[j + 1]);
  }

  // --------------------------------------------------- programs still waiting

  /** The same instruction up to the distance of a forward jump. */
  predicate Alike(a: Instr, b: Instr) {
    a == b || (HasOperand(a) && !IsBackward(a) && !IsBackward(b) && WithOperand(a, Operand(b)) == b)
  }

  /** q stands at the start of p, its jumps perhaps still waiting. */
  ghost predicate Like(q: Prog, p: Prog) {
    |q| <= |p| && forall i :: 0 <= i < |q| ==> Alike(q[i], p[i])
  }

  lemma LikeSelf(p: Prog, q: Prog)
    ensures Like(p, p + q)
  {
  }

  lemma LikeThen(a: Prog, b: Prog, c: Prog)
    requires Like(a, b) && Like(b, c)
    ensures Like(a, c)
  {
    forall i | 0 <= i < |a| ensures Alike(a[i], c[i]) { AlikeThen(a[i], b[i], c[i]); }
  }

  lemma AlikeThen(a: Instr, b: Instr, c: Instr)
    requires Alike(a, b) && Alike(b, c)
    ensures Alike(a, c)
  {
  }

  lemma LikeJoined(a: Prog, b: Prog, c: Prog, d: Prog)
    requires Like(a, b) && |a| == |b| && Like(c, d)
    ensures Like(a + c, b + d)
  {
    hide Alike;
  }

  lemma LikeBehind(p: Prog, c: Prog, d: Prog)
    requires Like(c, d)
    ensures Like(p + c, p + d)
  {
    hide Alike;
    assert forall i :: 0 <= i < |p| ==> Alike(p[i], p[i]) by { LikeSelf(p, []); assert p + [] == p; }
  }

  lemma AlikeSize(a: Instr, b: Instr)
    requires Alike(a, b)
    ensures Size(a) == Size(b) && IsBackward(a) == IsBackward(b) && (WellFormed(b) ==> WellFormed(a)) &&
            (!IsBackward(a) ==> WithOperand(a, 0) == WithOperand(b, 0)) && (IsBackward(a) ==> a == b)
  {
  }

  lemma {:induction false} LikeOff(q: Prog, p: Prog, i: nat)
    requires Like(q, p) && i <= |q|
    ensures Off(q, i) == Off(p, i)
  {
    hide Alike;
    if i > 0 {
      LikeOff(q, p, i - 1);
      AlikeSize(q[i - 1], p[i - 1]);
    }
  }

  lemma LikeClean(q: Prog, p: Prog)
    requires Like(q, p) && Clean(p)
    ensures Clean(q)
  {
    hide Alike, Encode;
    forall i | 0 <= i < |q| ensures CleanAt(q, i) {
      assert CleanAt(p, i);
      AlikeSize(q[i], p[i]);
      if IsBackward(q[i]) { LikeBackward(q, p, i); }
      CleanSame(q, p, i);
    }
  }

  lemma CleanSame(q: Prog, p: Prog, i: nat)
    requires i < |q| && i < |p| && CleanAt(p, i) && WellFormed(q[i]) && IsBackward(q[i]) == IsBackward(p[i])
    requires if IsBackward(p[i]) then Resolve(q, i) == Resolve(p, i) else WithOperand(q[i], 0) == WithOperand(p[i], 0)
    ensures CleanAt(q, i)
  {
    hide CleanByte;
    var a := if IsBackward(q[i]) then Resolve(q, i) else WithOperand(q[i], 0);
    var b := if IsBackward(p[i]) then Resolve(p, i) else WithOperand(p[i], 0);
    var bs := Encode(a);
    forall n | 1 <= n < |bs| ensures CleanByte(bs[n]) { CleanOperand(p, i, n); }
  }

  lemma LikeBackward(q: Prog, p: Prog, i: nat)
    requires Like(q, p) && i < |q| && IsBackward(q[i])
    ensures Resolve(q, i) == Resolve(p, i)
  {
    LikeOff(q, p, i + 1);
    if 0 <= Target(q, i) <= i + 1 { LikeOff(q, p, Target(q, i)); }
  }

  // -------------------------------------------------------------- expressions

  lemma JumpLike(c: Prog, op: byte, t: int, u: int)
    requires op != LOOP
    ensures Like(WithJump(c, op, t), WithJump(c, op, u)) && |WithJump(c, op, t)| == |WithJump(c, op, u)|
  {
  }

  /** A condition whose jump is part of clean code sees its own window. */
  lemma WindowClean(p: Prog, e: Expr, ls: Locals, k: nat, t: int, all: Prog)
    requires Clean(all) && Like(p + WithJump(ExprCode(e, ls, k).code, JUMP_IF_FALSE_POP, t), all)
    ensures Aligned(p + ExprCode(e, ls, k).code, JUMP_IF_FALSE_POP)
  {
    hide ExprCode, Clean, Like, Fuses, FusedCode, LooksLikeLocals, LooksLikeArrayField, Assemble;
    var c := ExprCode(e, ls, k).code;
    var f := FoldNot(c, JUMP_IF_FALSE_POP);
    CompareHasOperands(e, ls, k);
    ConditionShape(e, ls, k);
    JumpSplits(p, c, PENDING);
    LikeClean(p + WithJump(c, JUMP_IF_FALSE_POP, t), all);
    if Fuses(f.0, f.1) { FusedClean(p, f.0, f.1, t); } else { PlainClean(p, f.0, f.1, t); }
    CleanWindow(p + f.0, f.1);
  }

  lemma PlainClean(p: Prog, g: Prog, op: byte, t: int)
    requires Clean(p + (g + [Jump(op, t)]))
    ensures Clean(p + g)
  {
    hide Clean;
    assert p + (g + [Jump(op, t)]) == p + g + [Jump(op, t)];
    LikeSelf(p + g, [Jump(op, t)]);
    LikeClean(p + g, p + g + [Jump(op, t)]);
  }

  lemma FusedClean(p: Prog, g: Prog, op: byte, t: int)
    requires Fuses(g, op) && |g| == 3 && Clean(p + FusedCode(g, op, t))
    ensures Clean(p + g)
  {
    hide Clean, CleanByte, FusedOp, Low8;
    var j := FusedCode(g, op, t)[0];
    var q := p + FusedCode(g, op, t);
    LikeSelf(p, FusedCode(g, op, t));
    LikeClean(p, q);
    assert CleanAt(q, |p|) by { CleanEach(q, |p|); }
    assert q[|p|] == j;
    SlotsClean(q, |p|);
    forall i | 0 <= i < |p + g| ensures CleanAt(p + g, i) {
      if i < |p| {
        CleanEach(p, i);
        LikeSelf(p, g);
        if IsBackward(p[i]) { LikeBackward(p, p + g, i); }
      }
    }
    CleanAll(p + g);
  }

  lemma CleanEach(p: Prog, i: nat)
    requires Clean(p) && i < |p|
    ensures CleanAt(p, i)
  {
  }

  lemma CleanAll(p: Prog)
    requires forall i :: 0 <= i < |p| ==> CleanAt(p, i)
    ensures Clean(p)
  {
  }

  lemma SlotsClean(q: Prog, i: nat)
    requires i < |q| && CleanAt(q, i) && q[i].CmpJump?
    ensures CleanByte(Low8(q[i].a)) && CleanByte(Low8(q[i].b))
  {
    hide CleanByte, Low8, Hi, Lo;
    var bs := Encode(WithOperand(q[i], 0));
    CleanOperand(q, i, 1);
    CleanOperand(q, i, 2);
    assert bs[1] == Low8(q[i].a) && bs[2] == Low8(q[i].b);
  }

  lemma {:induction false} UnwrapAligned(p: Prog, e: Expr, ls: Locals, k: nat)
    ensures ExprAligned(p, e, ls, k) == ExprAligned(p, Unwrap(e), ls, k)
  {
    if e.Group? { UnwrapAligned(p, e.e, ls, k); }
  }

  lemma StripAligned(p: Prog, e: Expr, ls: Locals, k: nat)
    ensures ExprAligned(p, e, ls, k) == ExprAligned(p, Stripped(e), ls, k)
  {
    hide ExprAligned, Unwrap;
    var u := Unwrap(e);
    UnwrapAligned(p, e, ls, k);
    if u.Not? { NotAligned(p, u, ls, k); }
    else if Negated(e) { AlignedParts(p, u, ls, k); AlignedParts(p, Stripped(e), ls, k); }
  }

  lemma NotAligned(p: Prog, e: Expr, ls: Locals, k: nat)
    requires e.Not?
    ensures ExprAligned(p, e, ls, k) == ExprAligned(p, e.e, ls, k)
  {
  }

  lemma VarAligned(p: Prog, e: Expr, ls: Locals, k: nat)
    requires Unwrap(e).Var?
    ensures ExprAligned(p, e, ls, k)
  {
    UnwrapAligned(p, e, ls, k);
  }

  /** A comparison of two locals holds no condition. */
  lemma FusedAligned(p: Prog, e: Expr, ls: Locals, k: nat, op: byte)
    requires Fuses(ExprCode(Stripped(e), ls, k).code, op)
    ensures ExprAligned(p, e, ls, k)
  {
    hide ExprAligned, Unwrap, ExprCode, Stripped;
    var e1 := Stripped(e);
    StripAligned(p, e, ls, k);
    UnwrapAligned(p, e1, ls, k);
    UnwrapSame(e1, ls, k, []);
    LastInstrOf(e1, ls, k);
    var u := Unwrap(e1);
    var fl := ExprCode(u.l, ls, k);
    TwoLocals(u, ls, k, op);
    AlignedParts(p, u, ls, k);
    VarAligned(p, u.l, ls, k);
    VarAligned(p + fl.code, u.r, ls, k + |fl.ks|);
  }

  /** The code of e without a final NOT stands at the end of p. */
  ghost predicate Stands(p: Prog, e: Expr, ls: Locals, k: nat, all: Prog) {
    Like(p + ExprCode(Stripped(e), ls, k).code, all)
  }

  /** Whatever follows the code, and whether or not a final NOT does. */
  lemma StandsIn(p: Prog, e: Expr, ls: Locals, k: nat, d: Prog, all: Prog)
    requires Like(p + ExprCode(e, ls, k).code + d, all)
    ensures Stands(p, e, ls, k, all)
  {
    hide ExprCode, Like, Stripped;
    var c, g := ExprCode(e, ls, k).code, ExprCode(Stripped(e), ls, k).code;
    StripCode(e, ls, k);
    var rest := (if Negated(e) then [Plain(NOT)] else []) + d;
    assert p + c + d == p + g + rest;
    LikeSelf(p + g, rest);
    LikeThen(p + g, p + c + d, all);
  }

  lemma {:induction false} ExprClean(p: Prog, e: Expr, ls: Locals, k: nat, all: Prog)
    requires Clean(all) && Stands(p, e, ls, k, all)
    ensures ExprAligned(p, e, ls, k)
    decreases e, 1
  {
    hide Clean, Stands, ExprCode, ConditionAligned;
    match e
    case Group(e1) =>
      GroupStands(p, e, ls, k, all);
      ExprClean(p, e1, ls, k, all);
    case Not(e1) =>
      NotStands(p, e, ls, k, all);
      ExprClean(p, e1, ls, k, all);
    case Neg(e1) =>
      if !IsFolded(e) {
        NegStands(p, e, ls, k, all);
        ExprClean(p, e1, ls, k, all);
      }
    case Bin(_, _, _) => BinClean(p, e, ls, k, all);
    case _ =>
  }

  lemma GroupStands(p: Prog, e: Expr, ls: Locals, k: nat, all: Prog)
    requires e.Group? && Stands(p, e, ls, k, all)
    ensures Stands(p, e.e, ls, k, all)
  {
    hide ExprCode, Like;
  }

  lemma NotStands(p: Prog, e: Expr, ls: Locals, k: nat, all: Prog)
    requires e.Not? && Stands(p, e, ls, k, all)
    ensures Stands(p, e.e, ls, k, all)
  {
    hide ExprCode, Like;
    assert p + ExprCode(e.e, ls, k).code + [] == p + ExprCode(e.e, ls, k).code;
    StandsIn(p, e.e, ls, k, [], all);
  }

  lemma NegStands(p: Prog, e: Expr, ls: Locals, k: nat, all: Prog)
    requires e.Neg? && !IsFolded(e) && Stands(p, e, ls, k, all)
    ensures Stands(p, e.e, ls, k, all)
  {
    hide Like;
    var c := ExprCode(e.e, ls, k).code;
    assert p + ExprCode(e, ls, k).code == p + c + [Plain(NEGATE)];
    StandsIn(p, e.e, ls, k, [Plain(NEGATE)], all);
  }

  /** Dropping a final NOT keeps the operands, and && and ||. */
  lemma StrippedOperands(e: Expr) returns (s: Expr)
    requires e.Bin?
    ensures s == Stripped(e) && s.Bin? && s.l == e.l && s.r == e.r
    ensures (s.op == And <==> e.op == And) && (s.op == Or <==> e.op == Or)
  {
    s := Stripped(e);
  }

  /** What e leaves at the end of p, for each kind of operator. */
  lemma BinStands(p: Prog, e: Expr, ls: Locals, k: nat, all: Prog)
    requires e.Bin? && Stands(p, e, ls, k, all)
    ensures var fl := ExprCode(e.l, ls, k);
            var fr := ExprCode(e.r, ls, k + |fl.ks|);
            if e.op == And then Like(p + AndCode(fl.code, fr.code), all)
            else if e.op == Or then Like(p + OrCode(fl.code, fr.code), all)
            else Like(p + (fl.code + fr.code), all)
  {
    hide ExprCode, Like, BinCode, TypeOf, AndCode, OrCode, Numeric;
    var s := StrippedOperands(e);
    BinParts(s, ls, k);
    var fl := ExprCode(e.l, ls, k);
    var fr := ExprCode(e.r, ls, k + |fl.ks|);
    if e.op != And && e.op != Or {
      var d := p + (fl.code + fr.code);
      var rest := BinCode(s.op, Numeric(TypeOf(e.l, ls)) && Numeric(TypeOf(e.r, ls)));
      assert p + ExprCode(s, ls, k).code == d + rest;
      LikeSelf(d, rest);
      LikeThen(d, d + rest, all);
    }
  }

  lemma {:induction false} BinClean(p: Prog, e: Expr, ls: Locals, k: nat, all: Prog)
    requires e.Bin? && Clean(all) && Stands(p, e, ls, k, all)
    ensures ExprAligned(p, e, ls, k)
    decreases e, 0
  {
    hide Clean, Stands, ExprCode, ConditionAligned, ExprAligned, Like, WithJump;
    var fl := ExprCode(e.l, ls, k);
    var k1 := k + |fl.ks|;
    var cr := ExprCode(e.r, ls, k1).code;
    AlignedParts(p, e, ls, k);
    BinStands(p, e, ls, k, all);
    if e.op == And {
      AndLike(p, fl.code, cr, all);
      CondClean(p, e.l, ls, k, PENDING, all);
      CondClean(p + WithJump(fl.code, JUMP_IF_FALSE_POP, PENDING), e.r, ls, k1, PENDING, all);
    } else if e.op == Or {
      OrLike(p, fl.code, cr, all);
      CondClean(p, e.l, ls, k, PENDING, all);
      CondClean(p + WithJump(fl.code, JUMP_IF_FALSE_POP, 2) + [Plain(TRUE), Jump(JUMP, PENDING)], e.r, ls, k1, PENDING, all);
    } else {
      assert p + (fl.code + cr) == p + fl.code + cr;
      StandsIn(p, e.l, ls, k, cr, all);
      ExprClean(p, e.l, ls, k, all);
      assert p + fl.code + cr + [] == p + fl.code + cr;
      StandsIn(p + fl.code, e.r, ls, k1, [], all);
      ExprClean(p + fl.code, e.r, ls, k1, all);
    }
  }

  lemma AndLike(p: Prog, l: Prog, r: Prog, all: Prog)
    requires Like(p + AndCode(l, r), all)
    ensures Like(p + WithJump(l, JUMP_IF_FALSE_POP, PENDING), all)
    ensures Like(p + WithJump(l, JUMP_IF_FALSE_POP, PENDING) + WithJump(r, JUMP_IF_FALSE_POP, PENDING), all)
  {
    hide WithJump, Alike;
    var rj := WithJump(r, JUMP_IF_FALSE_POP, 2);
    var lj := WithJump(l, JUMP_IF_FALSE_POP, |rj| + 2);
    var a, b := WithJump(l, JUMP_IF_FALSE_POP, PENDING), WithJump(r, JUMP_IF_FALSE_POP, PENDING);
    JumpLike(l, JUMP_IF_FALSE_POP, PENDING, |rj| + 2);
    JumpLike(r, JUMP_IF_FALSE_POP, PENDING, 2);
    PrefixLike(p, a + b, lj + rj, [Plain(TRUE), Jump(JUMP, 1), Plain(FALSE)], all);
    assert p + a + b == p + (a + b);
    LikeSelf(p + a, b);
    LikeThen(p + a, p + a + b, all);
  }

  /** c, which is like d, in the place of d. */
  lemma PrefixLike(p: Prog, c: Prog, d: Prog, rest: Prog, all: Prog)
    requires Like(c, d) && |c| == |d| && Like(p + (d + rest), all)
    ensures Like(p + c, all)
  {
    hide Alike;
    LikeBehind(p, c, d);
    assert p + (d + rest) == p + d + rest;
    LikeSelf(p + d, rest);
    LikeThen(p + c, p + d, p + d + rest);
    LikeThen(p + c, p + d + rest, all);
  }

  lemma OrLike(p: Prog, l: Prog, r: Prog, all: Prog)
    requires Like(p + OrCode(l, r), all)
    ensures Like(p + WithJump(l, JUMP_IF_FALSE_POP, PENDING), all)
    ensures Like(p + WithJump(l, JUMP_IF_FALSE_POP, 2) + [Plain(TRUE), Jump(JUMP, PENDING)] +
                 WithJump(r, JUMP_IF_FALSE_POP, PENDING), all)
  {
    hide WithJump, Alike;
    var rj := WithJump(r, JUMP_IF_FALSE_POP, 2);
    var lj := WithJump(l, JUMP_IF_FALSE_POP, 2);
    var a, b := WithJump(l, JUMP_IF_FALSE_POP, PENDING), WithJump(r, JUMP_IF_FALSE_POP, PENDING);
    var yes, yes' := [Plain(TRUE), Jump(JUMP, |rj| + 3)], [Plain(TRUE), Jump(JUMP, PENDING)];
    var end := [Plain(TRUE), Jump(JUMP, 1), Plain(FALSE)];
    JumpLike(l, JUMP_IF_FALSE_POP, PENDING, 2);
    JumpLike(r, JUMP_IF_FALSE_POP, PENDING, 2);
    assert p + OrCode(l, r) == p + (lj + (yes + rj + end));
    PrefixLike(p, a, lj, yes + rj + end, all);
    YesLike(|rj| + 3);
    LikeSelf(lj, []);
    assert lj + [] == lj;
    LikeJoined(lj, lj, yes', yes);
    LikeJoined(lj + yes', lj + yes, b, rj);
    assert p + OrCode(l, r) == p + (lj + yes + rj + end);
    PrefixLike(p, lj + yes' + b, lj + yes + rj, end, all);
    assert p + (lj + yes' + b) == p + lj + yes' + b;
  }

  lemma YesLike(t: int)
    ensures Like([Plain(TRUE), Jump(JUMP, PENDING)], [Plain(TRUE), Jump(JUMP, t)])
  {
  }

  lemma {:induction false} CondClean(p: Prog, e: Expr, ls: Locals, k: nat, t: int, all: Prog)
    requires Clean(all) && Like(p + WithJump(ExprCode(e, ls, k).code, JUMP_IF_FALSE_POP, t), all)
    ensures ConditionAligned(p, e, ls, k)
    decreases e, 2
  {
    hide Clean, Stands, ExprCode, ExprAligned, Like, Fuses, Aligned;
    WindowClean(p, e, ls, k, t, all);
    StripCode(e, ls, k);
    var c, g := ExprCode(e, ls, k).code, ExprCode(Stripped(e), ls, k).code;
    var op := FoldNot(c, JUMP_IF_FALSE_POP).1;
    if Fuses(g, op) {
      FusedAligned(p, e, ls, k, op);
    } else {
      assert p + WithJump(c, JUMP_IF_FALSE_POP, t) == p + g + [Jump(op, t)];
      LikeSelf(p + g, [Jump(op, t)]);
      LikeThen(p + g, p + g + [Jump(op, t)], all);
      StandsHere(p, e, ls, k, all);
      ExprClean(p, e, ls, k, all);
    }
  }

  lemma StandsHere(p: Prog, e: Expr, ls: Locals, k: nat, all: Prog)
    requires Like(p + ExprCode(Stripped(e), ls, k).code, all)
    ensures Stands(p, e, ls, k, all)
  {
  }
}
