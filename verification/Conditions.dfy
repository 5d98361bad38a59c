/** A condition compiled behind other code: its jump rewrites touch only its
    own code, and patching the jump later gives the jump it should have been. */
module Conditions {
  import opened Options
  import opened Machine
  import opened Assembly
  import opened Source
  import opened CodeGen
  import opened ExprCorrect
  import opened Layout
  import opened Peephole
  import opened Emission

  /** The condition's code once a final NOT is folded into the jump. */
  function Folded(c: Prog): Prog { FoldNot(c, JUMP_IF_FALSE_POP).0 }

  /** A comparison instruction follows the code of both operands. */
  lemma CompareHasOperands(e: Expr, ls: Locals, k: nat)
    ensures OperandsBefore(ExprCode(e, ls, k).code)
  {
    hide ExprCode, Unwrap, NotFree, OperandsBefore;
    var c := ExprCode(e, ls, k).code;
    LastInstrOf(e, ls, k);
    UnwrapSame(e, ls, k, []);
    var u := Unwrap(e);
    if !FoldsNot(c, JUMP_IF_FALSE_POP) {
      PlainCompare(e, ls, k);
    } else if u.Not? {
      NotCode(u, ls, k);
      PlainCompare(u.e, ls, k);
      AfterNot(ExprCode(u.e, ls, k).code);
    } else {
      NegatedCompareCode(u, ls, k);
      LastInstrOf(u.l, ls, k);
      LastInstrOf(u.r, ls, k + |ExprCode(u.l, ls, k).ks|);
      LongEnough(c);
    }
  }

  /** What CompareHasOperands says of code. */
  predicate OperandsBefore(c: Prog) {
    var d := Folded(c);
    |c| > 0 && |d| > 0 && (IsFusibleCompare(d[|d| - 1]) ==> |d| >= 3)
  }

  predicate NotFree(c: Prog) { |c| > 0 && (IsFusibleCompare(c[|c| - 1]) ==> |c| >= 3) }

  lemma PlainCompare(e: Expr, ls: Locals, k: nat)
    ensures var c := ExprCode(e, ls, k).code;
            NotFree(c) && (!FoldsNot(c, JUMP_IF_FALSE_POP) ==> OperandsBefore(c))
  {
    hide ExprCode, Unwrap;
    var c := ExprCode(e, ls, k).code;
    LastInstrOf(e, ls, k);
    UnwrapSame(e, ls, k, []);
    if IsFusibleCompare(c[|c| - 1]) { CompareLength(Unwrap(e), ls, k); }
  }

  lemma AfterNot(c: Prog)
    requires NotFree(c)
    ensures OperandsBefore(c + [Plain(NOT)])
  {
    assert Folded(c + [Plain(NOT)]) == c;
  }

  lemma LongEnough(c: Prog)
    requires |c| >= 4
    ensures OperandsBefore(c)
  {
  }

  lemma CompareLength(e: Expr, ls: Locals, k: nat)
    requires e.Bin? && (e.op == Lt || e.op == Gt)
    ensures |ExprCode(e, ls, k).code| >= 3
  {
    hide ExprCode;
    var z := CompareCode(e, ls, k);
    LastInstrOf(e.l, ls, k);
    LastInstrOf(e.r, ls, k + |ExprCode(e.l, ls, k).ks|);
  }

  /** The rewrites of a jump behind p + c look at c alone. */
  lemma JumpSplits(p: Prog, c: Prog, t: int)
    requires OperandsBefore(c)
    ensures FoldsNot(p + c, JUMP_IF_FALSE_POP) == FoldsNot(c, JUMP_IF_FALSE_POP)
    ensures FoldNot(p + c, JUMP_IF_FALSE_POP) == (p + Folded(c), FoldNot(c, JUMP_IF_FALSE_POP).1)
    ensures var f := FoldNot(c, JUMP_IF_FALSE_POP);
            Fuses(p + f.0, f.1) == Fuses(f.0, f.1) &&
            (Fuses(f.0, f.1) ==> (p + f.0)[..|p| + |f.0| - 3] == p + f.0[..|f.0| - 3])
    ensures WithJump(p + c, JUMP_IF_FALSE_POP, t) == p + WithJump(c, JUMP_IF_FALSE_POP, t)
  {
    var q := p + c;
    var f := FoldNot(c, JUMP_IF_FALSE_POP);
    assert q[|q| - 1] == c[|c| - 1];
    assert q[..|q| - 1] == p + c[..|c| - 1];
    var d := f.0;
    assert FoldNot(q, JUMP_IF_FALSE_POP) == (p + d, f.1);
    assert (p + d)[|p + d| - 1] == d[|d| - 1];
    if Fuses(d, f.1) {
      assert (p + d)[..|p + d| - 3] == p + d[..|d| - 3];
    }
  }

  /** What emitJump needs behind the code of a condition, and its result. */
  lemma ConditionAtEnd(p: Prog, e: Expr, ls: Locals, k: nat)
    requires Settled(p)
    ensures var c := ExprCode(e, ls, k).code;
            |c| > 0 && WellFormed((p + c)[|p + c| - 1]) && Cuttable(p + c, JUMP_IF_FALSE_POP) &&
            WithJump(p + c, JUMP_IF_FALSE_POP, PENDING) == p + WithJump(c, JUMP_IF_FALSE_POP, PENDING) &&
            Settled(p + WithJump(c, JUMP_IF_FALSE_POP, PENDING))
  {
    hide ExprCode, FoldNot, Fuses, Settled, FragOk, WithJump, FoldsNot, NotFree;
    var fr := ExprCode(e, ls, k);
    var c, n := fr.code, k + |fr.ks|;
    CompareHasOperands(e, ls, k);
    ConditionShape(e, ls, k);
    ExprOk(e, ls, k);
    JumpSplits(p, c, PENDING);
    LastWellFormed(c, |ls|, n);
    SettledExpr(p, c, |ls|, n);
    FoldedOk(c, |ls|, n);
    SettledExpr(p, Folded(c), |ls|, n);
    if FoldsNot(c, JUMP_IF_FALSE_POP) { FoldedDrops(p, c); }
    if Fuses(Folded(c), FoldNot(c, JUMP_IF_FALSE_POP).1) {
      assert p + Folded(c)[..|Folded(c)| - 3] == p;
    }
    SettledPending(p, c);
  }

  lemma FoldedDrops(p: Prog, c: Prog)
    requires FoldsNot(c, JUMP_IF_FALSE_POP)
    ensures (p + c)[..|p + c| - 1] == p + Folded(c)
  {
  }

  lemma FoldedOk(c: Prog, slots: nat, n: nat)
    requires FragOk(c, slots, n, INSIDE)
    requires FoldsNot(c, JUMP_IF_FALSE_POP) ==> FragOk(c[..|c| - 1], slots, n, INSIDE)
    ensures FragOk(Folded(c), slots, n, INSIDE)
  {
    hide FragOk;
  }

  lemma LastWellFormed(c: Prog, slots: nat, n: nat)
    requires FragOk(c, slots, n, INSIDE) && |c| > 0
    ensures WellFormed(c[|c| - 1])
  {
    assert InstrOk(c[|c| - 1], |c| - 1, |c|, slots, n, INSIDE);
  }

  /** Code whose jumps stay inside keeps a program settled. */
  lemma SettledExpr(p: Prog, c: Prog, slots: nat, n: nat)
    requires Settled(p) && FragOk(c, slots, n, INSIDE)
    ensures Settled(p + c)
  {
    forall j | 0 <= j < |c| && HasOperand(c[j]) && Operand(c[j]) >= 0
      ensures 0 <= |p| + Target(c, j) <= |p| + |c|
    {
      assert InstrOk(c[j], j, |c|, slots, n, INSIDE);
    }
    SettledThen(p, c);
  }

  lemma SettledPending(p: Prog, c: Prog)
    requires Settled(p) && Settled(p + Folded(c))
    requires Fuses(Folded(c), FoldNot(c, JUMP_IF_FALSE_POP).1) ==> |Folded(c)| == 3
    ensures Settled(p + WithJump(c, JUMP_IF_FALSE_POP, PENDING))
  {
    hide FoldNot, Fuses, Settled;
    var f := FoldNot(c, JUMP_IF_FALSE_POP);
    var r := WithJump(c, JUMP_IF_FALSE_POP, PENDING);
    if Fuses(f.0, f.1) {
      FusedAlone(f.0, f.1);
      SettledThen(p, r);
    } else {
      SettledThen(p + f.0, [Jump(f.1, PENDING)]);
      assert p + r == p + f.0 + [Jump(f.1, PENDING)];
    }
  }

  lemma FusedAlone(d: Prog, op: byte)
    requires Fuses(d, op) && |d| == 3
    ensures |FusedCode(d, op, PENDING)| == 1 && Operand(FusedCode(d, op, PENDING)[0]) == PENDING
  {
  }

  // ------------------------------------------------------- jumps set later

  /** Setting the operand of a program's last jump. */
  function SetLast(c: Prog, t: int): Prog
    requires |c| > 0
  {
    c[|c| - 1 := WithOperand(c[|c| - 1], t)]
  }

  lemma JumpSetLater(c: Prog, op: byte, t: int, u: int)
    ensures SetLast(WithJump(c, op, t), u) == WithJump(c, op, u)
    ensures |WithJump(c, op, t)| == |WithJump(c, op, u)|
    ensures !IsBackward(WithJump(c, op, t)[|WithJump(c, op, t)| - 1]) <==>
            (Fuses(FoldNot(c, op).0, FoldNot(c, op).1) || FoldNot(c, op).1 != LOOP)
  {
  }

  lemma UpdateMiddle(a: Prog, b: Prog, c: Prog, x: Instr)
    requires |b| > 0
    ensures (a + b + c)[|a| + |b| - 1 := x] == a + b[|b| - 1 := x] + c
  {
  }

  /** A waiting conditional jump inside a longer program, set to `u`. */
  lemma PatchCondition(a: Prog, c: Prog, rest: Prog)
    ensures var j := WithJump(c, JUMP_IF_FALSE_POP, PENDING);
            var p := a + j + rest;
            var at := |a| + |j| - 1;
            HasOperand(p[at]) && Operand(p[at]) < 0 && !IsBackward(p[at]) &&
            Patched(p, at) == a + WithJump(c, JUMP_IF_FALSE_POP, |rest|) + rest
  {
    var j := WithJump(c, JUMP_IF_FALSE_POP, PENDING);
    JumpSetLater(c, JUMP_IF_FALSE_POP, PENDING, |rest|);
    hide WithJump;
    var p := a + j + rest;
    var at := |a| + |j| - 1;
    assert p[at] == j[|j| - 1];
    UpdateMiddle(a, j, rest, WithOperand(j[|j| - 1], |rest|));
  }

  /** The same for any waiting jump instruction. */
  lemma PatchJumpIn(a: Prog, ins: Instr, rest: Prog)
    ensures Patched(a + [ins] + rest, |a|) == a + [WithOperand(ins, |rest|)] + rest
    ensures (a + [ins] + rest)[|a|] == ins
  {
  }

  /** `jump` is the offset of the operand of the waiting jump at `at`. */
  ghost predicate PatchReady(p: Prog, at: int, jump: int) {
    0 <= at < |p| && HasOperand(p[at]) && !IsBackward(p[at]) && Operand(p[at]) < 0 && jump == Off(p, at + 1) - 2
  }

  /** A waiting jump stays ready when code is added behind it. */
  lemma ReadyThen(p: Prog, c: Prog, at: int, jump: int)
    requires PatchReady(p, at, jump)
    ensures PatchReady(p + c, at, jump)
  {
    assert (p + c)[..at + 1] == p[..at + 1];
    OffOfPrefix(p + c, p, at + 1);
  }

  /** And when another one is patched. */
  lemma ReadyPatched(p: Prog, other: nat, at: int, jump: int)
    requires PatchReady(p, at, jump) && other < |p| && other != at
    ensures PatchReady(Patched(p, other), at, jump)
  {
    OffPatched(p, other, at + 1);
  }

  lemma ReadyLast(p: Prog, c: Prog)
    ensures var q := p + WithJump(c, JUMP_IF_FALSE_POP, PENDING); PatchReady(q, |q| - 1, Off(q, |q|) - 2)
  {
  }

  lemma ReadyJump(p: Prog)
    ensures var q := p + [Jump(JUMP, PENDING)]; PatchReady(q, |q| - 1, Off(q, |q|) - 2)
  {
  }

  /** Patching the three jumps of `l && r` in the compiler's order. */
  lemma AndPatches(p: Prog, l: Prog, r: Prog)
    ensures var p1 := p + WithJump(l, JUMP_IF_FALSE_POP, PENDING);
            var p2 := p1 + WithJump(r, JUMP_IF_FALSE_POP, PENDING);
            var p3 := p2 + [Plain(TRUE)] + [Jump(JUMP, PENDING)];
            var q1 := Patched(p3, |p1| - 1);
            var q2 := Patched(q1, |p2| - 1) + [Plain(FALSE)];
            PatchReady(p3, |p1| - 1, Off(p1, |p1|) - 2) && PatchReady(q1, |p2| - 1, Off(p2, |p2|) - 2) &&
            PatchReady(q2, |p3| - 1, Off(p3, |p3|) - 2) && Patched(q2, |p3| - 1) == p + AndCode(l, r)
  {
    hide Off, PatchReady, Patched;
    var lj, rj := WithJump(l, JUMP_IF_FALSE_POP, PENDING), WithJump(r, JUMP_IF_FALSE_POP, PENDING);
    var p1 := p + lj;
    var p2 := p1 + rj;
    var end := [Plain(TRUE)] + [Jump(JUMP, PENDING)];
    var p3 := p2 + [Plain(TRUE)] + [Jump(JUMP, PENDING)];
    ReadyLast(p, l);
    ReadyLast(p1, r);
    ReadyJump(p2 + [Plain(TRUE)]);
    JumpSetLater(r, JUMP_IF_FALSE_POP, PENDING, 2);
    hide WithJump;
    assert p3 == p1 + (rj + end) == p2 + end;
    ReadyThen(p1, rj + end, |p1| - 1, Off(p1, |p1|) - 2);
    ReadyThen(p2, end, |p2| - 1, Off(p2, |p2|) - 2);
    PatchCondition(p, l, rj + end);
    var q1 := Patched(p3, |p1| - 1);
    var lj' := WithJump(l, JUMP_IF_FALSE_POP, |rj| + 2);
    assert q1 == p + lj' + rj + end;
    ReadyPatched(p3, |p1| - 1, |p2| - 1, Off(p2, |p2|) - 2);
    ReadyPatched(p3, |p1| - 1, |p3| - 1, Off(p3, |p3|) - 2);
    PatchCondition(p + lj', r, end);
    var q := Patched(q1, |p2| - 1);
    var rj' := WithJump(r, JUMP_IF_FALSE_POP, 2);
    assert q == p + lj' + rj' + [Plain(TRUE)] + [Jump(JUMP, PENDING)];
    ReadyPatched(q1, |p2| - 1, |p3| - 1, Off(p3, |p3|) - 2);
    ReadyThen(q, [Plain(FALSE)], |p3| - 1, Off(p3, |p3|) - 2);
    PatchJumpIn(p + lj' + rj' + [Plain(TRUE)], Jump(JUMP, PENDING), [Plain(FALSE)]);
    assert p + lj' + rj' + [Plain(TRUE)] + [Jump(JUMP, 1)] + [Plain(FALSE)] == p + AndCode(l, r);
  }

  /** `l || r` up to the code of r: the left jump is patched early. */
  lemma OrLeft(p: Prog, l: Prog)
    ensures var p1 := p + WithJump(l, JUMP_IF_FALSE_POP, PENDING);
            var p2 := p1 + [Plain(TRUE)] + [Jump(JUMP, PENDING)];
            PatchReady(p2, |p1| - 1, Off(p1, |p1|) - 2) &&
            Patched(p2, |p1| - 1) == p + WithJump(l, JUMP_IF_FALSE_POP, 2) + [Plain(TRUE), Jump(JUMP, PENDING)] &&
            PatchReady(Patched(p2, |p1| - 1), |p2| - 1, Off(p2, |p2|) - 2)
  {
    hide Off, PatchReady, Patched;
    var lj := WithJump(l, JUMP_IF_FALSE_POP, PENDING);
    var p1 := p + lj;
    var yes := [Plain(TRUE), Jump(JUMP, PENDING)];
    var p2 := p1 + [Plain(TRUE)] + [Jump(JUMP, PENDING)];
    ReadyLast(p, l);
    ReadyJump(p1 + [Plain(TRUE)]);
    hide WithJump;
    assert p2 == p1 + yes;
    ReadyThen(p1, yes, |p1| - 1, Off(p1, |p1|) - 2);
    PatchCondition(p, l, yes);
    ReadyPatched(p2, |p1| - 1, |p2| - 1, Off(p2, |p2|) - 2);
  }

  /** The remaining patches; p3 is the program before r, whose last jump leads
      to the end and has its operand at `jump`. */
  lemma OrRight(p: Prog, l: Prog, r: Prog, jump: int)
    requires var p3 := p + WithJump(l, JUMP_IF_FALSE_POP, 2) + [Plain(TRUE), Jump(JUMP, PENDING)];
             PatchReady(p3, |p3| - 1, jump)
    ensures var p3 := p + WithJump(l, JUMP_IF_FALSE_POP, 2) + [Plain(TRUE), Jump(JUMP, PENDING)];
            var p4 := p3 + WithJump(r, JUMP_IF_FALSE_POP, PENDING);
            var p5 := p4 + [Plain(TRUE)] + [Jump(JUMP, PENDING)];
            var p6 := Patched(p5, |p4| - 1) + [Plain(FALSE)];
            var p7 := Patched(p6, |p3| - 1);
            PatchReady(p5, |p4| - 1, Off(p4, |p4|) - 2) && PatchReady(p6, |p3| - 1, jump) &&
            PatchReady(p7, |p5| - 1, Off(p5, |p5|) - 2) && Patched(p7, |p5| - 1) == p + OrCode(l, r)
  {
    hide Off, PatchReady, Patched;
    var lj := WithJump(l, JUMP_IF_FALSE_POP, 2);
    var rj := WithJump(r, JUMP_IF_FALSE_POP, PENDING);
    var p3 := p + lj + [Plain(TRUE), Jump(JUMP, PENDING)];
    var p4 := p3 + rj;
    var end := [Plain(TRUE)] + [Jump(JUMP, PENDING)];
    var p5 := p4 + [Plain(TRUE)] + [Jump(JUMP, PENDING)];
    ReadyLast(p3, r);
    ReadyJump(p4 + [Plain(TRUE)]);
    JumpSetLater(r, JUMP_IF_FALSE_POP, PENDING, 2);
    hide WithJump;
    assert p5 == p4 + end == p3 + (rj + end);
    ReadyThen(p4, end, |p4| - 1, Off(p4, |p4|) - 2);
    ReadyThen(p3, rj + end, |p3| - 1, jump);
    PatchCondition(p3, r, end);
    var q := Patched(p5, |p4| - 1);
    var rj' := WithJump(r, JUMP_IF_FALSE_POP, 2);
    ReadyPatched(p5, |p4| - 1, |p3| - 1, jump);
    ReadyPatched(p5, |p4| - 1, |p5| - 1, Off(p5, |p5|) - 2);
    ReadyThen(q, [Plain(FALSE)], |p3| - 1, jump);
    ReadyThen(q, [Plain(FALSE)], |p5| - 1, Off(p5, |p5|) - 2);
    var p6 := q + [Plain(FALSE)];
    var rest := rj' + end + [Plain(FALSE)];
    assert p6 == p + lj + [Plain(TRUE)] + [Jump(JUMP, PENDING)] + rest;
    PatchJumpIn(p + lj + [Plain(TRUE)], Jump(JUMP, PENDING), rest);
    var p7 := Patched(p6, |p3| - 1);
    ReadyPatched(p6, |p3| - 1, |p5| - 1, Off(p5, |p5|) - 2);
    var a := p + lj + [Plain(TRUE)] + [Jump(JUMP, |rj| + 3)] + rj' + [Plain(TRUE)];
    assert p7 == a + [Jump(JUMP, PENDING)] + [Plain(FALSE)];
    PatchJumpIn(a, Jump(JUMP, PENDING), [Plain(FALSE)]);
    assert a + [Jump(JUMP, 1)] + [Plain(FALSE)] == p + OrCode(l, r);
  }

  /** The code of && and || and of the other operators, from its parts. */
  lemma BinParts(e: Expr, ls: Locals, k: nat)
    requires e.Bin?
    ensures var fl := ExprCode(e.l, ls, k); var fr := ExprCode(e.r, ls, k + |fl.ks|); var f := ExprCode(e, ls, k);
            f.ks == fl.ks + fr.ks &&
            f.code == if e.op == And then AndCode(fl.code, fr.code)
                      else if e.op == Or then OrCode(fl.code, fr.code)
                      else fl.code + fr.code + BinCode(e.op, Numeric(TypeOf(e.l, ls)) && Numeric(TypeOf(e.r, ls)))
  {
    hide AndCode, OrCode, BinCode, TypeOf;
  }
}
