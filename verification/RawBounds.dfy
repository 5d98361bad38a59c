/** What a misread window does to the bytes: the code comes out too short, or
    keeps the opcode of a local read where a jump should be, and nothing that is
    emitted later repairs it. */
module RawBounds {
  import opened Options
  import opened Machine
  import opened Assembly
  import opened Source
  import opened CodeGen
  import opened ExprCorrect
  import opened Layout
  import opened Peephole
  import opened Emission
  import opened Conditions
  import opened Alignment
  import opened CompilerState
  import opened LoopState
  import opened RawCode

  /** The bytes of a program's layout. */
  function Len(c: Prog): nat { Off(c, |c|) }

  /** Position m is out of reach of every later rewrite. */
  predicate OutOfReach(code: seq<byte>, m: nat) {
    m + 6 <= |code| || (m + 4 <= |code| && code[|code| - 1] != GET_LOCAL)
  }

  ghost predicate BytesKept(a: seq<byte>, b: seq<byte>) {
    forall m: nat :: OutOfReach(a, m) ==> OutOfReach(b, m) && b[m] == a[m]
  }

  /** Instruction j of c does not read a local, but its place holds the opcode
      that does, out of reach of the waiting jumps P. */
  ghost predicate Cut(r: Raw, q: Raw, c: Prog, P: set<int>, j: nat) {
    j < |c| &&
    var m := |r.code| + Off(c, j);
    OutOfReach(q.code, m) && q.code[m] == GET_LOCAL && Opcode(c[j]) != GET_LOCAL &&
    forall at :: at in P ==> at != m && at + 1 != m
  }

  ghost predicate Spoilt(r: Raw, q: Raw, c: Prog, P: set<int>) {
    |q.code| < |r.code| + Len(c) || exists j :: Cut(r, q, c, P, j)
  }

  /** From r to q the bytes of c are emitted, with waiting jumps P among them:
      never too many, and recognisably wrong if a window was misread. */
  ghost predicate Grows(r: Raw, q: Raw, c: Prog, P: set<int>) {
    |r.code| <= |q.code| <= |r.code| + Len(c) && (q.good ==> r.good) &&
    (forall at :: at in P ==> |r.code| <= at && at + 2 <= |q.code|) &&
    BytesKept(r.code, q.code) && (r.good && !q.good ==> Spoilt(r, q, c, P))
  }

  // ------------------------------------------------------------- composition

  lemma KeptThen(a: seq<byte>, b: seq<byte>, c: seq<byte>)
    requires BytesKept(a, b) && BytesKept(b, c)
    ensures BytesKept(a, c)
  {
    forall m: nat | OutOfReach(a, m) ensures OutOfReach(c, m) && c[m] == a[m] { assert OutOfReach(b, m); }
  }

  lemma GrowsThen(r: Raw, q: Raw, t: Raw, c: Prog, d: Prog, P: set<int>, Q: set<int>)
    requires Grows(r, q, c, P) && Grows(q, t, d, Q)
    ensures Grows(r, t, c + d, P + Q)
  {
    hide BytesKept, OutOfReach;
    OffJoined(c, d, |d|);
    KeptThen(r.code, q.code, t.code);
    if r.good && !t.good && |t.code| == |r.code| + Len(c + d) {
      if q.good {
        var j :| Cut(q, t, d, Q, j);
        OffJoined(c, d, j);
        assert Cut(r, t, c + d, P + Q, |c| + j);
      } else {
        var j :| Cut(r, q, c, P, j);
        CutKept(r, q, t, c, d, P, Q, j);
      }
    }
  }

  lemma CutKept(r: Raw, q: Raw, t: Raw, c: Prog, d: Prog, P: set<int>, Q: set<int>, j: nat)
    requires Cut(r, q, c, P, j) && Grows(q, t, d, Q)
    ensures Cut(r, t, c + d, P + Q, j)
  {
    OffSame(c + d, c, j);
    assert (c + d)[..j] == c[..j];
    OffOfPrefix(c + d, c, j);
  }

  lemma GrowsSub(r: Raw, q: Raw, c: Prog, P: set<int>, Q: set<int>)
    requires Grows(r, q, c, P) && Q <= P
    ensures Grows(r, q, c, Q)
  {
    hide BytesKept, OutOfReach, Off;
    if r.good && !q.good && |q.code| == |r.code| + Len(c) {
      var j :| Cut(r, q, c, P, j);
      assert Cut(r, q, c, Q, j);
    }
  }

  /** The same up to jump targets. */
  ghost predicate SameShape(c: Prog, d: Prog) {
    |c| == |d| && forall j :: 0 <= j < |c| ==> Size(c[j]) == Size(d[j]) && (Opcode(c[j]) == GET_LOCAL <==> Opcode(d[j]) == GET_LOCAL)
  }

  lemma GrowsShape(r: Raw, q: Raw, c: Prog, d: Prog, P: set<int>)
    requires Grows(r, q, c, P) && SameShape(c, d)
    ensures Grows(r, q, d, P)
  {
    hide BytesKept, OutOfReach, Size, Opcode;
    OffSizes(c, d, |c|);
    if r.good && !q.good && |q.code| == |r.code| + Len(c) {
      var j :| Cut(r, q, c, P, j);
      OffSizes(c, d, j);
      assert Cut(r, q, d, P, j);
    }
  }

  lemma GrowsNone(r: Raw)
    ensures Grows(r, r, [], {})
  {
  }

  lemma LenOne(ins: Instr)
    ensures Len([ins]) == Size(ins)
  {
    assert Off([ins], 1) == Off([ins], 0) + Size(ins);
  }

  /** Bytes added at the end. */
  lemma GrowsAppend(r: Raw, q: Raw, ins: Instr)
    requires r.code <= q.code && |q.code| == |r.code| + Size(ins) && q.good == r.good
    requires Size(ins) == 1 ==> q.code[|r.code|] != GET_LOCAL
    ensures Grows(r, q, [ins], {}) && (Size(ins) >= 2 ==> Grows(r, q, [ins], {|q.code| - 2}))
  {
    LenOne(ins);
  }

  lemma GrowsPut(r: Raw, ins: Instr)
    requires ins.Plain? ==> ins.op != GET_LOCAL
    ensures Grows(r, Put(r, ins), [ins], {})
  {
    hide Encode;
    GrowsAppend(r, Put(r, ins), ins);
  }

  lemma {:induction false} GrowsPuts(r: Raw, p: Prog)
    requires forall i :: 0 <= i < |p| && p[i].Plain? ==> p[i].op != GET_LOCAL
    ensures Grows(r, Puts(r, p), p, {})
  {
    hide Grows;
    GrowsNone(r);
    if p != [] {
      var n := |p| - 1;
      GrowsPuts(r, p[..n]);
      GrowsPut(Puts(r, p[..n]), p[n]);
      GrowsThen(r, Puts(r, p[..n]), Puts(r, p), p[..n], [p[n]], {}, {});
      assert p[..n] + [p[n]] == p;
      var none: set<int> := {};
      assert none + none == none;
    }
  }

  lemma GrowsWaiting(r: Raw, ins: Instr)
    requires HasOperand(ins)
    ensures var j := PutWaiting(r, ins); Grows(r, j.raw, [ins], {j.at})
  {
    hide Encode, WithOperand;
    GrowsAppend(r, PutWaiting(r, ins).raw, ins);
  }

  lemma GrowsJump(r: Raw, t: int)
    ensures var j := RawJump(r, JUMP); Grows(r, j.raw, [Jump(JUMP, t)], {j.at})
  {
    GrowsAppend(r, RawJump(r, JUMP).raw, Jump(JUMP, t));
  }

  lemma GrowsLoop(r: Raw, start: nat, t: int)
    ensures Grows(r, RawLoop(r, start), [Jump(LOOP, t)], {})
  {
    hide Hi, Lo;
    GrowsAppend(r, RawLoop(r, start), Jump(LOOP, t));
  }

  lemma ZeroDistance()
    ensures Lo(0) == 0
  {
  }

  /** A patch touches only the waiting jump. */
  lemma GrowsPatch(r: Raw, q: Raw, c: Prog, P: set<int>, at: int)
    requires Grows(r, q, c, P) && at in P
    ensures Grows(r, RawPatch(q, at), c, P)
  {
    hide Hi, Lo, Off;
    ZeroDistance();
    var t := RawPatch(q, at);
    if r.good && !q.good && |q.code| == |r.code| + Len(c) {
      var j :| Cut(r, q, c, P, j);
      assert Cut(r, t, c, P, j);
    }
  }

  lemma {:induction false} GrowsPatches(r: Raw, q: Raw, c: Prog, P: set<int>, ats: seq<int>)
    requires Grows(r, q, c, P) && forall i :: 0 <= i < |ats| ==> ats[i] in P
    ensures Grows(r, RawPatches(q, ats), c, P)
  {
    hide Grows;
    if ats != [] {
      var n := |ats| - 1;
      GrowsPatches(r, q, c, P, ats[..n]);
      GrowsPatch(r, RawPatches(q, ats[..n]), c, P, ats[n]);
    }
  }

  // -------------------------------------------------- the end of an expression

  /** q ends in the instruction z, emitted after r. */
  predicate EndsIn(r: Raw, q: Raw, z: Instr) {
    |r.code| <= q.last && q.last + Size(z) == |q.code| && q.code[q.last] == Opcode(z) && WellFormed(z)
  }

  lemma PutParts(r: Raw, ins: Instr)
    ensures var q := Put(r, ins);
            r.code <= q.code && |q.code| == |r.code| + Size(ins) && q.good == r.good && (WellFormed(ins) ==> EndsIn(r, q, ins))
  {
    hide Encode;
  }

  lemma OperatorParts(r: Raw, op: BinOp, numeric: bool)
    requires op != And && op != Or
    ensures var p := BinCode(op, numeric);
            var q := Puts(r, p);
            r.code <= q.code && |q.code| >= |r.code| + 1 && q.good == r.good && EndsIn(r, q, p[|p| - 1])
  {
    hide Put;
    var p := BinCode(op, numeric);
    PutParts(r, p[0]);
    if |p| == 1 {
      OnePuts(r, p);
    } else {
      assert p == [p[0], p[1]];
      PutsTwo(r, p[0], p[1]);
      PutParts(Put(r, p[0]), p[1]);
    }
  }

  /** A jump takes the place of one byte at most. */
  lemma JumpLength(r: Raw, q: Raw, z: Instr)
    requires EndsIn(r, q, z)
    ensures |RawJump(q, JUMP_IF_FALSE_POP).raw.code| + 1 >= |q.code| > |r.code|
  {
    OnlyNot(z);
    var f := NotFoldBytes(q.code, q.last, JUMP_IF_FALSE_POP);
    JumpCodeLength(f.0, f.1);
  }

  lemma JumpCodeLength(d: seq<byte>, op: byte)
    ensures |CompareJumpBytes(d, op)| >= |d|
  {
  }

  lemma CondLength(e: Expr, ls: Locals, k: nat, r: Raw, z: Instr)
    requires EndsIn(r, RawExpr(e, ls, k, r), z)
    ensures |RawCond(e, ls, k, r).raw.code| >= |r.code|
  {
    hide RawJump, RawExpr, SeesRight, ExprCode, Opcode, WellFormed;
    var q := RawExpr(e, ls, k, r);
    var right := SeesRight(q.code, q.last, JUMP_IF_FALSE_POP, ExprCode(e, ls, k).code);
    JumpLength(r, q.(good := q.good && right), z);
  }

  /** What is known of the end of an expression: its last instruction; and a
      numeric one leaves two bytes and holds no condition. */
  ghost predicate Tail(e: Expr, ls: Locals, k: nat, r: Raw) {
    var q, c := RawExpr(e, ls, k, r), ExprCode(e, ls, k).code;
    |c| > 0 && EndsIn(r, q, c[|c| - 1]) &&
    (Numeric(TypeOf(e, ls)) ==> |q.code| >= |r.code| + 2 && q.good == r.good)
  }

  lemma {:induction false} ExprTail(e: Expr, ls: Locals, k: nat, r: Raw)
    ensures Tail(e, ls, k, r)
    decreases e
  {
    hide Put, Puts, BinCode, RawAnd, RawOr, EvalConst, SlotOf, Size;
    match e
    case Group(e1) => ExprTail(e1, ls, k, r);
    case Neg(e1) =>
      if IsFolded(e) {
        RawLeaf(e, ls, k, r);
        PutParts(r, ExprCode(e, ls, k).code[0]);
        LeafSize(e, ls, k);
      } else {
        ExprTail(e1, ls, k, r);
        PutParts(RawExpr(e1, ls, k, r), Plain(NEGATE));
      }
    case Not(e1) =>
      ExprTail(e1, ls, k, r);
      PutParts(RawExpr(e1, ls, k, r), Plain(NOT));
    case Bin(op, l, rt) => BinTail(e, ls, k, r);
    case _ =>
      RawLeaf(e, ls, k, r);
      PutParts(r, ExprCode(e, ls, k).code[0]);
      LeafSize(e, ls, k);
  }

  lemma LeafSize(e: Expr, ls: Locals, k: nat)
    requires e.IntLit? || e.BoolLit? || e.Var? || (e.Neg? && IsFolded(e))
    ensures var c := ExprCode(e, ls, k).code;
            |c| == 1 && WellFormed(c[0]) && (Numeric(TypeOf(e, ls)) ==> Size(c[0]) >= 2)
  {
    hide SlotOf, EvalConst;
  }

  lemma {:induction false} BinTail(e: Expr, ls: Locals, k: nat, r: Raw)
    requires e.Bin?
    ensures Tail(e, ls, k, r)
    decreases e, 0
  {
    hide Put, Puts, BinCode, EvalConst, ExprCode, Numeric, RawExpr, RawAnd, RawOr, EndsIn, TypeOf;
    var k1 := k + |ExprCode(e.l, ls, k).ks|;
    ExprTail(e.l, ls, k, r);
    if e.op == And {
      AndRaw(e, ls, k, r);
      ExprTail(e.r, ls, k1, RawCond(e.l, ls, k, r).raw);
      AndTail(e, ls, k, r);
    } else if e.op == Or {
      AndRaw(e, ls, k, r);
      ExprTail(e.r, ls, k1, RawOrLeft(e.l, ls, k, r).raw);
      OrTail(e, ls, k, r);
    } else {
      ExprTail(e.r, ls, k1, RawExpr(e.l, ls, k, r));
      OperatorTail(e, ls, k, r);
    }
  }

  lemma AndRaw(e: Expr, ls: Locals, k: nat, r: Raw)
    requires e.Bin?
    ensures e.op == And ==> RawExpr(e, ls, k, r) == RawAnd(e, ls, k, r)
    ensures e.op == Or ==> RawExpr(e, ls, k, r) == RawOr(e, ls, k, r)
  {
    hide RawAnd, RawOr, Put, Puts, TypeOf, ExprCode;
  }

  lemma LogicLast(e: Expr, ls: Locals, k: nat)
    requires e.Bin? && (e.op == And || e.op == Or)
    ensures var c := ExprCode(e, ls, k).code; |c| > 0 && c[|c| - 1] == Plain(FALSE)
    ensures TypeOf(e, ls) == TBool
  {
    hide WithJump;
  }

  /** A patch before the last instruction leaves it. */
  lemma PatchEnd(r: Raw, q: Raw, z: Instr, at: int)
    requires EndsIn(r, q, z) && at + 2 <= q.last
    ensures EndsIn(r, RawPatch(q, at), z)
  {
    hide Hi, Lo, Size, Opcode, WellFormed;
  }

  /** The end of && and ||: behind the right operand's jump. */
  lemma LogicEnd(r: Raw, b: Raw, x: Raw)
    requires |r.code| <= |b.code|
    requires |x.code| == |RawJump(Put(b, Plain(TRUE)), JUMP).raw.code|
    ensures var c := RawJump(Put(b, Plain(TRUE)), JUMP);
            var q := Put(x, Plain(FALSE));
            EndsIn(r, q, Plain(FALSE)) && c.at + 2 == q.last == |x.code| && |c.raw.code| > |b.code|
  {
  }

  lemma AndTail(e: Expr, ls: Locals, k: nat, r: Raw)
    requires e.Bin? && e.op == And && Tail(e.l, ls, k, r)
    requires Tail(e.r, ls, k + |ExprCode(e.l, ls, k).ks|, RawCond(e.l, ls, k, r).raw)
    ensures Tail(e, ls, k, r)
  {
    hide RawJump, Put, RawExpr, SeesRight, ExprCode, PatchedAt, RawCond, TypeOf, EndsIn;
    LogicLast(e, ls, k);
    AndRaw(e, ls, k, r);
    var cl := ExprCode(e.l, ls, k).code;
    CondLength(e.l, ls, k, r, cl[|cl| - 1]);
    var a := RawCond(e.l, ls, k, r);
    var k1 := k + |ExprCode(e.l, ls, k).ks|;
    var cr := ExprCode(e.r, ls, k1).code;
    CondLength(e.r, ls, k1, a.raw, cr[|cr| - 1]);
    var b := RawCond(e.r, ls, k1, a.raw);
    var c := RawJump(Put(b.raw, Plain(TRUE)), JUMP);
    var x := RawPatch(RawPatch(c.raw, a.at), b.at);
    LogicEnd(r, b.raw, x);
    PatchEnd(r, Put(x, Plain(FALSE)), Plain(FALSE), c.at);
  }

  lemma OrTail(e: Expr, ls: Locals, k: nat, r: Raw)
    requires e.Bin? && e.op == Or && Tail(e.l, ls, k, r)
    requires Tail(e.r, ls, k + |ExprCode(e.l, ls, k).ks|, RawOrLeft(e.l, ls, k, r).raw)
    ensures Tail(e, ls, k, r)
  {
    hide RawJump, Put, RawExpr, SeesRight, ExprCode, PatchedAt, RawCond, TypeOf, EndsIn, RawOrLeft;
    LogicLast(e, ls, k);
    AndRaw(e, ls, k, r);
    OrLeftLength(e.l, ls, k, r);
    var a := RawOrLeft(e.l, ls, k, r);
    var k1 := k + |ExprCode(e.l, ls, k).ks|;
    var cr := ExprCode(e.r, ls, k1).code;
    CondLength(e.r, ls, k1, a.raw, cr[|cr| - 1]);
    var b := RawCond(e.r, ls, k1, a.raw);
    var c := RawJump(Put(b.raw, Plain(TRUE)), JUMP);
    var x := RawPatch(c.raw, b.at);
    LogicEnd(r, b.raw, x);
    var q := Put(x, Plain(FALSE));
    PatchEnd(r, q, Plain(FALSE), a.at);
    PatchEnd(r, RawPatch(q, a.at), Plain(FALSE), c.at);
  }

  lemma OrLeftLength(l: Expr, ls: Locals, k: nat, r: Raw)
    requires Tail(l, ls, k, r)
    ensures var a := RawOrLeft(l, ls, k, r); |a.raw.code| >= |r.code| && a.at + 2 == |a.raw.code|
  {
    hide RawExpr, SeesRight, ExprCode, PatchedAt, RawCond, TypeOf, Numeric, EndsIn, Encode;
    var c := ExprCode(l, ls, k).code;
    CondLength(l, ls, k, r, c[|c| - 1]);
  }

  lemma OperatorTail(e: Expr, ls: Locals, k: nat, r: Raw)
    requires e.Bin? && e.op != And && e.op != Or && Tail(e.l, ls, k, r)
    requires Tail(e.r, ls, k + |ExprCode(e.l, ls, k).ks|, RawExpr(e.l, ls, k, r))
    ensures Tail(e, ls, k, r)
  {
    hide Put, Puts, RawExpr, ExprCode, BinCode, Opcode, Size, WellFormed, TypeOf;
    var k1 := k + |ExprCode(e.l, ls, k).ks|;
    var numeric := Numeric(TypeOf(e.l, ls)) && Numeric(TypeOf(e.r, ls));
    RawOperator(e, ls, k, r);
    ArithCode(e, ls, k);
    if Numeric(TypeOf(e, ls)) { NumericOperands(e, ls); }
    OperatorParts(RawExpr(e.r, ls, k1, RawExpr(e.l, ls, k, r)), e.op, numeric);
  }

  lemma NumericOperands(e: Expr, ls: Locals)
    requires e.Bin? && Numeric(TypeOf(e, ls))
    ensures Numeric(TypeOf(e.l, ls)) && Numeric(TypeOf(e.r, ls))
  {
  }

  // ---------------------------------------------- what a conditional jump sees

  /** The condition once its final NOT is folded into the jump. */
  function Stripped(e: Expr): Expr {
    var u := Unwrap(e);
    if u.Not? then u.e
    else if u.Bin? && u.op == Ne then Bin(Eq, u.l, u.r)
    else if u.Bin? && u.op == Ge then Bin(Lt, u.l, u.r)
    else if u.Bin? && u.op == Le then Bin(Gt, u.l, u.r)
    else u
  }

  predicate Negated(e: Expr) {
    var u := Unwrap(e);
    u.Not? || (u.Bin? && (u.op == Ne || u.op == Ge || u.op == Le))
  }

  lemma StripCode(e: Expr, ls: Locals, k: nat)
    ensures var c := ExprCode(e, ls, k).code;
            FoldsNot(c, JUMP_IF_FALSE_POP) == Negated(e) &&
            FoldNot(c, JUMP_IF_FALSE_POP) ==
            (ExprCode(Stripped(e), ls, k).code, if Negated(e) then JUMP_IF_TRUE_POP else JUMP_IF_FALSE_POP) &&
            c == ExprCode(Stripped(e), ls, k).code + (if Negated(e) then [Plain(NOT)] else []) &&
            Len(c) == Len(ExprCode(Stripped(e), ls, k).code) + if Negated(e) then 1 else 0
  {
    hide ExprCode, Unwrap, BinCode, TypeOf;
    var u := Unwrap(e);
    UnwrapSame(e, ls, k, []);
    LastInstrOf(e, ls, k);
    var d := ExprCode(Stripped(e), ls, k).code;
    if u.Not? {
      NotCode(u, ls, k);
      DropNot(d);
    } else if Negated(e) {
      NegatedCompareCode(u, ls, k);
      if u.op == Ne { EqualCode(u, ls, k); }
      DropNot(d);
    }
  }

  lemma EqualCode(e: Expr, ls: Locals, k: nat)
    requires e.Bin?
    ensures var fa := ExprCode(e.l, ls, k);
            ExprCode(Bin(Eq, e.l, e.r), ls, k).code ==
            fa.code + ExprCode(e.r, ls, k + |fa.ks|).code + [Plain(EQUAL)]
  {
    hide ExprCode, TypeOf;
    ArithCode(Bin(Eq, e.l, e.r), ls, k);
  }

  lemma DropNot(d: Prog)
    ensures var c := d + [Plain(NOT)];
            FoldNot(c, JUMP_IF_FALSE_POP) == (d, JUMP_IF_TRUE_POP) && Len(c) == Len(d) + 1
  {
    var c := d + [Plain(NOT)];
    assert c[..|d|] == d;
    OffJoined(d, [Plain(NOT)], 1);
    LenOne(Plain(NOT));
  }

  lemma {:induction false} UnwrapRaw(e: Expr, ls: Locals, k: nat, r: Raw)
    ensures RawExpr(e, ls, k, r) == RawExpr(Unwrap(e), ls, k, r)
  {
    if e.Group? { UnwrapRaw(e.e, ls, k, r); }
  }

  lemma NegatedBin(op: BinOp, numeric: bool)
    requires op == Ne || op == Ge || op == Le
    ensures var b := BinCode(op, numeric);
            b == [b[0], Plain(NOT)] && BinCode(if op == Ne then Eq else if op == Ge then Lt else Gt, numeric) == [b[0]]
  {
  }

  lemma NegatedOperator(e: Expr, ls: Locals, k: nat, r: Raw)
    requires e.Bin? && (e.op == Ne || e.op == Ge || e.op == Le)
    ensures RawExpr(e, ls, k, r) == Put(RawExpr(Stripped(e), ls, k, r), Plain(NOT))
  {
    hide RawExpr, TypeOf, Put, Puts, ExprCode, BinCode;
    var numeric := Numeric(TypeOf(e.l, ls)) && Numeric(TypeOf(e.r, ls));
    var b := BinCode(e.op, numeric);
    var q := RawExpr(e.r, ls, k + |ExprCode(e.l, ls, k).ks|, RawExpr(e.l, ls, k, r));
    NegatedBin(e.op, numeric);
    RawOperator(e, ls, k, r);
    RawOperator(Stripped(e), ls, k, r);
    PutsTwo(q, b[0], b[1]);
    PutsOne(q, b[0]);
  }

  lemma StripRaw(e: Expr, ls: Locals, k: nat, r: Raw)
    ensures var q := RawExpr(e, ls, k, r);
            var q1 := RawExpr(Stripped(e), ls, k, r);
            NotFoldBytes(q.code, q.last, JUMP_IF_FALSE_POP) ==
            (q1.code, if Negated(e) then JUMP_IF_TRUE_POP else JUMP_IF_FALSE_POP) &&
            q.good == q1.good && q1.code <= q.code && |q.code| == |q1.code| + if Negated(e) then 1 else 0
  {
    hide RawExpr, Unwrap, ExprCode;
    var u := Unwrap(e);
    UnwrapRaw(e, ls, k, r);
    if Negated(e) {
      if u.Not? { NotRaw(u, ls, k, r); } else { UnwrapAgain(e); NegatedOperator(u, ls, k, r); }
    } else {
      ExprTail(e, ls, k, r);
      LastInstrOf(e, ls, k);
      var c := ExprCode(e, ls, k).code;
      OnlyNot(c[|c| - 1]);
    }
  }

  lemma {:induction false} UnwrapAgain(e: Expr)
    ensures Unwrap(Unwrap(e)) == Unwrap(e) && Stripped(Unwrap(e)) == Stripped(e)
  {
    if e.Group? { UnwrapAgain(e.e); }
  }

  lemma NotRaw(e: Expr, ls: Locals, k: nat, r: Raw)
    requires e.Not?
    ensures RawExpr(e, ls, k, r) == Put(RawExpr(e.e, ls, k, r), Plain(NOT))
  {
  }

  /** Behind r, the last bytes look like a comparison with a local on its right. */
  predicate SeesCompare(d: seq<byte>) {
    |d| >= 5 && IsCompareByte(d[|d| - 1]) && d[|d| - 3] == GET_LOCAL
  }

  lemma {:induction false} LastKinds(e: Expr, ls: Locals, k: nat)
    ensures var c := ExprCode(e, ls, k).code;
            |c| > 0 && var z := c[|c| - 1]; z.Const? || z.Global? || z.Plain? || IsGetLocal(z)
  {
    hide SlotOf, AndCode, OrCode, BinCode, EvalConst, TypeOf;
    match e
    case Group(e1) => LastKinds(e1, ls, k);
    case Bin(_, _, _) => BinKinds(e, ls, k);
    case _ =>
  }

  lemma BinKinds(e: Expr, ls: Locals, k: nat)
    requires e.Bin?
    ensures var c := ExprCode(e, ls, k).code; |c| > 0 && c[|c| - 1].Plain?
  {
    hide ExprCode, TypeOf;
    if e.op == And || e.op == Or { LogicLast(e, ls, k); } else { ArithCode(e, ls, k); }
  }

  /** Then either the whole window is the expression's, or it is a local whose
      slot looks like the comparison, behind a byte that looks like the read. */
  lemma SeenWindow(e: Expr, ls: Locals, k: nat, r: Raw)
    requires SeesCompare(RawExpr(e, ls, k, r).code)
    ensures var q := RawExpr(e, ls, k, r);
            q.good == r.good &&
            (|q.code| >= |r.code| + 5 ||
             (|q.code| == |r.code| + 2 && |r.code| > 0 && r.code[|r.code| - 1] == GET_LOCAL))
  {
    hide RawExpr, ExprCode, Unwrap;
    var c := ExprCode(e, ls, k).code;
    LastInstrOf(e, ls, k);
    ExprTail(e, ls, k, r);
    var z := c[|c| - 1];
    LastKinds(e, ls, k);
    UnwrapRaw(e, ls, k, r);
    UnwrapSame(e, ls, k, []);
    if IsGetLocal(z) {
      RawLeaf(Unwrap(e), ls, k, r);
      PutParts(r, z);
    } else if z.Plain? {
      assert IsFusibleCompare(z);
      CompareWindow(Unwrap(e), ls, k, r);
    }
  }

  lemma CompareWindow(e: Expr, ls: Locals, k: nat, r: Raw)
    requires e.Bin? && (e.op == Lt || e.op == Gt)
    requires var c := ExprCode(e, ls, k).code; |c| > 0 && IsFusibleCompare(c[|c| - 1])
    ensures var q := RawExpr(e, ls, k, r); q.good == r.good && |q.code| >= |r.code| + 5
  {
    hide RawExpr, ExprCode, TypeOf, Put, Puts, EndsIn;
    var k1 := k + |ExprCode(e.l, ls, k).ks|;
    var numeric := Numeric(TypeOf(e.l, ls)) && Numeric(TypeOf(e.r, ls));
    var a := RawExpr(e.l, ls, k, r);
    ArithCode(e, ls, k);
    RawOperator(e, ls, k, r);
    ExprTail(e.l, ls, k, r);
    ExprTail(e.r, ls, k1, a);
    OperatorParts(RawExpr(e.r, ls, k1, a), e.op, numeric);
  }

  /** A comparison of two locals leaves its five bytes. */
  lemma FusedBytes(e: Expr, ls: Locals, k: nat, r: Raw, op: byte)
    requires Fuses(ExprCode(e, ls, k).code, op)
    ensures var q := RawExpr(e, ls, k, r); var n := |r.code|;
            q.good == r.good && |q.code| == n + 5 && q.code[n] == GET_LOCAL && q.code[n + 2] == GET_LOCAL &&
            LooksLikeLocals(q.code, op) && Len(ExprCode(e, ls, k).code) == 5
  {
    hide RawExpr, ExprCode, Unwrap, BinCode, TypeOf, Put, Puts;
    UnwrapRaw(e, ls, k, r);
    UnwrapSame(e, ls, k, []);
    LastInstrOf(e, ls, k);
    var u := Unwrap(e);
    TwoLocals(u, ls, k, op);
    TwoReadsRaw(u, ls, k, r, op);
    var c := ExprCode(u, ls, k).code;
    FiveBytes(r, c[0], c[1], c[2]);
    OffSteps(c, 3);
  }

  lemma TwoReadsRaw(u: Expr, ls: Locals, k: nat, r: Raw, op: byte)
    requires u.Bin? && (u.op == Lt || u.op == Gt) && Fuses(ExprCode(u, ls, k).code, op)
    ensures var c := ExprCode(u, ls, k).code;
            |c| == 3 && RawExpr(u, ls, k, r) == Put(Put(Put(r, c[0]), c[1]), c[2])
  {
    hide RawExpr, ExprCode, Unwrap, BinCode, TypeOf, Put, Puts;
    var k1 := k + |ExprCode(u.l, ls, k).ks|;
    TwoLocals(u, ls, k, op);
    UnwrapSame(u.l, ls, k, []);
    UnwrapSame(u.r, ls, k1, []);
    UnwrapRaw(u.l, ls, k, r);
    RawLeaf(Unwrap(u.l), ls, k, r);
    var a := RawExpr(u.l, ls, k, r);
    UnwrapRaw(u.r, ls, k1, a);
    RawLeaf(Unwrap(u.r), ls, k1, a);
    RawOperator(u, ls, k, r);
    ArithCode(u, ls, k);
    var c := ExprCode(u, ls, k).code;
    assert BinCode(u.op, Numeric(TypeOf(u.l, ls)) && Numeric(TypeOf(u.r, ls))) == [c[2]];
    PutsOne(RawExpr(u.r, ls, k1, a), c[2]);
  }

  lemma FiveBytes(r: Raw, a: Instr, b: Instr, z: Instr)
    requires IsGetLocal(a) && IsGetLocal(b) && IsFusibleCompare(z)
    ensures var q := Put(Put(Put(r, a), b), z); var n := |r.code|;
            q.good == r.good && |q.code| == n + 5 && q.code[n] == GET_LOCAL && q.code[n + 2] == GET_LOCAL &&
            IsCompareByte(q.code[n + 4])
  {
    hide Low8;
  }

  // ------------------------------------------------------- conditional jumps

  /** The jump behind d, which is q without its final NOT. */
  ghost predicate JumpBehind(r: Raw, q: Raw, d: seq<byte>) {
    |r.code| <= |d| && d <= q.code && |q.code| <= |d| + 1 && BytesKept(r.code, q.code) &&
    (SeesCompare(d) ==>
      |d| >= |r.code| + 5 || (|d| == |r.code| + 2 && |r.code| > 0 && r.code[|r.code| - 1] == GET_LOCAL))
  }

  lemma JumpKept(r: Raw, q: Raw, d: seq<byte>, op: byte)
    requires JumpBehind(r, q, d)
    ensures var x := CompareJumpBytes(d, op); BytesKept(r.code, x) && |r.code| + 2 <= |x| && |d| <= |x| <= |d| + 3
  {
    hide FusedOp;
    var x := CompareJumpBytes(d, op);
    forall m: nat | OutOfReach(r.code, m) ensures OutOfReach(x, m) && x[m] == r.code[m] {
      assert OutOfReach(q.code, m) && q.code[m] == r.code[m] == d[m];
    }
  }

  lemma JumpLen(g: Prog, op: byte, t: int)
    requires Fuses(g, op) ==> |g| == 3
    ensures Fuses(g, op) ==> |FusedCode(g, op, t)| == 1 && Len(FusedCode(g, op, t)) == 5 &&
                             Opcode(FusedCode(g, op, t)[0]) != GET_LOCAL
    ensures Len(g + [Jump(op, t)]) == Len(g) + 3
  {
    OffJoined(g, [Jump(op, t)], 1);
    LenOne(Jump(op, t));
    if Fuses(g, op) {
      assert FusedCode(g, op, t) == [FusedCode(g, op, t)[0]];
      LenOne(FusedCode(g, op, t)[0]);
    }
  }

  /** Bytes spoilt before the jump stay spoilt. */
  lemma CutStays(r: Raw, q: Raw, x: Raw, c: Prog, g: Prog, d: seq<byte>, op: byte, t: int, j: nat)
    requires Cut(r, q, c, {}, j) && |q.code| == |r.code| + Len(c)
    requires c == g || (c == g + [Plain(NOT)] && Len(c) == Len(g) + 1)
    requires d <= q.code && |q.code| <= |d| + 1 && x.code == d + [op, 0, 0]
    ensures Cut(r, x, g + [Jump(op, t)], {|x.code| - 2}, j)
  {
    hide Opcode;
    assert j < |g|;
    OffSame(g + [Jump(op, t)], g, j);
    OffSame(c, g, j);
  }

  /** A comparison of two locals behind bytes that look like an array element. */
  lemma MaskedCut(r: Raw, x: Raw, d: seq<byte>, g: Prog, op: byte, t: int)
    requires LooksLikeArrayField(d, op) && x.code == CompareJumpBytes(d, op)
    requires |d| == |r.code| + 5 && d[|r.code|] == GET_LOCAL
    requires Fuses(g, op) && |g| == 3
    ensures Cut(r, x, FusedCode(g, op, t), {|x.code| - 2}, 0)
  {
    JumpLen(g, op, t);
  }

  /** The conditional jump as its bytes d and its code g without a final NOT
      decide it. */
  lemma JumpGrows(r: Raw, q: Raw, x: Raw, c: Prog, g: Prog, d: seq<byte>, op: byte, t: int)
    requires Grows(r, q, c, {}) && JumpBehind(r, q, d) && |d| <= |r.code| + Len(g)
    requires c == g || (c == g + [Plain(NOT)] && Len(c) == Len(g) + 1 && |q.code| == |d| + 1)
    requires c == g ==> |q.code| == |d|
    requires op == JUMP_IF_TRUE_POP || op == JUMP_IF_FALSE_POP
    requires x.code == CompareJumpBytes(d, op)
    requires x.good == (q.good && !LooksLikeArrayField(d, op) && (LooksLikeLocals(d, op) ==> Fuses(g, op)))
    requires SeesCompare(d) ==> q.good == r.good
    requires Fuses(g, op) ==>
               |g| == 3 && Len(g) == 5 && q.good == r.good && |d| == |r.code| + 5 && d[|r.code|] == GET_LOCAL &&
               LooksLikeLocals(d, op)
    ensures Grows(r, x, if Fuses(g, op) then FusedCode(g, op, t) else g + [Jump(op, t)], {|x.code| - 2})
  {
    hide BytesKept, OutOfReach, Off, Opcode, FusedCode, Fuses;
    var h := if Fuses(g, op) then FusedCode(g, op, t) else g + [Jump(op, t)];
    JumpLen(g, op, t);
    JumpKept(r, q, d, op);
    if r.good && !x.good && |x.code| == |r.code| + Len(h) {
      if q.good {
        MaskedCut(r, x, d, g, op, t);
        assert Cut(r, x, h, {|x.code| - 2}, 0);
      } else {
        var j :| Cut(r, q, c, {}, j);
        CutStays(r, q, x, c, g, d, op, t, j);
        assert Cut(r, x, h, {|x.code| - 2}, j);
      }
    }
  }

  lemma CondGrows(e: Expr, ls: Locals, k: nat, r: Raw, t: int)
    requires Grows(r, RawExpr(e, ls, k, r), ExprCode(e, ls, k).code, {})
    ensures var j := RawCond(e, ls, k, r);
            Grows(r, j.raw, WithJump(ExprCode(e, ls, k).code, JUMP_IF_FALSE_POP, t), {j.at})
  {
    hide RawExpr, ExprCode, BytesKept, OutOfReach, CompareJumpBytes, LooksLikeLocals, LooksLikeArrayField, Unwrap,
         NotFoldBytes, FoldNot, FusedCode, Off, Fuses, Stripped;
    var c, q := ExprCode(e, ls, k).code, RawExpr(e, ls, k, r);
    var e1 := Stripped(e);
    var g, d := ExprCode(e1, ls, k).code, RawExpr(e1, ls, k, r).code;
    var op := if Negated(e) then JUMP_IF_TRUE_POP else JUMP_IF_FALSE_POP;
    var x := RawCond(e, ls, k, r).raw;
    StripCode(e, ls, k);
    StripRaw(e, ls, k, r);
    ExprTail(e1, ls, k, r);
    ConditionShape(e, ls, k);
    if SeesCompare(d) { SeenWindow(e1, ls, k, r); }
    if Fuses(g, op) { FusedBytes(e1, ls, k, r, op); }
    JumpGrows(r, q, x, c, g, d, op, t);
  }
}
