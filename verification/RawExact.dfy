/** The emitted bytes are the laid-out program exactly when no window was
    misread: every construct keeps to the bounds, so a misread window shows in
    the finished code. */
module RawExact {
  import opened Options
  import opened Machine
  import opened Assembly
  import opened Source
  import opened CodeGen
  import opened ExprCorrect
  import opened Layout
  import opened Peephole
  import opened Emission
  import opened Conditions
  import opened Alignment
  import opened CompilerState
  import opened LoopState
  import opened StmtParts
  import opened StmtCorrect
  import opened RawCode
  import opened RawBounds

  // ------------------------------------------------------------- expressions

  lemma GrowsPlain(r: Raw, q: Raw, t: Raw, c: Prog, d: Prog, P: set<int>)
    requires Grows(r, q, c, P) && Grows(q, t, d, {})
    ensures Grows(r, t, c + d, P)
  {
    hide Grows;
    GrowsThen(r, q, t, c, d, P, {});
    assert P + {} == P;
  }

  lemma {:induction false} ExprGrows(e: Expr, ls: Locals, k: nat, r: Raw)
    ensures Grows(r, RawExpr(e, ls, k, r), ExprCode(e, ls, k).code, {})
    decreases e, 1
  {
    hide Grows, Put, Puts, BinCode, RawAnd, RawOr, EvalConst, SlotOf;
    match e
    case Group(e1) => ExprGrows(e1, ls, k, r);
    case Neg(e1) => if IsFolded(e) { LeafGrows(e, ls, k, r); } else { UnaryGrows(e1, ls, k, r, NEGATE); }
    case Not(e1) => UnaryGrows(e1, ls, k, r, NOT);
    case Bin(_, _, _) => BinGrows(e, ls, k, r);
    case _ => LeafGrows(e, ls, k, r);
  }

  lemma NoReads(op: BinOp, numeric: bool)
    ensures var b := BinCode(op, numeric); forall i :: 0 <= i < |b| && b[i].Plain? ==> b[i].op != GET_LOCAL
  {
  }

  lemma LeafGrows(e: Expr, ls: Locals, k: nat, r: Raw)
    requires e.IntLit? || e.BoolLit? || e.Var? || (e.Neg? && IsFolded(e))
    ensures Grows(r, RawExpr(e, ls, k, r), ExprCode(e, ls, k).code, {})
  {
    hide Grows, RawExpr, ExprCode, Put;
    var c := ExprCode(e, ls, k).code;
    RawLeaf(e, ls, k, r);
    LeafSize(e, ls, k);
    GrowsPut(r, c[0]);
    assert c == [c[0]];
  }

  lemma {:induction false} UnaryGrows(e: Expr, ls: Locals, k: nat, r: Raw, op: byte)
    requires op != GET_LOCAL
    ensures Grows(r, Put(RawExpr(e, ls, k, r), Plain(op)), ExprCode(e, ls, k).code + [Plain(op)], {})
    decreases e, 2
  {
    hide Grows, RawExpr, ExprCode, Put;
    var q := RawExpr(e, ls, k, r);
    ExprGrows(e, ls, k, r);
    GrowsPut(q, Plain(op));
    GrowsPlain(r, q, Put(q, Plain(op)), ExprCode(e, ls, k).code, [Plain(op)], {});
  }

  lemma {:induction false} BinGrows(e: Expr, ls: Locals, k: nat, r: Raw)
    requires e.Bin?
    ensures Grows(r, RawExpr(e, ls, k, r), ExprCode(e, ls, k).code, {})
    decreases e, 0
  {
    hide Grows, RawExpr, ExprCode, RawAnd, RawOr, RawCond, RawOrLeft, Puts, BinCode, TypeOf;
    AndRaw(e, ls, k, r);
    BinParts(e, ls, k);
    var fl := ExprCode(e.l, ls, k);
    var k1 := k + |fl.ks|;
    ExprGrows(e.l, ls, k, r);
    if e.op == And {
      ExprGrows(e.r, ls, k1, RawCond(e.l, ls, k, r).raw);
      AndGrows(e, ls, k, r);
    } else if e.op == Or {
      ExprGrows(e.r, ls, k1, RawOrLeft(e.l, ls, k, r).raw);
      OrGrows(e, ls, k, r);
    } else {
      var a := RawExpr(e.l, ls, k, r);
      var b := RawExpr(e.r, ls, k1, a);
      var bc := BinCode(e.op, Numeric(TypeOf(e.l, ls)) && Numeric(TypeOf(e.r, ls)));
      ExprGrows(e.r, ls, k1, a);
      RawOperator(e, ls, k, r);
      NoReads(e.op, Numeric(TypeOf(e.l, ls)) && Numeric(TypeOf(e.r, ls)));
      GrowsPuts(b, bc);
      GrowsPlain(r, a, b, fl.code, ExprCode(e.r, ls, k1).code, {});
      GrowsPlain(r, b, Puts(b, bc), fl.code + ExprCode(e.r, ls, k1).code, bc, {});
    }
  }

  /** Behind the right operand's jump b, waiting for the end of && and ||. */
  function TrueJump(b: Raw): Jumped { RawJump(Put(b, Plain(TRUE)), JUMP) }

  lemma TrueJumpGrows(r: Raw, b: Raw, c: Prog, P: set<int>, t: int)
    requires Grows(r, b, c, P)
    ensures Grows(r, TrueJump(b).raw, c + [Plain(TRUE), Jump(JUMP, t)], P + {TrueJump(b).at})
  {
    hide Grows, Put, RawJump;
    var q := Put(b, Plain(TRUE));
    GrowsPut(b, Plain(TRUE));
    GrowsPlain(r, b, q, c, [Plain(TRUE)], P);
    GrowsJump(q, t);
    GrowsThen(r, q, RawJump(q, JUMP).raw, c + [Plain(TRUE)], [Jump(JUMP, t)], P, {RawJump(q, JUMP).at});
    assert c + [Plain(TRUE)] + [Jump(JUMP, t)] == c + [Plain(TRUE), Jump(JUMP, t)];
  }

  lemma AndGrows(e: Expr, ls: Locals, k: nat, r: Raw)
    requires e.Bin? && e.op == And && Grows(r, RawExpr(e.l, ls, k, r), ExprCode(e.l, ls, k).code, {})
    requires var k1 := k + |ExprCode(e.l, ls, k).ks|;
             var a := RawCond(e.l, ls, k, r).raw;
             Grows(a, RawExpr(e.r, ls, k1, a), ExprCode(e.r, ls, k1).code, {})
    ensures Grows(r, RawAnd(e, ls, k, r), AndCode(ExprCode(e.l, ls, k).code,
                                                  ExprCode(e.r, ls, k + |ExprCode(e.l, ls, k).ks|).code), {})
  {
    hide Grows, RawExpr, ExprCode, RawCond, Put, RawPatch, WithJump, TrueJump;
    var fl := ExprCode(e.l, ls, k);
    var k1 := k + |fl.ks|;
    var cr := ExprCode(e.r, ls, k1).code;
    var rj := WithJump(cr, JUMP_IF_FALSE_POP, 2);
    var lj := WithJump(fl.code, JUMP_IF_FALSE_POP, |rj| + 2);
    var a := RawCond(e.l, ls, k, r);
    var b := RawCond(e.r, ls, k1, a.raw);
    var c := TrueJump(b.raw);
    CondGrows(e.l, ls, k, r, |rj| + 2);
    CondGrows(e.r, ls, k1, a.raw, 2);
    GrowsThen(r, a.raw, b.raw, lj, rj, {a.at}, {b.at});
    TrueJumpGrows(r, b.raw, lj + rj, {a.at} + {b.at}, 1);
    var P, p := {a.at} + {b.at} + {c.at}, lj + rj + [Plain(TRUE), Jump(JUMP, 1)];
    GrowsPatch(r, c.raw, p, P, a.at);
    GrowsPatch(r, RawPatch(c.raw, a.at), p, P, b.at);
    LogicGrows(r, RawPatch(RawPatch(c.raw, a.at), b.at), p, P, c.at);
    assert p + [Plain(FALSE)] == AndCode(fl.code, cr);
    AndIs(e, ls, k, r);
  }

  lemma AndIs(e: Expr, ls: Locals, k: nat, r: Raw)
    requires e.Bin?
    ensures var a := RawCond(e.l, ls, k, r);
            var b := RawCond(e.r, ls, k + |ExprCode(e.l, ls, k).ks|, a.raw);
            var c := TrueJump(b.raw);
            RawAnd(e, ls, k, r) == RawPatch(Put(RawPatch(RawPatch(c.raw, a.at), b.at), Plain(FALSE)), c.at)
    ensures var a := RawOrLeft(e.l, ls, k, r);
            var b := RawCond(e.r, ls, k + |ExprCode(e.l, ls, k).ks|, a.raw);
            var c := TrueJump(b.raw);
            RawOr(e, ls, k, r) == RawPatch(RawPatch(Put(RawPatch(c.raw, b.at), Plain(FALSE)), a.at), c.at)
  {
    hide RawCond, RawJump, Put, RawPatch, ExprCode, RawOrLeft;
  }

  /** FALSE, and the waiting jump led behind it. */
  lemma LogicGrows(r: Raw, q: Raw, p: Prog, P: set<int>, at: int)
    requires Grows(r, q, p, P) && at in P
    ensures Grows(r, RawPatch(Put(q, Plain(FALSE)), at), p + [Plain(FALSE)], {})
    ensures Grows(r, Put(q, Plain(FALSE)), p + [Plain(FALSE)], P)
  {
    hide Grows, Put, RawPatch;
    var t := Put(q, Plain(FALSE));
    GrowsPut(q, Plain(FALSE));
    GrowsPlain(r, q, t, p, [Plain(FALSE)], P);
    GrowsPatch(r, t, p + [Plain(FALSE)], P, at);
    GrowsSub(r, RawPatch(t, at), p + [Plain(FALSE)], P, {});
  }

  lemma OrLeftGrows(l: Expr, ls: Locals, k: nat, r: Raw, t: int)
    requires Grows(r, RawExpr(l, ls, k, r), ExprCode(l, ls, k).code, {})
    ensures var a := RawOrLeft(l, ls, k, r);
            Grows(r, a.raw, WithJump(ExprCode(l, ls, k).code, JUMP_IF_FALSE_POP, 2) + [Plain(TRUE), Jump(JUMP, t)], {a.at})
  {
    hide Grows, RawExpr, ExprCode, RawCond, Put, RawPatch, WithJump;
    var a := RawCond(l, ls, k, r);
    var b := TrueJump(a.raw);
    var lj := WithJump(ExprCode(l, ls, k).code, JUMP_IF_FALSE_POP, 2);
    CondGrows(l, ls, k, r, 2);
    TrueJumpGrows(r, a.raw, lj, {a.at}, t);
    GrowsPatch(r, b.raw, lj + [Plain(TRUE), Jump(JUMP, t)], {a.at} + {b.at}, a.at);
    GrowsSub(r, RawPatch(b.raw, a.at), lj + [Plain(TRUE), Jump(JUMP, t)], {a.at} + {b.at}, {b.at});
  }

  lemma OrGrows(e: Expr, ls: Locals, k: nat, r: Raw)
    requires e.Bin? && e.op == Or && Grows(r, RawExpr(e.l, ls, k, r), ExprCode(e.l, ls, k).code, {})
    requires var k1 := k + |ExprCode(e.l, ls, k).ks|;
             var a := RawOrLeft(e.l, ls, k, r).raw;
             Grows(a, RawExpr(e.r, ls, k1, a), ExprCode(e.r, ls, k1).code, {})
    ensures Grows(r, RawOr(e, ls, k, r), OrCode(ExprCode(e.l, ls, k).code,
                                                ExprCode(e.r, ls, k + |ExprCode(e.l, ls, k).ks|).code), {})
  {
    hide Grows, RawExpr, ExprCode, RawCond, Put, RawPatch, WithJump, TrueJump, RawOrLeft;
    var fl := ExprCode(e.l, ls, k);
    var k1 := k + |fl.ks|;
    var cr := ExprCode(e.r, ls, k1).code;
    var rj := WithJump(cr, JUMP_IF_FALSE_POP, 2);
    var lj := WithJump(fl.code, JUMP_IF_FALSE_POP, 2) + [Plain(TRUE), Jump(JUMP, |rj| + 3)];
    var a := RawOrLeft(e.l, ls, k, r);
    var b := RawCond(e.r, ls, k1, a.raw);
    var c := TrueJump(b.raw);
    OrLeftGrows(e.l, ls, k, r, |rj| + 3);
    CondGrows(e.r, ls, k1, a.raw, 2);
    GrowsThen(r, a.raw, b.raw, lj, rj, {a.at}, {b.at});
    TrueJumpGrows(r, b.raw, lj + rj, {a.at} + {b.at}, 1);
    var P, p := {a.at} + {b.at} + {c.at}, lj + rj + [Plain(TRUE), Jump(JUMP, 1)];
    GrowsPatch(r, c.raw, p, P, b.at);
    LogicGrows(r, RawPatch(c.raw, b.at), p, P, c.at);
    var q := Put(RawPatch(c.raw, b.at), Plain(FALSE));
    GrowsPatch(r, q, p + [Plain(FALSE)], P, a.at);
    GrowsPatch(r, RawPatch(q, a.at), p + [Plain(FALSE)], P, c.at);
    GrowsSub(r, RawPatch(RawPatch(q, a.at), c.at), p + [Plain(FALSE)], P, {});
    assert p + [Plain(FALSE)] == OrCode(fl.code, cr);
    AndIs(e, ls, k, r);
  }

  // -------------------------------------------------------------- statements

  /** Only the innermost loop's waiting jumps grow, by jumps in P. */
  ghost predicate LoopsGrow(a: seq<LoopContext>, b: seq<LoopContext>, P: set<int>) {
    |a| == |b| &&
    (|a| > 0 ==>
      var n := |a| - 1;
      a[..n] == b[..n] &&
      (forall x :: x in b[n].breakJumps ==> x in a[n].breakJumps || x in P) &&
      (forall x :: x in b[n].continueJumps ==> x in a[n].continueJumps || x in P))
  }

  lemma LoopsThen(a: seq<LoopContext>, b: seq<LoopContext>, c: seq<LoopContext>, P: set<int>, Q: set<int>)
    requires LoopsGrow(a, b, P) && LoopsGrow(b, c, Q)
    ensures LoopsGrow(a, c, P + Q)
  {
  }

  lemma LoopsSub(a: seq<LoopContext>, b: seq<LoopContext>, P: set<int>, Q: set<int>)
    requires LoopsGrow(a, b, P) && P <= Q
    ensures LoopsGrow(a, b, Q)
  {
  }

  /** Grows does not look at the loops. */
  lemma GrowsLoops(r: Raw, q: Raw, c: Prog, P: set<int>, a: seq<LoopContext>, b: seq<LoopContext>)
    requires Grows(r, q, c, P)
    ensures Grows(r.(loops := a), q.(loops := b), c, P)
  {
    hide Off, BytesKept, OutOfReach;
    var r', q' := r.(loops := a), q.(loops := b);
    if r.good && !q.good && |q.code| == |r.code| + Len(c) {
      var j :| Cut(r, q, c, P, j);
      assert Cut(r', q', c, P, j);
    }
  }

  lemma FillShape(c: Prog, hole: int, t: int)
    ensures SameShape(c, Fill(c, hole, t))
  {
  }

  lemma EmitGrows(e: Expr, ls: Locals, k: nat, r: Raw, ins: Instr)
    requires ins.Plain? ==> ins.op != GET_LOCAL
    ensures Grows(r, Put(RawExpr(e, ls, k, r), ins), ExprCode(e, ls, k).code + [ins], {})
  {
    hide Grows, RawExpr, ExprCode, Put;
    var q := RawExpr(e, ls, k, r);
    ExprGrows(e, ls, k, r);
    GrowsPut(q, ins);
    GrowsPlain(r, q, Put(q, ins), ExprCode(e, ls, k).code, [ins], {});
  }

  lemma AssignGrows(x: string, op: AssignOp, e: Expr, ls: Locals, k: nat, s: nat, r: Raw)
    requires s < |ls|
    ensures Grows(r, RawAssign(x, op, e, ls, k, s, r), AssignCode(x, op, e, ls, k, s).0.code, {})
  {
    hide Grows, RawExpr, ExprCode, Put, Puts, BinCode, TypeOf, AddedConst, AddedLocal, SelfUpdate, RawCompound;
    var t := ls[s].typ;
    if AddedConst(x, op, e, t).Some? {
      GrowsPut(r, ConstUpdate(AddedConst(x, op, e, t).value, s, k));
    } else if AddedLocal(x, op, e, ls, t).Some? {
      GrowsPut(r, AddLocal(s, AddedLocal(x, op, e, ls, t).value));
    } else if op != Set {
      CompoundGrows(op, e, ls, k, s, r);
    } else {
      var u := SelfUpdate(x, e, ls, t);
      if u.Some? { EmitGrows(u.value.1, ls, k, r, Slot(u.value.0, s)); } else { EmitGrows(e, ls, k, r, Slot(SET_LOCAL, s)); }
    }
  }

  lemma CompoundGrows(op: AssignOp, e: Expr, ls: Locals, k: nat, s: nat, r: Raw)
    requires s < |ls| && op != Set
    ensures var f := ExprCode(e, ls, k).code;
            var numeric := Numeric(ls[s].typ) && Numeric(TypeOf(e, ls));
            Grows(r, RawCompound(op, e, ls, k, s, r),
                  if numeric then f + [Slot(ToLocalOp(CompoundOp(op)), s)]
                  else [Slot(GET_LOCAL, s)] + f + BinCode(CompoundOp(op), false) + [Slot(SET_LOCAL, s)], {})
  {
    hide Grows, RawExpr, ExprCode, Put, Puts, BinCode, TypeOf;
    var f := ExprCode(e, ls, k).code;
    if Numeric(ls[s].typ) && Numeric(TypeOf(e, ls)) {
      EmitGrows(e, ls, k, r, Slot(ToLocalOp(CompoundOp(op)), s));
    } else {
      var q := Put(r, Slot(GET_LOCAL, s));
      GrowsPut(r, Slot(GET_LOCAL, s));
      OperatorGrows(r, q, [Slot(GET_LOCAL, s)], op, e, ls, k, Slot(SET_LOCAL, s));
    }
  }

  /** Behind q: an operand, an operator and a store. */
  lemma OperatorGrows(r: Raw, q: Raw, c: Prog, op: AssignOp, e: Expr, ls: Locals, k: nat, store: Instr)
    requires Grows(r, q, c, {}) && !store.Plain?
    ensures var b := BinCode(CompoundOp(op), false);
            Grows(r, Put(Puts(RawExpr(e, ls, k, q), b), store), c + ExprCode(e, ls, k).code + b + [store], {})
  {
    hide Grows, RawExpr, ExprCode, Put, Puts, BinCode;
    var f, b := ExprCode(e, ls, k).code, BinCode(CompoundOp(op), false);
    var q1 := RawExpr(e, ls, k, q);
    var q2 := Puts(q1, b);
    ExprGrows(e, ls, k, q);
    GrowsPlain(r, q, q1, c, f, {});
    NoReads(CompoundOp(op), false);
    GrowsPuts(q1, b);
    GrowsPlain(r, q1, q2, c + f, b, {});
    GrowsPut(q2, store);
    GrowsPlain(r, q2, Put(q2, store), c + f + b, [store], {});
  }

  lemma GlobalAssignGrows(x: string, op: AssignOp, e: Expr, ls: Locals, k: nat, r: Raw)
    ensures Grows(r, RawGlobalAssign(x, op, e, ls, k, r), GlobalAssignCode(x, op, e, ls, k).code, {})
  {
    hide Grows, RawExpr, ExprCode, Put, Puts, BinCode;
    var f := ExprCode(e, ls, k);
    var k1 := k + |f.ks|;
    if op == Set {
      EmitGrows(e, ls, k, r, Global(SET_GLOBAL, k1));
    } else {
      EmitGrows(e, ls, k, r, Global(GET_GLOBAL, k1));
      OperatorGrows(r, Put(RawExpr(e, ls, k, r), Global(GET_GLOBAL, k1)), f.code + [Global(GET_GLOBAL, k1)], op, e, ls,
                    k1 + 1, Global(SET_GLOBAL, k1));
    }
  }

  lemma {:induction false} ArgsGrow(args: seq<Expr>, ls: Locals, k: nat, r: Raw)
    ensures Grows(r, RawArgs(args, ls, k, r), ArgsCode(args, ls, k).code, {})
    decreases |args|
  {
    hide Grows, RawExpr, ExprCode;
    GrowsNone(r);
    if |args| > 0 {
      var n := |args| - 1;
      var f := ArgsCode(args[..n], ls, k);
      var q := RawArgs(args[..n], ls, k, r);
      var k1 := k + |f.ks|;
      ArgsGrow(args[..n], ls, k, r);
      ExprGrows(args[n], ls, k1, q);
      GrowsPlain(r, q, RawExpr(args[n], ls, k1, q), f.code, ExprCode(args[n], ls, k1).code, {});
    }
  }

  lemma HeadGrows(c: Expr, ls: Locals, k: nat, r: Raw, t: int)
    ensures var j := RawIfHead(c, ls, k, r); Grows(r, j.raw, IfHead(c, ls, k, t).code, {j.at})
  {
    hide Grows, RawExpr, ExprCode, RawCond, WithJump, MatchLessEqual, MatchDivisible, PutWaiting;
    var m := if MatchLessEqual(c, ls).Some? then MatchLessEqual(c, ls) else MatchDivisible(c, ls);
    if m.Some? {
      var ins := ConstJump(m.value.op, m.value.s, k, 0);
      var j := PutWaiting(r, ins);
      GrowsWaiting(r, ins);
      GrowsShape(r, j.raw, [ins], IfHead(c, ls, k, t).code, {j.at});
    } else {
      ExprGrows(c, ls, k, r);
      CondGrows(c, ls, k, r, t);
    }
  }

  lemma LoopHeadGrows(c: Option<Expr>, ls: Locals, k: nat, r: Raw, t: int)
    ensures var j := RawLoopHead(c, ls, k, r);
            Grows(r, j.raw, LoopHead(c, ls, k, t).code, if c.Some? then {j.at} else {})
  {
    hide Grows, RawExpr, ExprCode, RawCond, WithJump;
    if c.Some? {
      ExprGrows(c.value, ls, k, r);
      CondGrows(c.value, ls, k, r, t);
    } else {
      GrowsNone(r);
    }
  }

  lemma InJumps(ats: seq<int>, P: set<int>)
    requires forall x :: x in ats ==> x in P
    ensures forall i :: 0 <= i < |ats| ==> ats[i] in P
  {
    forall i | 0 <= i < |ats| ensures ats[i] in P {
      var x := ats[i];
      assert x in ats;
    }
  }

  /** The end of a loop: its breaks are led there. */
  lemma EndGrows(r: Raw, q: Raw, c: Prog, P: set<int>, t: int)
    requires Grows(r, q, c, P) && |q.loops| > 0
    requires forall x :: x in q.loops[|q.loops| - 1].breakJumps ==> x in P
    ensures Grows(r, EndLoop(q), Fill(c, BREAK_HOLE, t), P) && EndLoop(q).loops == q.loops[..|q.loops| - 1]
  {
    hide Grows, RawPatches, Fill, SameShape;
    var n := |q.loops| - 1;
    var ats := q.loops[n].breakJumps;
    var p := RawPatches(q, ats);
    InJumps(ats, P);
    GrowsPatches(r, q, c, P, ats);
    FillShape(c, BREAK_HOLE, t);
    GrowsShape(r, p, c, Fill(c, BREAK_HOLE, t), P);
    GrowsLoops(r, p, Fill(c, BREAK_HOLE, t), P, r.loops, q.loops[..n]);
    assert r.(loops := r.loops) == r;
  }

  lemma FinishGrows(r: Raw, b: Raw, c: Prog, P: set<int>, exits: bool, exit: int, start: nat, t: int, u: int)
    requires Grows(r, b, c, P) && |b.loops| > 0 && (exits ==> exit in P)
    requires forall x :: x in b.loops[|b.loops| - 1].breakJumps ==> x in P
    ensures var q := Finish(exits, exit, start, b);
            Grows(r, q, Fill(c + [Jump(LOOP, t)], BREAK_HOLE, u), P) && q.loops == b.loops[..|b.loops| - 1]
  {
    hide Grows, RawPatches, Fill, EndLoop, PatchedAt;
    var back := RawLoop(b, start);
    var d := c + [Jump(LOOP, t)];
    GrowsLoop(b, start, t);
    GrowsPlain(r, b, back, c, [Jump(LOOP, t)], P);
    if exits {
      GrowsPatch(r, back, d, P, exit);
      EndGrows(r, RawPatch(back, exit), d, P, u);
    } else {
      EndGrows(r, back, d, P, u);
    }
  }

  lemma BreakGrows(r: Raw, t: int)
    ensures var q, P := RawBreak(r), if r.loops == [] then {} else {RawJump(r, JUMP).at};
            Grows(r, q, [Jump(JUMP, t)], P) && LoopsGrow(r.loops, q.loops, P)
  {
    hide Grows, RawJump;
    if r.loops == [] { NoneGrows(r, Jump(JUMP, t)); } else { LeaveGrows(r, t, RawBreak(r).loops); }
  }

  /** A jump, and what the loops remember of it. */
  lemma LeaveGrows(r: Raw, t: int, loops: seq<LoopContext>)
    ensures var j := RawJump(r, JUMP); Grows(r, j.raw.(loops := loops), [Jump(JUMP, t)], {j.at})
  {
    hide Grows, RawJump;
    var j := RawJump(r, JUMP);
    GrowsJump(r, t);
    GrowsLoops(r, j.raw, [Jump(JUMP, t)], {j.at}, r.loops, loops);
    assert r.(loops := r.loops) == r;
  }

  lemma NoneGrows(r: Raw, ins: Instr)
    ensures Grows(r, r, [ins], {})
  {
    LenOne(ins);
  }

  lemma ContinueGrows(r: Raw, ins: Instr)
    requires ins.Jump? && (ins.op == JUMP || ins.op == LOOP)
    ensures var q, P := RawContinue(r), if r.loops == [] then {} else {RawJump(r, JUMP).at};
            var P1 := if r.loops != [] && r.loops[|r.loops| - 1].continueBackward then {} else P;
            Grows(r, q, [ins], P1) && LoopsGrow(r.loops, q.loops, P1)
  {
    hide Grows, RawJump, Hi, Lo;
    if r.loops == [] {
      NoneGrows(r, ins);
    } else if r.loops[|r.loops| - 1].continueBackward {
      var q := RawLoop(r, r.loops[|r.loops| - 1].continueTarget);
      GrowsLoop(r, r.loops[|r.loops| - 1].continueTarget, ins.t);
      GrowsShape(r, q, [Jump(LOOP, ins.t)], [ins], {});
    } else {
      LeaveGrows(r, ins.t, RawContinue(r).loops);
      GrowsShape(r, RawContinue(r), [Jump(JUMP, ins.t)], [ins], {RawJump(r, JUMP).at});
    }
  }

  lemma {:induction false} StmtGrows(s: Stmt, ls: Locals, k: nat, lc: LoopCtx, r: Raw) returns (P: set<int>)
    ensures var q := RawStmt(s, ls, k, lc, r);
            Grows(r, q, StmtCode(s, ls, k, lc).code, P) && LoopsGrow(r.loops, q.loops, P)
    decreases s, 1
  {
    hide Grows, Encode, RawExpr, ExprCode, RawAssign, AssignCode, RawGlobalAssign, GlobalAssignCode, RawIf, RawFor,
         RawBreak, RawContinue, LoopsGrow, ScopeCode, RawBlock, LoopHead, IfHead, RangeLoop, ArgsCode, Fill, RawJump,
         Finish, RawBody, SlotOf;
    P := {};
    LoopsSame(r.loops);
    match s
    case Let(_, _, e) => EmitGrows(e, ls, k, r, Slot(SET_LOCAL, |ls|));
    case Assign(x, op, e) =>
      AssignStmtCode(x, op, e, ls, k, lc);
      if SlotOf(ls, x) >= 0 { AssignGrows(x, op, e, ls, k, SlotOf(ls, x), r); }
      else { GlobalAssignGrows(x, op, e, ls, k, r); }
    case ExprStmt(e) => EmitGrows(e, ls, k, r, Plain(POP));
    case If(_, _, _) => P := IfGrows(s, ls, k, lc, r);
    case While(c, body) => P := WhileGrows(c, body, ls, k, lc, r);
    case DoLoop(body, c) => P := DoGrows(body, c, ls, k, lc, r);
    case ForRange(_, _, _, _) => P := ForGrows(s, ls, k, lc, r);
    case Break =>
      BreakGrows(r, BREAK_HOLE);
      P := if r.loops == [] then {} else {RawJump(r, JUMP).at};
    case Continue =>
      ContinueGrows(r, if lc.Backward? then Jump(LOOP, lc.here + 1) else Jump(JUMP, CONTINUE_HOLE));
      P := if r.loops == [] || r.loops[|r.loops| - 1].continueBackward then {} else {RawJump(r, JUMP).at};
  }

  lemma {:induction false} BlockGrows(b: Block, ls: Locals, k: nat, lc: LoopCtx, r: Raw) returns (P: set<int>)
    ensures var q := RawBlock(b, ls, k, lc, r);
            Grows(r, q, ScopeCode(b, ls, k, lc).code, P) && LoopsGrow(r.loops, q.loops, P)
    decreases b, 0
  {
    hide Grows, RawStmt, StmtCode, LoopsGrow;
    match b
    case Done =>
      P := {};
      GrowsNone(r);
      LoopsSame(r.loops);
    case Then(s, rest) =>
      var f := StmtCode(s, ls, k, lc);
      var q := RawStmt(s, ls, k, lc, r);
      var P1 := StmtGrows(s, ls, k, lc, r);
      var P2 := BlockGrows(rest, f.ls, k + |f.ks|, Shift(lc, |f.code|), q);
      var t := RawBlock(rest, f.ls, k + |f.ks|, Shift(lc, |f.code|), q);
      P := P1 + P2;
      GrowsThen(r, q, t, f.code, BlockCode(rest, f.ls, k + |f.ks|, Shift(lc, |f.code|)).code, P1, P2);
      LoopsThen(r.loops, q.loops, t.loops, P1, P2);
  }

  lemma LoopsSame(a: seq<LoopContext>)
    ensures LoopsGrow(a, a, {})
  {
  }

  lemma {:induction false} IfGrows(s: Stmt, ls: Locals, k: nat, lc: LoopCtx, r: Raw) returns (P: set<int>)
    requires s.If?
    ensures var q := RawIf(s, ls, k, lc, r);
            Grows(r, q, StmtCode(s, ls, k, lc).code, P) && LoopsGrow(r.loops, q.loops, P)
    decreases s, 0
  {
    hide Grows, RawIfHead, IfHead, StmtCode, ScopeCode, RawBlock, LoopsGrow, RawElse, PatchedAt;
    IfCode(s, ls, k, lc);
    var h := IfHead(s.c, ls, k, PENDING);
    var lc1, k1 := Shift(lc, |h.code|), k + |h.ks|;
    var a := RawIfHead(s.c, ls, k, r);
    var b := RawBlock(s.thn, ls, k1, lc1, a.raw);
    var f := ScopeCode(s.thn, ls, k1, lc1);
    var P1 := BlockGrows(s.thn, ls, k1, lc1, a.raw);
    P := {a.at} + P1;
    LoopsSub(a.raw.loops, b.loops, P1, P);
    if s.els.None? {
      var h1 := IfHead(s.c, ls, k, |f.code|).code;
      HeadGrows(s.c, ls, k, r, |f.code|);
      GrowsThen(r, a.raw, b, h1, f.code, {a.at}, P1);
      GrowsPatch(r, b, h1 + f.code, P, a.at);
    } else {
      var h1 := IfHead(s.c, ls, k, |f.code| + 1).code;
      HeadGrows(s.c, ls, k, r, |f.code| + 1);
      GrowsThen(r, a.raw, b, h1, f.code, {a.at}, P1);
      P := ElseGrows(s.els.value, f.ls, k1 + |f.ks|, Shift(lc, |h.code| + |f.code| + 1), a.at, r, b, h1 + f.code, P);
    }
  }

  lemma {:induction false} ElseGrows(eb: Block, ls: Locals, k: nat, lc: LoopCtx, jump: int, r: Raw, b: Raw, c: Prog,
                                     P: set<int>) returns (Q: set<int>)
    requires Grows(r, b, c, P) && jump in P && LoopsGrow(r.loops, b.loops, P)
    ensures var q := RawElse(eb, ls, k, lc, jump, b);
            var f := ScopeCode(eb, ls, k, lc).code;
            Grows(r, q, c + [Jump(JUMP, |f|)] + f, Q) && LoopsGrow(r.loops, q.loops, Q)
    decreases eb, 1
  {
    hide Grows, ScopeCode, RawBlock, LoopsGrow, PatchedAt, RawJump;
    var f := ScopeCode(eb, ls, k, lc).code;
    var j := RawJump(b, JUMP);
    var d := c + [Jump(JUMP, |f|)];
    var P1 := P + {j.at};
    GrowsJump(b, |f|);
    GrowsThen(r, b, j.raw, c, [Jump(JUMP, |f|)], P, {j.at});
    var q := RawPatch(j.raw, jump);
    GrowsPatch(r, j.raw, d, P1, jump);
    var t := RawBlock(eb, ls, k, lc, q);
    var P2 := BlockGrows(eb, ls, k, lc, q);
    GrowsThen(r, q, t, d, f, P1, P2);
    Q := P1 + P2;
    GrowsPatch(r, t, d + f, Q, j.at);
    JumpLoops(b);
    LoopsThen(r.loops, q.loops, t.loops, P, P2);
    LoopsSub(r.loops, t.loops, P + P2, Q);
  }

  lemma JumpLoops(r: Raw)
    ensures RawJump(r, JUMP).raw.loops == r.loops
  {
  }

  lemma {:induction false} WhileGrows(c: Option<Expr>, body: Block, ls: Locals, k: nat, lc: LoopCtx, r: Raw)
    returns (P: set<int>)
    ensures var q := RawStmt(While(c, body), ls, k, lc, r);
            Grows(r, q, StmtCode(While(c, body), ls, k, lc).code, P) && LoopsGrow(r.loops, q.loops, P)
    decreases body, 4
  {
    hide Grows, LoopHead, RawLoopHead, StmtCode, ScopeCode, RawBlock, PatchedAt, Finish, Fill;
    WhileIsRaw(c, body, ls, k, lc);
    var h := LoopHead(c, ls, k, PENDING);
    var a := RawLoopHead(c, ls, k, r);
    var e := Enter(a.raw, |r.code|, true);
    var b := RawBlock(body, ls, k + |h.ks|, Backward(|h.code|), e);
    var f := ScopeCode(body, ls, k + |h.ks|, Backward(|h.code|)).code;
    var h1 := LoopHead(c, ls, k, |f| + 1).code;
    var Pa := if c.Some? then {a.at} else {};
    LoopHeadGrows(c, ls, k, r, |f| + 1);
    GrowsLoops(r, a.raw, h1, Pa, r.loops, e.loops);
    assert r.(loops := r.loops) == r;
    var Pb := BlockGrows(body, ls, k + |h.ks|, Backward(|h.code|), e);
    GrowsThen(r, e, b, h1, f, Pa, Pb);
    P := Pa + Pb;
    FinishGrows(r, b, h1 + f, P, c.Some?, a.at, |r.code|, |h.code| + |f| + 1, |h1 + f| + 1);
  }

  lemma {:induction false} DoGrows(body: Block, c: Option<Expr>, ls: Locals, k: nat, lc: LoopCtx, r: Raw)
    returns (P: set<int>)
    ensures var q := RawStmt(DoLoop(body, c), ls, k, lc, r);
            Grows(r, q, StmtCode(DoLoop(body, c), ls, k, lc).code, P) && LoopsGrow(r.loops, q.loops, P)
    decreases body, 4
  {
    hide Grows, LoopHead, RawLoopHead, StmtCode, ScopeCode, RawBlock, PatchedAt, Finish, Fill, RawBody;
    DoIsRaw(body, c, ls, k, lc);
    var e := Enter(r, 0, false);
    var f := ScopeCode(body, ls, k, Forward);
    var b := RawBlock(body, ls, k, Forward, e);
    var Pb := BlockGrows(body, ls, k, Forward, e);
    GrowsLoops(e, b, f.code, Pb, r.loops, b.loops);
    assert e.(loops := r.loops) == r && b.(loops := b.loops) == b;
    var d := RawBody(b);
    BodyGrows(r, b, f.code, Pb);
    var c1 := Fill(f.code, CONTINUE_HOLE, |f.code|);
    var h1 := LoopHead(c, f.ls, k + |f.ks|, 1).code;
    var a := RawLoopHead(c, f.ls, k + |f.ks|, d);
    var Pa := if c.Some? then {a.at} else {};
    LoopHeadGrows(c, f.ls, k + |f.ks|, d, 1);
    GrowsThen(r, d, a.raw, c1, h1, Pb, Pa);
    P := Pb + Pa;
    FinishGrows(r, a.raw, c1 + h1, P, c.Some?, a.at, |r.code|, |f.code| + |h1| + 1, |c1 + h1| + 1);
  }

  /** The continues of a do-loop, led to the end of its body. */
  lemma BodyGrows(r: Raw, b: Raw, c: Prog, P: set<int>)
    requires Grows(r, b, c, P) && |b.loops| > 0
    requires var ctx := b.loops[|b.loops| - 1];
             (forall x :: x in ctx.continueJumps ==> x in P)
    ensures var q := RawBody(b); var n := |b.loops| - 1;
            Grows(r, q, Fill(c, CONTINUE_HOLE, |c|), P) && |q.loops| == n + 1 && q.loops[..n] == b.loops[..n] &&
            q.loops[n].breakJumps == b.loops[n].breakJumps
  {
    hide Grows, RawPatches, Fill, SameShape;
    var n := |b.loops| - 1;
    var ctx := b.loops[n];
    var d := b.(loops := b.loops[n := LoopContext(|b.code|, false, ctx.breakJumps, ctx.continueJumps)]);
    var ats := ctx.continueJumps;
    InJumps(ats, P);
    GrowsLoops(r, b, c, P, r.loops, d.loops);
    assert r.(loops := r.loops) == r;
    GrowsPatches(r, d, c, P, ats);
    var p := RawPatches(d, ats);
    FillShape(c, CONTINUE_HOLE, |c|);
    GrowsShape(r, p, c, Fill(c, CONTINUE_HOLE, |c|), P);
    GrowsLoops(r, p, Fill(c, CONTINUE_HOLE, |c|), P, r.loops, RawBody(b).loops);
  }

  lemma ForIs(s: Stmt, ls: Locals, k: nat, lc: LoopCtx)
    requires s.ForRange?
    ensures var a := RangeStart(s.x, s.args, ls, k);
            StmtCode(s, ls, k, lc).code == a.code + FilledLoop(|ls|, s.filter, s.body, a.ls, k + |a.ks|).code
  {
    hide ArgsCode, RangeLoop, Fill;
  }

  lemma {:induction false} ForGrows(s: Stmt, ls: Locals, k: nat, lc: LoopCtx, r: Raw) returns (P: set<int>)
    requires s.ForRange?
    ensures var q := RawFor(s, ls, k, r);
            Grows(r, q, StmtCode(s, ls, k, lc).code, P) && LoopsGrow(r.loops, q.loops, P)
    decreases s, 0
  {
    hide Grows, StmtCode, RawArgs, ArgsCode, Encode, RawRange, FilledLoop;
    var n, ls1 := |ls|, ls + RangeLocals(s.x);
    var a := ArgsCode(s.args, ls1, k);
    var init := RangeInit(n + 1, n + 2, n + 3, |s.args|);
    var q := RawArgs(s.args, ls1, k, r);
    var t := RawStart(s.x, s.args, ls, k, r);
    ForIs(s, ls, k, lc);
    ArgsGrow(s.args, ls1, k, r);
    GrowsPut(q, init);
    GrowsPlain(r, q, t, a.code, [init], {});
    P := RangeGrows(n, s.filter, s.body, ls1, k + |a.ks|, t);
    var d := FilledLoop(n, s.filter, s.body, ls1, k + |a.ks|).code;
    GrowsThen(r, t, RawRange(n, s.filter, s.body, ls1, k + |a.ks|, t), a.code + [init], d, {}, P);
    assert {} + P == P;
  }

  lemma RangeIs(n: nat, filter: Option<Expr>, body: Block, ls: Locals, k: nat)
    ensures var h := LoopHead(filter, ls, k, PENDING);
            var b := ScopeCode(body, ls, k + |h.ks|, Backward(1 + |h.code|)).code;
            var m: nat := 1 + |h.code| + |b| + 1;
            var tail := LoopHead(filter, ls, k, |b| + 1).code + b + LoopBack(filter, m);
            RangeLoop(n, filter, body, ls, k).code == [RangeNext(n + 1, n + 2, n + 3, n, |tail|)] + tail
  {
    hide LoopHead, ScopeCode;
    LoopHeadLength(filter, ls, k, 0, PENDING);
  }

  lemma {:induction false} RangeGrows(n: nat, filter: Option<Expr>, body: Block, ls: Locals, k: nat, r: Raw)
    returns (P: set<int>)
    ensures var q := RawRange(n, filter, body, ls, k, r);
            Grows(r, q, FilledLoop(n, filter, body, ls, k).code, P) && q.loops == r.loops
    decreases body, 2
  {
    hide Grows, LoopHead, RawLoopHead, ScopeCode, RawBlock, PatchedAt, FinishRange, Fill, RangeLoop, PutWaiting;
    RangeIs(n, filter, body, ls, k);
    var h := LoopHead(filter, ls, k, PENDING);
    var e := Enter(r, |r.code|, true);
    var next := PutWaiting(e, WaitingNext(n));
    var skip := RawLoopHead(filter, ls, k, next.raw);
    var b := RawBlock(body, ls, k + |h.ks|, Backward(1 + |h.code|), skip.raw);
    var f := ScopeCode(body, ls, k + |h.ks|, Backward(1 + |h.code|)).code;
    var m: nat := 1 + |h.code| + |f| + 1;
    var h1 := LoopHead(filter, ls, k, |f| + 1).code;
    var first := RangeNext(n + 1, n + 2, n + 3, n, |h1 + f + LoopBack(filter, m)|);
    NextGrows(r, e, n, first.t);
    var Ps := if filter.Some? then {skip.at} else {};
    LoopHeadGrows(filter, ls, k, next.raw, |f| + 1);
    GrowsThen(r, next.raw, skip.raw, [first], h1, {next.at}, Ps);
    var Pb := BlockGrows(body, ls, k + |h.ks|, Backward(1 + |h.code|), skip.raw);
    GrowsThen(r, skip.raw, b, [first] + h1, f, {next.at} + Ps, Pb);
    P := {next.at} + Ps + Pb;
    FinishRangeGrows(r, b, [first] + h1 + f, P, filter, next.at, skip.at, |r.code|, m,
                     |RangeLoop(n, filter, body, ls, k).code|);
    assert [first] + h1 + f + LoopBack(filter, m) == RangeLoop(n, filter, body, ls, k).code;
  }

  lemma NextGrows(r: Raw, e: Raw, n: nat, t: int)
    requires e == r.(loops := e.loops)
    ensures var j := PutWaiting(e, WaitingNext(n));
            Grows(r, j.raw, [RangeNext(n + 1, n + 2, n + 3, n, t)], {j.at}) && j.raw.loops == e.loops
  {
    hide Grows, Encode;
    var j := PutWaiting(e, WaitingNext(n));
    GrowsWaiting(e, WaitingNext(n));
    GrowsShape(e, j.raw, [WaitingNext(n)], [RangeNext(n + 1, n + 2, n + 3, n, t)], {j.at});
    GrowsLoops(e, j.raw, [RangeNext(n + 1, n + 2, n + 3, n, t)], {j.at}, r.loops, j.raw.loops);
    assert e.(loops := r.loops) == r && j.raw.(loops := j.raw.loops) == j.raw;
  }

  lemma FinishRangeGrows(r: Raw, b: Raw, c: Prog, P: set<int>, filter: Option<Expr>, exit: int, skip: int, start: nat,
                         m: nat, u: int)
    requires Grows(r, b, c, P) && |b.loops| > 0 && exit in P && (filter.Some? ==> skip in P)
    requires forall x :: x in b.loops[|b.loops| - 1].breakJumps ==> x in P
    ensures var q := FinishRange(filter.Some?, exit, skip, start, b);
            Grows(r, q, Fill(c + LoopBack(filter, m), BREAK_HOLE, u), P) && q.loops == b.loops[..|b.loops| - 1]
  {
    hide Grows, RawPatches, Fill, EndLoop, PatchedAt;
    var back := RawLoop(b, start);
    var d := c + [Jump(LOOP, m)];
    GrowsLoop(b, start, m);
    GrowsPlain(r, b, back, c, [Jump(LOOP, m)], P);
    if filter.Some? {
      var s := RawPatch(back, skip);
      var t := RawLoop(s, start);
      GrowsPatch(r, back, d, P, skip);
      GrowsLoop(s, start, m + 1);
      GrowsPlain(r, s, t, d, [Jump(LOOP, m + 1)], P);
      assert d + [Jump(LOOP, m + 1)] == c + LoopBack(filter, m);
      GrowsPatch(r, t, c + LoopBack(filter, m), P, exit);
      EndGrows(r, RawPatch(t, exit), c + LoopBack(filter, m), P, u);
    } else {
      GrowsPatch(r, back, d, P, exit);
      EndGrows(r, RawPatch(back, exit), d, P, u);
    }
  }

  // ----------------------------------------------------------------- scripts

  lemma OpcodeByte(p: Prog, j: nat)
    requires j < |p|
    ensures Off(p, j) < |Assemble(p)| && Assemble(p)[Off(p, j)] == Opcode(p[j])
  {
    hide Assemble, Off, Opcode, Resolve, Encode;
    BytesAt(p, j);
    OpcodeKept(p, j);
    assert Assemble(p)[Off(p, j)..Off(p, j + 1)][0] == Assemble(p)[Off(p, j)];
  }

  /** Bytes that are the laid-out program were emitted without misreading a
      window. */
  lemma SeenInBytes(b: Block)
    requires RawProgram(b) == Assemble(ProgramCode(b).code)
    ensures RawBlock(b, [], 0, NoLoop, Raw([], 0, [], true)).good
  {
    hide BytesKept, OutOfReach, RawBlock, BlockCode, Assemble, Off, Opcode, Resolve, Encode, Put, Puts;
    var r := Raw([], 0, [], true);
    var q := RawBlock(b, [], 0, NoLoop, r);
    var f := BlockCode(b, [], 0, NoLoop).code;
    var end := [Plain(NIL), Plain(RETURN)];
    var P := BlockGrows(b, [], 0, NoLoop, r);
    var t := Puts(q, end);
    GrowsPuts(q, end);
    GrowsPlain(r, q, t, f, end, P);
    PutsTwo(q, end[0], end[1]);
    PutParts(q, end[0]);
    PutParts(Put(q, end[0]), end[1]);
    var p := ProgramCode(b).code;
    if !q.good {
      var j: nat :| Cut(r, t, p, P, j);
      OpcodeByte(p, j);
    }
  }
}
