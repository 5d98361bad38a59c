/** Statements begin and end with no operands, on every path. */
module StmtDepth {
  import opened Options
  import opened Machine
  import opened Assembly
  import opened Source
  import opened CodeGen
  import opened Layout
  import opened StmtParts
  import opened StmtCorrect
  import opened JitCorrect
  import opened StackDepth

  /** No range loop has an explicit step, and only locals are updated in place.
      The names are those of the locals in scope. */
  predicate Tidy(s: Stmt, names: seq<string>) {
    match s
    case Assign(x, op, _) => op == Set || x in names
    case If(_, thn, els) => TidyIn(thn, names) && (els.Some? ==> TidyIn(els.value, names))
    case While(_, body) => TidyIn(body, names)
    case DoLoop(body, _) => TidyIn(body, names)
    case ForRange(x, args, _, body) => |args| != 3 && TidyIn(body, names + NamesOf(RangeLocals(x)))
    case _ => true
  }

  predicate TidyIn(b: Block, names: seq<string>) {
    match b
    case Done => true
    case Then(s, rest) => Tidy(s, names) && TidyIn(rest, if s.Let? then names + [s.x] else names)
  }

  function NamesOf(ls: Locals): (r: seq<string>)
    ensures |r| == |ls| && forall i :: 0 <= i < |ls| ==> r[i] == ls[i].name
  {
    seq(|ls|, i requires 0 <= i < |ls| => ls[i].name)
  }

  lemma {:induction false} SlotNamed(ls: Locals, x: string)
    ensures SlotOf(ls, x) >= 0 <==> x in NamesOf(ls)
  {
    if |ls| > 0 {
      var front := ls[..|ls| - 1];
      SlotNamed(front, x);
      assert NamesOf(ls) == NamesOf(front) + [ls[|ls| - 1].name];
    }
  }

  lemma NamesAfter(s: Stmt, ls: Locals, k: nat, lc: LoopCtx)
    ensures var f := StmtCode(s, ls, k, lc); NamesOf(f.ls) == if s.Let? then NamesOf(ls) + [s.x] else NamesOf(ls)
  {
    hide StmtCode;
    StmtLocals(s, ls, k, lc);
    if s.Let? { LetAdds(s, ls, k, lc); }
  }

  lemma LetAdds(s: Stmt, ls: Locals, k: nat, lc: LoopCtx)
    requires s.Let?
    ensures var f := StmtCode(s, ls, k, lc); |f.ls| == |ls| + 1 && f.ls[|ls|].name == s.x && f.ls[..|ls|] == ls
  {
    hide ExprCode, TypeOf;
  }

  /** The jump back of a continue. */
  function LoopExt(lc: LoopCtx): map<int, nat> { if lc.Backward? then map[-(lc.here as int) := 0] else map[] }

  /** Places outside may be added. */
  lemma Widen(c: Prog, D: seq<nat>, ext: map<int, nat>, ext': map<int, nat>, from: nat, to: nat)
    requires Between(c, D, ext, from, to) && forall t :: t in ext ==> t in ext' && ext'[t] == ext[t]
    ensures Between(c, D, ext', from, to)
  {
    forall i | 0 <= i < |c| ensures FlowAt(c, i, D, ext') { assert FlowAt(c, i, D, ext); }
  }

  /** Filling the waiting jumps with a place at depth 0. */
  lemma Filled(c: Prog, D: seq<nat>, ext: map<int, nat>, hole: int, target: nat, from: nat, to: nat)
    requires Between(c, D, ext, from, to) && (hole == BREAK_HOLE || hole == CONTINUE_HOLE)
    requires target <= |c| && D[target] == 0
    ensures Between(Fill(c, hole, target), D, ext, from, to)
  {
    var r := Fill(c, hole, target);
    forall i | 0 <= i < |c| ensures FlowAt(r, i, D, ext) {
      assert FlowAt(c, i, D, ext);
      if c[i] == Jump(JUMP, hole) { assert Waiting(c[i]) && Target(r, i) == target; }
    }
  }

  // ------------------------------------------------------------ small pieces

  lemma StoreDepth(f: Prog, Df: seq<nat>, ins: Instr, d: nat) returns (D: seq<nat>)
    requires Between(f, Df, map[], 0, d) && !HasOperand(ins) && Suits(ins, d) && d + Delta(ins) == 0
    ensures Between(f + [ins], D, map[], 0, 0)
  {
    hide Between;
    var Di := One(ins, d);
    D := StackDepth.Then(f, Df, [ins], Di, 0, d, 0);
  }

  lemma OneStatement(ins: Instr) returns (D: seq<nat>)
    requires !HasOperand(ins) && Suits(ins, 0) && Delta(ins) == 0
    ensures Between([ins], D, map[], 0, 0)
  {
    D := One(ins, 0);
  }

  /** x op= e on operands. */
  lemma OperateDepth(f: Prog, Df: seq<nat>, load: Instr, op: BinOp, numeric: bool, store: Instr) returns (D: seq<nat>)
    requires Between(f, Df, map[], 1, 2) && !HasOperand(load) && Suits(load, 0) && Delta(load) == 1
    requires !HasOperand(store) && Suits(store, 1) && Delta(store) == -1
    ensures Between([load] + f + BinCode(op, numeric) + [store], D, map[], 0, 0)
  {
    hide Between, BinCode;
    var Dl := One(load, 0);
    var D1 := StackDepth.Then([load], Dl, f, Df, 0, 1, 2);
    var Db := BinCodeDepth(op, numeric, 0);
    var D2 := StackDepth.Then([load] + f, D1, BinCode(op, numeric), Db, 0, 2, 1);
    D := StoreDepth([load] + f + BinCode(op, numeric), D2, store, 1);
  }

  lemma SelfUpdateStores(x: string, e: Expr, ls: Locals, t: Type)
    ensures SelfUpdate(x, e, ls, t).Some? ==>
              var op := SelfUpdate(x, e, ls, t).value.0; op == ADD_TO_LOCAL || op == SUB_TO_LOCAL || op == MUL_TO_LOCAL
  {
    hide TypeOf;
  }

  lemma AssignDepth(x: string, op: AssignOp, e: Expr, ls: Locals, k: nat, s: nat) returns (D: seq<nat>)
    requires s < |ls|
    ensures Between(AssignCode(x, op, e, ls, k, s).0.code, D, map[], 0, 0)
  {
    hide Between, AddedConst, AddedLocal, SelfUpdate, ExprCode, TypeOf, BinCode;
    var t, c := ls[s].typ, AssignCode(x, op, e, ls, k, s).0.code;
    if AddedConst(x, op, e, t).Some? || AddedLocal(x, op, e, ls, t).Some? {
      D := OneStatement(c[0]);
    } else if op != Set {
      if Numeric(t) && Numeric(TypeOf(e, ls)) {
        var De := ExprDepth(e, ls, k, 0);
        D := StoreDepth(ExprCode(e, ls, k).code, De, Slot(ToLocalOp(CompoundOp(op)), s), 1);
      } else {
        var De := ExprDepth(e, ls, k, 1);
        D := OperateDepth(ExprCode(e, ls, k).code, De, Slot(GET_LOCAL, s), CompoundOp(op), false, Slot(SET_LOCAL, s));
      }
    } else if SelfUpdate(x, e, ls, t).Some? {
      var u := SelfUpdate(x, e, ls, t).value;
      SelfUpdateStores(x, e, ls, t);
      var De := ExprDepth(u.1, ls, k, 0);
      D := StoreDepth(ExprCode(u.1, ls, k).code, De, Slot(u.0, s), 1);
    } else {
      var De := ExprDepth(e, ls, k, 0);
      D := StoreDepth(ExprCode(e, ls, k).code, De, Slot(SET_LOCAL, s), 1);
    }
  }

  /** Assignment to a name that is no local. An update in place compiles its
      value twice, and leaves the first one behind. */
  lemma GlobalAssignDepth(x: string, op: AssignOp, e: Expr, ls: Locals, k: nat) returns (D: seq<nat>)
    ensures Between(GlobalAssignCode(x, op, e, ls, k).code, D, map[], 0, if op == Set then 0 else 1)
  {
    hide Between, ExprCode, BinCode;
    var f := ExprCode(e, ls, k);
    var k1 := k + |f.ks|;
    var Df := ExprDepth(e, ls, k, 0);
    if op == Set {
      D := StoreDepth(f.code, Df, Global(SET_GLOBAL, k1), 1);
    } else {
      var g, cop := ExprCode(e, ls, k1 + 1), CompoundOp(op);
      var Dl := One(Global(GET_GLOBAL, k1), 1);
      var Dg := ExprDepth(e, ls, k1 + 1, 2);
      var Db := BinCodeDepth(cop, false, 1);
      var Ds := One(Global(SET_GLOBAL, k1), 2);
      var c1 := f.code + [Global(GET_GLOBAL, k1)];
      var D1 := StackDepth.Then(f.code, Df, [Global(GET_GLOBAL, k1)], Dl, 0, 1, 2);
      var D2 := StackDepth.Then(c1, D1, g.code, Dg, 0, 2, 3);
      var D3 := StackDepth.Then(c1 + g.code, D2, BinCode(cop, false), Db, 0, 3, 2);
      D := StackDepth.Then(c1 + g.code + BinCode(cop, false), D3, [Global(SET_GLOBAL, k1)], Ds, 0, 2, 1);
    }
  }

  // -------------------------------------------------------------- conditions

  lemma HeadDepth(c: Expr, ls: Locals, k: nat, t: nat) returns (D: seq<nat>)
    ensures var h := IfHead(c, ls, k, t).code; Between(h, D, map[|h| + t := 0], 0, 0)
  {
    hide ExprCode, WithJump, MatchLessEqual, MatchDivisible;
    var h := IfHead(c, ls, k, t).code;
    if MatchLessEqual(c, ls).Some? || MatchDivisible(c, ls).Some? {
      D := [0, 0];
    } else {
      D := CondDepth(c, ls, k, t, 0);
    }
  }

  lemma LoopHeadDepth(c: Option<Expr>, ls: Locals, k: nat, t: nat) returns (D: seq<nat>)
    ensures var h := LoopHead(c, ls, k, t).code; Between(h, D, map[|h| + t := 0], 0, 0)
  {
    hide ExprCode, WithJump;
    if c.None? { D := [0]; } else { D := CondDepth(c.value, ls, k, t, 0); }
  }

  lemma BackDepth(m: nat) returns (D: seq<nat>)
    ensures Between([Jump(LOOP, m)], D, map[1 - m := 0], 0, 0) && D == [0, 0]
  {
    D := [0, 0];
  }

  lemma OverDepth(t: nat) returns (D: seq<nat>)
    ensures Between([Jump(JUMP, t)], D, map[1 + t := 0], 0, 0) && D == [0, 0]
  {
    D := [0, 0];
  }

  lemma {:induction false} ArgsDepth(args: seq<Expr>, ls: Locals, k: nat) returns (D: seq<nat>)
    ensures Between(ArgsCode(args, ls, k).code, D, map[], 0, |args|)
  {
    hide ExprCode, Between;
    if |args| == 0 {
      D := [0];
      NothingDepth();
    } else {
      var front, last := args[..|args| - 1], args[|args| - 1];
      var f := ArgsCode(front, ls, k);
      var Df := ArgsDepth(front, ls, k);
      var Dg := ExprDepth(last, ls, k + |f.ks|, |args| - 1);
      D := StackDepth.Then(f.code, Df, ExprCode(last, ls, k + |f.ks|).code, Dg, 0, |args| - 1, |args|);
    }
  }

  lemma NothingDepth()
    ensures Between([], [0], map[], 0, 0)
  {
  }

  // -------------------------------------------------------------- statements

  /** Every statement, from no operands to none. */
  lemma {:induction false} StmtDepths(s: Stmt, ls: Locals, k: nat, lc: LoopCtx) returns (D: seq<nat>)
    requires Tidy(s, NamesOf(ls))
    ensures Between(StmtCode(s, ls, k, lc).code, D, LoopExt(lc), 0, 0)
    decreases s, 1
  {
    hide ExprCode, Between, AssignCode, GlobalAssignCode, TypeOf, LoopExt;
    match s
    case Let(x, d, e) =>
      var De := ExprDepth(e, ls, k, 0);
      D := StoreDepth(ExprCode(e, ls, k).code, De, Slot(SET_LOCAL, |ls|), 1);
      NoPlaces(StmtCode(s, ls, k, lc).code, D, LoopExt(lc), 0, 0);
    case Assign(x, op, e) =>
      SlotNamed(ls, x);
      if SlotOf(ls, x) >= 0 { D := AssignDepth(x, op, e, ls, k, SlotOf(ls, x)); }
      else { D := GlobalAssignDepth(x, op, e, ls, k); }
      NoPlaces(StmtCode(s, ls, k, lc).code, D, LoopExt(lc), 0, 0);
    case ExprStmt(e) =>
      var De := ExprDepth(e, ls, k, 0);
      D := StoreDepth(ExprCode(e, ls, k).code, De, Plain(POP), 1);
      NoPlaces(StmtCode(s, ls, k, lc).code, D, LoopExt(lc), 0, 0);
    case If(_, _, _) => D := IfDepth(s, ls, k, lc);
    case While(_, _) => D := WhileDepth(s, ls, k, lc);
    case DoLoop(_, _) => D := DoDepth(s, ls, k, lc);
    case ForRange(_, _, _, _) => D := ForDepth(s, ls, k, lc);
    case Break => D := LeaveDepth(s, ls, k, lc);
    case Continue => D := LeaveDepth(s, ls, k, lc);
  }

  lemma NoPlaces(c: Prog, D: seq<nat>, ext: map<int, nat>, from: nat, to: nat)
    requires Between(c, D, map[], from, to)
    ensures Between(c, D, ext, from, to)
  {
    Widen(c, D, map[], ext, from, to);
  }

  lemma LeaveDepth(s: Stmt, ls: Locals, k: nat, lc: LoopCtx) returns (D: seq<nat>)
    requires s.Break? || s.Continue?
    ensures Between(StmtCode(s, ls, k, lc).code, D, LoopExt(lc), 0, 0)
  {
    D := [0, 0];
  }

  lemma {:induction false} BlockDepth(b: Block, ls: Locals, k: nat, lc: LoopCtx) returns (D: seq<nat>)
    requires TidyIn(b, NamesOf(ls))
    ensures Between(BlockCode(b, ls, k, lc).code, D, LoopExt(lc), 0, 0)
    decreases b, 0
  {
    hide StmtCode, Between;
    match b
    case Done =>
      D := [0];
      NothingDepth();
      NoPlaces([], D, LoopExt(lc), 0, 0);
    case Then(s, rest) =>
      var f := StmtCode(s, ls, k, lc);
      NamesAfter(s, ls, k, lc);
      var Ds := StmtDepths(s, ls, k, lc);
      var Dr := BlockDepth(rest, f.ls, k + |f.ks|, Shift(lc, |f.code|));
      D := InOrder(f.code, Ds, BlockCode(rest, f.ls, k + |f.ks|, Shift(lc, |f.code|)).code, Dr, lc);
  }

  lemma {:induction false} ScopeDepth(b: Block, ls: Locals, k: nat, lc: LoopCtx) returns (D: seq<nat>)
    requires TidyIn(b, NamesOf(ls))
    ensures Between(ScopeCode(b, ls, k, lc).code, D, LoopExt(lc), 0, 0)
    decreases b, 1
  {
    D := BlockDepth(b, ls, k, lc);
  }

  /** One piece after another in the same loop. */
  lemma InOrder(a: Prog, Da: seq<nat>, b: Prog, Db: seq<nat>, lc: LoopCtx) returns (D: seq<nat>)
    requires Between(a, Da, LoopExt(lc), 0, 0) && Between(b, Db, LoopExt(Shift(lc, |a|)), 0, 0)
    ensures Between(a + b, D, LoopExt(lc), 0, 0)
  {
    D := StackDepth.Join(a, Da, LoopExt(lc), b, Db, LoopExt(Shift(lc, |a|)), LoopExt(lc), 0, 0, 0);
  }

  lemma InOrderAt(a: Prog, Da: seq<nat>, b: Prog, Db: seq<nat>, lc: LoopCtx, i: nat) returns (D: seq<nat>)
    requires Between(a, Da, LoopExt(lc), 0, 0) && Between(b, Db, LoopExt(Shift(lc, |a|)), 0, 0)
    requires |a| <= i <= |a| + |b| && Db[i - |a|] == 0
    ensures Between(a + b, D, LoopExt(lc), 0, 0) && |D| == |a| + |b| + 1 && D[i] == 0
  {
    D := StackDepth.Join(a, Da, LoopExt(lc), b, Db, LoopExt(Shift(lc, |a|)), LoopExt(lc), 0, 0, 0);
  }

  /** A condition and code that it jumps into, between statements. */
  lemma HeadThen(h: Prog, Dh: seq<nat>, t: nat, b: Prog, Db: seq<nat>, lc: LoopCtx) returns (D: seq<nat>)
    requires Between(h, Dh, map[|h| + t := 0], 0, 0) && Between(b, Db, LoopExt(Shift(lc, |h|)), 0, 0)
    requires t < |Db| && Db[t] == 0
    ensures Between(h + b, D, LoopExt(lc), 0, 0) && D == Dh[..|h|] + Db
  {
    D := StackDepth.Join(h, Dh, map[|h| + t := 0], b, Db, LoopExt(Shift(lc, |h|)), LoopExt(lc), 0, 0, 0);
  }

  lemma {:induction false} IfDepth(s: Stmt, ls: Locals, k: nat, lc: LoopCtx) returns (D: seq<nat>)
    requires s.If? && Tidy(s, NamesOf(ls))
    ensures Between(StmtCode(s, ls, k, lc).code, D, LoopExt(lc), 0, 0)
    decreases s, 0
  {
    hide IfHead, ScopeCode, Between, LoopExt;
    var h := IfHead(s.c, ls, k, 0);
    var lc1 := Shift(lc, |h.code|);
    var b1 := ScopeCode(s.thn, ls, k + |h.ks|, lc1);
    var D1 := ScopeDepth(s.thn, ls, k + |h.ks|, lc1);
    BetweenLength(b1.code, D1, LoopExt(lc1), 0, 0);
    if s.els.None? {
      HeadLength(s.c, ls, k, 0, |b1.code|);
      var Dh := HeadDepth(s.c, ls, k, |b1.code|);
      D := HeadThen(IfHead(s.c, ls, k, |b1.code|).code, Dh, |b1.code|, b1.code, D1, lc);
    } else {
      ScopeNames(s.thn, ls, k + |h.ks|, lc1);
      HeadLength(s.c, ls, k, 0, |b1.code| + 1);
      var n1 := |h.code| + |b1.code| + 1;
      var k2 := k + |h.ks| + |b1.ks|;
      var b2 := ScopeCode(s.els.value, b1.ls, k2, Shift(lc, n1));
      var D2 := ScopeDepth(s.els.value, b1.ls, k2, Shift(lc, n1));
      var Dh := HeadDepth(s.c, ls, k, |b1.code| + 1);
      D := ElseDepth(IfHead(s.c, ls, k, |b1.code| + 1).code, Dh, b1.code, D1, b2.code, D2, lc);
    }
  }

  lemma ElseDepth(h: Prog, Dh: seq<nat>, a: Prog, Da: seq<nat>, b: Prog, Db: seq<nat>, lc: LoopCtx) returns (D: seq<nat>)
    requires Between(h, Dh, map[|h| + (|a| + 1) := 0], 0, 0) && Between(a, Da, LoopExt(Shift(lc, |h|)), 0, 0)
    requires Between(b, Db, LoopExt(Shift(lc, |h| + |a| + 1)), 0, 0)
    ensures Between(h + a + [Jump(JUMP, |b|)] + b, D, LoopExt(lc), 0, 0)
  {
    hide Between, LoopExt;
    var lc1 := Shift(lc, |h|);
    var lc2 := Shift(lc1, |a|);
    var over := [Jump(JUMP, |b|)];
    var Do := OverDepth(|b|);
    BetweenLength(b, Db, LoopExt(Shift(lc2, 1)), 0, 0);
    BetweenLength(a, Da, LoopExt(lc1), 0, 0);
    assert |over| == 1;
    var Dob := HeadThen(over, Do, |b|, b, Db, lc2);
    assert Dob[1] == Db[0] by { BetweenLength(over, Do, map[1 + |b| := 0], 0, 0); }
    var Dx := InOrderAt(a, Da, over + b, Dob, lc1, |a| + 1);
    D := HeadThen(h, Dh, |a| + 1, a + (over + b), Dx, lc);
    assert h + (a + (over + b)) == h + a + over + b;
  }

  /** A scope leaves the names as they were. */
  lemma ScopeNames(b: Block, ls: Locals, k: nat, lc: LoopCtx)
    ensures NamesOf(ScopeCode(b, ls, k, lc).ls) == NamesOf(ls)
  {
    hide ScopeCode;
    ScopeLocals(b, ls, k, lc);
  }

  // ------------------------------------------------------------------- loops

  lemma {:induction false} WhileDepth(s: Stmt, ls: Locals, k: nat, lc: LoopCtx) returns (D: seq<nat>)
    requires s.While? && Tidy(s, NamesOf(ls))
    ensures Between(StmtCode(s, ls, k, lc).code, D, LoopExt(lc), 0, 0)
    decreases s, 0
  {
    hide LoopHead, ScopeCode, Between, LoopExt, Fill;
    var h := LoopHead(s.cond, ls, k, 0);
    var inner := Backward(|h.code|);
    var b := ScopeCode(s.body, ls, k + |h.ks|, inner);
    LoopHeadLength(s.cond, ls, k, 0, |b.code| + 1);
    var h' := LoopHead(s.cond, ls, k, |b.code| + 1).code;
    var Dh := LoopHeadDepth(s.cond, ls, k, |b.code| + 1);
    var Db := ScopeDepth(s.body, ls, k + |h.ks|, inner);
    D := BackLoop(h', Dh, b.code, Db, lc);
  }

  /** Head, body, and the jump back to the head; breaks lead to the end. */
  lemma BackLoop(h: Prog, Dh: seq<nat>, b: Prog, Db: seq<nat>, lc: LoopCtx) returns (D: seq<nat>)
    requires Between(h, Dh, map[|h| + (|b| + 1) := 0], 0, 0) && Between(b, Db, LoopExt(Backward(|h|)), 0, 0)
    ensures var code := h + b + [Jump(LOOP, |h| + |b| + 1)];
            Between(Fill(code, BREAK_HOLE, |code|), D, LoopExt(lc), 0, 0)
  {
    hide Between, Fill;
    var back := [Jump(LOOP, |h| + |b| + 1)];
    var Dk := BackDepth(|h| + |b| + 1);
    BetweenLength(b, Db, LoopExt(Backward(|h|)), 0, 0);
    BetweenLength(h, Dh, map[|h| + (|b| + 1) := 0], 0, 0);
    var inner := map[-(|h| as int) := 0];
    var Dbk := StackDepth.Join(b, Db, LoopExt(Backward(|h|)), back, Dk, map[1 - (|h| + |b| + 1) := 0], inner, 0, 0, 0);
    D := StackDepth.Join(h, Dh, map[|h| + (|b| + 1) := 0], b + back, Dbk, inner, map[], 0, 0, 0);
    var code := h + b + back;
    assert h + (b + back) == code;
    BetweenLength(code, D, map[], 0, 0);
    Filled(code, D, map[], BREAK_HOLE, |code|, 0, 0);
    NoPlaces(Fill(code, BREAK_HOLE, |code|), D, LoopExt(lc), 0, 0);
  }

  lemma {:induction false} DoDepth(s: Stmt, ls: Locals, k: nat, lc: LoopCtx) returns (D: seq<nat>)
    requires s.DoLoop? && Tidy(s, NamesOf(ls))
    ensures Between(StmtCode(s, ls, k, lc).code, D, LoopExt(lc), 0, 0)
    decreases s, 0
  {
    hide LoopHead, ScopeCode, Between, Fill;
    var b := ScopeCode(s.body, ls, k, Forward);
    var h := LoopHead(s.cond, b.ls, k + |b.ks|, 1).code;
    var Db := ScopeDepth(s.body, ls, k, Forward);
    var Dh := LoopHeadDepth(s.cond, b.ls, k + |b.ks|, 1);
    var body := Fill(b.code, CONTINUE_HOLE, |b.code|);
    BetweenLength(b.code, Db, map[], 0, 0);
    Filled(b.code, Db, map[], CONTINUE_HOLE, |b.code|, 0, 0);
    BetweenLength(h, Dh, map[|h| + 1 := 0], 0, 0);
    var back := [Jump(LOOP, |b.code| + |h| + 1)];
    var Dk := BackDepth(|b.code| + |h| + 1);
    var start := map[-(|b.code| as int) := 0];
    var Dhk := StackDepth.Join(h, Dh, map[|h| + 1 := 0], back, Dk, map[1 - (|b.code| + |h| + 1) := 0], start, 0, 0, 0);
    D := StackDepth.Join(body, Db, map[], h + back, Dhk, start, map[], 0, 0, 0);
    var code := body + h + back;
    assert body + (h + back) == code;
    BetweenLength(code, D, map[], 0, 0);
    Filled(code, D, map[], BREAK_HOLE, |code|, 0, 0);
    NoPlaces(Fill(code, BREAK_HOLE, |code|), D, LoopExt(lc), 0, 0);
  }

  lemma {:induction false} ForDepth(s: Stmt, ls: Locals, k: nat, lc: LoopCtx) returns (D: seq<nat>)
    requires s.ForRange? && Tidy(s, NamesOf(ls))
    ensures Between(StmtCode(s, ls, k, lc).code, D, LoopExt(lc), 0, 0)
    decreases s, 0
  {
    hide ArgsCode, RangeLoop, Between, Fill, LoopExt, RangeLocals;
    var n, ls1 := |ls|, ls + RangeLocals(s.x);
    var a := ArgsCode(s.args, ls1, k);
    assert NamesOf(ls1) == NamesOf(ls) + NamesOf(RangeLocals(s.x));
    var Da := ArgsDepth(s.args, ls1, k);
    var init := RangeInit(n + 1, n + 2, n + 3, |s.args|);
    var D1 := StoreDepth(a.code, Da, init, |s.args|);
    var loop := RangeLoop(n, s.filter, s.body, ls1, k + |a.ks|).code;
    var D2 := RangeLoopDepth(n, s.filter, s.body, ls1, k + |a.ks|);
    BetweenLength(loop, D2, map[], 0, 0);
    Filled(loop, D2, map[], BREAK_HOLE, |loop|, 0, 0);
    D := StackDepth.Then(a.code + [init], D1, Fill(loop, BREAK_HOLE, |loop|), D2, 0, 0, 0);
    NoPlaces(a.code + [init] + Fill(loop, BREAK_HOLE, |loop|), D, LoopExt(lc), 0, 0);
  }

  lemma NextDepth(n: nat, t: nat) returns (D: seq<nat>)
    ensures Between([RangeNext(n + 1, n + 2, n + 3, n, t)], D, map[1 + t := 0], 0, 0) && D == [0, 0]
  {
    D := [0, 0];
  }

  lemma BacksDepth(filter: bool, m: nat) returns (D: seq<nat>)
    requires m > 0
    ensures var back := if filter then [Jump(LOOP, m), Jump(LOOP, m + 1)] else [Jump(LOOP, m)];
            Between(back, D, map[1 - m := 0], 0, 0) && |D| == |back| + 1 && D[1] == 0
  {
    D := if filter then [0, 0, 0] else [0, 0];
  }

  lemma {:induction false} RangeLoopDepth(n: nat, filter: Option<Expr>, body: Block, ls: Locals, k: nat)
    returns (D: seq<nat>)
    requires TidyIn(body, NamesOf(ls))
    ensures Between(RangeLoop(n, filter, body, ls, k).code, D, map[], 0, 0)
    decreases body, 2
  {
    hide LoopHead, ScopeCode, Between, LoopExt;
    var h := LoopHead(filter, ls, k, 0);
    var inner := Backward(1 + |h.code|);
    var b := ScopeCode(body, ls, k + |h.ks|, inner);
    LoopHeadLength(filter, ls, k, 0, |b.code| + 1);
    var h' := LoopHead(filter, ls, k, |b.code| + 1).code;
    var Dh := LoopHeadDepth(filter, ls, k, |b.code| + 1);
    var Db := ScopeDepth(body, ls, k + |h.ks|, inner);
    D := RangeBody(n, filter.Some?, h', Dh, b.code, Db);
  }

  lemma RangeBody(n: nat, filter: bool, h: Prog, Dh: seq<nat>, b: Prog, Db: seq<nat>) returns (D: seq<nat>)
    requires Between(h, Dh, map[|h| + (|b| + 1) := 0], 0, 0) && Between(b, Db, LoopExt(Backward(1 + |h|)), 0, 0)
    ensures var m := 1 + |h| + |b| + 1;
            var back := if filter then [Jump(LOOP, m), Jump(LOOP, m + 1)] else [Jump(LOOP, m)];
            var tail := h + b + back;
            Between([RangeNext(n + 1, n + 2, n + 3, n, |tail|)] + tail, D, map[], 0, 0)
  {
    hide Between;
    var m := 1 + |h| + |b| + 1;
    var back := if filter then [Jump(LOOP, m), Jump(LOOP, m + 1)] else [Jump(LOOP, m)];
    var tail := h + b + back;
    var Dk := BacksDepth(filter, m);
    var Dn := NextDepth(n, |tail|);
    BetweenLength(b, Db, LoopExt(Backward(1 + |h|)), 0, 0);
    BetweenLength(h, Dh, map[|h| + (|b| + 1) := 0], 0, 0);
    var e1, e2 := map[-(1 + |h|) := 0], map[-1 := 0];
    var Dbk := StackDepth.Join(b, Db, LoopExt(Backward(1 + |h|)), back, Dk, map[1 - m := 0], e1, 0, 0, 0);
    var Dt := StackDepth.Join(h, Dh, map[|h| + (|b| + 1) := 0], b + back, Dbk, e1, e2, 0, 0, 0);
    assert h + (b + back) == tail;
    BetweenLength(tail, Dt, e2, 0, 0);
    D := StackDepth.Join([RangeNext(n + 1, n + 2, n + 3, n, |tail|)], Dn, map[1 + |tail| := 0], tail, Dt, e2, map[], 0, 0, 0);
  }
}
