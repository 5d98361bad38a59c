/** Clean programs are compiled right: in every statement, each conditional jump
    sees its own window. */
module CleanScript {
  import opened Options
  import opened Machine
  import opened Assembly
  import opened Source
  import opened CodeGen
  import opened ExprCorrect
  import opened Layout
  import opened Peephole
  import opened Alignment
  import opened Conditions
  import opened CompilerState
  import opened LoopState
  import opened StmtParts
  import opened StmtCorrect
  import opened CleanCode
  import RawExact

  /** An expression whose code is followed by d. */
  lemma ExprAt(p: Prog, e: Expr, ls: Locals, k: nat, d: Prog, all: Prog)
    requires Clean(all) && Like(p + (ExprCode(e, ls, k).code + d), all)
    ensures ExprAligned(p, e, ls, k)
  {
    hide Clean, ExprCode, Like, ExprAligned, Stands;
    var c := ExprCode(e, ls, k).code;
    assert p + (c + d) == p + c + d;
    StandsIn(p, e, ls, k, d, all);
    ExprClean(p, e, ls, k, all);
  }

  lemma AssignClean(p: Prog, x: string, op: AssignOp, e: Expr, ls: Locals, k: nat, s: nat, all: Prog)
    requires s < |ls| && Clean(all) && Like(p + AssignCode(x, op, e, ls, k, s).0.code, all)
    ensures AssignAligned(p, x, op, e, ls, k, s)
  {
    hide Clean, ExprCode, Like, ExprAligned, AddedConst, AddedLocal, SelfUpdate, TypeOf, BinCode;
    var t := ls[s].typ;
    if AddedConst(x, op, e, t).None? && AddedLocal(x, op, e, ls, t).None? {
      if op != Set {
        var c := ExprCode(e, ls, k).code;
        if Numeric(t) && Numeric(TypeOf(e, ls)) {
          ExprAt(p, e, ls, k, [Slot(ToLocalOp(CompoundOp(op)), s)], all);
        } else {
          var d := BinCode(CompoundOp(op), false) + [Slot(SET_LOCAL, s)];
          assert p + [Slot(GET_LOCAL, s)] + (c + d) == p + ([Slot(GET_LOCAL, s)] + c + BinCode(CompoundOp(op), false) + [Slot(SET_LOCAL, s)]);
          ExprAt(p + [Slot(GET_LOCAL, s)], e, ls, k, d, all);
        }
      } else {
        var u := SelfUpdate(x, e, ls, t);
        if u.Some? { ExprAt(p, u.value.1, ls, k, [Slot(u.value.0, s)], all); }
        else { ExprAt(p, e, ls, k, [Slot(SET_LOCAL, s)], all); }
      }
    }
  }

  lemma GlobalAssignClean(p: Prog, x: string, op: AssignOp, e: Expr, ls: Locals, k: nat, all: Prog)
    requires Clean(all) && Like(p + GlobalAssignCode(x, op, e, ls, k).code, all)
    ensures GlobalAssignAligned(p, x, op, e, ls, k)
  {
    hide Clean, ExprCode, Like, ExprAligned, BinCode;
    var f := ExprCode(e, ls, k);
    var k1 := k + |f.ks|;
    if op == Set {
      ExprAt(p, e, ls, k, [Global(SET_GLOBAL, k1)], all);
    } else {
      var g := ExprCode(e, ls, k1 + 1).code;
      var end := BinCode(CompoundOp(op), false) + [Global(SET_GLOBAL, k1)];
      var q := p + f.code + [Global(GET_GLOBAL, k1)];
      var whole := p + GlobalAssignCode(x, op, e, ls, k).code;
      assert whole == p + (f.code + ([Global(GET_GLOBAL, k1)] + g + end));
      ExprAt(p, e, ls, k, [Global(GET_GLOBAL, k1)] + g + end, all);
      assert whole == q + (g + end);
      ExprAt(q, e, ls, k1 + 1, end, all);
    }
  }

  lemma {:induction false} ArgsClean(p: Prog, args: seq<Expr>, ls: Locals, k: nat, d: Prog, all: Prog)
    requires Clean(all) && Like(p + (ArgsCode(args, ls, k).code + d), all)
    ensures ArgsAligned(p, args, ls, k)
    decreases |args|
  {
    hide Clean, ExprCode, Like, ExprAligned;
    if |args| > 0 {
      var n := |args| - 1;
      var f := ArgsCode(args[..n], ls, k);
      var c := ExprCode(args[n], ls, k + |f.ks|).code;
      assert p + (ArgsCode(args, ls, k).code + d) == p + (f.code + (c + d)) == p + f.code + (c + d);
      ArgsClean(p, args[..n], ls, k, c + d, all);
      ExprAt(p + f.code, args[n], ls, k + |f.ks|, d, all);
    }
  }

  lemma HeadLike(c: Expr, ls: Locals, k: nat, t: int, u: int)
    ensures Like(IfHead(c, ls, k, t).code, IfHead(c, ls, k, u).code)
    ensures |IfHead(c, ls, k, t).code| == |IfHead(c, ls, k, u).code|
  {
    hide ExprCode, MatchLessEqual, MatchDivisible, WithJump;
    JumpLike(ExprCode(c, ls, k).code, JUMP_IF_FALSE_POP, t, u);
  }

  lemma LoopHeadLike(c: Option<Expr>, ls: Locals, k: nat, t: int, u: int)
    ensures Like(LoopHead(c, ls, k, t).code, LoopHead(c, ls, k, u).code)
    ensures |LoopHead(c, ls, k, t).code| == |LoopHead(c, ls, k, u).code|
  {
    hide ExprCode, WithJump;
    if c.Some? { JumpLike(ExprCode(c.value, ls, k).code, JUMP_IF_FALSE_POP, t, u); }
  }

  lemma HeadClean(p: Prog, c: Expr, ls: Locals, k: nat, t: int, all: Prog)
    requires Clean(all) && Like(p + IfHead(c, ls, k, t).code, all)
    ensures HeadAligned(p, c, ls, k)
  {
    hide Clean, ExprCode, Like, ConditionAligned, MatchLessEqual, MatchDivisible, WithJump;
    if MatchLessEqual(c, ls).None? && MatchDivisible(c, ls).None? { CondClean(p, c, ls, k, t, all); }
  }

  lemma LoopHeadClean(p: Prog, c: Option<Expr>, ls: Locals, k: nat, t: int, all: Prog)
    requires Clean(all) && Like(p + LoopHead(c, ls, k, t).code, all)
    ensures LoopHeadAligned(p, c, ls, k)
  {
    hide Clean, ExprCode, Like, ConditionAligned, WithJump;
    if c.Some? { CondClean(p, c.value, ls, k, t, all); }
  }

  lemma FillLike(c: Prog, hole: int, t: int)
    requires hole < 0
    ensures Like(c, Fill(c, hole, t))
  {
    forall i | 0 <= i < |c| ensures Alike(c[i], Fill(c, hole, t)[i]) {
      if c[i] == Jump(JUMP, hole) { assert Fill(c, hole, t)[i] == Jump(JUMP, t - i - 1); }
    }
  }

  /** The front a + b of d, when a may still wait. */
  lemma FrontLike(p: Prog, a: Prog, a': Prog, b: Prog, rest: Prog, d: Prog, all: Prog)
    requires Like(a, a') && |a| == |a'| && Like(a' + b + rest, d) && Like(p + d, all)
    ensures Like(p + a, all) && Like(p + a + b, all)
  {
    hide Alike;
    SelfLike(b);
    LikeJoined(a, a', b, b);
    LikeSelf(a' + b, rest);
    LikeThen(a + b, a' + b, a' + b + rest);
    LikeThen(a + b, a' + b + rest, d);
    LikeBehind(p, a + b, d);
    LikeThen(p + (a + b), p + d, all);
    assert p + (a + b) == p + a + b;
    LikeSelf(p + a, b);
    LikeThen(p + a, p + a + b, all);
  }

  lemma SelfLike(c: Prog)
    ensures Like(c, c)
  {
  }

  lemma {:induction false} StmtClean(p: Prog, s: Stmt, ls: Locals, k: nat, lc: LoopCtx, all: Prog)
    requires Clean(all) && Like(p + StmtCode(s, ls, k, lc).code, all)
    ensures StmtAligned(p, s, ls, k, lc)
    decreases s, 1
  {
    hide Clean, ExprCode, Like, ExprAligned, AssignCode, GlobalAssignCode, AssignAligned, GlobalAssignAligned, SlotOf,
         ScopeCode, BlockAligned, LoopHead, IfHead, RangeLoop, ArgsCode, Fill, HeadAligned, LoopHeadAligned,
         ArgsAligned;
    match s
    case Let(_, _, e) => ExprAt(p, e, ls, k, [Slot(SET_LOCAL, |ls|)], all);
    case Assign(x, op, e) =>
      AssignStmtCode(x, op, e, ls, k, lc);
      if SlotOf(ls, x) >= 0 { AssignClean(p, x, op, e, ls, k, SlotOf(ls, x), all); }
      else { GlobalAssignClean(p, x, op, e, ls, k, all); }
    case ExprStmt(e) => ExprAt(p, e, ls, k, [Plain(POP)], all);
    case If(_, _, _) => IfClean(p, s, ls, k, lc, all);
    case While(c, body) => WhileClean(p, c, body, ls, k, lc, all);
    case DoLoop(body, c) => DoClean(p, body, c, ls, k, lc, all);
    case ForRange(_, _, _, _) => ForClean(p, s, ls, k, lc, all);
    case _ =>
  }

  lemma {:induction false} BlockClean(p: Prog, b: Block, ls: Locals, k: nat, lc: LoopCtx, all: Prog)
    requires Clean(all) && Like(p + ScopeCode(b, ls, k, lc).code, all)
    ensures BlockAligned(p, b, ls, k, lc)
    decreases b, 0
  {
    hide Clean, Like, StmtCode, StmtAligned;
    match b
    case Done =>
    case Then(s, rest) =>
      var f := StmtCode(s, ls, k, lc);
      var g := BlockCode(rest, f.ls, k + |f.ks|, Shift(lc, |f.code|)).code;
      assert p + (f.code + g) == p + f.code + g;
      LikeSelf(p + f.code, g);
      LikeThen(p + f.code, p + f.code + g, all);
      StmtClean(p, s, ls, k, lc, all);
      BlockClean(p + f.code, rest, f.ls, k + |f.ks|, Shift(lc, |f.code|), all);
  }

  lemma {:induction false} IfClean(p: Prog, s: Stmt, ls: Locals, k: nat, lc: LoopCtx, all: Prog)
    requires s.If? && Clean(all) && Like(p + StmtCode(s, ls, k, lc).code, all)
    ensures StmtAligned(p, s, ls, k, lc)
    decreases s, 0
  {
    hide Clean, Like, StmtCode, ScopeCode, IfHead, BlockAligned, HeadAligned;
    IfCode(s, ls, k, lc);
    var h := IfHead(s.c, ls, k, PENDING);
    var lc1, k1 := Shift(lc, |h.code|), k + |h.ks|;
    var f := ScopeCode(s.thn, ls, k1, lc1);
    var whole := StmtCode(s, ls, k, lc).code;
    SelfLike(whole);
    if s.els.None? {
      var h1 := IfHead(s.c, ls, k, |f.code|).code;
      HeadLike(s.c, ls, k, PENDING, |f.code|);
      assert whole == h1 + f.code + [];
      FrontLike(p, h.code, h1, f.code, [], whole, all);
      HeadClean(p, s.c, ls, k, PENDING, all);
      BlockClean(p + h.code, s.thn, ls, k1, lc1, all);
    } else {
      var h1 := IfHead(s.c, ls, k, |f.code| + 1).code;
      var lc2 := Shift(lc, |h.code| + |f.code| + 1);
      var g := ScopeCode(s.els.value, f.ls, k1 + |f.ks|, lc2).code;
      HeadLike(s.c, ls, k, PENDING, |f.code| + 1);
      assert whole == h1 + f.code + ([Jump(JUMP, |g|)] + g);
      FrontLike(p, h.code, h1, f.code, [Jump(JUMP, |g|)] + g, whole, all);
      HeadClean(p, s.c, ls, k, PENDING, all);
      BlockClean(p + h.code, s.thn, ls, k1, lc1, all);
      OverLike(h1 + f.code, |g|);
      assert whole == h1 + f.code + [Jump(JUMP, |g|)] + g + [];
      FrontLike(p, h1 + f.code + [Jump(JUMP, PENDING)], h1 + f.code + [Jump(JUMP, |g|)], g, [], whole, all);
      assert p + (h1 + f.code + [Jump(JUMP, PENDING)]) == p + h1 + f.code + [Jump(JUMP, PENDING)];
      BlockClean(p + h1 + f.code + [Jump(JUMP, PENDING)], s.els.value, f.ls, k1 + |f.ks|, lc2, all);
    }
  }

  lemma OverLike(c: Prog, t: int)
    ensures Like(c + [Jump(JUMP, PENDING)], c + [Jump(JUMP, t)])
  {
  }

  lemma {:induction false} WhileClean(p: Prog, c: Option<Expr>, body: Block, ls: Locals, k: nat, lc: LoopCtx, all: Prog)
    requires Clean(all) && Like(p + StmtCode(While(c, body), ls, k, lc).code, all)
    ensures StmtAligned(p, While(c, body), ls, k, lc)
    decreases body, 4
  {
    hide Clean, Like, StmtCode, ScopeCode, LoopHead, BlockAligned, LoopHeadAligned, Fill;
    WhileIsRaw(c, body, ls, k, lc);
    var h := LoopHead(c, ls, k, PENDING);
    var f := ScopeCode(body, ls, k + |h.ks|, Backward(|h.code|)).code;
    var h1 := LoopHead(c, ls, k, |f| + 1).code;
    var raw := h1 + f + [Jump(LOOP, |h.code| + |f| + 1)];
    LoopHeadLike(c, ls, k, PENDING, |f| + 1);
    FillLike(raw, BREAK_HOLE, |raw|);
    FrontLike(p, h.code, h1, f, [Jump(LOOP, |h.code| + |f| + 1)], Fill(raw, BREAK_HOLE, |raw|), all);
    LoopHeadClean(p, c, ls, k, PENDING, all);
    BlockClean(p + h.code, body, ls, k + |h.ks|, Backward(|h.code|), all);
  }

  lemma {:induction false} DoClean(p: Prog, body: Block, c: Option<Expr>, ls: Locals, k: nat, lc: LoopCtx, all: Prog)
    requires Clean(all) && Like(p + StmtCode(DoLoop(body, c), ls, k, lc).code, all)
    ensures StmtAligned(p, DoLoop(body, c), ls, k, lc)
    decreases body, 4
  {
    hide Clean, Like, StmtCode, ScopeCode, LoopHead, BlockAligned, LoopHeadAligned, Fill;
    DoIsRaw(body, c, ls, k, lc);
    var f := ScopeCode(body, ls, k, Forward);
    var h := LoopHead(c, f.ls, k + |f.ks|, 1).code;
    var b := Fill(f.code, CONTINUE_HOLE, |f.code|);
    var raw := b + h + [Jump(LOOP, |f.code| + |h| + 1)];
    FillLike(f.code, CONTINUE_HOLE, |f.code|);
    FillLike(raw, BREAK_HOLE, |raw|);
    FrontLike(p, f.code, b, h, [Jump(LOOP, |f.code| + |h| + 1)], Fill(raw, BREAK_HOLE, |raw|), all);
    SelfLike(b);
    FrontLike(p, b, b, h, [Jump(LOOP, |f.code| + |h| + 1)], Fill(raw, BREAK_HOLE, |raw|), all);
    BlockClean(p, body, ls, k, Forward, all);
    LoopHeadClean(p + b, c, f.ls, k + |f.ks|, 1, all);
  }

  lemma {:induction false} ForClean(p: Prog, s: Stmt, ls: Locals, k: nat, lc: LoopCtx, all: Prog)
    requires s.ForRange? && Clean(all) && Like(p + StmtCode(s, ls, k, lc).code, all)
    ensures StmtAligned(p, s, ls, k, lc)
    decreases s, 0
  {
    hide Clean, Like, StmtCode, ScopeCode, LoopHead, BlockAligned, LoopHeadAligned, Fill, ArgsCode, ArgsAligned,
         RangeLoop;
    var n, ls1 := |ls|, ls + RangeLocals(s.x);
    var a := ArgsCode(s.args, ls1, k);
    var k1 := k + |a.ks|;
    var init := RangeInit(n + 1, n + 2, n + 3, |s.args|);
    var loop := RangeLoop(n, s.filter, s.body, ls1, k1).code;
    var rest := Fill(loop, BREAK_HOLE, |loop|);
    RangeCodeIs(s, ls, k, lc);
    assert p + (a.code + ([init] + rest)) == p + (a.code + [init] + rest);
    ArgsClean(p, s.args, ls1, k, [init] + rest, all);
    FillLike(loop, BREAK_HOLE, |loop|);
    assert p + (a.code + [init] + rest) == p + a.code + [init] + rest;
    LikeBehind(p + a.code + [init], loop, rest);
    LikeThen(p + a.code + [init] + loop, p + a.code + [init] + rest, all);
    RangeClean(p + a.code + [init], n, s.filter, s.body, ls1, k1, all);
    assert p + a.code + [init] + [WaitingNext(n)] == p + a.code + [init, WaitingNext(n)];
  }

  lemma RangeCodeIs(s: Stmt, ls: Locals, k: nat, lc: LoopCtx)
    requires s.ForRange?
    ensures var n, ls1 := |ls|, ls + RangeLocals(s.x);
            var a := ArgsCode(s.args, ls1, k);
            var loop := RangeLoop(n, s.filter, s.body, ls1, k + |a.ks|).code;
            StmtCode(s, ls, k, lc).code ==
            a.code + [RangeInit(n + 1, n + 2, n + 3, |s.args|)] + Fill(loop, BREAK_HOLE, |loop|)
  {
    hide ArgsCode, RangeLoop, Fill;
  }

  lemma {:induction false} RangeClean(p: Prog, n: nat, filter: Option<Expr>, body: Block, ls: Locals, k: nat, all: Prog)
    requires Clean(all) && Like(p + RangeLoop(n, filter, body, ls, k).code, all)
    ensures var p1 := p + [WaitingNext(n)];
            var h := LoopHead(filter, ls, k, PENDING);
            LoopHeadAligned(p1, filter, ls, k) &&
            BlockAligned(p1 + h.code, body, ls, k + |h.ks|, Backward(1 + |h.code|))
    decreases body, 2
  {
    hide Clean, Like, ScopeCode, LoopHead, BlockAligned, LoopHeadAligned, RangeLoop;
    RawExact.RangeIs(n, filter, body, ls, k);
    var h := LoopHead(filter, ls, k, PENDING);
    var f := ScopeCode(body, ls, k + |h.ks|, Backward(1 + |h.code|)).code;
    var m: nat := 1 + |h.code| + |f| + 1;
    var h1 := LoopHead(filter, ls, k, |f| + 1).code;
    var tail := h1 + f + LoopBack(filter, m);
    var first := [RangeNext(n + 1, n + 2, n + 3, n, |tail|)];
    LoopHeadLike(filter, ls, k, PENDING, |f| + 1);
    NextLike(n, |tail|);
    LikeJoined([WaitingNext(n)], first, h.code, h1);
    assert first + tail == first + h1 + f + LoopBack(filter, m);
    SelfLike(first + tail);
    FrontLike(p, [WaitingNext(n)] + h.code, first + h1, f, LoopBack(filter, m), first + tail, all);
    assert p + ([WaitingNext(n)] + h.code) == p + [WaitingNext(n)] + h.code;
    LoopHeadClean(p + [WaitingNext(n)], filter, ls, k, PENDING, all);
    BlockClean(p + [WaitingNext(n)] + h.code, body, ls, k + |h.ks|, Backward(1 + |h.code|), all);
  }

  lemma NextLike(n: nat, t: int)
    ensures Like([WaitingNext(n)], [RangeNext(n + 1, n + 2, n + 3, n, t)])
  {
  }

  /** A script whose laid-out code is clean is compiled to it. */
  lemma CleanAligned(b: Block)
    requires Clean(ProgramCode(b).code)
    ensures BlockAligned([], b, [], 0, NoLoop)
  {
    hide Clean, Like, BlockAligned;
    var c := BlockCode(b, [], 0, NoLoop).code;
    assert [] + c == c;
    LikeSelf(c, [Plain(NIL), Plain(RETURN)]);
    BlockClean([], b, [], 0, NoLoop, ProgramCode(b).code);
  }

  // ------------------------------------------------------------- small scripts

  ghost predicate NoneBackward(c: Prog) { forall i :: 0 <= i < |c| ==> !IsBackward(c[i]) }

  lemma FewClean(c: Prog, n: nat, i: nat)
    requires i < n && n <= |c| && InstrOk(c[i], i, n, 7, 7, INSIDE) && !IsBackward(c[i])
    ensures CleanAt(c, i)
  {
    SevenBytes();
    hide Low8, Hi, Lo, CleanByte;
    var ins := WithOperand(c[i], 0);
    forall n | 1 <= n < Size(ins) ensures CleanByte(Encode(ins)[n]) { }
  }

  lemma SevenBytes()
    ensures forall s: nat :: s < 7 ==> CleanByte(Low8(s)) && CleanByte(Hi(s)) && CleanByte(Lo(s))
    ensures CleanByte(Hi(0)) && CleanByte(Lo(0))
  {
  }

  /** At most seven locals at once and seven constants: nothing but the distances
      of backward jumps can be misread. */
  lemma FewNamesAligned(b: Block)
    requires var f := ProgramCode(b);
             f.ok && f.max <= 7 && |f.ks| <= 7 &&
             forall i :: 0 <= i < |f.code| && IsBackward(f.code[i]) ==> CleanAt(f.code, i)
    ensures BlockAligned([], b, [], 0, NoLoop)
  {
    hide BlockCode, BlockAligned, CleanAt, InstrOk, FragOk;
    var f := BlockCode(b, [], 0, NoLoop);
    var c := ProgramCode(b).code;
    BlockOk(b, [], 0, NoLoop);
    WidenOk(f.code, f.max, |f.ks|, INSIDE, 7, 7, INSIDE);
    OneOk(Plain(NIL), 7, 7, INSIDE) by { EndOk(NIL); }
    ThenOk(f.code, [Plain(NIL)], 7, 7, INSIDE);
    OneOk(Plain(RETURN), 7, 7, INSIDE) by { EndOk(RETURN); }
    ThenOk(f.code + [Plain(NIL)], [Plain(RETURN)], 7, 7, INSIDE);
    assert c == f.code + [Plain(NIL)] + [Plain(RETURN)];
    forall i | 0 <= i < |c| ensures CleanAt(c, i) {
      if !IsBackward(c[i]) {
        InstrIn(c, i);
        FewClean(c, |c|, i);
      }
    }
    CleanAll(c);
    CleanAligned(b);
  }

  lemma EndOk(op: byte)
    requires op == NIL || op == RETURN
    ensures InstrOk(Plain(op), 0, 1, 7, 7, INSIDE)
  {
  }

  lemma InstrIn(c: Prog, i: nat)
    requires FragOk(c, 7, 7, INSIDE) && i < |c|
    ensures InstrOk(c[i], i, |c|, 7, 7, INSIDE)
  {
  }

  predicate LoopFree(s: Stmt) {
    match s
    case If(_, thn, els) => BlockLoopFree(thn) && (els.Some? ==> BlockLoopFree(els.value))
    case While(_, _) => false
    case DoLoop(_, _) => false
    case ForRange(_, _, _, _) => false
    case _ => true
  }

  predicate BlockLoopFree(b: Block) {
    match b
    case Done => true
    case Then(s, rest) => LoopFree(s) && BlockLoopFree(rest)
  }

  lemma JoinForward(a: Prog, b: Prog)
    requires NoneBackward(a) && NoneBackward(b)
    ensures NoneBackward(a + b)
  {
  }

  lemma OneForward(ins: Instr)
    requires !IsBackward(ins)
    ensures NoneBackward([ins])
  {
  }

  lemma JumpForward(c: Prog, t: int)
    requires NoneBackward(c)
    ensures NoneBackward(WithJump(c, JUMP_IF_FALSE_POP, t))
  {
  }

  lemma BinForward(op: BinOp, numeric: bool)
    ensures NoneBackward(BinCode(op, numeric))
  {
  }

  lemma {:induction false} ExprForward(e: Expr, ls: Locals, k: nat)
    ensures NoneBackward(ExprCode(e, ls, k).code)
  {
    hide EvalConst, SlotOf, TypeOf, WithJump, BinCode, AndCode, OrCode;
    match e
    case Group(e1) => ExprForward(e1, ls, k);
    case Neg(e1) => ExprForward(e1, ls, k);
    case Not(e1) => ExprForward(e1, ls, k);
    case Bin(op, l, r) =>
      var fl := ExprCode(l, ls, k);
      var fr := ExprCode(r, ls, k + |fl.ks|);
      ExprForward(l, ls, k);
      ExprForward(r, ls, k + |fl.ks|);
      BinParts(e, ls, k);
      LogicForward(fl.code, fr.code);
      BinForward(op, Numeric(TypeOf(l, ls)) && Numeric(TypeOf(r, ls)));
      JoinForward(fl.code, fr.code);
      JoinForward(fl.code + fr.code, BinCode(op, Numeric(TypeOf(l, ls)) && Numeric(TypeOf(r, ls))));
    case _ =>
  }

  lemma LogicForward(l: Prog, r: Prog)
    requires NoneBackward(l) && NoneBackward(r)
    ensures NoneBackward(AndCode(l, r)) && NoneBackward(OrCode(l, r))
  {
    hide WithJump;
    var rj := WithJump(r, JUMP_IF_FALSE_POP, 2);
    JumpForward(l, |rj| + 2);
    JumpForward(l, 2);
    JumpForward(r, 2);
  }

  lemma AssignForward(x: string, op: AssignOp, e: Expr, ls: Locals, k: nat, s: nat)
    requires s < |ls|
    ensures NoneBackward(AssignCode(x, op, e, ls, k, s).0.code)
  {
    hide ExprCode, AddedConst, AddedLocal, TypeOf, BinCode, SelfUpdate;
    ExprForward(e, ls, k);
    BinForward(CompoundOp(op), false);
    var u := SelfUpdate(x, e, ls, ls[s].typ);
    if u.Some? { ExprForward(u.value.1, ls, k); }
  }

  lemma GlobalAssignForward(x: string, op: AssignOp, e: Expr, ls: Locals, k: nat)
    ensures NoneBackward(GlobalAssignCode(x, op, e, ls, k).code)
  {
    hide ExprCode, BinCode;
    var f := ExprCode(e, ls, k);
    ExprForward(e, ls, k);
    ExprForward(e, ls, k + |f.ks| + 1);
    BinForward(CompoundOp(op), false);
  }

  lemma HeadForward(c: Expr, ls: Locals, k: nat, t: int)
    ensures NoneBackward(IfHead(c, ls, k, t).code)
  {
    hide ExprCode, MatchLessEqual, MatchDivisible, WithJump;
    ExprForward(c, ls, k);
    JumpForward(ExprCode(c, ls, k).code, t);
  }

  lemma {:induction false} StmtForward(s: Stmt, ls: Locals, k: nat, lc: LoopCtx)
    requires LoopFree(s) && !lc.Backward?
    ensures NoneBackward(StmtCode(s, ls, k, lc).code)
    decreases s, 1
  {
    hide ExprCode, AssignCode, GlobalAssignCode, SlotOf, IfHead, ScopeCode, NoneBackward;
    match s
    case Let(_, _, e) =>
      ExprForward(e, ls, k);
      OneForward(Slot(SET_LOCAL, |ls|));
      JoinForward(ExprCode(e, ls, k).code, [Slot(SET_LOCAL, |ls|)]);
    case Assign(x, op, e) =>
      AssignStmtCode(x, op, e, ls, k, lc);
      if SlotOf(ls, x) >= 0 { AssignForward(x, op, e, ls, k, SlotOf(ls, x)); } else { GlobalAssignForward(x, op, e, ls, k); }
    case ExprStmt(e) =>
      ExprForward(e, ls, k);
      OneForward(Plain(POP));
      JoinForward(ExprCode(e, ls, k).code, [Plain(POP)]);
    case If(c, thn, els) => IfForward(s, ls, k, lc);
    case Break => OneForward(Jump(JUMP, BREAK_HOLE));
    case Continue => OneForward(Jump(JUMP, CONTINUE_HOLE));
  }

  lemma {:induction false} IfForward(s: Stmt, ls: Locals, k: nat, lc: LoopCtx)
    requires s.If? && LoopFree(s) && !lc.Backward?
    ensures NoneBackward(StmtCode(s, ls, k, lc).code)
    decreases s, 0
  {
    hide IfHead, ScopeCode, NoneBackward, StmtCode;
    IfCode(s, ls, k, lc);
    var h := IfHead(s.c, ls, k, PENDING);
    var f := ScopeCode(s.thn, ls, k + |h.ks|, Shift(lc, |h.code|));
    BlockForward(s.thn, ls, k + |h.ks|, Shift(lc, |h.code|));
    if s.els.None? {
      HeadForward(s.c, ls, k, |f.code|);
      JoinForward(IfHead(s.c, ls, k, |f.code|).code, f.code);
    } else {
      var lc2 := Shift(lc, |h.code| + |f.code| + 1);
      var g := ScopeCode(s.els.value, f.ls, k + |h.ks| + |f.ks|, lc2).code;
      var h1 := IfHead(s.c, ls, k, |f.code| + 1).code;
      BlockForward(s.els.value, f.ls, k + |h.ks| + |f.ks|, lc2);
      HeadForward(s.c, ls, k, |f.code| + 1);
      OneForward(Jump(JUMP, |g|));
      JoinForward(h1, f.code);
      JoinForward(h1 + f.code, [Jump(JUMP, |g|)]);
      JoinForward(h1 + f.code + [Jump(JUMP, |g|)], g);
    }
  }

  lemma {:induction false} BlockForward(b: Block, ls: Locals, k: nat, lc: LoopCtx)
    requires BlockLoopFree(b) && !lc.Backward?
    ensures NoneBackward(ScopeCode(b, ls, k, lc).code)
    decreases b, 0
  {
    hide StmtCode, NoneBackward;
    match b
    case Done => NoneForward();
    case Then(s, rest) =>
      var f := StmtCode(s, ls, k, lc);
      var g := BlockCode(rest, f.ls, k + |f.ks|, Shift(lc, |f.code|)).code;
      StmtForward(s, ls, k, lc);
      BlockForward(rest, f.ls, k + |f.ks|, Shift(lc, |f.code|));
      JoinForward(f.code, g);
  }

  lemma NoneForward()
    ensures NoneBackward([])
  {
  }

  /** A script without loops, with at most seven locals at once and seven
      constants, is compiled to its laid-out code. */
  lemma SmallScriptAligned(b: Block)
    requires BlockLoopFree(b) && ProgramCode(b).ok && ProgramCode(b).max <= 7 && |ProgramCode(b).ks| <= 7
    ensures BlockAligned([], b, [], 0, NoLoop)
  {
    hide BlockCode, BlockAligned, CleanAt;
    var c := BlockCode(b, [], 0, NoLoop).code;
    BlockForward(b, [], 0, NoLoop);
    assert ScopeCode(b, [], 0, NoLoop).code == c;
    FewNamesAligned(b);
  }
}
