/** What the compiler's fields hold between two constructs, and how the effects
    of consecutive constructs add up. */
module CompilerState {
  import opened Options
  import opened Machine
  import opened Assembly
  import opened Source
  import opened CodeGen
  import opened ExprCorrect
  import opened StmtParts
  import opened StmtCorrect
  import opened Layout
  import opened Peephole
  import opened Emission
  import opened Conditions

  /** A declared local variable. */
  datatype LocalVar = LocalVar(name: string, depth: int, slot: byte, typ: Type)

  /** A loop being compiled: where `continue` goes, and the operands of the
      jumps that wait for its end or its continue point. */
  datatype LoopContext = LoopContext(continueTarget: nat, continueBackward: bool,
                                     breakJumps: seq<int>, continueJumps: seq<int>)

  /** The locals as the code generator sees them. */
  function Names(lv: seq<LocalVar>): (ls: Locals)
    ensures |ls| == |lv|
  {
    seq(|lv|, i requires 0 <= i < |lv| => Local(lv[i].name, lv[i].typ))
  }

  /** The fields that statements change. */
  datatype Snap = Snap(prog: Prog, exact: bool, constants: seq<Constant>, locals: seq<LocalVar>, depth: int,
                       maxLocals: nat, loops: seq<LoopContext>)

  ghost predicate DepthsKept(a: seq<LocalVar>, b: seq<LocalVar>, depth: int) {
    |a| <= |b| &&
    (forall i :: 0 <= i < |a| ==> b[i].depth == a[i].depth) &&
    (forall i :: |a| <= i < |b| ==> b[i].depth == depth)
  }

  /** The same loops, but for the innermost one's waiting jumps. */
  predicate SameLoops(a: seq<LoopContext>, b: seq<LoopContext>) {
    |a| == |b| &&
    (|a| > 0 ==>
      b[..|a| - 1] == a[..|a| - 1] && b[|a| - 1].continueTarget == a[|a| - 1].continueTarget &&
      b[|a| - 1].continueBackward == a[|a| - 1].continueBackward)
  }

  /** The innermost loop also waits for the jumps of `c`, emitted at `base`. */
  ghost function Grown(loops: seq<LoopContext>, c: Prog, base: nat): (r: seq<LoopContext>)
    ensures SameLoops(loops, r)
  {
    var n := |loops|;
    if n == 0 then loops
    else
      var last := loops[n - 1];
      loops[n - 1 := LoopContext(last.continueTarget, last.continueBackward,
                                 last.breakJumps + HoleOffsets(c, base, BREAK_HOLE),
                                 last.continueJumps + HoleOffsets(c, base, CONTINUE_HOLE))]
  }

  /** From state s, the construct with code f was compiled, reaching t. */
  ghost predicate Compiled(s: Snap, t: Snap, f: SFrag) {
    DepthsKept(s.locals, t.locals, t.depth) && t.depth == s.depth && Names(t.locals) == f.ls &&
    t.constants == s.constants + f.ks && t.maxLocals == Max(s.maxLocals, f.max) && SameLoops(s.loops, t.loops) &&
    (t.exact ==> s.exact && t.prog == s.prog + f.code && t.loops == Grown(s.loops, f.code, Off(s.prog, |s.prog|)))
  }

  /** The enclosing loop is the innermost one of `loops`. */
  ghost predicate LoopsFit(s: Snap, lc: LoopCtx) {
    match lc
    case NoLoop => |s.loops| == 0
    case Backward(here) =>
      |s.loops| > 0 && s.loops[|s.loops| - 1].continueBackward &&
      (s.exact ==> here <= |s.prog| && s.loops[|s.loops| - 1].continueTarget == Off(s.prog, |s.prog| - here))
    case Forward => |s.loops| > 0 && !s.loops[|s.loops| - 1].continueBackward
  }

  lemma FitsInLoop(s: Snap, lc: LoopCtx)
    requires LoopsFit(s, lc)
    ensures |s.loops| > 0 <==> !lc.NoLoop?
  {
  }

  function Both(f: SFrag, g: SFrag): SFrag {
    SFrag(f.code + g.code, f.ks + g.ks, g.ls, Max(f.max, g.max), f.ok && g.ok)
  }

  lemma GrownJoin(loops: seq<LoopContext>, a: Prog, b: Prog, base: nat)
    ensures Grown(Grown(loops, a, base), b, base + Off(a, |a|)) == Grown(loops, a + b, base)
  {
    hide HoleOffsets, Off;
    if |loops| > 0 {
      var last := loops[|loops| - 1];
      GrownLast(a, b, base, BREAK_HOLE, last.breakJumps);
      GrownLast(a, b, base, CONTINUE_HOLE, last.continueJumps);
    }
  }

  lemma GrownLast(a: Prog, b: Prog, base: nat, hole: int, jumps: seq<int>)
    ensures jumps + HoleOffsets(a, base, hole) + HoleOffsets(b, base + Off(a, |a|), hole) ==
            jumps + HoleOffsets(a + b, base, hole)
  {
    hide HoleOffsets, Off;
    HolesJoined(a, b, base, hole);
  }

  /** Code in which no jump waits for a loop. */
  ghost predicate NoHoles(c: Prog) {
    forall i :: 0 <= i < |c| ==> c[i] != Jump(JUMP, BREAK_HOLE) && c[i] != Jump(JUMP, CONTINUE_HOLE)
  }

  lemma GrownNone(loops: seq<LoopContext>, c: Prog, base: nat)
    requires NoHoles(c)
    ensures Grown(loops, c, base) == loops
  {
    HolesNone(c, base, BREAK_HOLE);
    HolesNone(c, base, CONTINUE_HOLE);
    if |loops| > 0 {
      var last := loops[|loops| - 1];
      assert last.breakJumps + [] == last.breakJumps && last.continueJumps + [] == last.continueJumps;
    }
  }

  lemma InsideNoHoles(c: Prog, slots: nat, n: nat)
    requires FragOk(c, slots, n, INSIDE)
    ensures NoHoles(c)
  {
    forall i | 0 <= i < |c| ensures c[i] != Jump(JUMP, BREAK_HOLE) && c[i] != Jump(JUMP, CONTINUE_HOLE) {
      assert InstrOk(c[i], i, |c|, slots, n, INSIDE);
    }
  }

  /** Consecutive constructs. */
  lemma Sequence(s: Snap, t: Snap, u: Snap, f: SFrag, g: SFrag)
    requires Compiled(s, t, f) && Compiled(t, u, g)
    ensures Compiled(s, u, Both(f, g))
  {
    hide Off, HoleOffsets, Names;
    OffJoined(s.prog, f.code, |f.code|);
    GrownJoin(s.loops, f.code, g.code, Off(s.prog, |s.prog|));
    assert s.prog + f.code + g.code == s.prog + (f.code + g.code);
    assert s.constants + f.ks + g.ks == s.constants + (f.ks + g.ks);
  }

  /** The enclosing loop is still there after code was added. */
  lemma FitsAfter(s: Snap, t: Snap, f: SFrag, lc: LoopCtx)
    requires Compiled(s, t, f) && LoopsFit(s, lc)
    ensures LoopsFit(t, Shift(lc, |f.code|))
  {
    hide Off, HoleOffsets, Names;
    if t.exact && lc.Backward? {
      var i := |s.prog| - lc.here;
      assert t.prog[..i] == s.prog[..i];
      OffOfPrefix(t.prog, s.prog, i);
    }
  }

  /** More code was added behind, without touching the loops. */
  lemma FitsBehind(s: Snap, t: Snap, n: nat, lc: LoopCtx)
    requires LoopsFit(s, lc) && SameLoops(s.loops, t.loops) && (t.exact ==> s.exact)
    requires t.exact ==> s.prog <= t.prog && |t.prog| == |s.prog| + n
    ensures LoopsFit(t, Shift(lc, n))
  {
    hide Off;
    if t.exact && lc.Backward? {
      var i := |s.prog| - lc.here;
      assert t.prog[..i] == s.prog[..i];
      OffOfPrefix(t.prog, s.prog, i);
    }
  }

  /** Statements other than if, break and continue leave no jump waiting and
      do not look at the enclosing loop. */
  lemma NoneWaits(s: Stmt, ls: Locals, k: nat, lc: LoopCtx)
    requires !s.If? && !s.Break? && !s.Continue? && StmtCode(s, ls, k, lc).ok
    ensures NoHoles(StmtCode(s, ls, k, lc).code)
  {
    hide FragOk, ExprCode, AssignCode, GlobalAssignCode, LoopHead, ScopeCode, RangeLoop, ArgsCode, Fill, TypeOf;
    var f := StmtCode(s, ls, k, NoLoop);
    assert StmtCode(s, ls, k, lc) == f;
    StmtOk(s, ls, k, NoLoop);
    InsideNoHoles(f.code, f.max, k + |f.ks|);
  }

  lemma FitsHead(s: Snap, t: Snap, n: nat, lc: LoopCtx)
    requires LoopsFit(s, lc) && t.loops == s.loops
    requires t.exact ==> s.exact && s.prog <= t.prog && |t.prog| == |s.prog| + n
    ensures LoopsFit(t, Shift(lc, n))
  {
    FitsBehind(s, t, n, lc);
  }

  /** One jump that waits for the innermost loop. */
  lemma OneHole(p: Prog, loops: seq<LoopContext>, hole: int)
    requires |loops| > 0 && (hole == BREAK_HOLE || hole == CONTINUE_HOLE)
    ensures var q := p + [Jump(JUMP, hole)];
            var last := loops[|loops| - 1];
            var jump := Off(q, |q|) - 2;
            Grown(loops, [Jump(JUMP, hole)], Off(p, |p|)) ==
            loops[|loops| - 1 :=
              if hole == BREAK_HOLE then
                LoopContext(last.continueTarget, last.continueBackward, last.breakJumps + [jump], last.continueJumps)
              else
                LoopContext(last.continueTarget, last.continueBackward, last.breakJumps, last.continueJumps + [jump])]
  {
    hide Off, HoleOffsets;
    OneHoleOffsets(p, hole);
    var last := loops[|loops| - 1];
    assert last.breakJumps + [] == last.breakJumps && last.continueJumps + [] == last.continueJumps;
  }

  lemma OneHoleOffsets(p: Prog, hole: int)
    requires hole == BREAK_HOLE || hole == CONTINUE_HOLE
    ensures var q := p + [Jump(JUMP, hole)]; HoleOffsets([Jump(JUMP, hole)], Off(p, |p|), hole) == [Off(q, |q|) - 2]
    ensures HoleOffsets([Jump(JUMP, hole)], Off(p, |p|), BREAK_HOLE + CONTINUE_HOLE - hole) == []
  {
    var c := [Jump(JUMP, hole)];
    OffJoined(p, c, 1);
    assert c[..0] == [];
    assert Off(c, 1) == 3;
    HolesNone(c, Off(p, |p|), BREAK_HOLE + CONTINUE_HOLE - hole);
  }

  lemma JumpStmtCode(ls: Locals, k: nat, lc: LoopCtx)
    ensures StmtCode(Break, ls, k, lc) == SFrag([Jump(JUMP, BREAK_HOLE)], [], ls, |ls|, !lc.NoLoop?)
    ensures StmtCode(Continue, ls, k, lc) ==
            if lc.Backward? then SFrag([Jump(LOOP, lc.here + 1)], [], ls, |ls|, true)
            else SFrag([Jump(JUMP, CONTINUE_HOLE)], [], ls, |ls|, lc.Forward?)
  {
  }

  // ------------------------------------------------------------ if statements

  lemma HeadEnds(c: Expr, ls: Locals, k: nat, t: int)
    ensures var h := IfHead(c, ls, k, t).code;
            HasOperand(h[|h| - 1]) && Operand(h[|h| - 1]) == t && !IsBackward(h[|h| - 1]) &&
            forall u :: SetLast(h, u) == IfHead(c, ls, k, u).code
  {
    hide ExprCode, MatchLessEqual, MatchDivisible, WithJump;
    if MatchLessEqual(c, ls).None? && MatchDivisible(c, ls).None? {
      var x := ExprCode(c, ls, k).code;
      forall u ensures SetLast(WithJump(x, JUMP_IF_FALSE_POP, t), u) == WithJump(x, JUMP_IF_FALSE_POP, u) {
        JumpSetLater(x, JUMP_IF_FALSE_POP, t, u);
      }
      JumpNotLoop(x, t);
    }
  }

  lemma JumpNotLoop(c: Prog, t: int)
    ensures var j := WithJump(c, JUMP_IF_FALSE_POP, t); !IsBackward(j[|j| - 1])
  {
  }

  /** The test of an if-statement, waiting and then set over `rest`. */
  lemma PatchHead(p: Prog, c: Expr, ls: Locals, k: nat, rest: Prog)
    ensures var h := IfHead(c, ls, k, PENDING).code;
            var q := p + h + rest;
            PatchReady(q, |p| + |h| - 1, Off(p + h, |p + h|) - 2) &&
            Patched(q, |p| + |h| - 1) == p + IfHead(c, ls, k, |rest|).code + rest
  {
    hide IfHead, Off;
    var h := IfHead(c, ls, k, PENDING).code;
    HeadEnds(c, ls, k, PENDING);
    var q := p + h + rest;
    assert q[|p| + |h| - 1] == h[|h| - 1];
    assert q[..|p + h|] == (p + h)[..|p + h|];
    OffOfPrefix(q, p + h, |p + h|);
    UpdateMiddle(p, h, rest, WithOperand(h[|h| - 1], |rest|));
    assert SetLast(h, |rest|) == IfHead(c, ls, k, |rest|).code;
  }

  /** The test leaves no jump waiting for a loop and keeps its size. */
  lemma HeadHoles(c: Expr, ls: Locals, k: nat, t: nat)
    ensures NoHoles(IfHead(c, ls, k, t).code)
    ensures var h, h' := IfHead(c, ls, k, PENDING).code, IfHead(c, ls, k, t).code;
            |h| == |h'| && Off(h, |h|) == Off(h', |h'|)
  {
    hide IfHead, FragOk, Off;
    IfHeadOk(c, ls, k, t);
    var f := IfHead(c, ls, k, t);
    ReachNoHoles(f.code, |ls|, k + |f.ks|, t);
    HeadLength(c, ls, k, PENDING, t);
    HeadEnds(c, ls, k, PENDING);
    var h := IfHead(c, ls, k, PENDING).code;
    assert SetLast(h, t) == f.code;
    OffSizes(h, f.code, |h|);
  }

  lemma ReachNoHoles(c: Prog, slots: nat, n: nat, t: nat)
    requires FragOk(c, slots, n, Reach(0, t, false, false))
    ensures NoHoles(c)
  {
    forall i | 0 <= i < |c| ensures c[i] != Jump(JUMP, BREAK_HOLE) && c[i] != Jump(JUMP, CONTINUE_HOLE) {
      assert InstrOk(c[i], i, |c|, slots, n, Reach(0, t, false, false));
    }
  }

  /** Loops after a test and a branch: h is the waiting form of h'. */
  lemma GrownBranch(loops: seq<LoopContext>, p: Prog, h: Prog, h': Prog, b: Prog)
    requires NoHoles(h') && Off(h, |h|) == Off(h', |h'|)
    ensures Grown(loops, b, Off(p + h, |p + h|)) == Grown(loops, h' + b, Off(p, |p|))
  {
    hide Grown, Off;
    OffJoined(p, h, |h|);
    GrownJoin(loops, h', b, Off(p, |p|));
    GrownNone(loops, h', Off(p, |p|));
  }

  /** And after a jump over the second branch and that branch. */
  lemma GrownElse(loops: seq<LoopContext>, p: Prog, a: Prog, over: int, over': int, b: Prog)
    requires over' >= 0
    ensures var q := p + a + [Jump(JUMP, over)];
            Grown(Grown(loops, a, Off(p, |p|)), b, Off(q, |q|)) == Grown(loops, a + [Jump(JUMP, over')] + b, Off(p, |p|))
  {
    hide Grown, Off;
    var a' := a + [Jump(JUMP, over')];
    var j, j' := [Jump(JUMP, over)], [Jump(JUMP, over')];
    var q := p + a + j;
    assert q == p + (a + j);
    OffJoined(p, a + j, |a + j|);
    OffJoined(a, j, 1);
    OffJoined(a, j', 1);
    OneSize(over, over');
    GrownJoin(loops, a, j', Off(p, |p|));
    GrownNone(Grown(loops, a, Off(p, |p|)), j', Off(p, |p|) + Off(a, |a|));
    GrownJoin(loops, a', b, Off(p, |p|));
  }

  lemma OneSize(t: int, u: int)
    ensures Off([Jump(JUMP, t)], 1) == Off([Jump(JUMP, u)], 1)
  {
  }

  /** The code of an if-statement from its parts. */
  lemma IfCode(s: Stmt, ls: Locals, k: nat, lc: LoopCtx)
    requires s.If?
    ensures var h := IfHead(s.c, ls, k, PENDING);
            var b1 := ScopeCode(s.thn, ls, k + |h.ks|, Shift(lc, |h.code|));
            var f := StmtCode(s, ls, k, lc);
            match s.els
            case None => f == SFrag(IfHead(s.c, ls, k, |b1.code|).code + b1.code, h.ks + b1.ks, b1.ls, b1.max, b1.ok)
            case Some(eb) =>
              var b2 := ScopeCode(eb, b1.ls, k + |h.ks| + |b1.ks|, Shift(lc, |h.code| + |b1.code| + 1));
              f == SFrag(IfHead(s.c, ls, k, |b1.code| + 1).code + b1.code + [Jump(JUMP, |b2.code|)] + b2.code,
                         h.ks + b1.ks + b2.ks, b2.ls, Max(b1.max, b2.max), b1.ok && b2.ok)
  {
    hide ScopeCode, IfHead;
    HeadLength(s.c, ls, k, 0, PENDING);
  }

  /** `if` without `else`: s before the test, t after it, u after the branch. */
  lemma IfCompiled(st: Stmt, s: Snap, t: Snap, u: Snap, lc: LoopCtx, jump: int)
    requires st.If? && st.els.None?
    requires AfterHead(st.c, s, t, jump) && Compiled(t, u, BranchCode(st, s, lc))
    ensures u.exact ==>
              PatchReady(u.prog, |t.prog| - 1, jump) &&
              Compiled(s, u.(prog := Patched(u.prog, |t.prog| - 1)), StmtCode(st, Names(s.locals), |s.constants|, lc))
    ensures !u.exact ==> forall p :: Compiled(s, u.(prog := p), StmtCode(st, Names(s.locals), |s.constants|, lc))
  {
    hide Names, Grown, Off, PatchReady, Patched, IfHead, ScopeCode, NoHoles;
    var ls, k := Names(s.locals), |s.constants|;
    var h, b := IfHead(st.c, ls, k, PENDING), BranchCode(st, s, lc);
    IfCode(st, ls, k, lc);
    assert s.constants + h.ks + b.ks == s.constants + (h.ks + b.ks);
    if u.exact {
      PatchHead(s.prog, st.c, ls, k, b.code);
      HeadHoles(st.c, ls, k, |b.code|);
      var h' := IfHead(st.c, ls, k, |b.code|).code;
      GrownBranch(s.loops, s.prog, h.code, h', b.code);
      assert s.prog + h' + b.code == s.prog + (h' + b.code);
    }
  }

  /** The test of an if-statement was compiled between s and t. */
  ghost predicate AfterHead(c: Expr, s: Snap, t: Snap, jump: int) {
    var h := IfHead(c, Names(s.locals), |s.constants|, PENDING);
    t == s.(prog := t.prog, exact := t.exact, constants := s.constants + h.ks) &&
    (t.exact ==> s.exact && t.prog == s.prog + h.code && jump == Off(t.prog, |t.prog|) - 2)
  }

  lemma HeadFields(c: Expr, s: Snap, t: Snap, jump: int)
    requires AfterHead(c, s, t, jump)
    ensures |t.constants| == |s.constants| + |IfHead(c, Names(s.locals), |s.constants|, PENDING).ks|
    ensures t.exact ==> s.exact
  {
    hide IfHead;
  }

  /** The code of the first branch of an if-statement compiled from s. */
  ghost function BranchCode(st: Stmt, s: Snap, lc: LoopCtx): SFrag
    requires st.If?
  {
    var ls, k := Names(s.locals), |s.constants|;
    var h := IfHead(st.c, ls, k, PENDING);
    ScopeCode(st.thn, ls, k + |h.ks|, Shift(lc, |h.code|))
  }

  /** The program when the second branch starts: the test leads there, and the
      jump over that branch waits. */
  ghost function ElseProg(st: Stmt, s: Snap, lc: LoopCtx): Prog
    requires st.If?
  {
    var b := BranchCode(st, s, lc);
    s.prog + IfHead(st.c, Names(s.locals), |s.constants|, |b.code| + 1).code + b.code + [Jump(JUMP, PENDING)]
  }

  lemma ElseStart(st: Stmt, s: Snap, t: Snap, u: Snap, lc: LoopCtx, jump: int)
    requires st.If?
    requires AfterHead(st.c, s, t, jump) && Compiled(t, u, BranchCode(st, s, lc)) && LoopsFit(s, lc)
    ensures var q := u.prog + [Jump(JUMP, PENDING)];
            u.exact ==>
              PatchReady(q, |t.prog| - 1, jump) && Patched(q, |t.prog| - 1) == ElseProg(st, s, lc) &&
              PatchReady(ElseProg(st, s, lc), |q| - 1, Off(q, |q|) - 2)
    ensures var h := IfHead(st.c, Names(s.locals), |s.constants|, PENDING);
            forall p :: (u.exact ==> p == ElseProg(st, s, lc)) ==>
              LoopsFit(u.(prog := p), Shift(lc, |h.code| + |BranchCode(st, s, lc).code| + 1))
  {
    hide Names, Off, PatchReady, Patched, IfHead, ScopeCode, HoleOffsets;
    var ls, k := Names(s.locals), |s.constants|;
    var h, b := IfHead(st.c, ls, k, PENDING), BranchCode(st, s, lc);
    var over := [Jump(JUMP, PENDING)];
    if u.exact {
      var q := u.prog + over;
      assert q == s.prog + h.code + (b.code + over);
      PatchHead(s.prog, st.c, ls, k, b.code + over);
      assert Patched(q, |t.prog| - 1) == ElseProg(st, s, lc);
      ReadyJump(u.prog);
      ReadyPatched(q, |t.prog| - 1, |q| - 1, Off(q, |q|) - 2);
      HeadLength(st.c, ls, k, PENDING, |b.code| + 1);
      assert s.prog <= ElseProg(st, s, lc);
    }
    forall p | u.exact ==> p == ElseProg(st, s, lc)
      ensures LoopsFit(u.(prog := p), Shift(lc, |h.code| + |b.code| + 1))
    {
      FitsBehind(s, u.(prog := p), |h.code| + |b.code| + 1, lc);
    }
  }

  /** `if` with `else`: v is the state when the second branch starts, w the one
      after it. */
  lemma ElseCompiled(st: Stmt, s: Snap, t: Snap, u: Snap, v: Snap, w: Snap, lc: LoopCtx, jump: int, over: int)
    requires st.If? && st.els.Some?
    requires AfterHead(st.c, s, t, jump) && Compiled(t, u, BranchCode(st, s, lc))
    requires v == u.(prog := v.prog) && (v.exact ==> v.prog == ElseProg(st, s, lc) && PatchReady(v.prog, |v.prog| - 1, over))
    requires Compiled(v, w, ElseCode(st, s, lc))
    ensures w.exact ==>
              PatchReady(w.prog, |v.prog| - 1, over) &&
              Compiled(s, w.(prog := Patched(w.prog, |v.prog| - 1)), StmtCode(st, Names(s.locals), |s.constants|, lc))
    ensures !w.exact ==> forall p :: Compiled(s, w.(prog := p), StmtCode(st, Names(s.locals), |s.constants|, lc))
  {
    hide Names, Grown, Off, PatchReady, Patched, IfHead, ScopeCode, NoHoles;
    var ls, k := Names(s.locals), |s.constants|;
    var h, b, c := IfHead(st.c, ls, k, PENDING), BranchCode(st, s, lc), ElseCode(st, s, lc);
    IfCode(st, ls, k, lc);
    assert s.constants + h.ks + b.ks + c.ks == s.constants + (h.ks + b.ks + c.ks);
    if w.exact {
      var h' := IfHead(st.c, ls, k, |b.code| + 1).code;
      HeadHoles(st.c, ls, k, |b.code| + 1);
      GrownBranch(s.loops, s.prog, h.code, h', b.code);
      GrownElse(s.loops, s.prog, h' + b.code, PENDING, |c.code|, c.code);
      assert v.prog == s.prog + (h' + b.code) + [Jump(JUMP, PENDING)];
      ReadyThen(v.prog, c.code, |v.prog| - 1, over);
      PatchJumpIn(s.prog + (h' + b.code), Jump(JUMP, PENDING), c.code);
      assert s.prog + (h' + b.code) + [Jump(JUMP, |c.code|)] + c.code ==
             s.prog + (h' + b.code + [Jump(JUMP, |c.code|)] + c.code);
    }
  }

  ghost function ElseCode(st: Stmt, s: Snap, lc: LoopCtx): SFrag
    requires st.If? && st.els.Some?
  {
    var ls, k := Names(s.locals), |s.constants|;
    var h, b := IfHead(st.c, ls, k, PENDING), BranchCode(st, s, lc);
    ScopeCode(st.els.value, b.ls, k + |h.ks| + |b.ks|, Shift(lc, |h.code| + |b.code| + 1))
  }

  // ------------------------------------------------------------------ blocks

  function Empty(ls: Locals): SFrag { SFrag([], [], ls, |ls|, true) }

  lemma BothAssoc(a: SFrag, b: SFrag, c: SFrag)
    ensures Both(Both(a, b), c) == Both(a, Both(b, c))
  {
    assert a.code + b.code + c.code == a.code + (b.code + c.code);
    assert a.ks + b.ks + c.ks == a.ks + (b.ks + c.ks);
  }

  lemma BothEmpty(b: Block, ls: Locals, k: nat, lc: LoopCtx)
    ensures var f := BlockCode(b, ls, k, lc); f == Both(Empty(ls), f)
  {
    hide BlockCode;
    BlockLocals(b, ls, k, lc);
    var f := BlockCode(b, ls, k, lc);
    assert [] + f.code == f.code && [] + f.ks == f.ks;
  }

  lemma StartCompiled(s: Snap)
    requires s.maxLocals >= |s.locals|
    ensures Compiled(s, s, Empty(Names(s.locals)))
  {
    assert s.prog + [] == s.prog;
    GrownNone(s.loops, [], Off(s.prog, |s.prog|));
  }

  lemma ShiftTwice(lc: LoopCtx, m: nat, n: nat)
    ensures Shift(Shift(lc, m), n) == Shift(lc, m + n)
    ensures Shift(lc, 0) == lc
  {
  }

  lemma CompiledFields(s: Snap, t: Snap, f: SFrag)
    requires Compiled(s, t, f)
    ensures Names(t.locals) == f.ls && |t.constants| == |s.constants| + |f.ks|
    ensures t.exact ==> s.exact && t.prog == s.prog + f.code
  {
    hide Names, Grown, DepthsKept;
  }

  lemma BothDone(f: SFrag, k: nat, lc: LoopCtx)
    requires |f.ls| <= f.max && f.ok
    ensures Both(f, BlockCode(Done, f.ls, k, lc)) == f
  {
    assert f.code + [] == f.code && f.ks + [] == f.ks;
  }

  /** Leaving the scope of a block. */
  lemma ScopeCompiled(s: Snap, t: Snap, u: Snap, f: SFrag, n: nat)
    requires Compiled(s.(depth := s.depth + 1), t, f) && n == |s.locals|
    requires u == t.(locals := t.locals[..n], depth := t.depth - 1)
    ensures Compiled(s, u, f.(ls := Keep(f.ls, n)))
  {
    hide Grown, Off;
  }

  // ------------------------------------------------------- small facts

  lemma By256(a: int, q: int, r: int)
    requires a == 256 * q + r && 0 <= r < 256
    ensures a / 256 == q && a % 256 == r
  {
  }

  lemma Uint16OfIndex(k: nat)
    ensures Hi(k % 65536) == Hi(k) && Lo(k % 65536) == Lo(k)
  {
    var q, r := k / 65536, k % 65536;
    var a, b := r / 256, r % 256;
    By256(k, 256 * q + a, b);
    By256(256 * q + a, q, a);
    By256(a, 0, a);
  }

  lemma JumpAppends(p: Prog, hole: int)
    ensures WithJump(p, JUMP, hole) == p + [Jump(JUMP, hole)] && Aligned(p, JUMP)
  {
  }

  lemma AssignStmtCode(x: string, op: AssignOp, e: Expr, ls: Locals, k: nat, lc: LoopCtx)
    ensures var slot := SlotOf(ls, x);
            var f := StmtCode(Assign(x, op, e), ls, k, lc);
            f.ok && f.max == |ls| == |f.ls| &&
            if slot >= 0 then
              f.code == AssignCode(x, op, e, ls, k, slot).0.code && f.ks == AssignCode(x, op, e, ls, k, slot).0.ks &&
              f.ls == AssignCode(x, op, e, ls, k, slot).1
            else
              f.ls == ls && Frag(f.code, f.ks) == GlobalAssignCode(x, op, e, ls, k)
  {
    hide ExprCode, AddedConst, AddedLocal, SelfUpdate, TypeOf, GlobalAssignCode;
  }

  lemma ConstJumpBytes(op: byte, s: nat, k: nat)
    ensures Encode(WithOperand(ConstJump(op, s, k, PENDING), 0)) == [op, Low8(s), Hi(k), Lo(k), 0, 0]
  {
    hide Hi, Low8;
    assert Encode(ConstJump(op, s, k, 0)) == [op, Low8(s), Hi(k), Lo(k), Hi(0), Lo(0)];
    ZeroBytes();
  }

  lemma ZeroBytes()
    ensures Hi(0) == 0 && Lo(0) == 0
  {
  }

  /** A waiting jump appended: its operand is two zero bytes. */
  lemma PendingAppended(p: Prog, ins: Instr)
    requires Settled(p) && HasOperand(ins) && Operand(ins) < 0
    ensures Settled(p + [ins]) && Assemble(p + [ins]) == Assemble(p) + Encode(WithOperand(ins, 0))
    ensures Off(p + [ins], |p|) == |Assemble(p)|
  {
    hide Assemble, Encode, Settled;
    AppendPending(p, ins);
    SettledThen(p, [ins]);
    assert (p + [ins])[..|p|] == p[..|p|];
    OffOfPrefix(p + [ins], p, |p|);
  }

  lemma LetCode(x: string, declared: Option<Type>, e: Expr, ls: Locals, k: nat, lc: LoopCtx)
    ensures var f := ExprCode(e, ls, k);
            StmtCode(Let(x, declared, e), ls, k, lc) ==
            SFrag(f.code + [Slot(SET_LOCAL, |ls|)], f.ks,
                  ls + [Local(x, if declared.Some? then declared.value else TypeOf(e, ls))], |ls| + 1, true)
  {
    hide ExprCode, TypeOf;
  }

  lemma ExprStmtCode(e: Expr, ls: Locals, k: nat, lc: LoopCtx)
    ensures var f := ExprCode(e, ls, k);
            StmtCode(ExprStmt(e), ls, k, lc) == SFrag(f.code + [Plain(POP)], f.ks, ls, |ls|, true)
  {
    hide ExprCode;
  }
}
