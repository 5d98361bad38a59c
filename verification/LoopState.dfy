/** The compiler's state around loops: what waits when a loop's last jump back
    is emitted, and what is left once its breaks are patched. */
module LoopState {
  import opened Options
  import opened Machine
  import opened Assembly
  import opened Source
  import opened CodeGen
  import opened ExprCorrect
  import opened StmtParts
  import opened StmtCorrect
  import opened Layout
  import opened Peephole
  import opened Emission
  import opened Conditions
  import opened Alignment
  import opened CompilerState

  /** A loop condition, waiting and then set over `rest`; without a condition
      there is nothing to set. */
  lemma PatchLoopHead(p: Prog, c: Option<Expr>, ls: Locals, k: nat, rest: Prog)
    ensures var h := LoopHead(c, ls, k, PENDING).code;
            var q := p + h + rest;
            if c.None? then h == [] && q == p + LoopHead(c, ls, k, |rest|).code + rest
            else
              PatchReady(q, |p| + |h| - 1, Off(p + h, |p + h|) - 2) &&
              Patched(q, |p| + |h| - 1) == p + LoopHead(c, ls, k, |rest|).code + rest
  {
    if c.Some? {
      var x := ExprCode(c.value, ls, k).code;
      hide ExprCode, WithJump, Off, PatchReady, Patched;
      ReadyLast(p, x);
      var p1 := p + WithJump(x, JUMP_IF_FALSE_POP, PENDING);
      ReadyThen(p1, rest, |p1| - 1, Off(p1, |p1|) - 2);
      PatchCondition(p, x, rest);
    }
  }

  lemma LoopHeadHoles(c: Option<Expr>, ls: Locals, k: nat, t: nat)
    ensures NoHoles(LoopHead(c, ls, k, t).code)
    ensures var h, h' := LoopHead(c, ls, k, PENDING), LoopHead(c, ls, k, t);
            |h.code| == |h'.code| && Off(h.code, |h.code|) == Off(h'.code, |h'.code|) && h.ks == h'.ks
  {
    hide FragOk, Off, ExprCode, WithJump;
    LoopHeadOk(c, ls, k, t);
    var f := LoopHead(c, ls, k, t);
    ReachNoHoles(f.code, |ls|, k + |f.ks|, t);
    LoopHeadLength(c, ls, k, PENDING, t);
    if c.Some? {
      var x := ExprCode(c.value, ls, k).code;
      var h := WithJump(x, JUMP_IF_FALSE_POP, PENDING);
      JumpSetLater(x, JUMP_IF_FALSE_POP, PENDING, t);
      assert SetLast(h, t) == f.code;
      OffSizes(h, f.code, |h|);
    }
  }

  /** Holes of a piece with code in front and behind that leaves none. */
  lemma HolesWithin(a: Prog, b: Prog, c: Prog, base: nat, hole: int)
    requires forall i :: 0 <= i < |a| ==> a[i] != Jump(JUMP, hole)
    requires forall i :: 0 <= i < |c| ==> c[i] != Jump(JUMP, hole)
    ensures HoleOffsets(a + b + c, base, hole) == HoleOffsets(b, base + Off(a, |a|), hole)
  {
    hide Off, HoleOffsets;
    HolesJoined(a + b, c, base, hole);
    HolesJoined(a, b, base, hole);
    HolesNone(a, base, hole);
    HolesNone(c, base + Off(a + b, |a + b|), hole);
  }

  lemma BackNoHoles(m: int)
    ensures NoHoles([Jump(LOOP, m)]) && NoHoles([Jump(LOOP, m), Jump(LOOP, m + 1)])
  {
  }

  /** The operand offset that the code length was when a loop began. */
  lemma StartKept(p: Prog, q: Prog)
    requires p <= q
    ensures Off(q, |p|) == Off(p, |p|)
  {
    assert q[..|p|] == p[..|p|];
    OffOfPrefix(q, p, |p|);
  }

  /** The loop entered on the stack of loops. */
  ghost function Entered(s: Snap, ctx: LoopContext): Snap { s.(loops := s.loops + [ctx]) }

  /** A loop whose body is compiled: the fields when its breaks are patched
      (prog := p) and it is taken off the stack. */
  ghost function Left(u: Snap, p: Prog): Snap
    requires |u.loops| > 0
  {
    u.(prog := p, loops := u.loops[..|u.loops| - 1])
  }

  // -------------------------------------------------------------- while loops

  /** The code of `loop c: body end` while its breaks still wait. */
  ghost function WhileRaw(c: Option<Expr>, body: Block, ls: Locals, k: nat): SFrag {
    var h := LoopHead(c, ls, k, PENDING);
    var b := ScopeCode(body, ls, k + |h.ks|, Backward(|h.code|));
    SFrag(LoopHead(c, ls, k, |b.code| + 1).code + b.code + [Jump(LOOP, |h.code| + |b.code| + 1)],
          h.ks + b.ks, b.ls, b.max, b.ok)
  }

  lemma WhileIsRaw(c: Option<Expr>, body: Block, ls: Locals, k: nat, lc: LoopCtx)
    ensures var r := WhileRaw(c, body, ls, k);
            StmtCode(While(c, body), ls, k, lc) == r.(code := Fill(r.code, BREAK_HOLE, |r.code|))
  {
    hide ScopeCode, LoopHead, Fill;
    LoopHeadLength(c, ls, k, 0, PENDING);
  }

  /** The condition of a while loop entered from s is compiled in t. */
  ghost predicate WhileEntered(c: Option<Expr>, s: Snap, t: Snap, exit: int) {
    var h := LoopHead(c, Names(s.locals), |s.constants|, PENDING);
    |t.loops| > 0 &&
    (var ctx := t.loops[|t.loops| - 1];
     t == Entered(s, ctx).(prog := t.prog, exact := t.exact, constants := s.constants + h.ks) &&
     ctx.continueBackward && ctx.breakJumps == [] && ctx.continueJumps == [] &&
     (t.exact ==>
       s.exact && ctx.continueTarget == Off(s.prog, |s.prog|) && t.prog == s.prog + h.code &&
       (c.Some? ==> exit == Off(t.prog, |t.prog|) - 2)))
  }

  lemma WhileStarts(c: Option<Expr>, s: Snap, t: Snap, exit: int)
    requires |t.loops| > 0 && t.loops[|t.loops| - 1].continueBackward
    requires t.loops[|t.loops| - 1].breakJumps == [] && t.loops[|t.loops| - 1].continueJumps == []
    requires t.loops == s.loops + [t.loops[|t.loops| - 1]]
    requires var h := LoopHead(c, Names(s.locals), |s.constants|, PENDING);
             t == s.(prog := t.prog, exact := t.exact, constants := s.constants + h.ks, loops := t.loops) &&
             (t.exact ==>
               s.exact && t.loops[|t.loops| - 1].continueTarget == Off(s.prog, |s.prog|) &&
               t.prog == s.prog + h.code && (c.Some? ==> exit == Off(t.prog, |t.prog|) - 2))
    ensures WhileEntered(c, s, t, exit)
  {
    hide LoopHead, Names, Off;
  }

  lemma LoopsThere(c: Option<Expr>, body: Block, s: Snap, t: Snap, u: Snap, exit: int)
    requires WhileEntered(c, s, t, exit) && Compiled(t, u, WhileBody(c, body, s))
    ensures |u.loops| > 0
  {
    hide LoopHead, Names, Off, WhileBody;
  }

  lemma WhileFits(c: Option<Expr>, s: Snap, t: Snap, exit: int)
    requires WhileEntered(c, s, t, exit)
    ensures LoopsFit(t, Backward(|LoopHead(c, Names(s.locals), |s.constants|, PENDING).code|))
  {
    hide LoopHead, Names, Off;
    if t.exact { StartKept(s.prog, t.prog); }
  }

  ghost function WhileBody(c: Option<Expr>, body: Block, s: Snap): SFrag {
    var ls, k := Names(s.locals), |s.constants|;
    var h := LoopHead(c, ls, k, PENDING);
    ScopeCode(body, ls, k + |h.ks|, Backward(|h.code|))
  }

  /** After the body (u): the jump back and the exit give the loop's code, and
      the jumps that wait are its breaks. */
  lemma WhileEnd(c: Option<Expr>, body: Block, s: Snap, t: Snap, u: Snap, exit: int)
    requires WhileEntered(c, s, t, exit) && Compiled(t, u, WhileBody(c, body, s)) && u.exact
    ensures |s.prog| <= |u.prog| && Off(u.prog, |s.prog|) == Off(s.prog, |s.prog|)
    ensures var q := u.prog + [Jump(LOOP, |u.prog| - |s.prog| + 1)];
            var r := WhileRaw(c, body, Names(s.locals), |s.constants|);
            (c.Some? ==>
              PatchReady(q, |t.prog| - 1, exit) && Patched(q, |t.prog| - 1) == s.prog + r.code) &&
            (c.None? ==> q == s.prog + r.code) &&
            u.loops[|u.loops| - 1].breakJumps == HoleOffsets(r.code, Off(s.prog, |s.prog|), BREAK_HOLE)
  {
    hide LoopHead, Names, Off, PatchReady, Patched, HoleOffsets, ScopeCode, NoHoles;
    var ls, k := Names(s.locals), |s.constants|;
    var h, b := LoopHead(c, ls, k, PENDING), WhileBody(c, body, s);
    var h' := LoopHead(c, ls, k, |b.code| + 1).code;
    var back := [Jump(LOOP, |h.code| + |b.code| + 1)];
    StartKept(s.prog, u.prog);
    LoopHeadHoles(c, ls, k, |b.code| + 1);
    var q := u.prog + back;
    assert q == s.prog + h.code + (b.code + back);
    PatchLoopHead(s.prog, c, ls, k, b.code + back);
    assert s.prog + h' + (b.code + back) == s.prog + (h' + b.code + back);
    OffJoined(s.prog, h.code, |h.code|);
    BackNoHoles(|h.code| + |b.code| + 1);
    HolesInLoop(h', b.code, back, Off(s.prog, |s.prog|));
    FreshBreaks(t, u, b.code);
  }

  lemma HolesInLoop(h: Prog, b: Prog, back: Prog, base: nat)
    requires NoHoles(h) && NoHoles(back)
    ensures HoleOffsets(h + b + back, base, BREAK_HOLE) == HoleOffsets(b, base + Off(h, |h|), BREAK_HOLE)
  {
    HolesWithin(h, b, back, base, BREAK_HOLE);
  }

  lemma FreshBreaks(t: Snap, u: Snap, b: Prog)
    requires |t.loops| > 0 && u.loops == Grown(t.loops, b, Off(t.prog, |t.prog|))
    requires t.loops[|t.loops| - 1].breakJumps == [] && t.loops[|t.loops| - 1].continueJumps == []
    ensures u.loops[|u.loops| - 1].breakJumps == HoleOffsets(b, Off(t.prog, |t.prog|), BREAK_HOLE)
    ensures u.loops[|u.loops| - 1].continueJumps == HoleOffsets(b, Off(t.prog, |t.prog|), CONTINUE_HOLE)
  {
    hide HoleOffsets, Off;
  }

  lemma WhileCompiled(c: Option<Expr>, body: Block, s: Snap, t: Snap, u: Snap, exit: int, p: Prog, lc: LoopCtx)
    requires WhileEntered(c, s, t, exit) && Compiled(t, u, WhileBody(c, body, s)) && WhileBody(c, body, s).ok
    requires var r := WhileRaw(c, body, Names(s.locals), |s.constants|);
             u.exact ==> p == s.prog + Fill(r.code, BREAK_HOLE, |r.code|)
    ensures Compiled(s, Left(u, p), StmtCode(While(c, body), Names(s.locals), |s.constants|, lc))
  {
    hide LoopHead, Names, Off, HoleOffsets, ScopeCode, Fill, NoHoles, Grown;
    var ls, k := Names(s.locals), |s.constants|;
    var st := While(c, body);
    WhileIsRaw(c, body, ls, k, lc);
    NoneWaits(st, ls, k, lc);
    GrownNone(s.loops, StmtCode(st, ls, k, lc).code, Off(s.prog, |s.prog|));
    LoopsPopped(s, t, u);
    var h, b := LoopHead(c, ls, k, PENDING), WhileBody(c, body, s);
    assert s.constants + h.ks + b.ks == s.constants + (h.ks + b.ks);
  }

  lemma LoopsPopped(s: Snap, t: Snap, u: Snap)
    requires |t.loops| > 0 && t.loops[..|t.loops| - 1] == s.loops && SameLoops(t.loops, u.loops)
    ensures u.loops[..|u.loops| - 1] == s.loops
  {
  }

  // ----------------------------------------------------------------- do loops

  /** The body of a do loop with its continues set. */
  ghost function DoBody(body: Block, ls: Locals, k: nat): Prog {
    var b := ScopeCode(body, ls, k, Forward);
    Fill(b.code, CONTINUE_HOLE, |b.code|)
  }

  ghost function DoRaw(body: Block, c: Option<Expr>, ls: Locals, k: nat): SFrag {
    var b := ScopeCode(body, ls, k, Forward);
    var h := LoopHead(c, b.ls, k + |b.ks|, 1);
    SFrag(DoBody(body, ls, k) + h.code + [Jump(LOOP, |b.code| + |h.code| + 1)], b.ks + h.ks, b.ls, b.max, b.ok)
  }

  lemma DoIsRaw(body: Block, c: Option<Expr>, ls: Locals, k: nat, lc: LoopCtx)
    ensures var r := DoRaw(body, c, ls, k);
            StmtCode(DoLoop(body, c), ls, k, lc) == r.(code := Fill(r.code, BREAK_HOLE, |r.code|))
  {
    hide ScopeCode, LoopHead, Fill;
  }

  const FRESH: LoopContext := LoopContext(0, false, [], [])

  lemma DoBodyDone(s: Snap, u: Snap, b: SFrag)
    requires Compiled(Entered(s, FRESH), u, b)
    ensures |u.loops| == |s.loops| + 1
    ensures u.exact ==>
              s.exact && u.prog == s.prog + b.code &&
              u.loops[|u.loops| - 1].continueJumps == HoleOffsets(b.code, Off(s.prog, |s.prog|), CONTINUE_HOLE)
  {
    hide HoleOffsets, Off, Names;
    if u.exact { FreshBreaks(Entered(s, FRESH), u, b.code); }
  }

  /** Setting the continues moves no break. */
  lemma BreaksStay(b: Prog, base: nat)
    ensures var d := Fill(b, CONTINUE_HOLE, |b|);
            HoleOffsets(d, base, BREAK_HOLE) == HoleOffsets(b, base, BREAK_HOLE) && Off(d, |d|) == Off(b, |b|)
  {
    var d := Fill(b, CONTINUE_HOLE, |b|);
    forall j | 0 <= j < |b|
      ensures Size(d[j]) == Size(b[j]) && (b[j] == Jump(JUMP, BREAK_HOLE) <==> d[j] == Jump(JUMP, BREAK_HOLE))
    {
    }
    HolesSame(b, d, base, BREAK_HOLE);
  }

  /** The end of a do loop; u is the state after the body, v after its continues
      were patched and the condition compiled. */
  lemma DoEnd(body: Block, c: Option<Expr>, s: Snap, u: Snap, v: Snap, exit: int)
    requires Compiled(Entered(s, FRESH), u, ScopeCode(body, Names(s.locals), |s.constants|, Forward)) && v.exact && u.exact
    requires var ls, k := Names(s.locals), |s.constants|;
             var b := ScopeCode(body, ls, k, Forward);
             var h := LoopHead(c, b.ls, k + |b.ks|, PENDING);
             v.prog == s.prog + DoBody(body, ls, k) + h.code && (c.Some? ==> exit == Off(v.prog, |v.prog|) - 2)
    ensures |s.prog| <= |v.prog| && Off(v.prog, |s.prog|) == Off(s.prog, |s.prog|)
    ensures var q := v.prog + [Jump(LOOP, |v.prog| - |s.prog| + 1)];
            var r := DoRaw(body, c, Names(s.locals), |s.constants|);
            (c.Some? ==>
              PatchReady(q, |v.prog| - 1, exit) && Patched(q, |v.prog| - 1) == s.prog + r.code) &&
            (c.None? ==> q == s.prog + r.code) &&
            u.loops[|u.loops| - 1].breakJumps == HoleOffsets(r.code, Off(s.prog, |s.prog|), BREAK_HOLE)
  {
    hide LoopHead, Names, Off, PatchReady, Patched, HoleOffsets, ScopeCode, NoHoles, Fill;
    var ls, k := Names(s.locals), |s.constants|;
    var b := ScopeCode(body, ls, k, Forward);
    var h := LoopHead(c, b.ls, k + |b.ks|, PENDING);
    var h' := LoopHead(c, b.ls, k + |b.ks|, 1);
    var d := DoBody(body, ls, k);
    LoopHeadHoles(c, b.ls, k + |b.ks|, 1);
    var back := [Jump(LOOP, |b.code| + |h.code| + 1)];
    assert s.prog <= v.prog;
    StartKept(s.prog, v.prog);
    PatchLoopHead(s.prog + d, c, b.ls, k + |b.ks|, back);
    assert s.prog + d + h'.code + back == s.prog + (d + h'.code + back);
    BreaksStay(b.code, Off(s.prog, |s.prog|));
    BackNoHoles(|b.code| + |h.code| + 1);
    HolesBefore(d, h'.code, back, Off(s.prog, |s.prog|));
    FreshBreaks(Entered(s, FRESH), u, b.code);
  }

  lemma HolesBefore(b: Prog, h: Prog, back: Prog, base: nat)
    requires NoHoles(h) && NoHoles(back)
    ensures HoleOffsets(b + h + back, base, BREAK_HOLE) == HoleOffsets(b, base, BREAK_HOLE)
  {
    hide Off, HoleOffsets;
    HolesJoined(b + h, back, base, BREAK_HOLE);
    HolesJoined(b, h, base, BREAK_HOLE);
    HolesNone(h, base + Off(b, |b|), BREAK_HOLE);
    HolesNone(back, base + Off(b + h, |b + h|), BREAK_HOLE);
  }

  lemma DoCompiled(body: Block, c: Option<Expr>, s: Snap, u: Snap, w: Snap, lc: LoopCtx)
    requires Compiled(Entered(s, FRESH), u, ScopeCode(body, Names(s.locals), |s.constants|, Forward))
    requires ScopeCode(body, Names(s.locals), |s.constants|, Forward).ok
    requires var ls, k := Names(s.locals), |s.constants|;
             var b := ScopeCode(body, ls, k, Forward);
             var h := LoopHead(c, b.ls, k + |b.ks|, 1);
             var r := DoRaw(body, c, ls, k);
             w == u.(prog := w.prog, exact := w.exact, constants := u.constants + h.ks, loops := u.loops[..|u.loops| - 1]) &&
             (w.exact ==> u.exact && w.prog == s.prog + Fill(r.code, BREAK_HOLE, |r.code|))
    ensures Compiled(s, w, StmtCode(DoLoop(body, c), Names(s.locals), |s.constants|, lc))
  {
    hide LoopHead, Names, Off, HoleOffsets, ScopeCode, Fill, NoHoles, Grown;
    var ls, k := Names(s.locals), |s.constants|;
    var st := DoLoop(body, c);
    DoIsRaw(body, c, ls, k, lc);
    NoneWaits(st, ls, k, lc);
    GrownNone(s.loops, StmtCode(st, ls, k, lc).code, Off(s.prog, |s.prog|));
    LoopsPopped(s, Entered(s, FRESH), u);
    var b := ScopeCode(body, ls, k, Forward);
    var h := LoopHead(c, b.ls, k + |b.ks|, 1);
    assert s.constants + b.ks + h.ks == s.constants + (b.ks + h.ks);
  }

  // -------------------------------------------------------------- range loops

  /** The waiting RANGE_NEXT_FAST of the loop whose variable is in slot n. */
  function WaitingNext(n: nat): Instr { RangeNext(n + 1, n + 2, n + 3, n, PENDING) }

  /** A range loop entered from s is compiled up to its filter in t. */
  ghost predicate RangeEntered(n: nat, filter: Option<Expr>, s: Snap, t: Snap, exit: int, skip: int) {
    var h := LoopHead(filter, Names(s.locals), |s.constants|, PENDING);
    |t.loops| > 0 &&
    (var ctx := t.loops[|t.loops| - 1];
     t == Entered(s, ctx).(prog := t.prog, exact := t.exact, constants := s.constants + h.ks) &&
     ctx.continueBackward && ctx.breakJumps == [] && ctx.continueJumps == [] &&
     (t.exact ==>
       s.exact && ctx.continueTarget == Off(s.prog, |s.prog|) && t.prog == s.prog + [WaitingNext(n)] + h.code &&
       exit == Off(s.prog + [WaitingNext(n)], |s.prog| + 1) - 2 &&
       (filter.Some? ==> skip == Off(t.prog, |t.prog|) - 2)))
  }

  lemma RangeFits(n: nat, filter: Option<Expr>, s: Snap, t: Snap, exit: int, skip: int)
    requires RangeEntered(n, filter, s, t, exit, skip)
    ensures LoopsFit(t, Backward(1 + |LoopHead(filter, Names(s.locals), |s.constants|, PENDING).code|))
  {
    hide LoopHead, Names, Off;
    if t.exact {
      assert s.prog <= t.prog;
      StartKept(s.prog, t.prog);
    }
  }

  ghost function RangeBody(filter: Option<Expr>, body: Block, s: Snap): SFrag {
    var ls, k := Names(s.locals), |s.constants|;
    var h := LoopHead(filter, ls, k, PENDING);
    ScopeCode(body, ls, k + |h.ks|, Backward(1 + |h.code|))
  }

  /** The loop's code from its parts. */
  lemma RangeParts(n: nat, filter: Option<Expr>, body: Block, s: Snap)
    ensures var ls, k := Names(s.locals), |s.constants|;
            var h, b := LoopHead(filter, ls, k, PENDING), RangeBody(filter, body, s);
            var m := 1 + |h.code| + |b.code| + 1;
            var tail := LoopHead(filter, ls, k, |b.code| + 1).code + b.code + LoopBack(filter, m);
            RangeLoop(n, filter, body, ls, k) ==
            SFrag([RangeNext(n + 1, n + 2, n + 3, n, |tail|)] + tail, h.ks + b.ks, b.ls, b.max, b.ok)
  {
    hide LoopHead, ScopeCode;
    LoopHeadLength(filter, Names(s.locals), |s.constants|, 0, PENDING);
  }

  /** The first jump back, and what the filter skips to. */
  lemma RangeBack(n: nat, filter: Option<Expr>, body: Block, s: Snap, t: Snap, u: Snap, exit: int, skip: int)
    requires RangeEntered(n, filter, s, t, exit, skip) && Compiled(t, u, RangeBody(filter, body, s)) && u.exact
    ensures |s.prog| <= |u.prog| && Off(u.prog, |s.prog|) == Off(s.prog, |s.prog|)
    ensures var ls, k := Names(s.locals), |s.constants|;
            var b := RangeBody(filter, body, s);
            var h' := LoopHead(filter, ls, k, |b.code| + 1).code;
            var m := 1 + |LoopHead(filter, ls, k, PENDING).code| + |b.code| + 1;
            var q := u.prog + [Jump(LOOP, |u.prog| - |s.prog| + 1)];
            var done := s.prog + [WaitingNext(n)] + h' + b.code + [Jump(LOOP, m)];
            |u.prog| - |s.prog| + 1 == m && |done| == |s.prog| + m && s.prog <= done &&
            (filter.None? ==> q == done) &&
            (filter.Some? ==> PatchReady(q, |t.prog| - 1, skip) && Patched(q, |t.prog| - 1) == done)
  {
    hide LoopHead, Names, Off, PatchReady, Patched, HoleOffsets, ScopeCode, NoHoles, Grown;
    var ls, k := Names(s.locals), |s.constants|;
    var h, b := LoopHead(filter, ls, k, PENDING), RangeBody(filter, body, s);
    var h' := LoopHead(filter, ls, k, |b.code| + 1).code;
    var back := [Jump(LOOP, 1 + |h.code| + |b.code| + 1)];
    assert s.prog <= u.prog;
    StartKept(s.prog, u.prog);
    LoopHeadLength(filter, ls, k, PENDING, |b.code| + 1);
    var q := u.prog + back;
    assert q == s.prog + [WaitingNext(n)] + h.code + (b.code + back);
    PatchLoopHead(s.prog + [WaitingNext(n)], filter, ls, k, b.code + back);
    assert s.prog + [WaitingNext(n)] + h' + (b.code + back) == s.prog + [WaitingNext(n)] + h' + b.code + back;
  }

  /** The exit of the loop, whose code after RANGE_NEXT_FAST is `tail`. */
  lemma RangeExit(p: Prog, n: nat, tail: Prog, exit: int)
    requires exit == Off(p + [WaitingNext(n)], |p| + 1) - 2
    ensures var q := p + [WaitingNext(n)] + tail;
            PatchReady(q, |p|, exit) && Patched(q, |p|) == p + ([RangeNext(n + 1, n + 2, n + 3, n, |tail|)] + tail)
  {
    hide Off;
    var p1 := p + [WaitingNext(n)];
    assert PatchReady(p1, |p|, exit) by { assert p1[|p|] == WaitingNext(n); }
    hide PatchReady, Patched;
    ReadyThen(p1, tail, |p|, exit);
    PatchJumpIn(p, WaitingNext(n), tail);
    assert p + [RangeNext(n + 1, n + 2, n + 3, n, |tail|)] + tail ==
           p + ([RangeNext(n + 1, n + 2, n + 3, n, |tail|)] + tail);
  }

  /** The breaks of a range loop. */
  lemma RangeBreaks(n: nat, filter: Option<Expr>, body: Block, s: Snap, t: Snap, u: Snap, exit: int, skip: int)
    requires RangeEntered(n, filter, s, t, exit, skip) && Compiled(t, u, RangeBody(filter, body, s)) && u.exact
    ensures u.loops[|u.loops| - 1].breakJumps ==
            HoleOffsets(RangeLoop(n, filter, body, Names(s.locals), |s.constants|).code, Off(s.prog, |s.prog|), BREAK_HOLE)
  {
    hide LoopHead, Names, Off, HoleOffsets, ScopeCode, NoHoles, RangeLoop;
    var ls, k := Names(s.locals), |s.constants|;
    var h, b := LoopHead(filter, ls, k, PENDING), RangeBody(filter, body, s);
    var h' := LoopHead(filter, ls, k, |b.code| + 1).code;
    var m := 1 + |h.code| + |b.code| + 1;
    RangeParts(n, filter, body, s);
    LoopHeadHoles(filter, ls, k, |b.code| + 1);
    var back := LoopBack(filter, m);
    BackNoHoles(m);
    RangeHoles(n, |h' + b.code + back|, h.code, h', b.code, back, Off(s.prog, |s.prog|));
    FreshBreaks(t, u, b.code);
    assert t.prog == s.prog + ([WaitingNext(n)] + h.code);
    OffJoined(s.prog, [WaitingNext(n)] + h.code, 1 + |h.code|);
  }

  /** The breaks of the body are those of the loop; h is the waiting form of
      h'. */
  lemma RangeHoles(n: nat, t: int, h: Prog, h': Prog, b: Prog, back: Prog, base: nat)
    requires NoHoles(h') && NoHoles(back) && |h| == |h'| && Off(h, |h|) == Off(h', |h'|)
    ensures HoleOffsets([RangeNext(n + 1, n + 2, n + 3, n, t)] + (h' + b + back), base, BREAK_HOLE) ==
            HoleOffsets(b, base + Off([WaitingNext(n)] + h, 1 + |h|), BREAK_HOLE)
  {
    hide Off, HoleOffsets, NoHoles;
    var front := [RangeNext(n + 1, n + 2, n + 3, n, t)] + h';
    FrontNoHoles(n, t, h');
    assert front + b + back == [RangeNext(n + 1, n + 2, n + 3, n, t)] + (h' + b + back);
    HolesInLoop(front, b, back, base);
    FrontSize(n, t, h, h');
  }

  lemma FrontNoHoles(n: nat, t: int, h: Prog)
    requires NoHoles(h)
    ensures NoHoles([RangeNext(n + 1, n + 2, n + 3, n, t)] + h)
  {
  }

  lemma FrontSize(n: nat, t: int, h: Prog, h': Prog)
    requires |h| == |h'| && Off(h, |h|) == Off(h', |h'|)
    ensures var a, b := [WaitingNext(n)] + h, [RangeNext(n + 1, n + 2, n + 3, n, t)] + h'; Off(a, |a|) == Off(b, |b|)
  {
    OffJoined([WaitingNext(n)], h, |h|);
    OffJoined([RangeNext(n + 1, n + 2, n + 3, n, t)], h', |h'|);
  }

  lemma RangeCompiled(n: nat, filter: Option<Expr>, body: Block, s: Snap, t: Snap, u: Snap, exit: int, skip: int, p: Prog)
    requires RangeEntered(n, filter, s, t, exit, skip) && Compiled(t, u, RangeBody(filter, body, s))
    requires |s.locals| == n + 4 && RangeBody(filter, body, s).ok
    requires var r := RangeLoop(n, filter, body, Names(s.locals), |s.constants|);
             u.exact ==> p == s.prog + Fill(r.code, BREAK_HOLE, |r.code|)
    ensures Compiled(s, Left(u, p), FilledLoop(n, filter, body, Names(s.locals), |s.constants|))
  {
    hide LoopHead, Names, Off, HoleOffsets, ScopeCode, Fill, NoHoles, Grown, RangeLoop, FragOk;
    var ls, k := Names(s.locals), |s.constants|;
    RangeParts(n, filter, body, s);
    RangeLoopOk(n, filter, body, ls, k);
    var r := RangeLoop(n, filter, body, ls, k);
    FillBreaksOk(r.code, r.max, k + |r.ks|, 0, false);
    InsideNoHoles(Fill(r.code, BREAK_HOLE, |r.code|), r.max, k + |r.ks|);
    GrownNone(s.loops, Fill(r.code, BREAK_HOLE, |r.code|), Off(s.prog, |s.prog|));
    LoopsPopped(s, t, u);
    var h, b := LoopHead(filter, ls, k, PENDING), RangeBody(filter, body, s);
    assert s.constants + h.ks + b.ks == s.constants + (h.ks + b.ks);
  }

  /** A range loop with its breaks set. */
  ghost function FilledLoop(n: nat, filter: Option<Expr>, body: Block, ls: Locals, k: nat): SFrag {
    var r := RangeLoop(n, filter, body, ls, k);
    r.(code := Fill(r.code, BREAK_HOLE, |r.code|))
  }

  /** What is compiled before a range loop: four locals and the arguments. */
  ghost function RangeStart(x: string, args: seq<Expr>, ls: Locals, k: nat): SFrag {
    var n := |ls|;
    var ls1 := ls + RangeLocals(x);
    var a := ArgsCode(args, ls1, k);
    SFrag(a.code + [RangeInit(n + 1, n + 2, n + 3, |args|)], a.ks, ls1, n + 4, true)
  }

  lemma ForCode(st: Stmt, ls: Locals, k: nat, lc: LoopCtx)
    requires st.ForRange? && 1 <= |st.args| <= 3
    ensures var a := RangeStart(st.x, st.args, ls, k);
            var r := FilledLoop(|ls|, st.filter, st.body, a.ls, k + |a.ks|);
            var f := Both(a, r);
            StmtCode(st, ls, k, lc) == f.(ls := Keep(f.ls, |ls|))
  {
    hide ArgsCode, RangeLoop, Fill;
  }

  lemma NextBytes(n: nat)
    ensures Encode(WithOperand(WaitingNext(n), 0)) ==
            [RANGE_NEXT_FAST, Low8(n + 1), Low8(n + 2), Low8(n + 3), Low8(n), 0, 0]
  {
    hide Hi, Low8;
    assert Encode(RangeNext(n + 1, n + 2, n + 3, n, 0)) ==
           [RANGE_NEXT_FAST, Low8(n + 1), Low8(n + 2), Low8(n + 3), Low8(n), Hi(0), Lo(0)];
    ZeroBytes();
  }

  lemma StartHoles(x: string, args: seq<Expr>, ls: Locals, k: nat)
    ensures NoHoles(RangeStart(x, args, ls, k).code)
  {
    hide ArgsCode, FragOk;
    var ls1 := ls + RangeLocals(x);
    var a := ArgsCode(args, ls1, k);
    ArgsOk(args, ls1, k);
    InsideNoHoles(a.code, |ls1|, k + |a.ks|);
  }

  lemma RangeStarts(n: nat, filter: Option<Expr>, s: Snap, t: Snap, exit: int, skip: int)
    requires |t.loops| > 0 && t.loops[|t.loops| - 1].continueBackward
    requires t.loops[|t.loops| - 1].breakJumps == [] && t.loops[|t.loops| - 1].continueJumps == []
    requires t.loops == s.loops + [t.loops[|t.loops| - 1]]
    requires var h := LoopHead(filter, Names(s.locals), |s.constants|, PENDING);
             t == s.(prog := t.prog, exact := t.exact, constants := s.constants + h.ks, loops := t.loops) &&
             (t.exact ==>
               s.exact && t.loops[|t.loops| - 1].continueTarget == Off(s.prog, |s.prog|) &&
               t.prog == s.prog + [WaitingNext(n)] + h.code &&
               exit == Off(s.prog + [WaitingNext(n)], |s.prog| + 1) - 2 &&
               (filter.Some? ==> skip == Off(t.prog, |t.prog|) - 2))
    ensures RangeEntered(n, filter, s, t, exit, skip)
  {
    hide LoopHead, Names, Off;
  }

  lemma RangeThere(n: nat, filter: Option<Expr>, body: Block, s: Snap, t: Snap, u: Snap, exit: int, skip: int)
    requires RangeEntered(n, filter, s, t, exit, skip) && Compiled(t, u, RangeBody(filter, body, s))
    ensures |u.loops| > 0
  {
    hide LoopHead, Names, Off, RangeBody;
  }

  /** The whole end of a range loop, jump by jump. */
  lemma RangeEnd(n: nat, filter: Option<Expr>, body: Block, s: Snap, t: Snap, u: Snap, exit: int, skip: int)
    requires RangeEntered(n, filter, s, t, exit, skip) && Compiled(t, u, RangeBody(filter, body, s)) && u.exact
    ensures |s.prog| <= |u.prog| && Off(u.prog, |s.prog|) == Off(s.prog, |s.prog|)
    ensures var q := u.prog + [Jump(LOOP, |u.prog| - |s.prog| + 1)];
            var r := RangeLoop(n, filter, body, Names(s.locals), |s.constants|);
            (filter.None? ==> PatchReady(q, |s.prog|, exit) && Patched(q, |s.prog|) == s.prog + r.code) &&
            (filter.Some? ==>
              PatchReady(q, |t.prog| - 1, skip) &&
              (var q1 := Patched(q, |t.prog| - 1);
               var q2 := q1 + [Jump(LOOP, |q1| - |s.prog| + 1)];
               Off(q1, |s.prog|) == Off(s.prog, |s.prog|) &&
               PatchReady(q2, |s.prog|, exit) && Patched(q2, |s.prog|) == s.prog + r.code))
  {
    hide LoopHead, Names, Off, PatchReady, Patched, ScopeCode, RangeLoop, Compiled, RangeBody, RangeEntered;
    var ls, k := Names(s.locals), |s.constants|;
    var b := RangeBody(filter, body, s);
    var h' := LoopHead(filter, ls, k, |b.code| + 1).code;
    var m := 1 + |LoopHead(filter, ls, k, PENDING).code| + |b.code| + 1;
    RangeParts(n, filter, body, s);
    RangeBack(n, filter, body, s, t, u, exit, skip);
    ExitOf(n, filter, s, t, exit, skip, u, body);
    var tail := h' + b.code + LoopBack(filter, m);
    RangeExit(s.prog, n, tail, exit);
    var done := s.prog + [WaitingNext(n)] + h' + b.code + [Jump(LOOP, m)];
    StartKept(s.prog, done);
    if filter.None? {
      assert done == s.prog + [WaitingNext(n)] + tail;
    } else {
      assert done + [Jump(LOOP, m + 1)] == s.prog + [WaitingNext(n)] + tail;
    }
  }

  lemma ExitOf(n: nat, filter: Option<Expr>, s: Snap, t: Snap, exit: int, skip: int, u: Snap, body: Block)
    requires RangeEntered(n, filter, s, t, exit, skip) && Compiled(t, u, RangeBody(filter, body, s)) && u.exact
    ensures exit == Off(s.prog + [WaitingNext(n)], |s.prog| + 1) - 2
  {
    hide LoopHead, Names, Off, RangeBody;
  }

  lemma ForNeedsArgs(st: Stmt, ls: Locals, k: nat, lc: LoopCtx)
    requires st.ForRange? && !(1 <= |st.args| <= 3)
    ensures !StmtCode(st, ls, k, lc).ok
  {
    hide ArgsCode, RangeLoop, Fill;
  }

  /** Where the parts of a range loop are compiled. */
  lemma ForAligned(p: Prog, st: Stmt, ls: Locals, k: nat, lc: LoopCtx)
    requires st.ForRange?
    ensures var a := RangeStart(st.x, st.args, ls, k);
            var p1 := p + a.code + [WaitingNext(|ls|)];
            var h := LoopHead(st.filter, a.ls, k + |a.ks|, PENDING);
            StmtAligned(p, st, ls, k, lc) <==>
            ArgsAligned(p, st.args, ls + RangeLocals(st.x), k) && LoopHeadAligned(p1, st.filter, a.ls, k + |a.ks|) &&
            BlockAligned(p1 + h.code, st.body, a.ls, k + |a.ks| + |h.ks|, Backward(1 + |h.code|))
  {
    hide ArgsCode, LoopHead, LoopHeadAligned, BlockAligned, ArgsAligned;
    var n := |ls|;
    var a := ArgsCode(st.args, ls + RangeLocals(st.x), k);
    var init := RangeInit(n + 1, n + 2, n + 3, |st.args|);
    assert p + (a.code + [init]) + [WaitingNext(n)] == p + a.code + [init, WaitingNext(n)];
  }
}
