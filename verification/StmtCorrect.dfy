/** Statements: running the code of a statement does what direct evaluation of
    the statement says, for every nesting of scopes, loops, break and continue,
    and runs forever exactly when evaluation does. */
module StmtCorrect {
  import opened Options
  import opened Machine
  import opened Assembly
  import opened Source
  import opened CodeGen
  import opened ExprCorrect
  import opened StmtParts

  // ------------------------------------------------------- compile-time locals

  ghost predicate Extends(ls: Locals, ls': Locals) {
    |ls| <= |ls'| && forall i :: 0 <= i < |ls| ==> ls'[i].name == ls[i].name
  }

  lemma AssignKeeps(x: string, op: AssignOp, e: Expr, ls: Locals, k: nat, slot: nat)
    requires slot < |ls|
    ensures var r := AssignCode(x, op, e, ls, k, slot).1; |r| == |ls| && Extends(ls, r)
  {
    hide ExprCode, AddedConst, AddedLocal, SelfUpdate, TypeOf, BinCode;
  }

  lemma {:induction false} StmtLocals(s: Stmt, ls: Locals, k: nat, lc: LoopCtx)
    ensures var f := StmtCode(s, ls, k, lc); Extends(ls, f.ls) && |f.ls| <= f.max
    ensures !s.Let? ==> |StmtCode(s, ls, k, lc).ls| == |ls|
    decreases s, 0
  {
    hide ExprCode, AddedConst, AddedLocal, SelfUpdate, IfHead, LoopHead, ArgsCode, TypeOf, Fill, GlobalAssignCode,
         AssignCode, ScopeCode, BinCode, SlotOf;
    match s
    case Assign(x, op, e) =>
      var slot := SlotOf(ls, x);
      if slot >= 0 { AssignKeeps(x, op, e, ls, k, slot); }
    case If(c, thn, els) =>
      var h := IfHead(c, ls, k, 0);
      ScopeLocals(thn, ls, k + |h.ks|, Shift(lc, |h.code|));
      if els.Some? {
        var b1 := ScopeCode(thn, ls, k + |h.ks|, Shift(lc, |h.code|));
        ScopeLocals(els.value, b1.ls, k + |h.ks| + |b1.ks|, Shift(lc, |h.code| + |b1.code| + 1));
      }
    case While(c, body) =>
      var h := LoopHead(c, ls, k, 0);
      ScopeLocals(body, ls, k + |h.ks|, Backward(|h.code|));
    case DoLoop(body, c) => ScopeLocals(body, ls, k, Forward);
    case ForRange(x, args, filter, body) =>
      var ls1 := ls + RangeLocals(x);
      var k1 := k + |ArgsCode(args, ls1, k).ks|;
      var h := LoopHead(filter, ls1, k1, 0);
      ScopeLocals(body, ls1, k1 + |h.ks|, Backward(1 + |h.code|));
    case _ =>
  }

  lemma {:induction false} BlockLocals(b: Block, ls: Locals, k: nat, lc: LoopCtx)
    ensures var f := BlockCode(b, ls, k, lc); Extends(ls, f.ls) && |f.ls| <= f.max
    decreases b, 0
  {
    match b
    case Done =>
    case Then(s, rest) =>
      var f := StmtCode(s, ls, k, lc);
      StmtLocals(s, ls, k, lc);
      BlockLocals(rest, f.ls, k + |f.ks|, Shift(lc, |f.code|));
  }

  lemma {:induction false} ScopeLocals(b: Block, ls: Locals, k: nat, lc: LoopCtx)
    ensures var f := ScopeCode(b, ls, k, lc); Extends(ls, f.ls) && |f.ls| == |ls| <= f.max
    decreases b, 1
  {
    BlockLocals(b, ls, k, lc);
  }

  // ------------------------------------------------------------ arriving there

  /** Slots of variables without a value belong to loop machinery: untouched. */
  ghost predicate Kept(env0: Env, l0: seq<Value>, env: Env, l: seq<Value>) {
    |env0| <= |env| && |l0| == |l| >= |env0| &&
    forall j :: 0 <= j < |env0| && env0[j].val.None? ==> env[j].val.None? && l[j] == l0[j]
  }

  ghost predicate Arrived(a: Status, pc: int, stk: seq<Value>, env: Env, ls: Locals, env0: Env, l0: seq<Value>) {
    a.Running? && a.pc == pc && a.stk == stk && Rel(env, ls, a.l) && Kept(env0, l0, env, a.l)
  }

  /** After n steps the machine is in state `a`, where outcome `o` says it
      should be: at the end of the code, at the target of a break or of a
      continue, with the operand stack as it was; and still running after at
      least as many steps as there was fuel when evaluation used all of it. */
  ghost predicate Reached(a: Status, n: nat, o: Outcome, env0: Env, ls0: Locals, l0: seq<Value>, ls': Locals,
                          hi: int, brk: int, cont: int, stk: seq<Value>, fuel: nat) {
    match o
    case Failed => true
    case OutOfFuel => n >= fuel && a.Running?
    case Normal(e) => Arrived(a, hi, stk, e, ls', env0, l0)
    case Broke(e) => |env0| <= |e| && Arrived(a, brk, stk, e[..|env0|], ls0, env0, l0)
    case Continued(e) => n > 0 && |env0| <= |e| && Arrived(a, cont, stk, e[..|env0|], ls0, env0, l0)
  }

  lemma RelRenamed(env: Env, ls: Locals, ls': Locals, l: seq<Value>)
    requires Rel(env, ls, l) && Extends(ls, ls') && |ls| == |ls'|
    ensures Rel(env, ls', l)
  {
    forall i | 0 <= i < |env| ensures Holds(env[i], ls'[i], l[i]) { assert Holds(env[i], ls[i], l[i]); }
  }

  lemma RelPrefix(env: Env, ls0: Locals, ls: Locals, l: seq<Value>)
    requires Rel(env, ls, l) && Extends(ls0, ls)
    ensures Rel(env[..|ls0|], ls0, l)
  {
    forall i | 0 <= i < |ls0| ensures Holds(env[..|ls0|][i], ls0[i], l[i]) { assert Holds(env[i], ls[i], l[i]); }
  }

  lemma KeptTrans(env0: Env, l0: seq<Value>, env1: Env, l1: seq<Value>, env2: Env, l2: seq<Value>)
    requires Kept(env0, l0, env1, l1) && Kept(env1, l1, env2, l2)
    ensures Kept(env0, l0, env2, l2)
  {
  }

  lemma KeptPrefix(env0: Env, l0: seq<Value>, env: Env, l: seq<Value>, n: nat)
    requires Kept(env0, l0, env, l) && |env0| <= n <= |env|
    ensures Kept(env0, l0, env[..n], l)
  {
  }

  /** A run that arrived normally goes on as the rest of the code goes on. */
  lemma ReachedThen(p: Prog, ks: seq<Value>, st: Status, n1: nat, mid: Status, n2: nat, o: Outcome, env0: Env,
                    ls0: Locals, l0: seq<Value>, env1: Env, ls1: Locals, ls': Locals, hi: int, brk: int, cont: int,
                    stk: seq<Value>, fuel: nat)
    requires IRun(p, ks, st, n1) == mid && mid.Running? && Arrived(mid, mid.pc, stk, env1, ls1, env0, l0)
    requires Extends(ls0, ls1) && |ls0| == |env0|
    requires Reached(IRun(p, ks, mid, n2), n2, o, env1, ls1, mid.l, ls', hi, brk, cont, stk, fuel)
    ensures Reached(IRun(p, ks, st, n1 + n2), n1 + n2, o, env0, ls0, l0, ls', hi, brk, cont, stk, fuel)
  {
    hide IRun, Rel, Extends;
    Chain(p, ks, st, n1, mid, n2);
    var a := IRun(p, ks, mid, n2);
    match o
    case Normal(e) => KeptTrans(env0, l0, env1, mid.l, e, a.l);
    case Broke(e) => Shorten(env0, ls0, l0, env1, ls1, mid.l, e, a.l);
    case Continued(e) => Shorten(env0, ls0, l0, env1, ls1, mid.l, e, a.l);
    case _ =>
  }

  lemma Shorten(env0: Env, ls0: Locals, l0: seq<Value>, env1: Env, ls1: Locals, l1: seq<Value>, e: Env, l: seq<Value>)
    requires Kept(env0, l0, env1, l1) && |ls0| == |env0| && Extends(ls0, ls1) && |env1| <= |e|
    requires Rel(e[..|env1|], ls1, l) && Kept(env1, l1, e[..|env1|], l)
    ensures Rel(e[..|env0|], ls0, l) && Kept(env0, l0, e[..|env0|], l)
  {
    assert e[..|env1|][..|env0|] == e[..|env0|];
    RelPrefix(e[..|env1|], ls0, ls1, l);
    KeptTrans(env0, l0, env1, l1, e[..|env1|], l);
    KeptPrefix(env0, l0, e[..|env1|], l, |env0|);
  }

  /** Closing a scope closes it in the outcome. */
  lemma ReachedClosed(a: Status, n: nat, o: Outcome, env0: Env, ls0: Locals, l0: seq<Value>, ls': Locals, ls2: Locals,
                      hi: int, brk: int, cont: int, stk: seq<Value>, fuel: nat)
    requires Reached(a, n, o, env0, ls0, l0, ls', hi, brk, cont, stk, fuel)
    requires |ls0| == |env0| && Extends(ls0, ls2) && |ls2| == |ls0| && Extends(ls2, ls')
    ensures Reached(a, n, Close(o, |env0|), env0, ls0, l0, ls2, hi, brk, cont, stk, fuel)
  {
    match o
    case Normal(e) =>
      RelPrefix(e, ls2, ls', a.l);
      KeptPrefix(env0, l0, e, a.l, |env0|);
    case Broke(e) => assert e[..|env0|][..|env0|] == e[..|env0|];
    case Continued(e) => assert e[..|env0|][..|env0|] == e[..|env0|];
    case _ =>
  }

  // ------------------------------------------------------------ waiting jumps

  lemma FilledBreaks(p: Prog, i: nat, c: Prog, brk: int, cont: int)
    requires Agrees(p, i, Fill(c, BREAK_HOLE, |c|), brk, cont)
    ensures Agrees(p, i, c, i + |c|, cont)
  {
    var r := Fill(c, BREAK_HOLE, |c|);
    forall j | 0 <= j < |c| ensures Matches(p[i + j], c[j], i + j, i + |c|, cont) {
      assert Matches(p[i + j], r[j], i + j, brk, cont);
    }
  }

  lemma FilledContinues(p: Prog, i: nat, c: Prog, brk: int, cont: int)
    requires Agrees(p, i, Fill(c, CONTINUE_HOLE, |c|), brk, cont)
    ensures Agrees(p, i, c, brk, i + |c|)
  {
    var r := Fill(c, CONTINUE_HOLE, |c|);
    forall j | 0 <= j < |c| ensures Matches(p[i + j], c[j], i + j, brk, i + |c|) {
      assert Matches(p[i + j], r[j], i + j, brk, cont);
    }
  }

  lemma StepLoop(p: Prog, ks: seq<Value>, i: nat, t: int, l: seq<Value>, stk: seq<Value>)
    requires i < |p| && p[i] == Jump(LOOP, t)
    ensures IStep(p, ks, Running(i, l, stk)) == Running(i + 1 - t, l, stk)
  {
  }

  /** Where `continue` leads from code at i. */
  function ContTarget(lc: LoopCtx, i: int, cont: int): int {
    if lc.Backward? then i - lc.here else cont
  }

  // -------------------------------------------------------------- statements

  /** The final program carries the fragment at position i, the pool its
      constants from k on, and there is room for its locals. */
  ghost predicate Loaded(f: SFrag, k: nat, p: Prog, ks: seq<Value>, i: nat, l: seq<Value>, brk: int, cont: int) {
    Agrees(p, i, f.code, brk, cont) && PoolAt(ks, k, f.ks) && f.max <= |l|
  }

  /** n steps through fragment f from position i do what outcome o says. */
  ghost predicate Does(n: nat, f: SFrag, o: Outcome, env: Env, ls: Locals, p: Prog, ks: seq<Value>, i: nat,
                       l: seq<Value>, stk: seq<Value>, brk: int, cont: int, fuel: nat) {
    Reached(IRun(p, ks, Running(i, l, stk), n), n, o, env, ls, l, f.ls, i + |f.code|, brk, cont, stk, fuel)
  }

  lemma {:induction false} StmtRuns(s: Stmt, ls: Locals, k: nat, lc: LoopCtx, env: Env, fuel: nat, p: Prog,
                                    ks: seq<Value>, i: nat, l: seq<Value>, stk: seq<Value>, brk: int, cont: int)
    returns (n: nat)
    requires Loaded(StmtCode(s, ls, k, lc), k, p, ks, i, l, brk, cont) && Rel(env, ls, l)
    ensures Does(n, StmtCode(s, ls, k, lc), ExecStmt(s, env, fuel), env, ls, p, ks, i, l, stk, brk,
                 ContTarget(lc, i, cont), fuel)
    decreases s, fuel, 1
  {
    hide StmtCode, ExecStmt, Loaded, Rel, Does;
    match s
    case Let(_, _, _) => n := LetRuns(s, ls, k, lc, env, fuel, p, ks, i, l, stk, brk, cont);
    case Assign(_, _, _) => n := SetRuns(s, ls, k, lc, env, fuel, p, ks, i, l, stk, brk, cont);
    case ExprStmt(_) => n := DropRuns(s, ls, k, lc, env, fuel, p, ks, i, l, stk, brk, cont);
    case If(_, _, _) =>
      if s.els.None? { n := IfThenRuns(s, ls, k, lc, env, fuel, p, ks, i, l, stk, brk, cont); }
      else { n := IfElseRuns(s, ls, k, lc, env, fuel, p, ks, i, l, stk, brk, cont); }
    case While(_, _) => n := WhileRuns(s, ls, k, lc, env, fuel, p, ks, i, l, stk, brk, cont);
    case DoLoop(_, _) => n := DoRuns(s, ls, k, lc, env, fuel, p, ks, i, l, stk, brk, cont);
    case ForRange(_, _, _, _) => n := ForRangeRuns(s, ls, k, lc, env, fuel, p, ks, i, l, stk, brk, cont);
    case Break => n := LeaveRuns(s, ls, k, lc, env, fuel, p, ks, i, l, stk, brk, cont);
    case Continue => n := LeaveRuns(s, ls, k, lc, env, fuel, p, ks, i, l, stk, brk, cont);
  }

  lemma RelBounds(env: Env, ls: Locals, l: seq<Value>)
    requires Rel(env, ls, l)
    ensures |env| == |ls| <= |l|
  {
  }

  lemma LeaveRuns(s: Stmt, ls: Locals, k: nat, lc: LoopCtx, env: Env, fuel: nat, p: Prog, ks: seq<Value>, i: nat,
                  l: seq<Value>, stk: seq<Value>, brk: int, cont: int) returns (n: nat)
    requires s.Break? || s.Continue?
    requires Loaded(StmtCode(s, ls, k, lc), k, p, ks, i, l, brk, cont) && Rel(env, ls, l)
    ensures Does(n, StmtCode(s, ls, k, lc), ExecStmt(s, env, fuel), env, ls, p, ks, i, l, stk, brk,
                 ContTarget(lc, i, cont), fuel)
  {
    hide IRun, IStep, Rel;
    RelBounds(env, ls, l);
    AgreesAt(p, i, StmtCode(s, ls, k, lc).code, 0, brk, cont);
    if s.Break? { StepJump(p, ks, i, brk - i - 1, l, stk); }
    else if lc.Backward? { StepLoop(p, ks, i, lc.here + 1, l, stk); }
    else { StepJump(p, ks, i, cont - i - 1, l, stk); }
    IRunOne(p, ks, Running(i, l, stk));
    assert env[..|env|] == env;
    n := 1;
  }

  lemma LetRuns(s: Stmt, ls: Locals, k: nat, lc: LoopCtx, env: Env, fuel: nat, p: Prog, ks: seq<Value>, i: nat,
                l: seq<Value>, stk: seq<Value>, brk: int, cont: int) returns (n: nat)
    requires s.Let?
    requires Loaded(StmtCode(s, ls, k, lc), k, p, ks, i, l, brk, cont) && Rel(env, ls, l)
    ensures Does(n, StmtCode(s, ls, k, lc), ExecStmt(s, env, fuel), env, ls, p, ks, i, l, stk, brk,
                 ContTarget(lc, i, cont), fuel)
  {
    hide IRun, IStep, Eval, ExprCode, TypeOf, Agrees, PoolAt;
    n := 0;
    if Eval(s.e, env).Some? {
      var f := ExprCode(s.e, ls, k);
      var v := Eval(s.e, env).value;
      AgreesSplit(p, i, f.code, [Slot(SET_LOCAL, |ls|)], brk, cont);
      n := ExprRuns(s.e, ls, k, env, p, ks, i, l, stk, brk, cont);
      AgreesAt(p, i + |f.code|, [Slot(SET_LOCAL, |ls|)], 0, brk, cont);
      StepSetLocal(p, ks, i + |f.code|, |ls|, l, stk, ToVM(v));
      ChainStep(p, ks, Running(i, l, stk), n, Running(i + |f.code|, l, stk + [ToVM(v)]));
      EvalGood(s.e, env, ls, l);
      var ls' := StmtCode(s, ls, k, lc).ls;
      var env', l' := env + [Binding(s.x, Some(v))], l[|ls| := ToVM(v)];
      forall j | 0 <= j < |env'| ensures Holds(env'[j], ls'[j], l'[j]) {
        if j < |env| { assert Holds(env[j], ls[j], l[j]); }
      }
      n := n + 1;
    }
  }

  lemma SetRuns(s: Stmt, ls: Locals, k: nat, lc: LoopCtx, env: Env, fuel: nat, p: Prog, ks: seq<Value>, i: nat,
                l: seq<Value>, stk: seq<Value>, brk: int, cont: int) returns (n: nat)
    requires s.Assign?
    requires Loaded(StmtCode(s, ls, k, lc), k, p, ks, i, l, brk, cont) && Rel(env, ls, l)
    ensures Does(n, StmtCode(s, ls, k, lc), ExecStmt(s, env, fuel), env, ls, p, ks, i, l, stk, brk,
                 ContTarget(lc, i, cont), fuel)
  {
    hide IRun, IStep, Eval, ExprCode, TypeOf, Agrees, PoolAt, GlobalAssignCode, AddedConst, AddedLocal, SelfUpdate,
         AssignValue;
    n := 0;
    var x, op, e := s.x, s.op, s.e;
    var at := Find(env, x);
    FindMatchesSlot(env, ls, l, x);
    if at >= 0 && env[at].val.Some? && Eval(AssignValue(x, op, e), env).Some? {
      var v := Eval(AssignValue(x, op, e), env).value;
      n := AssignRuns(x, op, e, ls, k, env, p, ks, i, l, stk, brk, cont);
      EvalGood(AssignValue(x, op, e), env, ls, l);
      var ls' := StmtCode(s, ls, k, lc).ls;
      var env', l' := env[at := Binding(x, Some(v))], l[at := ToVM(v)];
      forall j | 0 <= j < |env'| ensures Holds(env'[j], ls'[j], l'[j]) {
        assert Holds(env[j], ls[j], l[j]);
      }
    }
  }

  lemma DropRuns(s: Stmt, ls: Locals, k: nat, lc: LoopCtx, env: Env, fuel: nat, p: Prog, ks: seq<Value>, i: nat,
                 l: seq<Value>, stk: seq<Value>, brk: int, cont: int) returns (n: nat)
    requires s.ExprStmt?
    requires Loaded(StmtCode(s, ls, k, lc), k, p, ks, i, l, brk, cont) && Rel(env, ls, l)
    ensures Does(n, StmtCode(s, ls, k, lc), ExecStmt(s, env, fuel), env, ls, p, ks, i, l, stk, brk,
                 ContTarget(lc, i, cont), fuel)
  {
    hide IRun, IStep, Eval, ExprCode, Agrees, PoolAt, Rel;
    n := 0;
    if Eval(s.e, env).Some? {
      var f := ExprCode(s.e, ls, k);
      var v := ToVM(Eval(s.e, env).value);
      AgreesSplit(p, i, f.code, [Plain(POP)], brk, cont);
      n := ExprRuns(s.e, ls, k, env, p, ks, i, l, stk, brk, cont);
      AgreesAt(p, i + |f.code|, [Plain(POP)], 0, brk, cont);
      StepPop(p, ks, i + |f.code|, l, stk, v);
      ChainStep(p, ks, Running(i, l, stk), n, Running(i + |f.code|, l, stk + [v]));
      RelBounds(env, ls, l);
      n := n + 1;
    }
  }

  // ------------------------------------------------------- blocks and scopes

  lemma {:induction false} BlockRuns(b: Block, ls: Locals, k: nat, lc: LoopCtx, env: Env, fuel: nat, p: Prog,
                                     ks: seq<Value>, i: nat, l: seq<Value>, stk: seq<Value>, brk: int, cont: int)
    returns (n: nat)
    requires Loaded(BlockCode(b, ls, k, lc), k, p, ks, i, l, brk, cont) && Rel(env, ls, l)
    ensures Does(n, BlockCode(b, ls, k, lc), ExecBlock(b, env, fuel), env, ls, p, ks, i, l, stk, brk,
                 ContTarget(lc, i, cont), fuel)
    decreases b, fuel, 0
  {
    hide IRun, StmtCode, ExecStmt, Agrees, PoolAt, Rel, Extends;
    var st := Running(i, l, stk);
    RelBounds(env, ls, l);
    match b
    case Done =>
      n := 0;
      IRunZero(p, ks, st);
    case Then(s, rest) =>
      var f := StmtCode(s, ls, k, lc);
      var lc' := Shift(lc, |f.code|);
      var g := BlockCode(rest, f.ls, k + |f.ks|, lc');
      AgreesSplit(p, i, f.code, g.code, brk, cont);
      PoolSplit(ks, k, f.ks, g.ks);
      n := StmtRuns(s, ls, k, lc, env, fuel, p, ks, i, l, stk, brk, cont);
      var o := ExecStmt(s, env, fuel);
      if o.Normal? {
        var mid := IRun(p, ks, st, n);
        StmtLocals(s, ls, k, lc);
        var m := BlockRuns(rest, f.ls, k + |f.ks|, lc', o.env, fuel, p, ks, i + |f.code|, mid.l, stk, brk, cont);
        ReachedThen(p, ks, st, n, mid, m, ExecBlock(rest, o.env, fuel), env, ls, l, o.env, f.ls, g.ls,
                    i + |f.code| + |g.code|, brk, ContTarget(lc, i, cont), stk, fuel);
        n := n + m;
      }
  }

  lemma {:induction false} ScopeRuns(b: Block, ls: Locals, k: nat, lc: LoopCtx, env: Env, fuel: nat, p: Prog,
                                     ks: seq<Value>, i: nat, l: seq<Value>, stk: seq<Value>, brk: int, cont: int)
    returns (n: nat)
    requires Loaded(ScopeCode(b, ls, k, lc), k, p, ks, i, l, brk, cont) && Rel(env, ls, l)
    ensures Does(n, ScopeCode(b, ls, k, lc), ExecScope(b, env, fuel), env, ls, p, ks, i, l, stk, brk,
                 ContTarget(lc, i, cont), fuel)
    decreases b, fuel, 1
  {
    hide IRun, BlockCode, ExecBlock, Agrees, PoolAt, Reached, Close, Rel;
    var f, g := BlockCode(b, ls, k, lc), ScopeCode(b, ls, k, lc);
    n := BlockRuns(b, ls, k, lc, env, fuel, p, ks, i, l, stk, brk, cont);
    BlockLocals(b, ls, k, lc);
    RelBounds(env, ls, l);
    ReachedClosed(IRun(p, ks, Running(i, l, stk), n), n, ExecBlock(b, env, fuel), env, ls, l, f.ls, g.ls,
                  i + |f.code|, brk, ContTarget(lc, i, cont), stk, fuel);
  }

  /** A run continued from a later state with the same variables in scope. */
  lemma DoesThen(p: Prog, ks: seq<Value>, i: nat, l: seq<Value>, stk: seq<Value>, n1: nat, i': nat, l': seq<Value>,
                 n2: nat, f: SFrag, f': SFrag, o: Outcome, env: Env, ls: Locals, env': Env, ls': Locals, brk: int,
                 cont: int, fuel: nat)
    requires IRun(p, ks, Running(i, l, stk), n1) == Running(i', l', stk)
    requires Rel(env', ls', l') && Kept(env, l, env', l') && |ls| == |env| && Extends(ls, ls')
    requires Does(n2, f, o, env', ls', p, ks, i', l', stk, brk, cont, fuel)
    requires i' + |f.code| == i + |f'.code| && f'.ls == f.ls
    ensures Does(n1 + n2, f', o, env, ls, p, ks, i, l, stk, brk, cont, fuel)
  {
    hide IRun, Rel, Extends, Kept;
    ReachedThen(p, ks, Running(i, l, stk), n1, Running(i', l', stk), n2, o, env, ls, l, env', ls', f.ls,
                i' + |f.code|, brk, cont, stk, fuel);
  }

  lemma NothingPromised(f: SFrag, env: Env, ls: Locals, p: Prog, ks: seq<Value>, i: nat, l: seq<Value>,
                        stk: seq<Value>, brk: int, cont: int, fuel: nat)
    ensures Does(0, f, Failed, env, ls, p, ks, i, l, stk, brk, cont, fuel)
  {
  }

  lemma KeptSelf(env: Env, ls: Locals, l: seq<Value>)
    requires Rel(env, ls, l)
    ensures Kept(env, l, env, l) && Extends(ls, ls)
  {
  }

  // ---------------------------------------------------------------------- if

  lemma {:induction false} IfThenRuns(s: Stmt, ls: Locals, k: nat, lc: LoopCtx, env: Env, fuel: nat, p: Prog,
                                      ks: seq<Value>, i: nat, l: seq<Value>, stk: seq<Value>, brk: int, cont: int)
    returns (n: nat)
    requires s.If? && s.els.None?
    requires Loaded(StmtCode(s, ls, k, lc), k, p, ks, i, l, brk, cont) && Rel(env, ls, l)
    ensures Does(n, StmtCode(s, ls, k, lc), ExecStmt(s, env, fuel), env, ls, p, ks, i, l, stk, brk,
                 ContTarget(lc, i, cont), fuel)
    decreases s, fuel, 0
  {
    hide IRun, Agrees, PoolAt, Rel, ScopeCode, ExecScope, IfHead, Eval, Does, Extends, Kept;
    n := 0;
    NothingPromised(StmtCode(s, ls, k, lc), env, ls, p, ks, i, l, stk, brk, ContTarget(lc, i, cont), fuel);
    if Eval(s.c, env).Some? {
      var h := IfHead(s.c, ls, k, 0);
      var lc' := Shift(lc, |h.code|);
      var b := ScopeCode(s.thn, ls, k + |h.ks|, lc');
      var h' := IfHead(s.c, ls, k, |b.code|);
      HeadLength(s.c, ls, k, 0, |b.code|);
      AgreesSplit(p, i, h'.code, b.code, brk, cont);
      PoolSplit(ks, k, h.ks, b.ks);
      n := IfHeadRuns(s.c, ls, k, |b.code|, env, p, ks, i, l, stk, brk, cont);
      KeptSelf(env, ls, l);
      RelBounds(env, ls, l);
      ScopeLocals(s.thn, ls, k + |h.ks|, lc');
      var f := StmtCode(s, ls, k, lc);
      if Truth(Eval(s.c, env).value) {
        var m := ScopeRuns(s.thn, ls, k + |h.ks|, lc', env, fuel, p, ks, i + |h.code|, l, stk, brk, cont);
        DoesThen(p, ks, i, l, stk, n, i + |h.code|, l, m, b, f, ExecScope(s.thn, env, fuel), env, ls, env, ls, brk,
                 ContTarget(lc, i, cont), fuel);
        n := n + m;
      } else {
        StandsStill(n, f, env, ls, p, ks, i, l, stk, brk, ContTarget(lc, i, cont), fuel);
      }
    }
  }

  /** A run that reached the end of the fragment without changing anything. */
  lemma StandsStill(n: nat, f: SFrag, env: Env, ls: Locals, p: Prog, ks: seq<Value>, i: nat, l: seq<Value>,
                    stk: seq<Value>, brk: int, cont: int, fuel: nat)
    requires IRun(p, ks, Running(i, l, stk), n) == Running(i + |f.code|, l, stk)
    requires Rel(env, ls, l) && Extends(ls, f.ls) && |ls| == |f.ls|
    ensures Does(n, f, Normal(env), env, ls, p, ks, i, l, stk, brk, cont, fuel)
  {
    RelRenamed(env, ls, f.ls, l);
  }

  lemma {:induction false} IfElseRuns(s: Stmt, ls: Locals, k: nat, lc: LoopCtx, env: Env, fuel: nat, p: Prog,
                                      ks: seq<Value>, i: nat, l: seq<Value>, stk: seq<Value>, brk: int, cont: int)
    returns (n: nat)
    requires s.If? && s.els.Some?
    requires Loaded(StmtCode(s, ls, k, lc), k, p, ks, i, l, brk, cont) && Rel(env, ls, l)
    ensures Does(n, StmtCode(s, ls, k, lc), ExecStmt(s, env, fuel), env, ls, p, ks, i, l, stk, brk,
                 ContTarget(lc, i, cont), fuel)
    decreases s, fuel, 0
  {
    hide IRun, Agrees, PoolAt, Rel, ScopeCode, ExecScope, IfHead, Eval, Does, Extends, Kept;
    n := 0;
    NothingPromised(StmtCode(s, ls, k, lc), env, ls, p, ks, i, l, stk, brk, ContTarget(lc, i, cont), fuel);
    if Eval(s.c, env).Some? {
      var eb := s.els.value;
      var h := IfHead(s.c, ls, k, 0);
      var lc1 := Shift(lc, |h.code|);
      var b1 := ScopeCode(s.thn, ls, k + |h.ks|, lc1);
      var k2 := k + |h.ks| + |b1.ks|;
      var lc2 := Shift(lc, |h.code| + |b1.code| + 1);
      var b2 := ScopeCode(eb, b1.ls, k2, lc2);
      var h' := IfHead(s.c, ls, k, |b1.code| + 1);
      HeadLength(s.c, ls, k, 0, |b1.code| + 1);
      var over := [Jump(JUMP, |b2.code|)];
      AgreesSplit(p, i, h'.code + b1.code + over, b2.code, brk, cont);
      AgreesSplit(p, i, h'.code + b1.code, over, brk, cont);
      AgreesSplit(p, i, h'.code, b1.code, brk, cont);
      PoolSplit(ks, k, h.ks + b1.ks, b2.ks);
      PoolSplit(ks, k, h.ks, b1.ks);
      n := IfHeadRuns(s.c, ls, k, |b1.code| + 1, env, p, ks, i, l, stk, brk, cont);
      KeptSelf(env, ls, l);
      RelBounds(env, ls, l);
      ScopeLocals(s.thn, ls, k + |h.ks|, lc1);
      ScopeLocals(eb, b1.ls, k2, lc2);
      var f := StmtCode(s, ls, k, lc);
      var ct := ContTarget(lc, i, cont);
      if Truth(Eval(s.c, env).value) {
        var at := i + |h.code|;
        var m := ScopeRuns(s.thn, ls, k + |h.ks|, lc1, env, fuel, p, ks, at, l, stk, brk, cont);
        var m' := JumpOver(m, b1, b2, ExecScope(s.thn, env, fuel), env, ls, p, ks, at, l, stk, brk, cont, ct, fuel);
        var g := SFrag(b1.code + over + b2.code, [], b2.ls, 0, true);
        DoesThen(p, ks, i, l, stk, n, at, l, m', g, f, ExecScope(s.thn, env, fuel), env, ls, env, ls, brk, ct, fuel);
        n := n + m';
      } else {
        var at := i + |h.code| + |b1.code| + 1;
        RelRenamed(env, ls, b1.ls, l);
        var m := ScopeRuns(eb, b1.ls, k2, lc2, env, fuel, p, ks, at, l, stk, brk, cont);
        DoesThen(p, ks, i, l, stk, n, at, l, m, b2, f, ExecScope(eb, env, fuel), env, ls, env, b1.ls, brk, ct, fuel);
        n := n + m;
      }
    }
  }

  /** After the then-branch, the jump over the else-branch. */
  lemma JumpOver(n: nat, b1: SFrag, b2: SFrag, o: Outcome, env: Env, ls: Locals, p: Prog, ks: seq<Value>, i: nat,
                 l: seq<Value>, stk: seq<Value>, brk: int, cont: int, ct: int, fuel: nat)
    returns (n': nat)
    requires Does(n, b1, o, env, ls, p, ks, i, l, stk, brk, ct, fuel)
    requires Agrees(p, i + |b1.code|, [Jump(JUMP, |b2.code|)], brk, cont)
    requires |b1.ls| == |b2.ls| && Extends(b1.ls, b2.ls)
    ensures Does(n', SFrag(b1.code + [Jump(JUMP, |b2.code|)] + b2.code, [], b2.ls, 0, true), o, env, ls, p, ks, i, l,
                 stk, brk, ct, fuel)
  {
    hide IRun, IStep, Rel;
    n' := n;
    if o.Normal? {
      var a := IRun(p, ks, Running(i, l, stk), n);
      AgreesAt(p, i + |b1.code|, [Jump(JUMP, |b2.code|)], 0, brk, cont);
      StepJump(p, ks, i + |b1.code|, |b2.code|, a.l, stk);
      ChainStep(p, ks, Running(i, l, stk), n, a);
      RelRenamed(o.env, b1.ls, b2.ls, a.l);
      n' := n + 1;
    }
  }

  // ------------------------------------------------------------------- loops

  /** One pass through a loop body that ends normally or with `continue` brings
      the machine to the loop's continue point `at`, after at least one step if
      it continued. */
  ghost predicate BackAt(a: Status, at: int, stk: seq<Value>, e: Env, ls: Locals, env: Env, l: seq<Value>) {
    |e| == |env| && Arrived(a, at, stk, e, ls, env, l)
  }

  lemma BackLength(a: Status, at: int, stk: seq<Value>, e: Env, ls: Locals, env: Env, l: seq<Value>)
    requires BackAt(a, at, stk, e, ls, env, l)
    ensures |a.l| == |l|
  {
  }

  lemma ScopeLength(b: Block, env: Env, fuel: nat)
    ensures var o := ExecScope(b, env, fuel);
            (o.Normal? || o.Broke? || o.Continued?) ==> |o.env| == |env|
  {
    hide ExecBlock;
  }

  /** The body's break is the loop's normal end. */
  lemma BrokeOut(p: Prog, ks: seq<Value>, i: nat, l: seq<Value>, stk: seq<Value>, n1: nat, i': nat, n2: nat, f: SFrag,
                 f': SFrag, o: Outcome, env: Env, env0: Env, l0: seq<Value>, ls: Locals, brk: int, cont: int,
                 brk': int, cont': int, fuel: nat, fuel': nat)
    requires o.Broke? && |o.env| == |env0| == |env| == |ls| == |f'.ls| && Extends(ls, f'.ls)
    requires IRun(p, ks, Running(i, l, stk), n1) == Running(i', l0, stk) && Kept(env, l, env0, l0)
    requires Does(n2, f, o, env0, ls, p, ks, i', l0, stk, brk, cont, fuel) && brk == i + |f'.code|
    ensures Does(n1 + n2, f', Normal(o.env), env, ls, p, ks, i, l, stk, brk', cont', fuel')
  {
    hide IRun, Rel;
    Chain(p, ks, Running(i, l, stk), n1, Running(i', l0, stk), n2);
    var a := IRun(p, ks, Running(i', l0, stk), n2);
    assert o.env[..|env0|] == o.env;
    KeptTrans(env, l, env0, l0, o.env, a.l);
    RelRenamed(o.env, ls, f'.ls, a.l);
  }

  lemma {:induction false} WhileRuns(s: Stmt, ls: Locals, k: nat, lc: LoopCtx, env: Env, fuel: nat, p: Prog,
                                     ks: seq<Value>, i: nat, l: seq<Value>, stk: seq<Value>, brk: int, cont: int)
    returns (n: nat)
    requires s.While?
    requires Loaded(StmtCode(s, ls, k, lc), k, p, ks, i, l, brk, cont) && Rel(env, ls, l)
    ensures Does(n, StmtCode(s, ls, k, lc), ExecStmt(s, env, fuel), env, ls, p, ks, i, l, stk, brk,
                 ContTarget(lc, i, cont), fuel)
    decreases s, fuel, 0
  {
    hide IRun, Agrees, PoolAt, Rel, ScopeCode, ExecScope, LoopHead, EvalCond, Does, Extends, Kept;
    var f := StmtCode(s, ls, k, lc);
    var ct := ContTarget(lc, i, cont);
    NothingPromised(f, env, ls, p, ks, i, l, stk, brk, ct, fuel);
    n := 0;
    if fuel == 0 {
      IRunZero(p, ks, Running(i, l, stk));
      RunsForFuel(0, f, env, ls, p, ks, i, l, stk, brk, ct, 0);
    } else if EvalCond(s.cond, env).Some? {
      var h := LoopHead(s.cond, ls, k, 0);
      var b := ScopeCode(s.body, ls, k + |h.ks|, Backward(|h.code|));
      var h' := LoopHead(s.cond, ls, k, |b.code| + 1);
      LoopHeadLength(s.cond, ls, k, 0, |b.code| + 1);
      var back := [Jump(LOOP, |h.code| + |b.code| + 1)];
      var hi := i + |h.code| + |b.code| + 1;
      FilledBreaks(p, i, h'.code + b.code + back, brk, cont);
      AgreesSplit(p, i, h'.code + b.code, back, hi, cont);
      AgreesSplit(p, i, h'.code, b.code, hi, cont);
      PoolSplit(ks, k, h.ks, b.ks);
      KeptSelf(env, ls, l);
      RelBounds(env, ls, l);
      ScopeLocals(s.body, ls, k + |h.ks|, Backward(|h.code|));
      n := LoopHeadRuns(s.cond, ls, k, |b.code| + 1, env, p, ks, i, l, stk, hi, cont);
      if !Truth(EvalCond(s.cond, env).value) {
        StandsStill(n, f, env, ls, p, ks, i, l, stk, brk, ct, fuel);
      } else {
        var at := i + |h.code|;
        var m := ScopeRuns(s.body, ls, k + |h.ks|, Backward(|h.code|), env, fuel, p, ks, at, l, stk, hi, cont);
        var o := ExecScope(s.body, env, fuel);
        ScopeLength(s.body, env, fuel);
        if o.Broke? {
          BrokeOut(p, ks, i, l, stk, n, at, m, b, f, o, env, env, l, ls, hi, i, brk, ct, fuel, fuel);
          n := n + m;
        } else if o.Normal? || o.Continued? {
          var m' := Again(m, b, o, env, ls, p, ks, at, l, stk, hi, cont, i, fuel);
          var l1 := IRun(p, ks, Running(at, l, stk), m').l;
          BackLength(IRun(p, ks, Running(at, l, stk), m'), i, stk, o.env, ls, env, l);
          Chain(p, ks, Running(i, l, stk), n, Running(at, l, stk), m');
          var r := WhileRuns(s, ls, k, lc, o.env, fuel - 1, p, ks, i, l1, stk, brk, cont);
          NextIteration(p, ks, i, l, stk, n + m', l1, r, f, ExecStmt(s, o.env, fuel - 1), env, ls, o.env, brk, ct, fuel);
          n := n + m' + r;
        } else {
          StuckInside(p, ks, i, l, stk, n, at, m, b, f, o, env, ls, l, env, hi, i, brk, ct, fuel);
          n := n + m;
        }
      }
    }
  }

  lemma RunsForFuel(n: nat, f: SFrag, env: Env, ls: Locals, p: Prog, ks: seq<Value>, i: nat, l: seq<Value>,
                    stk: seq<Value>, brk: int, cont: int, fuel: nat)
    requires n >= fuel && IRun(p, ks, Running(i, l, stk), n).Running?
    ensures Does(n, f, OutOfFuel, env, ls, p, ks, i, l, stk, brk, cont, fuel)
  {
  }

  /** The body used up its fuel or failed: so does the loop. */
  lemma StuckInside(p: Prog, ks: seq<Value>, i: nat, l: seq<Value>, stk: seq<Value>, n1: nat, i': nat, n2: nat,
                    f: SFrag, f': SFrag, o: Outcome, env: Env, ls: Locals, l0: seq<Value>, env0: Env, brk: int,
                    cont: int, brk': int, cont': int, fuel: nat)
    requires o.OutOfFuel? || o.Failed?
    requires IRun(p, ks, Running(i, l, stk), n1) == Running(i', l0, stk)
    requires Does(n2, f, o, env0, ls, p, ks, i', l0, stk, brk, cont, fuel)
    ensures Does(n1 + n2, f', o, env, ls, p, ks, i, l, stk, brk', cont', fuel)
  {
    hide IRun, Rel;
    Chain(p, ks, Running(i, l, stk), n1, Running(i', l0, stk), n2);
  }

  /** From the end of the body the LOOP instruction, and from a continue the
      jump already made, lead back to the start of the loop. */
  lemma Again(m: nat, b: SFrag, o: Outcome, env: Env, ls: Locals, p: Prog, ks: seq<Value>, at: nat, l: seq<Value>,
              stk: seq<Value>, brk: int, cont: int, start: int, fuel: nat)
    returns (m': nat)
    requires o.Normal? || o.Continued?
    requires |o.env| == |env| == |ls| == |b.ls| && Extends(ls, b.ls)
    requires Does(m, b, o, env, ls, p, ks, at, l, stk, brk, start, fuel)
    requires Agrees(p, at + |b.code|, [Jump(LOOP, at + |b.code| + 1 - start)], brk, cont)
    ensures m' > 0 && BackAt(IRun(p, ks, Running(at, l, stk), m'), start, stk, o.env, ls, env, l)
  {
    hide IRun, IStep, Rel;
    var a := IRun(p, ks, Running(at, l, stk), m);
    if o.Normal? {
      AgreesAt(p, at + |b.code|, [Jump(LOOP, at + |b.code| + 1 - start)], 0, brk, cont);
      StepLoop(p, ks, at + |b.code|, at + |b.code| + 1 - start, a.l, stk);
      ChainStep(p, ks, Running(at, l, stk), m, a);
      RelBounds(o.env, b.ls, a.l);
      RelRenamed(o.env, b.ls, ls, a.l);
      m' := m + 1;
    } else {
      assert o.env[..|env|] == o.env;
      m' := m;
    }
  }

  /** One iteration of at least one step, then the loop on one unit less. */
  lemma NextIteration(p: Prog, ks: seq<Value>, i: nat, l: seq<Value>, stk: seq<Value>, n1: nat, l1: seq<Value>, n2: nat,
                      f: SFrag, o: Outcome, env: Env, ls: Locals, env1: Env, brk: int, cont: int, fuel: nat)
    requires n1 > 0 && fuel > 0 && |ls| == |env|
    requires BackAt(IRun(p, ks, Running(i, l, stk), n1), i, stk, env1, ls, env, l)
    requires l1 == IRun(p, ks, Running(i, l, stk), n1).l
    requires Does(n2, f, o, env1, ls, p, ks, i, l1, stk, brk, cont, fuel - 1)
    ensures Does(n1 + n2, f, o, env, ls, p, ks, i, l, stk, brk, cont, fuel)
  {
    hide IRun, Rel;
    var mid := IRun(p, ks, Running(i, l, stk), n1);
    ReachedThen(p, ks, Running(i, l, stk), n1, mid, n2, o, env, ls, l, env1, ls, f.ls, i + |f.code|, brk, cont, stk,
                fuel - 1);
  }

  // ----------------------------------------------------------------- do-loop

  lemma {:induction false} DoRuns(s: Stmt, ls: Locals, k: nat, lc: LoopCtx, env: Env, fuel: nat, p: Prog,
                                  ks: seq<Value>, i: nat, l: seq<Value>, stk: seq<Value>, brk: int, cont: int)
    returns (n: nat)
    requires s.DoLoop?
    requires Loaded(StmtCode(s, ls, k, lc), k, p, ks, i, l, brk, cont) && Rel(env, ls, l)
    ensures Does(n, StmtCode(s, ls, k, lc), ExecStmt(s, env, fuel), env, ls, p, ks, i, l, stk, brk,
                 ContTarget(lc, i, cont), fuel)
    decreases s, fuel, 0
  {
    hide IRun, Agrees, PoolAt, Rel, ScopeCode, ExecScope, LoopHead, EvalCond, Does, Extends, Kept;
    var f := StmtCode(s, ls, k, lc);
    var ct := ContTarget(lc, i, cont);
    NothingPromised(f, env, ls, p, ks, i, l, stk, brk, ct, fuel);
    IRunZero(p, ks, Running(i, l, stk));
    n := 0;
    if fuel == 0 {
      RunsForFuel(0, f, env, ls, p, ks, i, l, stk, brk, ct, 0);
    } else {
      var b := ScopeCode(s.body, ls, k, Forward);
      var h := LoopHead(s.cond, b.ls, k + |b.ks|, 1);
      var back := [Jump(LOOP, |b.code| + |h.code| + 1)];
      var hi := i + |b.code| + |h.code| + 1;
      var body := Fill(b.code, CONTINUE_HOLE, |b.code|);
      FilledBreaks(p, i, body + h.code + back, brk, cont);
      AgreesSplit(p, i, body + h.code, back, hi, cont);
      AgreesSplit(p, i, body, h.code, hi, cont);
      FilledContinues(p, i, b.code, hi, cont);
      PoolSplit(ks, k, b.ks, h.ks);
      KeptSelf(env, ls, l);
      RelBounds(env, ls, l);
      ScopeLocals(s.body, ls, k, Forward);
      var mid := i + |b.code|;
      var m := ScopeRuns(s.body, ls, k, Forward, env, fuel, p, ks, i, l, stk, hi, mid);
      var o := ExecScope(s.body, env, fuel);
      ScopeLength(s.body, env, fuel);
      if o.Broke? {
        BrokeOut(p, ks, i, l, stk, 0, i, m, b, f, o, env, env, l, ls, hi, mid, brk, ct, fuel, fuel);
        n := m;
      } else if o.OutOfFuel? || o.Failed? {
        StuckInside(p, ks, i, l, stk, 0, i, m, b, f, o, env, ls, l, env, hi, mid, brk, ct, fuel);
        n := m;
      } else if EvalCond(s.cond, o.env).Some? {
        BodyEnds(m, b, o, env, ls, p, ks, i, l, stk, hi, fuel);
        var a := IRun(p, ks, Running(i, l, stk), m);
        BackLength(a, mid, stk, o.env, b.ls, env, l);
        var q := LoopHeadRuns(s.cond, b.ls, k + |b.ks|, 1, o.env, p, ks, mid, a.l, stk, hi, cont);
        Chain(p, ks, Running(i, l, stk), m, a, q);
        if Truth(EvalCond(s.cond, o.env).value) {
          AgreesAt(p, mid + |h.code|, back, 0, hi, cont);
          StepLoop(p, ks, mid + |h.code|, |b.code| + |h.code| + 1, a.l, stk);
          ChainStep(p, ks, Running(i, l, stk), m + q, Running(mid + |h.code|, a.l, stk));
          BackRenamed(a, mid, i, stk, o.env, b.ls, ls, env, l);
          var r := DoRuns(s, ls, k, lc, o.env, fuel - 1, p, ks, i, a.l, stk, brk, cont);
          NextIteration(p, ks, i, l, stk, m + q + 1, a.l, r, f, ExecStmt(s, o.env, fuel - 1), env, ls, o.env, brk, ct,
                        fuel);
          n := m + q + 1 + r;
        } else {
          n := m + q;
          EndsHere(n, f, o.env, env, ls, p, ks, i, l, a.l, stk, brk, ct, fuel);
        }
      }
    }
  }

  /** Both ways a body can end bring the machine to its continue point. */
  lemma BodyEnds(m: nat, b: SFrag, o: Outcome, env: Env, ls: Locals, p: Prog, ks: seq<Value>, i: nat, l: seq<Value>,
                 stk: seq<Value>, brk: int, fuel: nat)
    requires o.Normal? || o.Continued?
    requires |o.env| == |env| == |ls| == |b.ls| && Extends(ls, b.ls)
    requires Does(m, b, o, env, ls, p, ks, i, l, stk, brk, i + |b.code|, fuel)
    ensures BackAt(IRun(p, ks, Running(i, l, stk), m), i + |b.code|, stk, o.env, b.ls, env, l)
  {
    hide IRun, Rel;
    var a := IRun(p, ks, Running(i, l, stk), m);
    if o.Continued? {
      assert o.env[..|env|] == o.env;
      RelRenamed(o.env, ls, b.ls, a.l);
    }
  }

  lemma BackRenamed(a: Status, at: int, at': int, stk: seq<Value>, e: Env, ls: Locals, ls': Locals, env: Env,
                    l: seq<Value>)
    requires BackAt(a, at, stk, e, ls, env, l) && Extends(ls', ls) && |ls| == |ls'|
    ensures BackAt(Running(at', a.l, stk), at', stk, e, ls', env, l)
  {
    RelRenamed(e, ls, ls', a.l);
  }

  lemma EndsHere(n: nat, f: SFrag, e: Env, env: Env, ls: Locals, p: Prog, ks: seq<Value>, i: nat, l: seq<Value>,
                 l': seq<Value>, stk: seq<Value>, brk: int, cont: int, fuel: nat)
    requires IRun(p, ks, Running(i, l, stk), n) == Running(i + |f.code|, l', stk)
    requires Rel(e, f.ls, l') && Kept(env, l, e, l')
    ensures Does(n, f, Normal(e), env, ls, p, ks, i, l, stk, brk, cont, fuel)
  {
  }

  // -------------------------------------------------------------- range loops

  /** What the iterations of a range loop come to. Relative to the scope around
      the loop, since the loop updates its own hidden locals. */
  ghost predicate Iterates(a: Status, m: nat, o: Outcome, n: nat, env: Env, ls: Locals, l: seq<Value>, hi: int,
                           stk: seq<Value>, fuel: nat) {
    |env| >= n &&
    match o
    case Failed => true
    case OutOfFuel => m >= fuel && a.Running?
    case Normal(e) => |e| == |env| && Arrived(a, hi, stk, e, ls, env[..n], l)
    case _ => false
  }

  /** The loop variable is at n; the three bindings after it are hidden. */
  predicate HiddenAt(env: Env, n: nat) {
    |env| == n + 4 && env[n + 1].val.None? && env[n + 2].val.None? && env[n + 3].val.None?
  }

  /** Yielding i sets the loop variable and nothing that the scope around the
      loop can see. */
  lemma Yields(env: Env, ls: Locals, l: seq<Value>, n: nat, i: int)
    requires Rel(env, ls, l) && HiddenAt(env, n) && n + 3 < |l| && Safe(i)
    ensures var env1 := env[n := Binding(env[n].name, Some(VInt(i)))];
            var l1 := l[n + 1 := IntValue(i)][n := IntValue(i)];
            Rel(env1, ls, l1) && HiddenAt(env1, n) && Kept(env[..n], l, env1, l1)
  {
    var env1 := env[n := Binding(env[n].name, Some(VInt(i)))];
    var l1 := l[n + 1 := IntValue(i)][n := IntValue(i)];
    forall j | 0 <= j < |env1| ensures Holds(env1[j], ls[j], l1[j]) { assert Holds(env[j], ls[j], l[j]); }
  }

  /** What a body leaves alone keeps the loop ready for its next value. */
  lemma StaysReady(env1: Env, l1: seq<Value>, env2: Env, l2: seq<Value>, n: nat, i: int, end: int, step: int)
    requires HiddenAt(env1, n) && Kept(env1, l1, env2, l2) && |env2| == |env1| && RangeReady(l1, n, i, end, step)
    ensures HiddenAt(env2, n) && RangeReady(l2, n, i, end, step)
  {
  }

  lemma {:induction false} ForRuns(n: nat, filter: Option<Expr>, body: Block, ls: Locals, k: nat, env: Env, iv: int,
                                   end: int, step: int, fuel: nat, p: Prog, ks: seq<Value>, at: nat, l: seq<Value>,
                                   stk: seq<Value>, cont: int)
    returns (m: nat)
    requires var f := RangeLoop(n, filter, body, ls, k);
             Agrees(p, at, f.code, at + |f.code|, cont) && PoolAt(ks, k, f.ks) && f.max <= |l|
    requires Rel(env, ls, l) && HiddenAt(env, n) && RangeReady(l, n, iv, end, step)
    requires -2 * TWO_53 <= iv <= 2 * TWO_53 && Safe(step)
    ensures var f := RangeLoop(n, filter, body, ls, k);
            Iterates(IRun(p, ks, Running(at, l, stk), m), m, ExecFor(filter, body, env, n, iv, end, step, fuel), n,
                     env, f.ls, l, at + |f.code|, stk, fuel)
    decreases body, fuel, 3
  {
    hide IRun, IStep, Agrees, PoolAt, Rel, ScopeCode, ExecScope, LoopHead, Does, Extends, Kept, RangeReady;
    IRunZero(p, ks, Running(at, l, stk));
    RelBounds(env, ls, l);
    m := 0;
    if fuel > 0 {
      var h := LoopHead(filter, ls, k, 0);
      var b := ScopeCode(body, ls, k + |h.ks|, Backward(1 + |h.code|));
      LoopHeadLength(filter, ls, k, 0, |b.code| + 1);
      ScopeLocals(body, ls, k + |h.ks|, Backward(1 + |h.code|));
      var f := RangeLoop(n, filter, body, ls, k);
      var hi := at + |f.code|;
      LoopPieces(n, filter, body, ls, k, p, at, hi, cont);
      PoolSplit(ks, k, h.ks, b.ks);
      ReadyBounds(l, n, iv, end, step);
      StepRangeNext(p, ks, at, n, |f.code| - 1, iv, end, step, l, stk);
      IRunOne(p, ks, Running(at, l, stk));
      if !InRange(iv, end, step) {
        m := 1;
        KeptOuter(env, ls, l, n);
        RelRenamed(env, ls, f.ls, l);
      } else if Safe(iv) {
        var env1 := env[n := Binding(env[n].name, Some(VInt(iv)))];
        var l1 := l[n + 1 := IntValue(iv)][n := IntValue(iv)];
        Yields(env, ls, l, n, iv);
        if EvalCond(filter, env1).Some? {
          var q := LoopHeadRuns(filter, ls, k, |b.code| + 1, env1, p, ks, at + 1, l1, stk, hi, cont);
          Chain(p, ks, Running(at, l, stk), 1, Running(at + 1, l1, stk), q);
          if !Truth(EvalCond(filter, env1).value) {
            var z := at + 1 + |h.code| + |b.code| + 1;
            StepLoop(p, ks, z, 1 + |h.code| + |b.code| + 2, l1, stk);
            ChainStep(p, ks, Running(at, l, stk), 1 + q, Running(z, l1, stk));
            var r := ForRuns(n, filter, body, ls, k, env1, iv + step, end, step, fuel - 1, p, ks, at, l1, stk, cont);
            NextValue(p, ks, at, l, stk, 1 + q + 1, l1, r, ExecFor(filter, body, env1, n, iv + step, end, step, fuel - 1),
                      n, env, env1, ls, f.ls, hi, fuel);
            m := 1 + q + 1 + r;
          } else {
            m := BodyPass(n, filter, body, ls, k, env, iv, end, step, fuel, p, ks, at, l, stk, cont, 1 + q);
          }
        }
      }
    }
  }

  lemma ReadyBounds(l: seq<Value>, n: nat, i: int, end: int, step: int)
    requires RangeReady(l, n, i, end, step)
    ensures n + 3 < |l|
  {
  }

  lemma KeptOuter(env: Env, ls: Locals, l: seq<Value>, n: nat)
    requires Rel(env, ls, l) && n <= |env|
    ensures Kept(env[..n], l, env, l)
  {
  }

  function LoopBack(filter: Option<Expr>, m: nat): Prog {
    if filter.Some? then [Jump(LOOP, m), Jump(LOOP, m + 1)] else [Jump(LOOP, m)]
  }

  lemma RangeLoopShape(n: nat, filter: Option<Expr>, body: Block, ls: Locals, k: nat)
    ensures var h := LoopHead(filter, ls, k, 0);
            var b := ScopeCode(body, ls, k + |h.ks|, Backward(1 + |h.code|));
            var tail := LoopHead(filter, ls, k, |b.code| + 1).code + b.code +
                        LoopBack(filter, 1 + |h.code| + |b.code| + 1);
            var f := RangeLoop(n, filter, body, ls, k);
            f.code == [f.code[0]] + tail && f.code[0] == RangeNext(n + 1, n + 2, n + 3, n, |f.code| - 1)
  {
    hide ScopeCode, LoopHead;
  }

  /** The instructions of a loop at `at`, in their places: f is its code, h and h'
      its filter with and without a target, b its body. */
  ghost predicate InPlace(n: nat, filter: Option<Expr>, f: Prog, h: Prog, h': Prog, b: Prog, p: Prog, at: nat, brk: int,
                          cont: int) {
    var z := at + 1 + |h'| + |b|;
    at < |p| && p[at] == RangeNext(n + 1, n + 2, n + 3, n, |f| - 1) &&
    Agrees(p, at + 1, h', brk, cont) && Agrees(p, at + 1 + |h'|, b, brk, cont) &&
    z < |p| && p[z] == Jump(LOOP, 1 + |h| + |b| + 1) &&
    (filter.Some? ==> z + 1 < |p| && p[z + 1] == Jump(LOOP, 1 + |h| + |b| + 2)) &&
    |f| == 1 + |h'| + |b| + (if filter.Some? then 2 else 1)
  }

  lemma LoopPieces(n: nat, filter: Option<Expr>, body: Block, ls: Locals, k: nat, p: Prog, at: nat, brk: int, cont: int)
    requires Agrees(p, at, RangeLoop(n, filter, body, ls, k).code, brk, cont)
    ensures var h := LoopHead(filter, ls, k, 0);
            var b := ScopeCode(body, ls, k + |h.ks|, Backward(1 + |h.code|));
            InPlace(n, filter, RangeLoop(n, filter, body, ls, k).code, h.code, LoopHead(filter, ls, k, |b.code| + 1).code,
                    b.code, p, at, brk, cont)
  {
    hide Agrees, ScopeCode, LoopHead, RangeLoop;
    var h := LoopHead(filter, ls, k, 0);
    var b := ScopeCode(body, ls, k + |h.ks|, Backward(1 + |h.code|));
    LoopHeadLength(filter, ls, k, 0, |b.code| + 1);
    RangeLoopShape(n, filter, body, ls, k);
    var f := RangeLoop(n, filter, body, ls, k);
    Pieces(p, at, f.code[0], LoopHead(filter, ls, k, |b.code| + 1).code, b.code, 1 + |h.code| + |b.code| + 1,
           filter, brk, cont);
  }

  lemma Pieces(p: Prog, at: nat, first: Instr, h: Prog, b: Prog, m: nat, filter: Option<Expr>, brk: int, cont: int)
    requires Agrees(p, at, [first] + (h + b + LoopBack(filter, m)), brk, cont) && !first.Jump?
    ensures var z := at + 1 + |h| + |b|;
            at < |p| && p[at] == first && Agrees(p, at + 1, h, brk, cont) &&
            Agrees(p, at + 1 + |h|, b, brk, cont) && z < |p| && p[z] == Jump(LOOP, m) &&
            (filter.Some? ==> z + 1 < |p| && p[z + 1] == Jump(LOOP, m + 1))
  {
    hide Agrees;
    var back := LoopBack(filter, m);
    AgreesSplit(p, at, [first], h + b + back, brk, cont);
    AgreesSplit(p, at + 1, h + b, back, brk, cont);
    AgreesSplit(p, at + 1, h, b, brk, cont);
    AgreesAt(p, at, [first], 0, brk, cont);
    var z := at + 1 + |h| + |b|;
    AgreesAt(p, z, back, 0, brk, cont);
    if filter.Some? { AgreesAt(p, z, back, 1, brk, cont); }
  }

  /** One iteration of at least one step, then the rest of the range. */
  lemma NextValue(p: Prog, ks: seq<Value>, at: nat, l: seq<Value>, stk: seq<Value>, n1: nat, l1: seq<Value>, n2: nat,
                  o: Outcome, n: nat, env: Env, env1: Env, ls: Locals, ls': Locals, hi: int, fuel: nat)
    requires n1 > 0 && fuel > 0 && |env| == |env1| >= n
    requires IRun(p, ks, Running(at, l, stk), n1) == Running(at, l1, stk)
    requires Kept(env[..n], l, env1, l1)
    requires Iterates(IRun(p, ks, Running(at, l1, stk), n2), n2, o, n, env1, ls', l1, hi, stk, fuel - 1)
    ensures Iterates(IRun(p, ks, Running(at, l, stk), n1 + n2), n1 + n2, o, n, env, ls', l, hi, stk, fuel)
  {
    hide IRun, Rel;
    Chain(p, ks, Running(at, l, stk), n1, Running(at, l1, stk), n2);
    var a := IRun(p, ks, Running(at, l1, stk), n2);
    if o.Normal? {
      KeptPrefix(env[..n], l, env1, l1, n);
      KeptTrans(env[..n], l, env1[..n], l1, o.env, a.l);
    }
  }

  /** The iteration whose filter passed: the body, the way back, the rest. */
  lemma {:induction false} BodyPass(n: nat, filter: Option<Expr>, body: Block, ls: Locals, k: nat, env: Env, iv: int,
                                    end: int, step: int, fuel: nat, p: Prog, ks: seq<Value>, at: nat, l: seq<Value>,
                                    stk: seq<Value>, cont: int, n1: nat)
    returns (m: nat)
    requires var f := RangeLoop(n, filter, body, ls, k);
             Agrees(p, at, f.code, at + |f.code|, cont) && PoolAt(ks, k, f.ks) && f.max <= |l|
    requires Rel(env, ls, l) && HiddenAt(env, n) && RangeReady(l, n, iv, end, step)
    requires Safe(iv) && Safe(step) && fuel > 0 && n1 > 0 && InRange(iv, end, step)
    requires var env1 := env[n := Binding(env[n].name, Some(VInt(iv)))];
             EvalCond(filter, env1).Some? && Truth(EvalCond(filter, env1).value)
    requires n + 3 < |l| && IRun(p, ks, Running(at, l, stk), n1) ==
             Running(at + 1 + |LoopHead(filter, ls, k, 0).code|, l[n + 1 := IntValue(iv)][n := IntValue(iv)], stk)
    ensures var f := RangeLoop(n, filter, body, ls, k);
            Iterates(IRun(p, ks, Running(at, l, stk), m), m, ExecFor(filter, body, env, n, iv, end, step, fuel), n,
                     env, f.ls, l, at + |f.code|, stk, fuel)
    decreases body, fuel, 2
  {
    hide IRun, IStep, Agrees, PoolAt, Rel, ScopeCode, ExecScope, LoopHead, EvalCond, Does, Extends, Kept, RangeReady;
    var h := LoopHead(filter, ls, k, 0);
    var b := ScopeCode(body, ls, k + |h.ks|, Backward(1 + |h.code|));
    LoopHeadLength(filter, ls, k, 0, |b.code| + 1);
    ScopeLocals(body, ls, k + |h.ks|, Backward(1 + |h.code|));
    var f := RangeLoop(n, filter, body, ls, k);
    var hi := at + |f.code|;
    LoopPieces(n, filter, body, ls, k, p, at, hi, cont);
    PoolSplit(ks, k, h.ks, b.ks);
    RelBounds(env, ls, l);
    StepReady(l, n, iv, end, step);
    var env1 := env[n := Binding(env[n].name, Some(VInt(iv)))];
    var l1 := l[n + 1 := IntValue(iv)][n := IntValue(iv)];
    Yields(env, ls, l, n, iv);
    var start := at + 1 + |h.code|;
    var q := ScopeRuns(body, ls, k + |h.ks|, Backward(1 + |h.code|), env1, fuel, p, ks, start, l1, stk, hi, cont);
    var o := ExecScope(body, env1, fuel);
    ScopeLength(body, env1, fuel);
    if o.Normal? || o.Continued? {
      AgreesBack(p, start + |b.code|, 1 + |h.code| + |b.code| + 1, hi, cont);
      var q' := Again(q, b, o, env1, ls, p, ks, start, l1, stk, hi, cont, at, fuel);
      var a := IRun(p, ks, Running(start, l1, stk), q');
      Chain(p, ks, Running(at, l, stk), n1, Running(start, l1, stk), q');
      PassKeeps(a, at, stk, o.env, ls, env, env1, l, l1, n, iv + step, end, step);
      var r := ForRuns(n, filter, body, ls, k, o.env, iv + step, end, step, fuel - 1, p, ks, at, a.l, stk, cont);
      NextValue(p, ks, at, l, stk, n1 + q', a.l, r, ExecFor(filter, body, o.env, n, iv + step, end, step, fuel - 1),
                n, env, o.env, ls, f.ls, hi, fuel);
      m := n1 + q' + r;
    } else {
      m := n1 + q;
      PassEnds(p, ks, at, l, stk, n1, start, l1, q, b, o, n, env, env1, ls, f.ls, hi, at, fuel);
    }
  }

  lemma StepReady(l: seq<Value>, n: nat, i: int, end: int, step: int)
    requires RangeReady(l, n, i, end, step)
    ensures RangeReady(l[n + 1 := IntValue(i)][n := IntValue(i)], n, i + step, end, step)
  {
  }

  lemma AgreesBack(p: Prog, at: nat, t: int, brk: int, cont: int)
    requires at < |p| && p[at] == Jump(LOOP, t)
    ensures Agrees(p, at, [Jump(LOOP, t)], brk, cont)
  {
  }

  lemma PassKeeps(a: Status, at: int, stk: seq<Value>, e: Env, ls: Locals, env: Env, env1: Env, l: seq<Value>,
                  l1: seq<Value>, n: nat, i: int, end: int, step: int)
    requires BackAt(a, at, stk, e, ls, env1, l1) && HiddenAt(env1, n) && RangeReady(l1, n, i, end, step)
    requires |env| == |env1| && Kept(env[..n], l, env1, l1)
    ensures a == Running(at, a.l, stk) && Rel(e, ls, a.l) && |a.l| == |l| && HiddenAt(e, n)
    ensures RangeReady(a.l, n, i, end, step) && Kept(env[..n], l, e, a.l)
  {
    hide Rel, RangeReady;
    StaysReady(env1, l1, e, a.l, n, i, end, step);
    KeptTrans(env[..n], l, env1, l1, e, a.l);
  }

  /** A break, a failure or lack of fuel inside the body ends the loop. */
  lemma PassEnds(p: Prog, ks: seq<Value>, at: nat, l: seq<Value>, stk: seq<Value>, n1: nat, start: nat, l1: seq<Value>,
                 q: nat, b: SFrag, o: Outcome, n: nat, env: Env, env1: Env, ls: Locals, ls': Locals, hi: int,
                 cont: int, fuel: nat)
    requires o.Broke? || o.OutOfFuel? || o.Failed?
    requires o.Broke? ==> |o.env| == |env1|
    requires |env| == |env1| == |ls| == |ls'| >= n && Extends(ls, ls')
    requires IRun(p, ks, Running(at, l, stk), n1) == Running(start, l1, stk) && Kept(env[..n], l, env1, l1)
    requires Does(q, b, o, env1, ls, p, ks, start, l1, stk, hi, cont, fuel)
    ensures Iterates(IRun(p, ks, Running(at, l, stk), n1 + q), n1 + q, if o.Broke? then Normal(o.env) else o, n, env,
                     ls', l, hi, stk, fuel)
  {
    hide IRun, Rel;
    Chain(p, ks, Running(at, l, stk), n1, Running(start, l1, stk), q);
    var a := IRun(p, ks, Running(start, l1, stk), q);
    if o.Broke? {
      assert o.env[..|env1|] == o.env;
      RelRenamed(o.env, ls, ls', a.l);
      KeptTrans(env[..n], l, env1, l1, o.env, a.l);
    }
  }

  lemma RangeScopeRel(x: string, env: Env, ls: Locals, l: seq<Value>)
    requires Rel(env, ls, l) && |ls| + 4 <= |l|
    ensures Rel(env + RangeScope(x), ls + RangeLocals(x), l)
    ensures HiddenAt(env + RangeScope(x), |env|)
  {
    var e, ls1 := env + RangeScope(x), ls + RangeLocals(x);
    forall j | 0 <= j < |e| ensures Holds(e[j], ls1[j], l[j]) {
      if j < |env| { assert Holds(env[j], ls[j], l[j]); }
    }
  }

  lemma {:induction false} ForRangeRuns(s: Stmt, ls: Locals, k: nat, lc: LoopCtx, env: Env, fuel: nat, p: Prog,
                                        ks: seq<Value>, i: nat, l: seq<Value>, stk: seq<Value>, brk: int, cont: int)
    returns (m: nat)
    requires s.ForRange?
    requires Loaded(StmtCode(s, ls, k, lc), k, p, ks, i, l, brk, cont) && Rel(env, ls, l)
    ensures Does(m, StmtCode(s, ls, k, lc), ExecStmt(s, env, fuel), env, ls, p, ks, i, l, stk, brk,
                 ContTarget(lc, i, cont), fuel)
    decreases s, fuel, 0
  {
    hide IRun, IStep, Agrees, PoolAt, Rel, ArgsCode, RangeLoop, EvalArgs, ExecFor, Does, Kept, RangeReady, Fill,
         RangeOf;
    var f := StmtCode(s, ls, k, lc);
    var ct := ContTarget(lc, i, cont);
    NothingPromised(f, env, ls, p, ks, i, l, stk, brk, ct, fuel);
    m := 0;
    var n := |ls|;
    var env1, ls1 := env + RangeScope(s.x), ls + RangeLocals(s.x);
    RelBounds(env, ls, l);
    if EvalArgs(s.args, env1).Some? && 1 <= |EvalArgs(s.args, env1).value| <= 3 {
      var vs := EvalArgs(s.args, env1).value;
      var a := ArgsCode(s.args, ls1, k);
      var loop := RangeLoop(n, s.filter, s.body, ls1, k + |a.ks|);
      var init := [RangeInit(n + 1, n + 2, n + 3, |s.args|)];
      AgreesSplit(p, i, a.code + init, Fill(loop.code, BREAK_HOLE, |loop.code|), brk, cont);
      AgreesSplit(p, i, a.code, init, brk, cont);
      PoolSplit(ks, k, a.ks, loop.ks);
      RangeScopeRel(s.x, env, ls, l);
      m := ArgsRun(s.args, ls1, k, env1, p, ks, i, l, stk, brk, cont);
      var at := i + |a.code|;
      AgreesAt(p, at, init, 0, brk, cont);
      var l1 := StepRangeInit(p, ks, at, n, vs, l, stk);
      ChainStep(p, ks, Running(i, l, stk), m, Running(at, l, stk + Ints(vs)));
      FilledBreaks(p, at + 1, loop.code, brk, cont);
      SameSlots(env, ls, l, l1, s.x);
      var r := RangeOf(vs);
      var q := ForRuns(n, s.filter, s.body, ls1, k + |a.ks|, env1, r.0, r.1, r.2, fuel, p, ks, at + 1, l1, stk, cont);
      RangeLoopLocals(n, s.filter, s.body, ls1, k + |a.ks|);
      LoopCloses(p, ks, i, l, stk, m + 1, at + 1, l1, q, ExecFor(s.filter, s.body, env1, n, r.0, r.1, r.2, fuel), f,
                 loop.ls, env, env1, ls, brk, ct, fuel);
      m := m + 1 + q;
    }
  }

  lemma RangeLoopLocals(n: nat, filter: Option<Expr>, body: Block, ls: Locals, k: nat)
    ensures var f := RangeLoop(n, filter, body, ls, k); Extends(ls, f.ls) && |f.ls| == |ls|
  {
    var h := LoopHead(filter, ls, k, 0);
    ScopeLocals(body, ls, k + |h.ks|, Backward(1 + |h.code|));
  }

  lemma SameSlots(env: Env, ls: Locals, l: seq<Value>, l1: seq<Value>, x: string)
    requires Rel(env, ls, l) && |l1| == |l| && |ls| + 4 <= |l| && forall j :: 0 <= j <= |ls| ==> l1[j] == l[j]
    ensures Rel(env + RangeScope(x), ls + RangeLocals(x), l1) && Kept(env, l, env + RangeScope(x), l1)
  {
    forall j | 0 <= j < |env| ensures Holds(env[j], ls[j], l1[j]) { assert Holds(env[j], ls[j], l[j]); }
    RangeScopeRel(x, env, ls, l1);
  }

  /** Leaving the loop's scope. */
  lemma LoopCloses(p: Prog, ks: seq<Value>, i: nat, l: seq<Value>, stk: seq<Value>, n1: nat, at: nat, l1: seq<Value>,
                   q: nat, o: Outcome, f: SFrag, ls': Locals, env: Env, env1: Env, ls: Locals, brk: int, cont: int,
                   fuel: nat)
    requires IRun(p, ks, Running(i, l, stk), n1) == Running(at, l1, stk)
    requires |env1| >= |env| == |ls| && env1[..|env|] == env && Kept(env, l, env1, l1)
    requires Iterates(IRun(p, ks, Running(at, l1, stk), q), q, o, |env|, env1, ls', l1, i + |f.code|, stk, fuel)
    requires Extends(ls, ls') && f.ls == Keep(ls', |ls|)
    ensures Does(n1 + q, f, Close(o, |env|), env, ls, p, ks, i, l, stk, brk, cont, fuel)
  {
    hide IRun, Rel;
    Chain(p, ks, Running(i, l, stk), n1, Running(at, l1, stk), q);
    var a := IRun(p, ks, Running(at, l1, stk), q);
    if o.Normal? {
      RelPrefix(o.env, f.ls, ls', a.l);
      KeptTrans(env, l, env, l1, o.env, a.l);
      KeptPrefix(env, l, o.env, a.l, |env|);
    }
  }
}
