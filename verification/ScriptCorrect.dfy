/** Whole scripts, at the level of bytes: running the laid-out code of a script
    gives the locals of direct evaluation, and never ends when it does not. */
module ScriptCorrect {
  import opened Options
  import opened Machine
  import opened Assembly
  import opened Source
  import opened CodeGen
  import opened ExprCorrect
  import opened StmtCorrect
  import opened StmtParts
  import opened Layout

  // ------------------------------------------------ no stray break or continue

  predicate Stays(o: Outcome) { !o.Broke? && !o.Continued? }

  lemma {:induction false} WhileStays(c: Option<Expr>, body: Block, env: Env, fuel: nat)
    ensures Stays(ExecWhile(c, body, env, fuel))
    decreases fuel
  {
    hide ExecScope, EvalCond;
    if fuel > 0 && EvalCond(c, env).Some? && Truth(EvalCond(c, env).value) {
      var o := ExecScope(body, env, fuel);
      if o.Normal? || o.Continued? { WhileStays(c, body, o.env, fuel - 1); }
    }
  }

  lemma {:induction false} DoStays(body: Block, c: Option<Expr>, env: Env, fuel: nat)
    ensures Stays(ExecDo(body, c, env, fuel))
    decreases fuel
  {
    hide ExecScope, EvalCond;
    if fuel > 0 {
      var o := ExecScope(body, env, fuel);
      if o.Normal? || o.Continued? { DoStays(body, c, o.env, fuel - 1); }
    }
  }

  lemma {:induction false} ForStays(filter: Option<Expr>, body: Block, env: Env, at: nat, i: int, end: int, step: int,
                                    fuel: nat)
    ensures Stays(ExecFor(filter, body, env, at, i, end, step, fuel))
    decreases fuel
  {
    hide ExecScope, EvalCond;
    if fuel > 0 && InRange(i, end, step) && at < |env| && Safe(i) {
      var env1 := env[at := Binding(env[at].name, Some(VInt(i)))];
      if EvalCond(filter, env1).Some? {
        var o := if Truth(EvalCond(filter, env1).value) then ExecScope(body, env1, fuel) else Normal(env1);
        if o.Normal? || o.Continued? { ForStays(filter, body, o.env, at, i + step, end, step, fuel - 1); }
      }
    }
  }

  lemma {:induction false} StmtStays(s: Stmt, ls: Locals, k: nat, env: Env, fuel: nat)
    requires StmtCode(s, ls, k, NoLoop).ok
    ensures Stays(ExecStmt(s, env, fuel))
    decreases s, 1
  {
    hide ExprCode, IfHead, LoopHead, ArgsCode, AssignCode, GlobalAssignCode, Fill, RangeLoop, Eval, EvalArgs,
         ExecWhile, ExecDo, ExecFor, ScopeCode, ExecScope;
    match s
    case If(_, _, _) => IfStays(s, ls, k, env, fuel);
    case While(c, body) => WhileStays(c, body, env, fuel);
    case DoLoop(body, c) => DoStays(body, c, env, fuel);
    case ForRange(x, args, filter, body) =>
      var vs := EvalArgs(args, env + RangeScope(x));
      if vs.Some? && 1 <= |vs.value| <= 3 {
        var r := RangeOf(vs.value);
        ForStays(filter, body, env + RangeScope(x), |env|, r.0, r.1, r.2, fuel);
      }
    case _ =>
  }

  lemma {:induction false} IfStays(s: Stmt, ls: Locals, k: nat, env: Env, fuel: nat)
    requires s.If? && StmtCode(s, ls, k, NoLoop).ok
    ensures Stays(ExecStmt(s, env, fuel))
    decreases s, 0
  {
    hide IfHead, Eval, BlockCode, ExecScope;
    var h := IfHead(s.c, ls, k, 0);
    BlockStays(s.thn, ls, k + |h.ks|, env, fuel);
    if s.els.Some? {
      var b1 := ScopeCode(s.thn, ls, k + |h.ks|, NoLoop);
      BlockStays(s.els.value, b1.ls, k + |h.ks| + |b1.ks|, env, fuel);
    }
  }

  lemma {:induction false} BlockStays(b: Block, ls: Locals, k: nat, env: Env, fuel: nat)
    requires BlockCode(b, ls, k, NoLoop).ok
    ensures Stays(ExecBlock(b, env, fuel)) && Stays(ExecScope(b, env, fuel))
    decreases b, 0
  {
    hide StmtCode, ExecStmt;
    match b
    case Done =>
    case Then(s, rest) =>
      var f := StmtCode(s, ls, k, NoLoop);
      StmtStays(s, ls, k, env, fuel);
      var o := ExecStmt(s, env, fuel);
      if o.Normal? { BlockStays(rest, f.ls, k + |f.ks|, o.env, fuel); }
  }

  // ----------------------------------------------------------- the theorem

  /** Within the operand widths: code below 65536 bytes, at most 256 locals,
      at most 65536 constants. */
  predicate Small(f: SFrag) {
    Off(f.code, |f.code|) < 65536 && f.max <= 256 && |f.ks| <= 65536
  }

  function Start(l: seq<Value>): Status { Running(0, l, []) }

  lemma AgreesSelf(c: Prog, p: Prog, slots: nat, n: nat)
    requires |c| <= |p| && c == p[..|c|] && FragOk(c, slots, n, INSIDE)
    ensures Agrees(p, 0, c, 0, 0)
  {
    forall j | 0 <= j < |c| ensures Matches(p[0 + j], c[j], 0 + j, 0, 0) {
      assert InstrOk(c[j], j, |c|, slots, n, INSIDE);
    }
  }

  /** Running the instructions of a script, up to NIL; RETURN. */
  lemma ScriptRuns(b: Block, fuel: nat, l: seq<Value>) returns (n: nat)
    requires ProgramCode(b).ok && ProgramCode(b).max <= |l|
    ensures var f := ProgramCode(b);
            var a := IRun(f.code, Pool(f.ks), Start(l), n);
            match ExecBlock(b, [], fuel)
            case Normal(env) => a.Returned? && a.v == Nil && Rel(env, f.ls, a.l)
            case OutOfFuel => n >= fuel && a.Running?
            case o => o == Failed
  {
    hide BlockCode, ExecBlock, IRun, IStep, Rel;
    var f := BlockCode(b, [], 0, NoLoop);
    var p, ks := ProgramCode(b).code, Pool(f.ks);
    BlockOk(b, [], 0, NoLoop);
    AgreesSelf(f.code, p, f.max, |f.ks|);
    NoVariables(l);
    n := BlockRuns(b, [], 0, NoLoop, [], fuel, p, ks, 0, l, [], 0, 0);
    BlockStays(b, [], 0, [], fuel);
    var o := ExecBlock(b, [], fuel);
    if o.Normal? {
      var a := IRun(p, ks, Start(l), n);
      StepPlain(p, ks, |f.code|, NIL, a.l, [], [Nil]);
      ChainStep(p, ks, Start(l), n, a);
      StepReturn(p, ks, |f.code| + 1, a.l, Nil);
      ChainStep(p, ks, Start(l), n + 1, Running(|f.code| + 1, a.l, [Nil]));
      n := n + 2;
    }
  }

  lemma NoVariables(l: seq<Value>)
    ensures Rel([], [], l)
  {
  }

  lemma StepReturn(p: Prog, ks: seq<Value>, i: nat, l: seq<Value>, v: Value)
    requires i < |p| && p[i] == Plain(RETURN)
    ensures IStep(p, ks, Running(i, l, [v])) == Returned(v, l)
  {
  }

  /** The bytes and the pool of a script. */
  function Code(b: Block): seq<byte> { Assemble(ProgramCode(b).code) }
  function Consts(b: Block): seq<Value> { Pool(ProgramCode(b).ks) }

  /** If direct evaluation ends with variables `env`, the machine returns and
      every variable is in its slot. If evaluation is still going after `fuel`
      iterations, so is the machine after `fuel` steps. */
  lemma CompiledScript(b: Block, fuel: nat, l: seq<Value>) returns (n: nat)
    requires ProgramCode(b).ok && Small(ProgramCode(b)) && ProgramCode(b).max <= |l|
    ensures var a := Run(Code(b), Consts(b), Start(l), n);
            match ExecBlock(b, [], fuel)
            case Normal(env) => a.Returned? && a.v == Nil && Rel(env, ProgramCode(b).ls, a.l)
            case OutOfFuel => n >= fuel && a.Running?
            case o => o == Failed
  {
    hide ProgramCode, ExecBlock, Run, IRun, Rel;
    n := ScriptRuns(b, fuel, l);
    ProgramFits(b);
    RunAssembled(ProgramCode(b).code, Consts(b), Start(l), n);
  }

  lemma {:induction false} StaysStopped(code: seq<byte>, ks: seq<Value>, st: Status, n: nat)
    requires !st.Running?
    ensures Run(code, ks, st, n) == st
  {
    if n > 0 { StaysStopped(code, ks, st, n - 1); }
  }

  lemma {:induction false} RunAdds(code: seq<byte>, ks: seq<Value>, st: Status, m: nat, n: nat)
    ensures Run(code, ks, st, m + n) == Run(code, ks, Run(code, ks, st, m), n)
    decreases m
  {
    hide Step;
    if m > 0 { RunAdds(code, ks, Step(code, ks, st), m - 1, n); }
  }

  /** The converse: whatever the machine returns is what evaluation says, unless
      evaluation itself fails; and evaluation does not run forever then. */
  lemma ReturnedScript(b: Block, l: seq<Value>, n: nat)
    requires ProgramCode(b).ok && Small(ProgramCode(b)) && ProgramCode(b).max <= |l|
    requires Run(Code(b), Consts(b), Start(l), n).Returned?
    ensures var a := Run(Code(b), Consts(b), Start(l), n);
            var o := ExecBlock(b, [], n + 1);
            o == Failed || (o.Normal? && a.v == Nil && Rel(o.env, ProgramCode(b).ls, a.l))
  {
    hide ProgramCode, ExecBlock, Run, Rel, Assemble, Step;
    var m := CompiledScript(b, n + 1, l);
    var code, ks := Code(b), Consts(b);
    if n <= m {
      RunAdds(code, ks, Start(l), n, m - n);
      StaysStopped(code, ks, Run(code, ks, Start(l), n), m - n);
    } else {
      RunAdds(code, ks, Start(l), m, n - m);
      if !Run(code, ks, Start(l), m).Running? { StaysStopped(code, ks, Run(code, ks, Start(l), m), n - m); }
    }
  }
}
