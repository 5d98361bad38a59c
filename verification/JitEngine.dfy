/** The tiering engine: functions run in the interpreter until they are hot,
    are then compiled once, and give the interpreter's result from there on. */
module JitEngine {
  import opened Options
  import opened Machine
  import opened JitIr
  import opened JitLower
  import opened JitCompile
  import opened JitCorrect
  import opened JitExec
  import opened JitSound
  import JitAccepts

  /** A bytecode function; `id` stands for its address. */
  datatype Function = Function(id: nat, code: seq<byte>, constants: seq<Value>, arity: nat, maxLocals: nat, captures: nat)

  datatype Stats = Stats(compiled: nat, executed: nat, rejected: nat, skippedCold: nat)

  datatype Compiled = Compiled(p: Lowered, code: seq<Instruction>)

  /** compileFunction: captures are refused before lowering. */
  function Accepted(fn: Function): Option<Lowered> {
    if fn.captures != 0 then None else Program(Lower(fn.code, fn.constants))
  }

  /** A function is accepted exactly when it captures nothing and there is a
      legal walk over its code. */
  lemma AcceptedExactly(fn: Function)
    ensures Accepted(fn).Some? <==>
              fn.captures == 0 &&
              exists walk: seq<JitAccepts.Visit>, last: JitAccepts.Visit ::
                JitAccepts.Legal(fn.code, fn.constants, walk, last)
  {
    hide Lower, JitAccepts.Legal;
    JitAccepts.AcceptedExactly(fn.code, fn.constants);
  }

  /** c is the function's code for a backend. */
  ghost predicate IsCompiled(fn: Function, c: Compiled, base: byte) {
    Accepted(fn) == Some(c.p) && Encodes(c.code, c.p.ir, base)
  }

  /** The locals of a new frame: argument i in slot i, nil in the others. */
  ghost predicate NewFrame(l: seq<Value>, args: seq<Value>, n: nat) {
    |l| == n && forall i :: 0 <= i < n ==> l[i] == if i < |args| then args[i] else Nil
  }

  /** A function whose code has operand depths: nothing about a call. */
  ghost predicate Sound(fn: Function) {
    |fn.code| < 65536 && Scalars(fn.constants) && exists depth :: Verified(fn.code, depth)
  }

  /** compileFunction: lowering and encoding. */
  method CompileFunction(fn: Function, base: byte) returns (ok: bool, c: Compiled)
    ensures ok == Accepted(fn).Some? && (ok ==> IsCompiled(fn, c, base))
  {
    hide Lower, Encodes;
    ok, c := false, Compiled(Lowered([], [], [], 0), []);
    if fn.captures != 0 { return; }
    var lowered := LowerBytecode(fn.code, fn.constants);
    if lowered.None? { return; }
    var code := EncodeInstructions(lowered.value.ir, base);
    ok, c := true, Compiled(lowered.value, code);
  }

  class Engine {
    const base: byte
    var warmupThreshold: nat
    var cache: map<Function, Compiled>
    var rejected: set<Function>
    var callCounts: map<Function, nat>
    var stats: Stats

    /** What is cached is the function's compilation; what is rejected has none;
        both happened once per function, after enough calls. */
    ghost predicate Valid()
      reads this
    {
      (base == WINDOWS_BASE || base == POSIX_BASE) &&
      (forall fn :: fn in cache ==> fn !in rejected && IsCompiled(fn, cache[fn], base)) &&
      (forall fn :: fn in rejected ==> Accepted(fn) == None) &&
      stats.compiled == |cache| && stats.rejected == |rejected| &&
      (forall fn :: fn in cache || fn in rejected ==> fn in callCounts)
    }

    constructor (windows: bool, threshold: int)
      ensures Valid() && cache == map[] && rejected == {} && callCounts == map[] && stats == Stats(0, 0, 0, 0)
      ensures warmupThreshold == if threshold < 1 then 1 else threshold
    {
      base := if windows then WINDOWS_BASE else POSIX_BASE;
      warmupThreshold := if threshold < 1 then 1 else threshold;
      cache, rejected, callCounts, stats := map[], {}, map[], Stats(0, 0, 0, 0);
    }

    /** The calls counted for a function. */
    function Calls(fn: Function): nat
      reads this
    {
      if fn in callCounts then callCounts[fn] else 0
    }

    /** Compiles a hot function, or rejects it for good. */
    method Compile(fn: Function) returns (ok: bool)
      requires Valid() && fn !in cache && fn !in rejected && fn in callCounts
      modifies `cache, `rejected, `stats
      ensures Valid() && ok == Accepted(fn).Some? == (fn in cache)
      ensures stats.executed == old(stats.executed) && stats.skippedCold == old(stats.skippedCold)
      ensures ok ==> rejected == old(rejected) && cache == old(cache)[fn := cache[fn]]
      ensures !ok ==> cache == old(cache) && rejected == old(rejected) + {fn}
    {
      hide Accepted, IsCompiled, Valid;
      var c;
      ok, c := CompileFunction(fn, base);
      if ok { Keep(fn, c); } else { Refuse(fn); }
    }

    method Keep(fn: Function, c: Compiled)
      requires Valid() && fn !in cache && fn !in rejected && fn in callCounts && IsCompiled(fn, c, base)
      modifies `cache, `stats
      ensures Valid() && cache == old(cache)[fn := c] && stats == old(stats).(compiled := old(stats).compiled + 1)
    {
      hide IsCompiled, Accepted;
      cache := cache[fn := c];
      assert cache.Keys == old(cache).Keys + {fn};
      stats := stats.(compiled := stats.compiled + 1);
    }

    method Refuse(fn: Function)
      requires Valid() && fn !in cache && fn !in rejected && fn in callCounts && Accepted(fn) == None
      modifies `rejected, `stats
      ensures Valid() && rejected == old(rejected) + {fn}
      ensures stats == old(stats).(rejected := old(stats).rejected + 1)
    {
      hide IsCompiled, Accepted;
      rejected := rejected + {fn};
      stats := stats.(rejected := stats.rejected + 1);
    }

    /** TryExecute with `steps` turns of the executor. A function without
        captures that lowering accepts is executed from its warm-up call on; what
        is delivered is the executor's result, which is the interpreter's, and
        where it fails the interpreter does. */
    method TryExecute(fn: Function, args: seq<Value>, steps: nat) returns (v: Value, executed: bool, failed: bool)
      requires Valid()
      modifies this
      ensures Valid() && warmupThreshold == old(warmupThreshold)
      ensures executed ==> fn in cache && ExecutorReturns(fn, args, steps, v)
      ensures failed ==>
                !executed && v == Nil && fn in cache &&
                (|args| != fn.arity || |args| > fn.maxLocals || ExecutorFails(fn, args, steps))
      ensures executed ==> |args| == fn.arity && |args| <= fn.maxLocals
      ensures fn in cache && !executed && !failed ==> v == Nil && ExecutorRuns(fn, args, steps)
      ensures fn in cache <==>
                old(fn in cache) ||
                (!old(fn in rejected) && old(Calls(fn)) + 1 >= warmupThreshold && Accepted(fn).Some?)
      ensures fn in rejected <==>
                old(fn in rejected) ||
                (!old(fn in cache) && old(Calls(fn)) + 1 >= warmupThreshold && Accepted(fn).None?)
      ensures Sound(fn) && |args| == fn.arity && |args| <= fn.maxLocals && !Rounded(fn, args, steps) ==>
                (executed ==> InterpreterReturns(fn, args, steps, v)) && (failed ==> InterpreterFails(fn, args, steps))
      ensures forall g :: g != fn ==> (g in cache <==> old(g in cache)) && (g in rejected <==> old(g in rejected))
      ensures forall g :: g != fn ==> Calls(g) == old(Calls(g))
      ensures Calls(fn) == old(Calls(fn)) + if old(fn in cache) || old(fn in rejected) then 0 else 1
      ensures stats.executed == old(stats.executed) + if executed then 1 else 0
      ensures stats.skippedCold == old(stats.skippedCold) + if fn in cache || fn in rejected then 0 else 1
    {
      hide Accepted, IsCompiled, Sound, Rounded, InterpreterReturns, InterpreterFails, ExecutorReturns, ExecutorFails,
           ExecutorRuns;
      v, executed, failed := Nil, false, false;
      if fn !in cache {
        if fn in rejected { return; }
        callCounts := callCounts[fn := Calls(fn) + 1];
        if callCounts[fn] < warmupThreshold {
          stats := stats.(skippedCold := stats.skippedCold + 1);
          return;
        }
        var ok := Compile(fn);
        if !ok { return; }
      }
      var state := ExecuteCompiled(fn, cache[fn], base, args, steps);
      CachedAccepted(fn);
      if Sound(fn) && Fitting(fn, args) && !Rounded(fn, args, steps) { ResultsAgree(fn, args, steps); }
      if state == JError { return Nil, false, true; }
      if !state.JReturned? { return; }
      stats := stats.(executed := stats.executed + 1);
      v, executed := state.v, true;
    }

    lemma CachedAccepted(fn: Function)
      requires Valid() && fn in cache
      ensures IsCompiled(fn, cache[fn], base) && Accepted(fn).Some?
    {
      hide Encodes, Lower;
    }
  }

  /** executeProgram on a new frame; a wrong number of arguments fails. */
  method ExecuteCompiled(fn: Function, c: Compiled, base: byte, args: seq<Value>, steps: nat) returns (state: JState)
    requires IsCompiled(fn, c, base) && (base == WINDOWS_BASE || base == POSIX_BASE)
    ensures state.JReturned? ==> ExecutorReturns(fn, args, steps, state.v) && Fitting(fn, args)
    ensures state == JError ==> !Fitting(fn, args) || ExecutorFails(fn, args, steps)
    ensures state.JRunning? ==> Fitting(fn, args) && ExecutorRuns(fn, args, steps)
  {
    hide Lower, Encodes, IrRun, Accepted;
    if !Fitting(fn, args) { return JError; }
    var locals := new Value[fn.maxLocals](i => Nil);
    for i := 0 to |args|
      invariant forall j :: 0 <= j < locals.Length ==> locals[j] == if j < i then args[j] else Nil
    {
      locals[i] := args[i];
    }
    ghost var l := locals[..];
    assert NewFrame(l, args, fn.maxLocals);
    state := ExecuteProgram(c.code, base, c.p, locals, steps);
  }

  /** As many arguments as parameters, with room for them. */
  predicate Fitting(fn: Function, args: seq<Value>) { |args| == fn.arity && |args| <= fn.maxLocals }

  // ------------------------------------------------------------ what runs do

  /** The interpreter on the function's code, from those locals. */
  ghost function Interpreted(fn: Function, l: seq<Value>, steps: nat): Status {
    Run(fn.code, fn.constants, Running(0, l, []), steps)
  }

  /** The executor on the function's compilation. */
  ghost function Executed(fn: Function, l: seq<Value>, steps: nat): JState
    requires Accepted(fn).Some?
  {
    IrRun(Accepted(fn).value, JRunning(0, l, []), steps)
  }

  /** The interpreter returns v from a new frame within `steps` instructions. */
  ghost predicate InterpreterReturns(fn: Function, args: seq<Value>, steps: nat, v: Value) {
    exists l: seq<Value> :: NewFrame(l, args, fn.maxLocals) && Interpreted(fn, l, steps).Returned? &&
      Interpreted(fn, l, steps).v == v
  }

  /** The interpreter stops with an error within `steps` instructions. */
  ghost predicate InterpreterFails(fn: Function, args: seq<Value>, steps: nat) {
    exists l: seq<Value> :: NewFrame(l, args, fn.maxLocals) && Interpreted(fn, l, steps) == Fault
  }

  ghost predicate ExecutorReturns(fn: Function, args: seq<Value>, steps: nat, v: Value) {
    Accepted(fn).Some? && Fitting(fn, args) &&
    exists l: seq<Value> :: NewFrame(l, args, fn.maxLocals) && Executed(fn, l, steps) == JReturned(v)
  }

  ghost predicate ExecutorFails(fn: Function, args: seq<Value>, steps: nat) {
    Accepted(fn).Some? && Fitting(fn, args) &&
    exists l: seq<Value> :: NewFrame(l, args, fn.maxLocals) && Executed(fn, l, steps) == JError
  }

  ghost predicate ExecutorRuns(fn: Function, args: seq<Value>, steps: nat) {
    Accepted(fn).Some? && Fitting(fn, args) &&
    exists l: seq<Value> :: NewFrame(l, args, fn.maxLocals) && Executed(fn, l, steps).JRunning?
  }

  /** In the interpreter, the call negates an integer that its double rounds. */
  ghost predicate Rounded(fn: Function, args: seq<Value>, steps: nat) {
    exists l: seq<Value> :: NewFrame(l, args, fn.maxLocals) &&
      !NeverRounds(fn.code, fn.constants, Running(0, l, []), steps)
  }

  lemma OneFrame(k: seq<Value>, l: seq<Value>, args: seq<Value>, n: nat)
    requires NewFrame(k, args, n) && NewFrame(l, args, n)
    ensures k == l
  {
  }

  /** The executor returns, fails and runs on in different calls. */
  lemma OneOutcome(fn: Function, args: seq<Value>, steps: nat)
    ensures forall v, w :: ExecutorReturns(fn, args, steps, v) && ExecutorReturns(fn, args, steps, w) ==> v == w
    ensures forall v :: ExecutorReturns(fn, args, steps, v) ==>
              !ExecutorFails(fn, args, steps) && !ExecutorRuns(fn, args, steps)
    ensures ExecutorFails(fn, args, steps) ==> !ExecutorRuns(fn, args, steps)
  {
    hide IrRun, Accepted, NewFrame;
    forall k: seq<Value>, l: seq<Value> | NewFrame(k, args, fn.maxLocals) && NewFrame(l, args, fn.maxLocals)
      ensures k == l
    {
      OneFrame(k, l, args, fn.maxLocals);
    }
  }

  /** An accepted function with operand depths, from the locals of any new frame:
      it returns in the executor exactly when it does in the interpreter, the same
      value, and fails exactly when it does, unless the call rounds in a
      negation. */
  lemma ResultsAgree(fn: Function, args: seq<Value>, steps: nat)
    requires Accepted(fn).Some? && Sound(fn) && Fitting(fn, args) && !Rounded(fn, args, steps)
    ensures forall v :: ExecutorReturns(fn, args, steps, v) <==> InterpreterReturns(fn, args, steps, v)
    ensures ExecutorFails(fn, args, steps) <==> InterpreterFails(fn, args, steps)
  {
    hide Accepted, Sound, NeverRounds, Executed, Interpreted;
    forall l: seq<Value> | NewFrame(l, args, fn.maxLocals)
      ensures (Executed(fn, l, steps).JReturned? <==> Interpreted(fn, l, steps).Returned?)
      ensures Executed(fn, l, steps).JReturned? ==> Executed(fn, l, steps).v == Interpreted(fn, l, steps).v
      ensures Executed(fn, l, steps) == JError <==> Interpreted(fn, l, steps) == Fault
    {
      FramesAgree(fn, l, steps);
    }
  }

  lemma FramesAgree(fn: Function, l: seq<Value>, steps: nat)
    requires Accepted(fn).Some? && Sound(fn) && NeverRounds(fn.code, fn.constants, Running(0, l, []), steps)
    ensures var a, j := Interpreted(fn, l, steps), Executed(fn, l, steps);
            (j.JReturned? <==> a.Returned?) && (j.JReturned? ==> a.v == j.v) && (j == JError <==> a == Fault)
  {
    hide Lower, Run, IrRun, NeverRounds, AllRelated, Verified;
    var depth :| Verified(fn.code, depth);
    VerifiedRuns(fn.code, fn.constants, depth, l, steps);
  }
}
