/** Compiled code of the statement subset has operand depths, so the JIT runs
    whatever of it lowering accepts. */
module JitCompiled {
  import opened Options
  import opened Machine
  import opened Assembly
  import opened Source
  import opened CodeGen
  import opened Layout
  import opened ScriptCorrect
  import opened JitIr
  import opened JitLower
  import opened JitCorrect
  import opened StackDepth
  import opened StmtDepth
  import opened JitSound

  ghost function IndexAt(p: Prog, o: int): (i: nat)
    requires exists i: nat :: i <= |p| && Off(p, i) == o
    ensures i <= |p| && Off(p, i) == o
  {
    var i: nat :| i <= |p| && Off(p, i) == o;
    i
  }

  /** The depths of instructions, by byte offset. */
  ghost function Depths(p: Prog, D: seq<nat>): (m: map<int, nat>)
    requires |D| == |p| + 1
    ensures forall i: nat :: i <= |p| ==> Off(p, i) in m && m[Off(p, i)] == D[i]
    ensures forall o :: o in m ==> exists i: nat :: i <= |p| && Off(p, i) == o
  {
    OffsetsDiffer(p);
    map o: int | o in (set i: nat | i <= |p| :: Off(p, i)) :: D[IndexAt(p, o)]
  }

  lemma OffsetsDiffer(p: Prog)
    ensures forall i: nat, j: nat :: i <= |p| && j <= |p| && Off(p, i) == Off(p, j) ==> i == j
  {
    forall i: nat, j: nat | i <= |p| && j <= |p| && Off(p, i) == Off(p, j) ensures i == j {
      if i < j { OffMonotone(p, i, j); } else if j < i { OffMonotone(p, j, i); }
    }
  }

  /** Encoding a jump's distance changes nothing about depths. */
  lemma ResolvedSame(p: Prog, i: nat, d: nat)
    requires i < |p| && 0 <= Target(p, i) <= |p| && (HasOperand(p[i]) ==> Operand(p[i]) >= 0)
    ensures var r := Resolve(p, i);
            Suits(r, d) == Suits(p[i], d) && Delta(r) == Delta(p[i]) && Taken(r) == Taken(p[i]) && Stops(r) == Stops(p[i]) &&
            HasOperand(r) == HasOperand(p[i]) && (HasOperand(r) ==> Landing(r, Off(p, i)) == Off(p, Target(p, i)))
  {
    hide Distance, Target;
    DistanceLands(p, i);
  }

  lemma DistanceLands(p: Prog, i: nat)
    requires i < |p| && 0 <= Target(p, i) <= |p| && (HasOperand(p[i]) ==> Operand(p[i]) >= 0)
    ensures HasOperand(p[i]) ==> Landing(Resolve(p, i), Off(p, i)) == Off(p, Target(p, i))
  {
    assert Off(p, i + 1) == Off(p, i) + Size(p[i]);
  }

  /** Laid-out code with depths is verified. */
  lemma FlowVerified(p: Prog, D: seq<nat>)
    requires Fits(p) && Flow(p, D, map[]) && |D| == |p| + 1 && D[0] == 0
    ensures Verified(Assemble(p), Depths(p, D))
  {
    hide Assemble, Flow, Depths, Fits, OffsetFlows;
    var depth := Depths(p, D);
    assert Off(p, 0) == 0;
    forall o | o in depth ensures OffsetFlows(Assemble(p), depth, o) {
      var i: nat :| i <= |p| && Off(p, i) == o;
      InstructionFlows(p, D, i);
    }
  }

  lemma InstructionFlows(p: Prog, D: seq<nat>, i: nat)
    requires Fits(p) && |D| == |p| + 1 && Flow(p, D, map[]) && i <= |p|
    ensures Off(p, i) in Depths(p, D) && OffsetFlows(Assemble(p), Depths(p, D), Off(p, i))
  {
    hide Assemble, Suits, Decode, Size, Delta, Taken, Stops, Resolve, Target, Depths, Landing;
    var depth := Depths(p, D);
    AssembledLength(p);
    OffMonotone(p, i, |p|);
    if i < |p| {
      assert FlowAt(p, i, D, map[]);
      DecodeAssembled(p, i);
      ClosedAt(p, i);
      ResolvedSame(p, i, D[i]);
      OpcodeKnown(p, i);
      assert Off(p, i + 1) == Off(p, i) + Size(Resolve(p, i));
    }
  }

  lemma AssembledLength(p: Prog)
    ensures |Assemble(p)| == Off(p, |p|)
  {
    JoinLength(p, Chunks(p), |p|);
  }

  lemma ClosedAt(p: Prog, i: nat)
    requires Fits(p) && i < |p|
    ensures HasOperand(p[i]) ==> 0 <= Target(p, i) <= |p| && !Waiting(p[i]) && Operand(p[i]) >= 0
    ensures !HasOperand(p[i]) ==> Target(p, i) == i + 1
  {
    if HasOperand(p[i]) { assert TargetInside(p, i); }
  }

  lemma OpcodeKnown(p: Prog, i: nat)
    requires Fits(p) && i < |p| && Off(p, i) < |Assemble(p)|
    ensures Assemble(p)[Off(p, i)] != ADD_LOCAL_MUL_LOCAL
  {
    hide Assemble, Encode;
    DecodeAssembled(p, i);
    KnownDecodes(Assemble(p), Off(p, i));
  }

  lemma KnownDecodes(code: seq<byte>, o: nat)
    requires o < |code| && Decode(code, o).Some?
    ensures code[o] != ADD_LOCAL_MUL_LOCAL
  {
  }

  /** Compiled scripts without step ranges and without in-place updates of
      globals have one operand depth per instruction. */
  lemma ScriptDepths(b: Block) returns (D: seq<nat>)
    requires TidyIn(b, [])
    ensures |D| == |ProgramCode(b).code| + 1 && Flow(ProgramCode(b).code, D, map[]) && D[0] == 0
  {
    hide BlockCode, Flow;
    var f := BlockCode(b, [], 0, NoLoop);
    assert NamesOf([]) == [];
    var Db := BlockDepth(b, [], 0, NoLoop);
    var De := [0, 1, 0];
    var end := [Plain(NIL), Plain(RETURN)];
    EndFlows();
    D := StackDepth.Then(f.code, Db, end, De, 0, 0, 0);
    BetweenLength(f.code + end, D, map[], 0, 0);
  }

  lemma EndFlows()
    ensures Between([Plain(NIL), Plain(RETURN)], [0, 1, 0], map[], 0, 0)
  {
  }

  lemma PoolScalars(ks: seq<Constant>)
    ensures Scalars(Pool(ks))
  {
  }

  /** The whole way: if lowering accepts the code of such a script, the executor
      does what evaluating the script says, unless the run negates an integer
      that its double rounds: it returns nil when evaluation ends, and is still
      running after at least as many steps as evaluation has fuel. */
  lemma CompiledInJit(b: Block, fuel: nat, l: seq<Value>) returns (n: nat)
    requires ProgramCode(b).ok && Small(ProgramCode(b)) && ProgramCode(b).max <= |l| && TidyIn(b, [])
    requires Lower(Code(b), Consts(b)).Some?
    ensures var p := Lower(Code(b), Consts(b)).value.0;
            var j := IrRun(p, JRunning(0, l, []), n);
            NeverRounds(Code(b), Consts(b), Start(l), n) ==>
              match ExecBlock(b, [], fuel)
              case Normal(_) => j == JReturned(Nil)
              case OutOfFuel => n >= fuel && j.JRunning?
              case o => o == Failed
  {
    hide ProgramCode, ExecBlock, Run, IrRun, Lower, Verified, NeverRounds, AllRelated, Assemble, Small;
    n := CompiledScript(b, fuel, l);
    var D := ScriptDepths(b);
    ScriptFits(b);
    FlowVerified(ProgramCode(b).code, D);
    PoolScalars(ProgramCode(b).ks);
    VerifiedRuns(Code(b), Consts(b), Depths(ProgramCode(b).code, D), l, n);
  }

  lemma ScriptFits(b: Block)
    requires ProgramCode(b).ok && Small(ProgramCode(b))
    ensures Fits(ProgramCode(b).code) && |Code(b)| < 65536
  {
    ProgramFits(b);
    AssembledLength(ProgramCode(b).code);
  }
}
