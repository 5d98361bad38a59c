/** Compiling a script, and what its bytes do. */
module Pipeline {
  import opened Options
  import opened Machine
  import opened Assembly
  import opened Source
  import opened CodeGen
  import opened ExprCorrect
  import opened ScriptCorrect
  import Layout
  import opened Alignment
  import opened RawCode
  import opened CleanCode
  import opened CleanScript
  import SinglePass

  /** n steps of the bytes do what evaluating the script with that fuel says:
      the script's variables end with its values and nil is returned, or the
      machine is still running after at least `fuel` steps. A script whose
      evaluation fails is not promised anything. */
  ghost predicate RunsLike(b: Block, code: seq<byte>, ks: seq<Value>, l: seq<Value>, fuel: nat, n: nat) {
    var a := Run(code, ks, Start(l), n);
    match ExecBlock(b, [], fuel)
    case Normal(env) => a.Returned? && a.v == Nil && Rel(env, Layout.ProgramCode(b).ls, a.l)
    case OutOfFuel => n >= fuel && a.Running?
    case o => o == Failed
  }

  ghost predicate Behaves(b: Block, code: seq<byte>, ks: seq<Value>, l: seq<Value>, fuel: nat) {
    exists n: nat :: RunsLike(b, code, ks, l, fuel, n)
  }

  /** The compiler rejects exactly the scripts with a break or continue outside a
      loop, and the ranges that the model leaves to the generic iterator. When
      every conditional jump sees its own window - if and only if the bytes are
      the laid-out program - and the code fits its 16-bit distances and 8-bit
      slots, the bytes do what the script says, on any frame with room for the
      locals. Clean code is enough for that; seven locals and constants without
      loops are always clean. */
  method CompileScript(b: Block, line: int)
    returns (ok: bool, code: seq<byte>, constants: seq<Constant>, maxLocals: nat)
    ensures ok == PlacedIn(b, false)
    ensures ok ==>
              var f := Layout.ProgramCode(b);
              code == RawProgram(b) && constants == f.ks && maxLocals == f.max &&
              (code == Assemble(f.code) <==> BlockAligned([], b, [], 0, NoLoop))
    ensures ok && BlockAligned([], b, [], 0, NoLoop) && Small(Layout.ProgramCode(b)) ==>
              forall l: seq<Value>, fuel: nat :: |l| >= maxLocals ==> Behaves(b, code, Pool(constants), l, fuel)
    ensures ok && Clean(Layout.ProgramCode(b).code) ==> BlockAligned([], b, [], 0, NoLoop)
    ensures ok && BlockLoopFree(b) && maxLocals <= 7 && |constants| <= 7 ==> BlockAligned([], b, [], 0, NoLoop)
  {
    hide BlockAligned, Small, RunsLike, Run, ExecBlock, RawProgram, Assemble, Clean;
    var c := new SinglePass.Compiler(line);
    ok := c.CompileProgram(b, line);
    code, constants, maxLocals := c.code, c.constants, c.maxLocals;
    if ok && Clean(Layout.ProgramCode(b).code) { CleanAligned(b); }
    if ok && BlockLoopFree(b) && maxLocals <= 7 && |constants| <= 7 { SmallScriptAligned(b); }
    if ok && BlockAligned([], b, [], 0, NoLoop) && Small(Layout.ProgramCode(b)) {
      forall l: seq<Value>, fuel: nat | |l| >= maxLocals
        ensures Behaves(b, code, Pool(constants), l, fuel)
      {
        var n := Finds(b, l, fuel);
        assert RunsLike(b, code, Pool(constants), l, fuel, n);
      }
    }
  }

  lemma Finds(b: Block, l: seq<Value>, fuel: nat) returns (n: nat)
    requires Layout.ProgramCode(b).ok && Small(Layout.ProgramCode(b)) && |l| >= Layout.ProgramCode(b).max
    ensures RunsLike(b, Code(b), Consts(b), l, fuel, n)
  {
    hide ExecBlock, Run;
    n := CompiledScript(b, fuel, l);
  }
}
