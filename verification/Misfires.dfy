/** Scripts whose bytes are not their program: a few declarations, then a
    comparison of a sum whose right operand ends in a byte that reads as
    GET_LOCAL. Evaluation ends normally; the machine stops with an error. */
module Misfires {
  import opened Options
  import opened Machine
  import opened Assembly
  import opened Source
  import opened CodeGen
  import opened Layout
  import opened Peephole
  import opened Alignment
  import opened CompilerState
  import opened RawCode
  import RawExact
  import opened ScriptCorrect

  /** a, b, c, ... */
  function Name(i: nat): string
    requires i < 26
  {
    [('a' as int + i) as char]
  }

  /** `let` for the variables from i to m, each 0. */
  function Lets(i: nat, m: nat, rest: Block): Block
    requires i <= m <= 26
    decreases m - i
  {
    if i == m then rest else Then(Let(Name(i), None, IntLit(0)), Lets(i + 1, m, rest))
  }

  function Declared(m: nat): (ls: Locals)
    requires m <= 26
    ensures |ls| == m
  {
    seq(m, i requires 0 <= i < m => Local(Name(i), TInt))
  }

  function LetBytes(m: nat): (r: seq<byte>)
    requires m <= 26
    ensures |r| == 5 * m
  {
    if m == 0 then [] else LetBytes(m - 1) + [CONSTANT, 0, m - 1, SET_LOCAL, m - 1]
  }

  /** The buffer after m declarations. */
  function LetRaw(m: nat): Raw
    requires m <= 26
  {
    Raw(LetBytes(m), if m == 0 then 0 else 5 * m - 2, [], true)
  }

  /** `a + y < b`. */
  function SumLess(y: Expr): Expr { Bin(Lt, Bin(Add, Var(Name(0)), y), Var(Name(1))) }

  function Script(m: nat, y: Expr): Block
    requires m <= 26
  {
    Lets(0, m, Then(If(SumLess(y), Done, None), Done))
  }

  // ------------------------------------------------------------ declarations

  lemma {:induction false} SlotOfName(m: nat, j: nat)
    requires j < m <= 26
    ensures SlotOf(Declared(m), Name(j)) == j
  {
    assert Declared(m)[..m - 1] == Declared(m - 1);
    if j < m - 1 { SlotOfName(m - 1, j); }
  }

  lemma LetStep(i: nat)
    requires i < 26
    ensures RawStmt(Let(Name(i), None, IntLit(0)), Declared(i), i, NoLoop, LetRaw(i)) == LetRaw(i + 1)
    ensures StmtCode(Let(Name(i), None, IntLit(0)), Declared(i), i, NoLoop) ==
            SFrag([Const(i), Slot(SET_LOCAL, i)], [KInt(0)], Declared(i + 1), i + 1, true)
  {
    var e: Expr := IntLit(0);
    RawLeaf(e, Declared(i), i, LetRaw(i));
    assert Declared(i) + [Local(Name(i), TInt)] == Declared(i + 1);
    assert Encode(Const(i)) == [CONSTANT, 0, i] && Encode(Slot(SET_LOCAL, i)) == [SET_LOCAL, i];
    assert LetBytes(i) + [CONSTANT, 0, i] + [SET_LOCAL, i] == LetBytes(i + 1);
  }

  function Zeros(n: nat): seq<Constant> { seq(n, _ => KInt(0)) }

  lemma {:induction false} LetsCompiled(i: nat, m: nat, rest: Block)
    requires i <= m <= 26
    ensures RawBlock(Lets(i, m, rest), Declared(i), i, NoLoop, LetRaw(i)) ==
            RawBlock(rest, Declared(m), m, NoLoop, LetRaw(m))
    ensures var f, g := BlockCode(Lets(i, m, rest), Declared(i), i, NoLoop), BlockCode(rest, Declared(m), m, NoLoop);
            f.ok == g.ok && f.ks == Zeros(m - i) + g.ks && (g.max >= m ==> f.max == g.max)
    decreases m - i
  {
    hide RawStmt, StmtCode, LetRaw, Declared, Name;
    if i < m {
      LetStep(i);
      LetsCompiled(i + 1, m, rest);
      assert [KInt(0)] + Zeros(m - i - 1) == Zeros(m - i);
    }
  }

  function Values(m: nat): Env
    requires m <= 26
  {
    seq(m, i requires 0 <= i < m => Binding(Name(i), Some(VInt(0))))
  }

  lemma {:induction false} LetsEvaluated(i: nat, m: nat, rest: Block, fuel: nat)
    requires i <= m <= 26
    ensures ExecBlock(Lets(i, m, rest), Values(i), fuel) == ExecBlock(rest, Values(m), fuel)
    decreases m - i
  {
    if i < m {
      assert Values(i) + [Binding(Name(i), Some(VInt(0)))] == Values(i + 1);
      LetsEvaluated(i + 1, m, rest, fuel);
    }
  }

  lemma {:induction false} FindName(m: nat, j: nat)
    requires j < m <= 26
    ensures Find(Values(m), Name(j)) == j
  {
    assert Values(m)[..m - 1] == Values(m - 1);
    if j < m - 1 { FindName(m - 1, j); }
  }

  // --------------------------------------------------------- the comparison

  /** y compiles to `ins`, whose last byte is GET_LOCAL's opcode. */
  predicate EndsLikeRead(y: Expr, m: nat, ins: Instr)
    requires m <= 26
  {
    (y.Var? || y.IntLit?) && TypeOf(y, Declared(m)) == TInt && ExprCode(y, Declared(m), m).code == [ins] &&
    (ins == Slot(GET_LOCAL, 7) || ins == Const(7))
  }

  lemma SumBytes(y: Expr, m: nat, ins: Instr, r: Raw)
    requires 2 <= m <= 26 && EndsLikeRead(y, m, ins)
    ensures var e, ls := SumLess(y), Declared(m);
            var q := RawExpr(e, ls, m, r);
            q.code == r.code + [GET_LOCAL, 0] + Encode(ins) + [ADD_NUM, GET_LOCAL, 1, LESS_NUM] &&
            q.last + 1 == |q.code| && q.loops == r.loops && q.good == r.good
    ensures ExprCode(SumLess(y), Declared(m), m).code ==
            [Slot(GET_LOCAL, 0), ins, Plain(ADD_NUM), Slot(GET_LOCAL, 1), Plain(LESS_NUM)]
  {
    hide SlotOf, Name, Declared, TypeOf, ExprCode, RawExpr, Encode, Puts;
    var ls := Declared(m);
    var sum := Bin(Add, Var(Name(0)), y);
    SumPut(y, m, ins, r);
    SumTypes(y, m);
    var r2 := Put(Put(r, Slot(GET_LOCAL, 0)), ins);
    var r3 := Put(r2, Plain(ADD_NUM));
    var k := m + |ExprCode(sum, ls, m).ks|;
    LocalRead(m, 1, k, r3);
    var r4 := Put(r3, Slot(GET_LOCAL, 1));
    PutsOne(r4, Plain(LESS_NUM));
    RawOperator(SumLess(y), ls, m, r);
    ArithCode(SumLess(y), ls, m);
    ReadBytes();
    assert r3.code + [GET_LOCAL, 1] + [LESS_NUM] == r2.code + [ADD_NUM, GET_LOCAL, 1, LESS_NUM];
  }

  lemma SumPut(y: Expr, m: nat, ins: Instr, r: Raw)
    requires 2 <= m <= 26 && EndsLikeRead(y, m, ins)
    ensures var e, ls := Bin(Add, Var(Name(0)), y), Declared(m);
            RawExpr(e, ls, m, r) == Put(Put(Put(r, Slot(GET_LOCAL, 0)), ins), Plain(ADD_NUM)) &&
            ExprCode(e, ls, m).code == [Slot(GET_LOCAL, 0), ins, Plain(ADD_NUM)]
  {
    hide SlotOf, Name, Declared, TypeOf, ExprCode, RawExpr, Encode, Puts, Put;
    var ls := Declared(m);
    var sum := Bin(Add, Var(Name(0)), y);
    LocalRead(m, 0, m, r);
    var r1 := Put(r, Slot(GET_LOCAL, 0));
    RawLeaf(y, ls, m, r1);
    PutsOne(Put(r1, ins), Plain(ADD_NUM));
    SumTypes(y, m);
    RawOperator(sum, ls, m, r);
    ArithCode(sum, ls, m);
  }

  lemma LocalRead(m: nat, j: nat, k: nat, r: Raw)
    requires j < m <= 26
    ensures RawExpr(Var(Name(j)), Declared(m), k, r) == Put(r, Slot(GET_LOCAL, j))
    ensures ExprCode(Var(Name(j)), Declared(m), k) == Frag([Slot(GET_LOCAL, j)], [])
    ensures TypeOf(Var(Name(j)), Declared(m)) == TInt
  {
    hide SlotOf;
    SlotOfName(m, j);
    RawLeaf(Var(Name(j)), Declared(m), k, r);
  }

  lemma SumTypes(y: Expr, m: nat)
    requires 2 <= m <= 26 && TypeOf(y, Declared(m)) == TInt
    ensures TypeOf(Var(Name(0)), Declared(m)) == TInt && TypeOf(Var(Name(1)), Declared(m)) == TInt
    ensures TypeOf(Bin(Add, Var(Name(0)), y), Declared(m)) == TInt
  {
    hide SlotOf;
    SlotOfName(m, 0);
    SlotOfName(m, 1);
  }

  lemma ReadBytes()
    ensures Encode(Slot(GET_LOCAL, 0)) == [GET_LOCAL, 0] && Encode(Slot(GET_LOCAL, 1)) == [GET_LOCAL, 1]
    ensures Encode(Plain(ADD_NUM)) == [ADD_NUM] && Encode(Plain(LESS_NUM)) == [LESS_NUM]
    ensures Encode(Slot(GET_LOCAL, 7)) == [GET_LOCAL, 7] && Encode(Const(7)) == [CONSTANT, 0, 7]
  {
  }

  /** The jump cuts the right operand's instruction. */
  function CutCode(r: Raw, ins: Instr): seq<byte> {
    r.code + [GET_LOCAL, 0] + Encode(ins)[..Size(ins) - 1] + [JUMP_IF_LOCAL_LT_LOCAL_FALSE, ADD_NUM, 1, 0, 0]
  }

  lemma JumpCuts(y: Expr, m: nat, ins: Instr, r: Raw)
    requires 2 <= m <= 26 && EndsLikeRead(y, m, ins)
    ensures var j := RawCond(SumLess(y), Declared(m), m, r);
            j.raw.code == CutCode(r, ins) && j.at + 2 == |j.raw.code| && !j.raw.good &&
            j.at >= 0 && j.raw.code[j.at] == 0 && j.raw.code[j.at + 1] == 0
  {
    hide Name, Declared, TypeOf, ExprCode, RawExpr, Encode;
    SumBytes(y, m, ins, r);
    ReadBytes();
    var d := RawExpr(SumLess(y), Declared(m), m, r).code;
    var n := |d|;
    assert d[n - 1] == LESS_NUM && d[n - 3] == GET_LOCAL && d[n - 5] == GET_LOCAL && d[n - 4] == ADD_NUM && d[n - 2] == 1;
    assert d[n - 7] != GET_LOCAL_ARRAY_FIELD;
    assert d[..n - 5] == r.code + [GET_LOCAL, 0] + Encode(ins)[..Size(ins) - 1];
  }

  lemma ZeroPatch(r: Raw, at: int)
    requires 0 <= at && at + 2 == |r.code| && r.code[at] == 0 && r.code[at + 1] == 0
    ensures RawPatch(r, at) == r
  {
    assert Hi(0) == 0 && Lo(0) == 0;
    assert r.code[..at] + [0, 0] + r.code[at + 2..] == r.code;
  }

  lemma NoFastIf(y: Expr, ls: Locals)
    ensures MatchLessEqual(SumLess(y), ls).None? && MatchDivisible(SumLess(y), ls).None?
  {
  }

  lemma IfBytes(y: Expr, m: nat, ins: Instr, r: Raw)
    requires 2 <= m <= 26 && EndsLikeRead(y, m, ins)
    ensures RawStmt(If(SumLess(y), Done, None), Declared(m), m, NoLoop, r) == RawCond(SumLess(y), Declared(m), m, r).raw
    ensures var f := StmtCode(If(SumLess(y), Done, None), Declared(m), m, NoLoop);
            f.ok && f.ks == ExprCode(SumLess(y), Declared(m), m).ks && f.max == m && |f.ls| <= m
  {
    hide Name, RawCond, CutCode, ExprCode, SumLess, PatchedAt, WithJump, RawPatch;
    NoFastIf(y, Declared(m));
    JumpCuts(y, m, ins, r);
    IfCode(If(SumLess(y), Done, None), Declared(m), m, NoLoop);
    var h := IfHead(SumLess(y), Declared(m), m, PENDING);
    var b1 := ScopeCode(Done, Declared(m), m + |h.ks|, Shift(NoLoop, |h.code|));
    assert h.ks + b1.ks == h.ks;
    var j := RawCond(SumLess(y), Declared(m), m, r);
    ZeroPatch(j.raw, j.at);
    var st := If(SumLess(y), Done, None);
    assert RawIfHead(SumLess(y), Declared(m), m, r) == j;
    assert RawIf(st, Declared(m), m, NoLoop, r) == j.raw;
  }

  lemma SumConstants(y: Expr, m: nat)
    requires 2 <= m <= 26 && (y.Var? || y.IntLit?)
    ensures |ExprCode(SumLess(y), Declared(m), m).ks| <= 1
  {
    hide Declared, Name, SlotOf, TypeOf, BinCode;
    var ls := Declared(m);
    var sum := Bin(Add, Var(Name(0)), y);
    LocalRead(m, 0, m, LetRaw(0));
    ArithCode(sum, ls, m);
    LocalRead(m, 1, m + |ExprCode(sum, ls, m).ks|, LetRaw(0));
    ArithCode(SumLess(y), ls, m);
  }

  lemma Start()
    ensures Declared(0) == [] && LetRaw(0) == Raw([], 0, [], true)
  {
  }

  lemma ThenMax(s: Stmt, m: nat)
    requires m <= 26 && var f := StmtCode(s, Declared(m), m, NoLoop); f.ok && f.max == m && |f.ls| <= m
    ensures var f, g := StmtCode(s, Declared(m), m, NoLoop), BlockCode(Then(s, Done), Declared(m), m, NoLoop);
            g.ok && g.ks == f.ks && g.max == m
  {
    hide StmtCode;
    var f := StmtCode(s, Declared(m), m, NoLoop);
    assert f.ks + [] == f.ks;
  }

  lemma ScriptBytes(m: nat, y: Expr, ins: Instr)
    requires 2 <= m <= 26 && EndsLikeRead(y, m, ins)
    ensures RawProgram(Script(m, y)) == CutCode(LetRaw(m), ins) + [NIL, RETURN]
    ensures !RawBlock(Script(m, y), [], 0, NoLoop, Raw([], 0, [], true)).good
    ensures ProgramCode(Script(m, y)).ok && ProgramCode(Script(m, y)).max == m
    ensures m <= |ProgramCode(Script(m, y)).ks| <= m + 1
  {
    hide Name, RawCond, LetRaw, CutCode, ExprCode, SumLess, RawStmt, StmtCode, TypeOf;
    var b := If(SumLess(y), Done, None);
    LetsCompiled(0, m, Then(b, Done));
    Start();
    IfBytes(y, m, ins, LetRaw(m));
    JumpCuts(y, m, ins, LetRaw(m));
    ThenMax(b, m);
    SumConstants(y, m);
    PutsTwo(RawCond(SumLess(y), Declared(m), m, LetRaw(m)).raw, Plain(NIL), Plain(RETURN));
  }

  // ------------------------------------------------------------------- runs

  lemma DecodeLet(code: seq<byte>, p: nat, i: nat)
    requires i < 26 && p + 5 <= |code| && code[p] == CONSTANT && code[p + 1] == 0 && code[p + 2] == i
    requires code[p + 3] == SET_LOCAL && code[p + 4] == i
    ensures Decode(code, p) == Some(Const(i)) && Decode(code, p + 3) == Some(Slot(SET_LOCAL, i))
  {
  }

  lemma FiveAt(code: seq<byte>, p: nat, c: seq<byte>)
    requires |c| == 5 && p + 5 <= |code| && code[p..p + 5] == c
    ensures code[p] == c[0] && code[p + 1] == c[1] && code[p + 2] == c[2] && code[p + 3] == c[3] && code[p + 4] == c[4]
  {
    var d := code[p..p + 5];
    assert code[p] == d[0] && code[p + 1] == d[1] && code[p + 2] == d[2] && code[p + 3] == d[3] && code[p + 4] == d[4];
  }

  lemma LetEffects(ks: seq<Value>, i: nat, l: seq<Value>)
    requires i < |ks| && i < |l|
    ensures Exec(Const(i), ks, l, []) == Next(l, [ks[i]])
    ensures Exec(Slot(SET_LOCAL, i), ks, l, [ks[i]]) == Next(l[i := ks[i]], [])
  {
    hide ExecPlain, ExecJump, ExecCmpJump, ExecConstJump, ExecRangeInit, ExecRangeNext;
    assert [] + [ks[i]] == [ks[i]] && [ks[i]][..0] == [];
  }

  /** Two steps: a constant pushed and stored. */
  lemma LetRuns(code: seq<byte>, ks: seq<Value>, i: nat, l: seq<Value>)
    requires i < 26 && i < |ks| && i < |l| && 5 * i + 5 <= |code|
    requires code[5 * i..5 * i + 5] == [CONSTANT, 0, i, SET_LOCAL, i]
    ensures Run(code, ks, Running(5 * i, l, []), 2) == Running(5 * i + 5, l[i := ks[i]], [])
  {
    hide Exec, Decode;
    var p := 5 * i;
    FiveAt(code, p, [CONSTANT, 0, i, SET_LOCAL, i]);
    DecodeLet(code, p, i);
    LetEffects(ks, i, l);
    RunTwo(code, ks, Running(p, l, []));
  }

  lemma RunTwo(code: seq<byte>, ks: seq<Value>, st: Status)
    ensures Run(code, ks, st, 2) == Step(code, ks, Step(code, ks, st))
  {
    hide Step;
    assert Run(code, ks, Step(code, ks, st), 1) == Run(code, ks, Step(code, ks, Step(code, ks, st)), 0);
  }

  lemma {:induction false} LetsRun(code: seq<byte>, ks: seq<Value>, m: nat, l: seq<Value>) returns (l': seq<Value>)
    requires m <= 26 && m <= |ks| && m <= |l| && LetBytes(m) <= code
    ensures |l'| == |l| && Run(code, ks, Running(0, l, []), 2 * m) == Running(5 * m, l', [])
    decreases m
  {
    hide Run, LetBytes;
    l' := l;
    if m == 0 {
      RunNone(code, ks, Running(0, l, []));
    } else {
      LetBytesEnd(m);
      var l1 := LetsRun(code, ks, m - 1, l);
      assert code[5 * m - 5..5 * m] == LetBytes(m)[5 * m - 5..5 * m];
      LetRuns(code, ks, m - 1, l1);
      RunAdds(code, ks, Running(0, l, []), 2 * m - 2, 2);
      l' := l1[m - 1 := ks[m - 1]];
    }
  }

  lemma RunNone(code: seq<byte>, ks: seq<Value>, st: Status)
    ensures Run(code, ks, st, 0) == st
  {
  }

  lemma LetBytesEnd(m: nat)
    requires 0 < m <= 26
    ensures LetBytes(m - 1) <= LetBytes(m) && LetBytes(m)[5 * m - 5..5 * m] == [CONSTANT, 0, m - 1, SET_LOCAL, m - 1]
  {
  }

  /** Behind the declarations: a local is read, and the cut instruction reads
      local or constant 109. */
  lemma CutFaults(code: seq<byte>, ks: seq<Value>, m: nat, l: seq<Value>, ins: Instr)
    requires m <= 26 && 0 < |l| <= 109 && |ks| <= 109 && (ins == Slot(GET_LOCAL, 7) || ins == Const(7))
    requires CutCode(LetRaw(m), ins) <= code
    ensures Run(code, ks, Running(5 * m, l, []), 2) == Fault
  {
    hide ExecPlain, ExecJump, ExecCmpJump, ExecConstJump, ExecRangeInit, ExecRangeNext, LetBytes;
    var p := 5 * m;
    var c := CutCode(LetRaw(m), ins);
    ReadBytes();
    assert c[p] == GET_LOCAL && c[p + 1] == 0;
    if ins.Slot? {
      assert c[p + 2] == GET_LOCAL && c[p + 3] == 109;
      assert Decode(code, p + 2) == Some(Slot(GET_LOCAL, 109));
    } else {
      assert c[p + 2] == CONSTANT && c[p + 3] == 0 && c[p + 4] == 109;
      assert Decode(code, p + 2) == Some(Const(109));
    }
    assert Decode(code, p) == Some(Slot(GET_LOCAL, 0));
    assert Step(code, ks, Running(p, l, [])) == Running(p + 2, l, [] + [l[0]]);
    assert Step(code, ks, Running(p + 2, l, [] + [l[0]])) == Fault;
    RunTwo(code, ks, Running(p, l, []));
  }

  /** What goes wrong with a script whose evaluation ends normally: its bytes are
      not its program, and running them on any frame that the compiler asks for
      ends in an error. */
  ghost predicate Misfired(b: Block) {
    var f := ProgramCode(b);
    f.ok && ExecBlock(b, [], 0).Normal? && RawProgram(b) != Assemble(f.code) &&
    forall l: seq<Value> :: f.max <= |l| <= 109 ==> Faults(b, l)
  }

  ghost predicate Faults(b: Block, l: seq<Value>) {
    exists n: nat :: Run(RawProgram(b), Pool(ProgramCode(b).ks), Running(0, l, []), n) == Fault
  }

  lemma ScriptFaults(m: nat, y: Expr, ins: Instr, l: seq<Value>)
    requires 2 <= m <= 26 && EndsLikeRead(y, m, ins) && m <= |l| <= 109
    ensures Faults(Script(m, y), l)
  {
    hide Run, ProgramCode, RawProgram, EndsLikeRead, CutCode, LetRaw, Script, RawBlock;
    var b := Script(m, y);
    ScriptBytes(m, y, ins);
    CutKinds(m, y, ins);
    CutCodeFaults(RawProgram(b), Pool(ProgramCode(b).ks), m, ins, l);
  }

  lemma CutCodeFaults(code: seq<byte>, ks: seq<Value>, m: nat, ins: Instr, l: seq<Value>)
    requires 2 <= m <= 26 && m <= |l| <= 109 && m <= |ks| <= 109 && (ins == Slot(GET_LOCAL, 7) || ins == Const(7))
    requires CutCode(LetRaw(m), ins) <= code
    ensures Run(code, ks, Running(0, l, []), 2 * m + 2) == Fault
  {
    hide Run, CutCode, LetRaw;
    StartsWithLets(m, ins);
    var l' := LetsRun(code, ks, m, l);
    CutFaults(code, ks, m, l', ins);
    RunAdds(code, ks, Running(0, l, []), 2 * m, 2);
  }

  lemma StartsWithLets(m: nat, ins: Instr)
    requires m <= 26
    ensures LetBytes(m) <= CutCode(LetRaw(m), ins)
  {
  }

  lemma CutKinds(m: nat, y: Expr, ins: Instr)
    requires m <= 26 && EndsLikeRead(y, m, ins)
    ensures ins == Slot(GET_LOCAL, 7) || ins == Const(7)
  {
  }

  lemma BinEvaluates(op: BinOp, l: Expr, r: Expr, env: Env, a: Val, b: Val)
    requires op != And && op != Or && Eval(l, env) == Some(a) && Eval(r, env) == Some(b)
    ensures Eval(Bin(op, l, r), env) == Apply2(op, a, b)
  {
    hide Apply2;
  }

  lemma NameEvaluates(m: nat, j: nat)
    requires j < m <= 26
    ensures Eval(Var(Name(j)), Values(m)) == Some(VInt(0))
  {
    hide Find;
    FindName(m, j);
  }

  lemma SumValue(m: nat, y: Expr, v: int)
    requires 2 <= m <= 26 && Eval(y, Values(m)) == Some(VInt(v)) && Safe(v)
    ensures Eval(SumLess(y), Values(m)) == Some(VBool(v < 0))
  {
    hide Eval, Values, Name;
    NameEvaluates(m, 0);
    NameEvaluates(m, 1);
    BinEvaluates(Add, Var(Name(0)), y, Values(m), VInt(0), VInt(v));
    BinEvaluates(Lt, Bin(Add, Var(Name(0)), y), Var(Name(1)), Values(m), VInt(v), VInt(0));
  }

  lemma SumEvaluates(m: nat, y: Expr, v: int, fuel: nat)
    requires 2 <= m <= 26 && Eval(y, Values(m)) == Some(VInt(v)) && Safe(v)
    ensures ExecBlock(Script(m, y), [], fuel).Normal?
  {
    hide Name, Safe, Eval, SumLess;
    var s := If(SumLess(y), Done, None);
    LetsEvaluated(0, m, Then(s, Done), fuel);
    assert Values(0) == [];
    SumValue(m, y, v);
    assert Values(m)[..m] == Values(m);
    assert ExecScope(Done, Values(m), fuel) == Normal(Values(m));
    assert ExecStmt(s, Values(m), fuel) == Normal(Values(m));
  }

  lemma ScriptMisfires(m: nat, y: Expr, ins: Instr, v: int)
    requires 2 <= m <= 26 && EndsLikeRead(y, m, ins) && Eval(y, Values(m)) == Some(VInt(v)) && Safe(v)
    ensures Misfired(Script(m, y))
  {
    hide ProgramCode, RawProgram, RawBlock, EndsLikeRead, Assemble, Faults, Script, Eval, Safe;
    var b := Script(m, y);
    ScriptBytes(m, y, ins);
    SumEvaluates(m, y, v, 0);
    if RawProgram(b) == Assemble(ProgramCode(b).code) { RawExact.SeenInBytes(b); }
    forall l: seq<Value> | ProgramCode(b).max <= |l| <= 109 ensures Faults(b, l) { ScriptFaults(m, y, ins, l); }
  }

  /** Eight or more int locals, then `if a + h < b`: h is in slot 7. */
  lemma SlotSevenScript(m: nat)
    requires 8 <= m <= 26
    ensures Misfired(Script(m, Var(Name(7))))
  {
    hide Misfired, SlotOf;
    LocalRead(m, 7, m, LetRaw(m));
    FindName(m, 7);
    ScriptMisfires(m, Var(Name(7)), Slot(GET_LOCAL, 7), 0);
  }

  /** Seven int locals, then `if a + n < b`: n is constant 7 of the pool. */
  lemma ConstantSevenScript(n: int)
    requires Safe(n)
    ensures Misfired(Script(7, IntLit(n)))
  {
    hide Misfired;
    ScriptMisfires(7, IntLit(n), Const(7), n);
  }
}
