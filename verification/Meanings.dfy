/** What names, conditions and typed operators mean, in terms of the program
    text. */
module Meanings {
  import opened Options
  import opened Machine
  import opened Assembly
  import opened Source
  import opened CodeGen

  // ------------------------------------------------------------------- names

  /** Position r is the last one with that name; or it is -1, and no position
      has it. */
  predicate Last(names: seq<string>, x: string, r: int) {
    -1 <= r < |names| && (r >= 0 ==> names[r] == x) && forall k :: r < k < |names| ==> names[k] != x
  }

  function Bindings(env: Env): (r: seq<string>)
    ensures |r| == |env|
  {
    seq(|env|, i requires 0 <= i < |env| => env[i].name)
  }

  function LocalNames(ls: Locals): (r: seq<string>)
    ensures |r| == |ls|
  {
    seq(|ls|, i requires 0 <= i < |ls| => ls[i].name)
  }

  lemma LastBefore(names: seq<string>, x: string, r: int)
    requires names != [] && names[|names| - 1] != x && Last(names[..|names| - 1], x, r)
    ensures Last(names, x, r)
  {
    forall k | r < k < |names| ensures names[k] != x {
      if k < |names| - 1 { assert names[..|names| - 1][k] == names[k]; }
    }
  }

  /** Evaluation reads the innermost binding of a name, the generated code the
      innermost local: the last one of that name. */
  lemma {:induction false} FindsInnermost(env: Env, x: string)
    ensures Last(Bindings(env), x, Find(env, x))
  {
    if env != [] {
      var n := |env| - 1;
      if env[n].name != x {
        FindsInnermost(env[..n], x);
        assert Bindings(env)[..n] == Bindings(env[..n]);
        LastBefore(Bindings(env), x, Find(env, x));
      }
    }
  }

  lemma {:induction false} SlotInnermost(ls: Locals, x: string)
    ensures Last(LocalNames(ls), x, SlotOf(ls, x))
  {
    if ls != [] {
      var n := |ls| - 1;
      if ls[n].name != x {
        SlotInnermost(ls[..n], x);
        assert LocalNames(ls)[..n] == LocalNames(ls[..n]);
        LastBefore(LocalNames(ls), x, SlotOf(ls, x));
      }
    }
  }

  // -------------------------------------------------------------- conditions

  /** Only false and nil fail a condition: 0 holds. */
  lemma OnlyFalseFails(c: Expr, thn: Block, els: Block, env: Env, fuel: nat)
    requires Eval(c, env).Some?
    ensures ExecStmt(If(c, thn, Some(els)), env, fuel) ==
            ExecScope(if Eval(c, env) == Some(VBool(false)) then els else thn, env, fuel)
  {
    hide ExecScope, Eval;
  }

  lemma OnlyFalseJumps(op: byte, l: seq<Value>, stk: seq<Value>, v: Value)
    requires op == JUMP_IF_FALSE_POP || op == JUMP_IF_TRUE_POP
    ensures var jumps := (v == Nil || v == Bool(false)) == (op == JUMP_IF_FALSE_POP);
            ExecJump(op, l, stk + [v]) == if jumps then Branch(l, stk) else Next(l, stk)
  {
    assert (stk + [v])[..|stk|] == stk;
  }

  // --------------------------------------------------------------- operators

  /** The instruction that a binary operator on two locals ends in: the one for
      numbers exactly when both are declared int or number. */
  lemma TypedOperator(op: BinOp, x: string, y: string, ls: Locals, k: nat)
    requires op == Add || op == Sub || op == Mul || op == Mod || op == Lt || op == Gt
    requires SlotOf(ls, x) >= 0 && SlotOf(ls, y) >= 0
    ensures var a, b := SlotOf(ls, x), SlotOf(ls, y);
            var number := ls[a].typ in {TInt, TNumber} && ls[b].typ in {TInt, TNumber};
            ExprCode(Bin(op, Var(x), Var(y)), ls, k).code ==
            [Slot(GET_LOCAL, a), Slot(GET_LOCAL, b),
             Plain(match op
                   case Add => if number then ADD_NUM else ADD
                   case Sub => if number then SUB_NUM else SUB
                   case Mul => if number then MUL_NUM else MUL
                   case Mod => if number then MOD_NUM else MOD
                   case Lt => if number then LESS_NUM else LESS
                   case _ => if number then GREATER_NUM else GREATER)]
  {
    hide SlotOf;
    ArithCode(Bin(op, Var(x), Var(y)), ls, k);
  }

  // ----------------------------------------------------------------- globals

  /** The names of the pool that the global instructions of c read, in order;
      k constants were in the pool before ks. */
  function GlobalNames(c: Prog, k: nat, ks: seq<Constant>): seq<Constant> {
    if c == [] then []
    else
      GlobalNames(c[..|c| - 1], k, ks) +
      match c[|c| - 1]
      case Global(_, i) => [if k <= i < k + |ks| then ks[i - k] else KInt(0)]
      case _ => []
  }

  /** The names that an expression reads and that are no locals, in order. */
  function FreeNames(e: Expr, ls: Locals): seq<Constant> {
    match e
    case Var(x) => if x in LocalNames(ls) then [] else [KName(x)]
    case Group(e1) => FreeNames(e1, ls)
    case Neg(e1) => FreeNames(e1, ls)
    case Not(e1) => FreeNames(e1, ls)
    case Bin(_, l, r) => FreeNames(l, ls) + FreeNames(r, ls)
    case _ => []
  }

  lemma {:induction false} NamesJoined(a: Prog, b: Prog, k: nat, ks: seq<Constant>)
    ensures GlobalNames(a + b, k, ks) == GlobalNames(a, k, ks) + GlobalNames(b, k, ks)
    decreases |b|
  {
    if b == [] {
      assert a + b == a;
    } else {
      var n := |b| - 1;
      assert (a + b)[..|a + b| - 1] == a + b[..n];
      NamesJoined(a, b[..n], k, ks);
    }
  }

  lemma NamesOfOne(ins: Instr, k: nat, ks: seq<Constant>)
    ensures !ins.Global? ==> GlobalNames([ins], k, ks) == []
    ensures ins.Global? && k <= ins.k < k + |ks| ==> GlobalNames([ins], k, ks) == [ks[ins.k - k]]
  {
    assert [ins][..0] == [];
  }

  /** No global instructions: the same in any pool. */
  predicate NoGlobals(c: Prog) { forall i :: 0 <= i < |c| ==> !c[i].Global? }

  lemma {:induction false} NoNames(c: Prog, k: nat, ks: seq<Constant>)
    requires NoGlobals(c)
    ensures GlobalNames(c, k, ks) == []
  {
    if c != [] { NoNames(c[..|c| - 1], k, ks); }
  }

  /** The global instructions of c use constants k, ..., k + n - 1 only. */
  predicate Uses(c: Prog, k: nat, n: nat) { forall i :: 0 <= i < |c| && c[i].Global? ==> k <= c[i].k < k + n }

  lemma {:induction false} NamesShifted(c: Prog, k: nat, before: seq<Constant>, ks: seq<Constant>, after: seq<Constant>)
    requires Uses(c, k + |before|, |ks|)
    ensures GlobalNames(c, k, before + ks + after) == GlobalNames(c, k + |before|, ks)
  {
    if c != [] { NamesShifted(c[..|c| - 1], k, before, ks, after); }
  }

  /** A condition keeps its global instructions in front of its jump. */
  lemma JumpNames(c: Prog, op: byte, t: int, k: nat, ks: seq<Constant>)
    ensures GlobalNames(WithJump(c, op, t), k, ks) == GlobalNames(c, k, ks)
    ensures forall n: nat :: Uses(c, k, n) ==> Uses(WithJump(c, op, t), k, n)
  {
    hide GlobalNames;
    var f := FoldNot(c, op);
    assert GlobalNames(f.0, k, ks) == GlobalNames(c, k, ks) by {
      if FoldsNot(c, op) {
        var n := |c| - 1;
        assert c == c[..n] + [c[n]];
        NamesJoined(c[..n], [c[n]], k, ks);
        NamesOfOne(c[n], k, ks);
      }
    }
    var d := f.0;
    if Fuses(d, f.1) {
      var n := |d| - 3;
      var j := WithJump(c, op, t)[n];
      assert d == d[..n] + d[n..] && WithJump(c, op, t) == d[..n] + [j];
      NamesJoined(d[..n], d[n..], k, ks);
      NoNames(d[n..], k, ks);
      NamesJoined(d[..n], [j], k, ks);
      NamesOfOne(j, k, ks);
    } else {
      NamesJoined(d, [Jump(f.1, t)], k, ks);
      NamesOfOne(Jump(f.1, t), k, ks);
    }
  }

  lemma {:induction false} ConstClosed(e: Expr, ls: Locals)
    requires EvalConst(e).Some?
    ensures FreeNames(e, ls) == []
  {
    match e
    case Group(e1) => ConstClosed(e1, ls);
    case Neg(e1) => ConstClosed(e1, ls);
    case Not(e1) => ConstClosed(e1, ls);
    case Bin(_, l, r) =>
      ConstClosed(l, ls);
      ConstClosed(r, ls);
    case _ =>
  }

  ghost predicate NamesRead(f: Frag, k: nat, names: seq<Constant>) {
    GlobalNames(f.code, k, f.ks) == names && Uses(f.code, k, |f.ks|)
  }

  lemma NamesThen(f: Frag, c: Prog, k: nat, names: seq<Constant>)
    requires NamesRead(f, k, names) && NoGlobals(c)
    ensures NamesRead(Frag(f.code + c, f.ks), k, names)
  {
    NamesJoined(f.code, c, k, f.ks);
    NoNames(c, k, f.ks);
  }

  /** Code that keeps the global instructions of both parts, in order. */
  lemma NamesOfBoth(f: Frag, g: Frag, k: nat, m: seq<Constant>, n: seq<Constant>, a: Prog, b: Prog)
    requires NamesRead(f, k, m) && NamesRead(g, k + |f.ks|, n)
    requires forall ks :: GlobalNames(a, k, ks) == GlobalNames(f.code, k, ks)
    requires forall ks :: GlobalNames(b, k, ks) == GlobalNames(g.code, k, ks)
    requires Uses(a, k, |f.ks|) && Uses(b, k + |f.ks|, |g.ks|)
    ensures NamesRead(Frag(a + b, f.ks + g.ks), k, m + n)
  {
    hide GlobalNames;
    var ks := f.ks + g.ks;
    NamesJoined(a, b, k, ks);
    assert [] + f.ks + g.ks == ks && f.ks + g.ks + [] == ks;
    NamesShifted(f.code, k, [], f.ks, g.ks);
    NamesShifted(g.code, k, f.ks, g.ks, []);
  }

  lemma JumpKeeps(c: Prog, op: byte, t: int, k: nat, n: nat)
    requires Uses(c, k, n)
    ensures forall k: nat, ks :: GlobalNames(WithJump(c, op, t), k, ks) == GlobalNames(c, k, ks)
    ensures Uses(WithJump(c, op, t), k, n)
  {
    hide GlobalNames, WithJump, Uses;
    forall k: nat, ks ensures GlobalNames(WithJump(c, op, t), k, ks) == GlobalNames(c, k, ks) {
      JumpNames(c, op, t, k, ks);
    }
    JumpNames(c, op, t, k, []);
  }

  lemma Joins(a: Prog, b: Prog)
    requires NoGlobals(b)
    ensures forall k: nat, ks :: GlobalNames(a + b, k, ks) == GlobalNames(a, k, ks)
    ensures forall k: nat, n: nat :: Uses(a, k, n) ==> Uses(a + b, k, n)
  {
    forall k: nat, ks ensures GlobalNames(a + b, k, ks) == GlobalNames(a, k, ks) {
      NamesJoined(a, b, k, ks);
      NoNames(b, k, ks);
    }
  }

  lemma AndNames(f: Frag, g: Frag, k: nat, m: seq<Constant>, n: seq<Constant>)
    requires NamesRead(f, k, m) && NamesRead(g, k + |f.ks|, n)
    ensures NamesRead(Frag(AndCode(f.code, g.code), f.ks + g.ks), k, m + n)
  {
    hide GlobalNames, WithJump, Uses;
    var rj := WithJump(g.code, JUMP_IF_FALSE_POP, 2);
    var lj := WithJump(f.code, JUMP_IF_FALSE_POP, |rj| + 2);
    JumpKeeps(g.code, JUMP_IF_FALSE_POP, 2, k + |f.ks|, |g.ks|);
    JumpKeeps(f.code, JUMP_IF_FALSE_POP, |rj| + 2, k, |f.ks|);
    NamesOfBoth(f, g, k, m, n, lj, rj);
    NamesThen(Frag(lj + rj, f.ks + g.ks), [Plain(TRUE), Jump(JUMP, 1), Plain(FALSE)], k, m + n);
  }

  lemma OrNames(f: Frag, g: Frag, k: nat, m: seq<Constant>, n: seq<Constant>)
    requires NamesRead(f, k, m) && NamesRead(g, k + |f.ks|, n)
    ensures NamesRead(Frag(OrCode(f.code, g.code), f.ks + g.ks), k, m + n)
  {
    hide GlobalNames, WithJump, Uses;
    var rj := WithJump(g.code, JUMP_IF_FALSE_POP, 2);
    var lj := WithJump(f.code, JUMP_IF_FALSE_POP, 2);
    var over := [Plain(TRUE), Jump(JUMP, |rj| + 3)];
    JumpKeeps(g.code, JUMP_IF_FALSE_POP, 2, k + |f.ks|, |g.ks|);
    JumpKeeps(f.code, JUMP_IF_FALSE_POP, 2, k, |f.ks|);
    Joins(lj, over);
    NamesOfBoth(f, g, k, m, n, lj + over, rj);
    NamesThen(Frag(lj + over + rj, f.ks + g.ks), [Plain(TRUE), Jump(JUMP, 1), Plain(FALSE)], k, m + n);
  }

  /** The code of an expression reads, in order, exactly the names in it that
      are no locals: the constant at the index of each of its global
      instructions is the name that is read there. */
  lemma {:induction false} GlobalsRead(e: Expr, ls: Locals, k: nat)
    ensures NamesRead(ExprCode(e, ls, k), k, FreeNames(e, ls))
    decreases e
  {
    hide GlobalNames, AndCode, OrCode, BinCode, EvalConst, TypeOf, SlotOf;
    var f := ExprCode(e, ls, k);
    match e
    case Var(x) =>
      SlotInnermost(ls, x);
      NamesOfOne(f.code[0], k, f.ks);
      assert f.code == [f.code[0]];
    case Group(e1) => GlobalsRead(e1, ls, k);
    case Neg(e1) =>
      if EvalConst(e).Some? && EvalConst(e).value.Number? {
        ConstClosed(e, ls);
        NoNames(f.code, k, f.ks);
      } else {
        GlobalsRead(e1, ls, k);
        NamesThen(ExprCode(e1, ls, k), [Plain(NEGATE)], k, FreeNames(e1, ls));
      }
    case Not(e1) =>
      GlobalsRead(e1, ls, k);
      NamesThen(ExprCode(e1, ls, k), [Plain(NOT)], k, FreeNames(e1, ls));
    case Bin(op, l, r) =>
      var fl := ExprCode(l, ls, k);
      var fr := ExprCode(r, ls, k + |fl.ks|);
      GlobalsRead(l, ls, k);
      GlobalsRead(r, ls, k + |fl.ks|);
      BinGlobals(e, ls, k, fl, fr);
    case _ => NoNames(f.code, k, f.ks);
  }

  lemma BinGlobals(e: Expr, ls: Locals, k: nat, fl: Frag, fr: Frag)
    requires e.Bin? && fl == ExprCode(e.l, ls, k) && fr == ExprCode(e.r, ls, k + |fl.ks|)
    requires NamesRead(fl, k, FreeNames(e.l, ls)) && NamesRead(fr, k + |fl.ks|, FreeNames(e.r, ls))
    ensures NamesRead(ExprCode(e, ls, k), k, FreeNames(e, ls))
  {
    hide GlobalNames, AndCode, OrCode, BinCode, TypeOf, NamesRead;
    if e.op == And {
      AndNames(fl, fr, k, FreeNames(e.l, ls), FreeNames(e.r, ls));
    } else if e.op == Or {
      OrNames(fl, fr, k, FreeNames(e.l, ls), FreeNames(e.r, ls));
    } else {
      ArithCode(e, ls, k);
      var bc := BinCode(e.op, Numeric(TypeOf(e.l, ls)) && Numeric(TypeOf(e.r, ls)));
      assert NamesRead(Frag(fl.code + fr.code, fl.ks + fr.ks), k, FreeNames(e, ls)) by {
        BothRead(fl, fr, k, FreeNames(e.l, ls), FreeNames(e.r, ls));
      }
      OperatorReadsNone(e.op, Numeric(TypeOf(e.l, ls)) && Numeric(TypeOf(e.r, ls)));
      NamesThen(Frag(fl.code + fr.code, fl.ks + fr.ks), bc, k, FreeNames(e, ls));
    }
  }

  lemma OperatorReadsNone(op: BinOp, numeric: bool)
    ensures NoGlobals(BinCode(op, numeric))
  {
  }

  /** An assignment to a name that is no local ends in SET_GLOBAL of that name;
      an update reads it too, behind the first evaluation of the value. */
  lemma GlobalAssigned(x: string, op: AssignOp, e: Expr, ls: Locals, k: nat)
    ensures var f, v := GlobalAssignCode(x, op, e, ls, k), FreeNames(e, ls);
            NamesRead(f, k, if op == Set then v + [KName(x)] else v + [KName(x)] + v + [KName(x)])
  {
    hide GlobalNames, BinCode, ExprCode, FreeNames, NamesRead;
    var f, v := ExprCode(e, ls, k), FreeNames(e, ls);
    var k1 := k + |f.ks|;
    GlobalsRead(e, ls, k);
    if op == Set {
      OneName(SET_GLOBAL, k1, x);
      BothRead(f, Frag([Global(SET_GLOBAL, k1)], [KName(x)]), k, v, [KName(x)]);
    } else {
      UpdateNames(x, op, e, ls, k);
    }
  }

  lemma OneName(op: byte, k: nat, x: string)
    ensures NamesRead(Frag([Global(op, k)], [KName(x)]), k, [KName(x)])
  {
    NamesOfOne(Global(op, k), k, [KName(x)]);
  }

  lemma OneMore(f: Frag, op: byte, i: nat, k: nat, names: seq<Constant>)
    requires NamesRead(f, k, names) && k <= i < k + |f.ks|
    ensures NamesRead(Frag(f.code + [Global(op, i)], f.ks), k, names + [f.ks[i - k]])
  {
    NamesJoined(f.code, [Global(op, i)], k, f.ks);
    NamesOfOne(Global(op, i), k, f.ks);
  }

  lemma BothRead(f: Frag, g: Frag, k: nat, m: seq<Constant>, n: seq<Constant>)
    requires NamesRead(f, k, m) && NamesRead(g, k + |f.ks|, n)
    ensures NamesRead(Frag(f.code + g.code, f.ks + g.ks), k, m + n)
  {
    hide GlobalNames, Uses;
    NamesOfBoth(f, g, k, m, n, f.code, g.code);
  }

  lemma UpdateNames(x: string, op: AssignOp, e: Expr, ls: Locals, k: nat)
    requires op != Set
    ensures var f, v := GlobalAssignCode(x, op, e, ls, k), FreeNames(e, ls);
            NamesRead(f, k, v + [KName(x)] + v + [KName(x)])
  {
    hide BinCode, ExprCode, FreeNames, NamesRead;
    var f, v, name := ExprCode(e, ls, k), FreeNames(e, ls), KName(x);
    var k1 := k + |f.ks|;
    var g := ExprCode(e, ls, k1 + 1);
    var bc := BinCode(CompoundOp(op), false);
    GlobalsRead(e, ls, k);
    GlobalsRead(e, ls, k1 + 1);
    OneName(GET_GLOBAL, k1, x);
    OperatorReadsNone(CompoundOp(op), false);
    var a := Frag(f.code + [Global(GET_GLOBAL, k1)], f.ks + [name]);
    BothRead(f, Frag([Global(GET_GLOBAL, k1)], [name]), k, v, [name]);
    BothRead(a, g, k, v + [name], v);
    var b := Frag(a.code + g.code, a.ks + g.ks);
    NamesThen(b, bc, k, v + [name] + v);
    OneMore(Frag(b.code + bc, b.ks), SET_GLOBAL, k1, k, v + [name] + v);
  }

  // -------------------------------------------------------------- fast forms

  predicate IsNumber(t: Type) { t in {TInt, TNumber} }

  /** `x += n`, `x = x + n` and `x = n + x` on a number: one instruction. */
  lemma AddsConstant(x: string, n: int, ls: Locals, k: nat)
    requires SlotOf(ls, x) >= 0 && IsNumber(ls[SlotOf(ls, x)].typ)
    ensures var s := SlotOf(ls, x);
            var code := if n == 1 then [Slot(INC_LOCAL, s)] else if n == -1 then [Slot(DEC_LOCAL, s)]
                        else [AddConst(s, k)];
            AssignCode(x, AddSet, IntLit(n), ls, k, s).0.code == code &&
            AssignCode(x, Set, Bin(Add, Var(x), IntLit(n)), ls, k, s).0.code == code &&
            AssignCode(x, Set, Bin(Add, IntLit(n), Var(x)), ls, k, s).0.code == code
  {
    hide SlotOf, F64, Wrap64;
  }

  /** `x -= n` and `x = x - n`: the same with the negative constant. */
  lemma SubtractsConstant(x: string, n: int, ls: Locals, k: nat)
    requires SlotOf(ls, x) >= 0 && IsNumber(ls[SlotOf(ls, x)].typ) && -TWO_63 < n < TWO_63
    ensures var s := SlotOf(ls, x);
            var f := if n == 1 then Frag([Slot(DEC_LOCAL, s)], []) else if n == -1 then Frag([Slot(INC_LOCAL, s)], [])
                     else Frag([AddConst(s, k)], [KInt(-n)]);
            AssignCode(x, SubSet, IntLit(n), ls, k, s).0 == f &&
            AssignCode(x, Set, Bin(Sub, Var(x), IntLit(n)), ls, k, s).0 == f
  {
    hide SlotOf, F64;
    assert Wrap64(-n) == -n;
  }

  /** `x += y`, `x = x + y` and `x = y + x` on ints: one instruction. */
  lemma AddsLocal(x: string, y: string, ls: Locals, k: nat)
    requires SlotOf(ls, x) >= 0 && ls[SlotOf(ls, x)].typ == TInt && SlotOf(ls, y) >= 0 && ls[SlotOf(ls, y)].typ == TInt
    ensures var s := SlotOf(ls, x);
            var f := Frag([AddLocal(s, SlotOf(ls, y))], []);
            AssignCode(x, AddSet, Var(y), ls, k, s).0 == f &&
            AssignCode(x, Set, Bin(Add, Var(x), Var(y)), ls, k, s).0 == f &&
            AssignCode(x, Set, Bin(Add, Var(y), Var(x)), ls, k, s).0 == f
  {
    hide SlotOf;
  }

  /** `x = x op y` on other numbers, and `x op= y`: y, then an update of x. */
  lemma UpdatesLocal(op: BinOp, x: string, y: string, ls: Locals, k: nat)
    requires op == Sub || op == Mul || (op == Add && SlotOf(ls, x) >= 0 && ls[SlotOf(ls, x)].typ == TNumber)
    requires SlotOf(ls, x) >= 0 && IsNumber(ls[SlotOf(ls, x)].typ)
    requires SlotOf(ls, y) >= 0 && IsNumber(ls[SlotOf(ls, y)].typ)
    ensures var s := SlotOf(ls, x);
            var update := match op case Add => ADD_TO_LOCAL case Sub => SUB_TO_LOCAL case _ => MUL_TO_LOCAL;
            var assign := match op case Add => AddSet case Sub => SubSet case _ => MulSet;
            var f := Frag([Slot(GET_LOCAL, SlotOf(ls, y)), Slot(update, s)], []);
            AssignCode(x, assign, Var(y), ls, k, s).0 == f && AssignCode(x, Set, Bin(op, Var(x), Var(y)), ls, k, s).0 == f
  {
    hide SlotOf;
  }

  /** `if x <= n` and `if x % n == 0` on any local: one instruction. */
  lemma FastConditions(x: string, n: int, ls: Locals, k: nat, t: int)
    requires SlotOf(ls, x) >= 0 && Safe(n)
    ensures var s := SlotOf(ls, x);
            IfHead(Bin(Le, Var(x), IntLit(n)), ls, k, t) ==
              Frag([ConstJump(JUMP_IF_LOCAL_LE_CONST_FALSE, s, k, t)], [KInt(n)]) &&
            IfHead(Bin(Eq, Bin(Mod, Var(x), IntLit(n)), IntLit(0)), ls, k, t) ==
              Frag([ConstJump(JUMP_IF_LOCAL_DIVISIBLE_CONST_FALSE, s, k, t)], [KInt(n)])
  {
    hide SlotOf, WithJump, ExprCode;
    assert Wrap64(F64(n)) == n && F64(0) == 0;
  }

  /** The type that `let x = e` infers for its local: int for an integer literal
      and for arithmetic on ints, number for other arithmetic on numbers, bool
      for truth values, and that of the operand for a sign, parentheses or a
      name; none for anything else. */
  lemma LetInfers(x: string, e: Expr, ls: Locals, k: nat, lc: LoopCtx)
    ensures var types := StmtCode(Let(x, None, e), ls, k, lc).ls;
            |types| == |ls| + 1 && types[..|ls|] == ls && types[|ls|].name == x &&
            types[|ls|].typ ==
            match e
            case IntLit(_) => TInt
            case Group(a) => TypeOf(a, ls)
            case Neg(a) => TypeOf(a, ls)
            case Var(y) => if SlotOf(ls, y) >= 0 then ls[SlotOf(ls, y)].typ else TNone
            case Bin(op, a, b) =>
              if op in {Add, Sub, Mul, Mod} then
                if TypeOf(a, ls) == TypeOf(b, ls) == TInt then TInt
                else if IsNumber(TypeOf(a, ls)) && IsNumber(TypeOf(b, ls)) then TNumber else TNone
              else TBool
            case _ => TBool
  {
    hide SlotOf, ExprCode;
  }
}
