/** What the rewrites of a conditional jump do to its meaning, for any code in
    front of it. */
module JumpMeaning {
  import opened Options
  import opened Machine
  import opened Assembly
  import opened CodeGen
  import Doubles

  /** Where the rewritten jump stands. */
  function JumpIndex(c: Prog, op: byte): nat { |WithJump(c, op, 0)| - 1 }

  predicate IsPopJump(op: byte) { op == JUMP_IF_FALSE_POP || op == JUMP_IF_TRUE_POP }

  predicate IsInt(v: Value) { v.Number? && v.f == F64(v.i) }

  /** The locals that the fused comparison reads are integers, or there is an
      operand for the jump. */
  predicate Ready(c: Prog, op: byte, l: seq<Value>, stk: seq<Value>) {
    var f := FoldNot(c, op);
    if Fuses(f.0, f.1) then
      var n := |f.0|;
      f.0[n - 3].s < |l| && f.0[n - 2].s < |l| && IsInt(l[f.0[n - 3].s]) && IsInt(l[f.0[n - 2].s])
    else |stk| > 0
  }

  /** The comparison that was fused holds of two integers with one double. */
  predicate Rounded(c: Prog, op: byte, l: seq<Value>)
    requires Fuses(FoldNot(c, op).0, FoldNot(c, op).1)
  {
    var d := FoldNot(c, op).0;
    var n := |d|;
    d[n - 3].s < |l| && d[n - 2].s < |l| && l[d[n - 3].s].Number? && l[d[n - 2].s].Number? &&
    var a, b := l[d[n - 3].s].i, l[d[n - 2].s].i;
    F64(a) == F64(b) && if d[n - 1] == Plain(LESS_NUM) then a < b else a > b
  }

  function Compares(cmp: byte, a: int, b: int): bool { if cmp == LESS_NUM then a < b else a > b }

  /** A jump and what it is a rewriting of: from the place where they begin to
      differ, both run to the same locals and operands, and both fall through
      or both jump, exactly unless the jump was fused and compares two different
      integers that have the same double. */
  lemma RewriteExactly(c: Prog, op: byte, t: nat, ks: seq<Value>, l: seq<Value>, stk: seq<Value>)
    requires IsPopJump(op) && Ready(c, op, l, stk)
    ensures var s := JumpIndex(c, op);
            var u := IRun(c + [Jump(op, t)], ks, Running(s, l, stk), |c| + 1 - s);
            var w := IStep(WithJump(c, op, t), ks, Running(s, l, stk));
            u.Running? && w.Running? && u.l == w.l == l && u.stk == w.stk &&
            (u.pc == |c| + 1 || u.pc == |c| + 1 + t) && (w.pc == s + 1 || w.pc == s + 1 + t) &&
            (u.pc - |c| == w.pc - s <==>
             t == 0 || !(Fuses(FoldNot(c, op).0, FoldNot(c, op).1) && Rounded(c, op, l)))
  {
    var f := FoldNot(c, op);
    if Fuses(f.0, f.1) {
      FusedMeaning(c, op, t, ks, l, stk);
    } else {
      PlainMeaning(c, op, t, ks, l, stk);
    }
  }

  lemma PlainMeaning(c: Prog, op: byte, t: nat, ks: seq<Value>, l: seq<Value>, stk: seq<Value>)
    requires IsPopJump(op) && |stk| > 0 && !Fuses(FoldNot(c, op).0, FoldNot(c, op).1)
    ensures var s := JumpIndex(c, op);
            var u := IRun(c + [Jump(op, t)], ks, Running(s, l, stk), |c| + 1 - s);
            var w := IStep(WithJump(c, op, t), ks, Running(s, l, stk));
            u.Running? && w.Running? && u.l == w.l == l && u.stk == w.stk && u.pc - |c| == w.pc - s &&
            (u.pc == |c| + 1 || u.pc == |c| + 1 + t)
  {
    hide Fuses;
    var p := c + [Jump(op, t)];
    var below, v := stk[..|stk| - 1], stk[|stk| - 1];
    assert stk == below + [v];
    if FoldsNot(c, op) {
      var st := IStep(p, ks, Running(|c| - 1, l, stk));
      assert p[|c| - 1] == Plain(NOT);
      assert st == Running(|c|, l, below + [Bool(!Truthy(v))]);
      assert p[|c|] == Jump(op, t);
      TwoSteps(p, ks, Running(|c| - 1, l, stk));
    } else {
      OneStep(p, ks, Running(|c|, l, stk));
    }
  }

  lemma OneStep(p: Prog, ks: seq<Value>, st: Status)
    ensures IRun(p, ks, st, 1) == IStep(p, ks, st)
  {
  }

  lemma TwoSteps(p: Prog, ks: seq<Value>, st: Status)
    ensures IRun(p, ks, st, 2) == IStep(p, ks, IStep(p, ks, st))
  {
    OneStep(p, ks, IStep(p, ks, st));
  }

  /** The comparison leaves its result. */
  lemma CompareSteps(p: Prog, ks: seq<Value>, i: nat, a: nat, b: nat, cmp: byte, l: seq<Value>, stk: seq<Value>)
    requires i + 3 <= |p| && p[i] == Slot(GET_LOCAL, a) && p[i + 1] == Slot(GET_LOCAL, b) && p[i + 2] == Plain(cmp)
    requires (cmp == LESS_NUM || cmp == GREATER_NUM) && a < |l| && b < |l| && IsInt(l[a]) && IsInt(l[b])
    ensures IRun(p, ks, Running(i, l, stk), 3) == Running(i + 3, l, stk + [Bool(Compares(cmp, l[a].i, l[b].i))])
  {
    hide F64;
    var s1 := Running(i + 1, l, stk + [l[a]]);
    var s2 := Running(i + 2, l, stk + [l[a]] + [l[b]]);
    assert IStep(p, ks, Running(i, l, stk)) == s1 && IStep(p, ks, s1) == s2;
    var top := s2.stk;
    assert top[|top| - 1] == l[b] && top[|top| - 2] == l[a] && top[..|top| - 2] == stk;
    OneStep(p, ks, s2);
    TwoSteps(p, ks, Running(i, l, stk));
    assert IRun(p, ks, Running(i, l, stk), 3) == IRun(p, ks, s1, 2) == IRun(p, ks, s2, 1);
  }

  lemma FusedMeaning(c: Prog, op: byte, t: nat, ks: seq<Value>, l: seq<Value>, stk: seq<Value>)
    requires IsPopJump(op) && Ready(c, op, l, stk) && Fuses(FoldNot(c, op).0, FoldNot(c, op).1)
    ensures var s := JumpIndex(c, op);
            var u := IRun(c + [Jump(op, t)], ks, Running(s, l, stk), |c| + 1 - s);
            var w := IStep(WithJump(c, op, t), ks, Running(s, l, stk));
            u.Running? && w.Running? && u.l == w.l == l && u.stk == w.stk &&
            (u.pc == |c| + 1 || u.pc == |c| + 1 + t) && (w.pc == s + 1 || w.pc == s + 1 + t) &&
            (u.pc - |c| == w.pc - s <==> t == 0 || !Rounded(c, op, l))
  {
    hide F64, IStep, IRun, WithJump;
    var f := FoldNot(c, op);
    var d, s := f.0, |f.0| - 3;
    UnfusedRuns(c, op, t, ks, l, stk);
    FusedRuns(c, op, t, ks, l, stk);
    Doubles.FusedExactly(d[s + 2].op, f.1, l[d[s].s].i, l[d[s + 1].s].i);
  }

  lemma UnfusedRuns(c: Prog, op: byte, t: nat, ks: seq<Value>, l: seq<Value>, stk: seq<Value>)
    requires IsPopJump(op) && Ready(c, op, l, stk) && Fuses(FoldNot(c, op).0, FoldNot(c, op).1)
    ensures var f := FoldNot(c, op);
            var d, s := f.0, |f.0| - 3;
            IRun(c + [Jump(op, t)], ks, Running(s, l, stk), |c| + 1 - s) ==
            Running(if Doubles.UnfusedJumps(d[s + 2].op, f.1, l[d[s].s].i, l[d[s + 1].s].i) then |c| + 1 + t else |c| + 1,
                    l, stk)
  {
    hide F64, IStep, IRun;
    var p := c + [Jump(op, t)];
    var f := FoldNot(c, op);
    var d, s := f.0, |f.0| - 3;
    var a, b, cmp := d[s].s, d[s + 1].s, d[s + 2].op;
    var v := Bool(Compares(cmp, l[a].i, l[b].i));
    assert forall j :: 0 <= j < |d| ==> p[j] == d[j];
    CompareSteps(p, ks, s, a, b, cmp, l, stk);
    PlainFrom(c, op, t, ks, l, stk, v);
    Adds(p, ks, Running(s, l, stk), 3, |c| - |d| + 1);
  }

  lemma FusedRuns(c: Prog, op: byte, t: nat, ks: seq<Value>, l: seq<Value>, stk: seq<Value>)
    requires IsPopJump(op) && Ready(c, op, l, stk) && Fuses(FoldNot(c, op).0, FoldNot(c, op).1)
    ensures var f := FoldNot(c, op);
            var d, s := f.0, |f.0| - 3;
            s == JumpIndex(c, op) &&
            IStep(WithJump(c, op, t), ks, Running(s, l, stk)) ==
            Running(if Doubles.FusedJumps(d[s + 2].op, f.1, l[d[s].s].i, l[d[s + 1].s].i) then s + 1 + t else s + 1,
                    l, stk)
  {
    hide F64;
  }

  /** The jump, with the NOT in front of it if there is one, on a truth value. */
  lemma PlainFrom(c: Prog, op: byte, t: nat, ks: seq<Value>, l: seq<Value>, stk: seq<Value>, v: Value)
    requires IsPopJump(op) && v.Bool?
    ensures var f := FoldNot(c, op);
            IRun(c + [Jump(op, t)], ks, Running(|f.0|, l, stk + [v]), |c| - |f.0| + 1) ==
            Running(if v.b == (f.1 == JUMP_IF_TRUE_POP) then |c| + 1 + t else |c| + 1, l, stk)
  {
    var p := c + [Jump(op, t)];
    assert (stk + [v])[..|stk|] == stk;
    if FoldsNot(c, op) {
      var st := Running(|c|, l, stk + [Bool(!v.b)]);
      assert st.stk[..|stk|] == stk;
      assert IStep(p, ks, Running(|c| - 1, l, stk + [v])) == st;
      TwoSteps(p, ks, Running(|c| - 1, l, stk + [v]));
    } else {
      OneStep(p, ks, Running(|c|, l, stk + [v]));
    }
  }

  lemma {:induction false} Adds(p: Prog, ks: seq<Value>, st: Status, m: nat, n: nat)
    ensures IRun(p, ks, st, m + n) == IRun(p, ks, IRun(p, ks, st, m), n)
    decreases m
  {
    hide IStep;
    if m > 0 { Adds(p, ks, IStep(p, ks, st), m - 1, n); }
  }

  /** The jump that keeps its operand is folded too, and then leaves the operand
      without the negation: never what the NOT and the jump leave. The compiler
      does not emit it. */
  lemma FoldedPeekDiffers(c: Prog, t: nat, ks: seq<Value>, l: seq<Value>, stk: seq<Value>)
    requires FoldsNot(c, JUMP_IF_FALSE) && |stk| > 0
    ensures var s := JumpIndex(c, JUMP_IF_FALSE);
            var u := IRun(c + [Jump(JUMP_IF_FALSE, t)], ks, Running(s, l, stk), |c| + 1 - s);
            var w := IStep(WithJump(c, JUMP_IF_FALSE, t), ks, Running(s, l, stk));
            u.Running? && w.Running? && u.pc - |c| == w.pc - s && u.l == w.l && u.stk != w.stk
  {
    var p := c + [Jump(JUMP_IF_FALSE, t)];
    var below, v := stk[..|stk| - 1], stk[|stk| - 1];
    var st := Running(|c|, l, below + [Bool(!Truthy(v))]);
    assert p[|c| - 1] == Plain(NOT) && p[|c|] == Jump(JUMP_IF_FALSE, t);
    assert IStep(p, ks, Running(|c| - 1, l, stk)) == st;
    TwoSteps(p, ks, Running(|c| - 1, l, stk));
    assert st.stk[|below|] != v;
  }
}
