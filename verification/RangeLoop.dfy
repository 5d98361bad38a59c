/** The fast range loop on any 64-bit arguments, with wrapping arithmetic. */
module RangeLoops {
  import opened Options
  import opened Machine

  predicate Int64(x: int) { -TWO_63 <= x < TWO_63 }

  /** The four hidden slots of a loop are different. */
  predicate Slots(init: Instr, next: Instr, l: seq<Value>) {
    init.RangeInit? && next.RangeNext? && next.cur == init.cur && next.end == init.end && next.step == init.step &&
    next.cur < |l| && next.end < |l| && next.step < |l| && next.val < |l| &&
    next.cur != next.end && next.cur != next.step && next.end != next.step &&
    next.val != next.cur && next.val != next.end && next.val != next.step
  }

  predicate Arity(args: seq<int>) {
    1 <= |args| <= 3 && forall j :: 0 <= j < |args| ==> Int64(args[j])
  }

  /** One argument counts up from 0; two count from the first towards the second;
      three say the step. */
  function Begin(args: seq<int>): int { if |args| >= 2 then args[0] else 0 }

  function End(args: seq<int>): int
    requires Arity(args)
  {
    if |args| == 1 then args[0] else args[1]
  }

  function By(args: seq<int>): int
    requires Arity(args)
  {
    if |args| == 3 then args[2] else if |args| == 2 && args[0] > args[1] then -1 else 1
  }

  /** Value k, with wrap-around. */
  function ValueAt(args: seq<int>, k: nat): int
    requires Arity(args)
  {
    Wrap64(Begin(args) + k * By(args))
  }

  /** Value k is before the end. A loop with step 0 has no end. */
  predicate GoesOn(args: seq<int>, k: nat)
    requires Arity(args)
  {
    var d, v := By(args), ValueAt(args, k);
    d == 0 || (d > 0 && v < End(args)) || (d < 0 && v > End(args))
  }

  // --------------------------------------------------------------- arithmetic

  lemma WrapParts(x: int) returns (q: int)
    ensures x == Wrap64(x) + q * TWO_64 && Int64(Wrap64(x))
  {
    q := if x % TWO_64 >= TWO_63 then x / TWO_64 + 1 else x / TWO_64;
  }

  lemma SameWrap(a: int, b: int, q: int)
    requires a == b + q * TWO_64 && Int64(a) && Int64(b)
    ensures a == b
  {
  }

  lemma Wrapped(x: int, d: int)
    ensures Wrap64(Wrap64(x) + d) == Wrap64(x + d)
    ensures Int64(x) ==> Wrap64(x) == x
  {
    var q := WrapParts(x);
    var q1 := WrapParts(Wrap64(x) + d);
    var q2 := WrapParts(x + d);
    SameWrap(Wrap64(Wrap64(x) + d), Wrap64(x + d), q2 - q1 - q);
  }

  lemma Stepped(b: int, k: nat, d: int)
    ensures b + (k - 1) * d + d == b + k * d
  {
  }

  // -------------------------------------------------------------------- steps

  /** The locals after k values, seen from the loop. */
  predicate AfterValues(next: Instr, l: seq<Value>, args: seq<int>, k: nat)
    requires next.RangeNext? && Arity(args)
  {
    next.cur < |l| && next.end < |l| && next.step < |l| && next.val < |l| &&
    l[next.cur].Number? && l[next.cur].i == Wrap64(Begin(args) + (k - 1) * By(args)) &&
    l[next.end].Number? && l[next.end].i == End(args) && l[next.step].Number? && l[next.step].i == By(args)
  }

  predicate AreArguments(stk: seq<Value>, args: seq<int>) {
    Arity(args) && |stk| >= |args| &&
    forall k :: 0 <= k < |args| ==> stk[|stk| - |args| + k].Number? && stk[|stk| - |args| + k].i == args[k]
  }

  lemma Initialised(init: Instr, next: Instr, l: seq<Value>, stk: seq<Value>, args: seq<int>)
    requires Slots(init, next, l) && AreArguments(stk, args) && init.argc == |args|
    ensures ExecRangeInit(init, l, stk).Next?
    ensures var e := ExecRangeInit(init, l, stk); AfterValues(next, e.l, args, 0) && e.stk == stk[..|stk| - |args|]
  {
    hide F64;
    var n, m := |stk|, |args|;
    assert Int64(args[0]) && (m >= 2 ==> Int64(args[1])) && (m == 3 ==> Int64(args[2]));
    assert Begin(args) + (0 - 1) * By(args) == Begin(args) - By(args);
  }

  /** The next value, or the end of the loop after the last one. */
  lemma Advances(next: Instr, l: seq<Value>, stk: seq<Value>, args: seq<int>, k: nat)
    requires next.RangeNext? && Arity(args) && AfterValues(next, l, args, k)
    requires next.cur != next.end && next.cur != next.step
    requires next.val != next.cur && next.val != next.end && next.val != next.step
    ensures !GoesOn(args, k) ==> ExecRangeNext(next, l, stk) == Branch(l, stk)
    ensures GoesOn(args, k) ==>
              var e := ExecRangeNext(next, l, stk);
              e.Next? && e.stk == stk && e.l[next.val] == IntValue(ValueAt(args, k)) && AfterValues(next, e.l, args, k + 1)
  {
    hide F64, Wrap64, Begin, By, End;
    Wrapped(Begin(args) + (k - 1) * By(args), By(args));
    Stepped(Begin(args), k, By(args));
  }

  /** Iterations of a loop: the locals before each, the values of the loop
      variable, and bodies that may change everything but the hidden slots. */
  ghost predicate Iterations(next: Instr, ls: seq<seq<Value>>, vs: seq<Value>, stk: seq<Value>)
    requires next.RangeNext?
  {
    |ls| == |vs| + 1 && forall k :: 0 <= k < |vs| ==> Iteration(next, ls[k], vs[k], ls[k + 1], stk)
  }

  /** RANGE_NEXT_FAST on l sets the variable to v, and the body leaves l'. */
  predicate Iteration(next: Instr, l: seq<Value>, v: Value, l': seq<Value>, stk: seq<Value>)
    requires next.RangeNext?
  {
    var e := ExecRangeNext(next, l, stk);
    e.Next? && next.val < |e.l| && e.l[next.val] == v && SameHidden(next, e.l, l')
  }

  predicate SameHidden(next: Instr, a: seq<Value>, b: seq<Value>)
    requires next.RangeNext?
  {
    |a| == |b| && next.cur < |a| && next.end < |a| && next.step < |a| && next.val < |a| &&
    a[next.cur] == b[next.cur] && a[next.end] == b[next.end] && a[next.step] == b[next.step]
  }

  lemma FewerIterations(next: Instr, ls: seq<seq<Value>>, vs: seq<Value>, stk: seq<Value>)
    requires next.RangeNext? && Iterations(next, ls, vs, stk) && vs != []
    ensures Iterations(next, ls[..|ls| - 1], vs[..|vs| - 1], stk)
  {
    hide Iteration;
    var ls1, vs1 := ls[..|ls| - 1], vs[..|vs| - 1];
    forall k | 0 <= k < |vs1| ensures Iteration(next, ls1[k], vs1[k], ls1[k + 1], stk) {
      assert vs[k] == vs1[k] && ls1[k] == ls[k] && ls1[k + 1] == ls[k + 1];
    }
  }

  /** Any run of a fast range loop: value k is begin + k * step, wrapped, each of
      them before the end, and the loop goes on exactly if the next one is. */
  lemma {:induction false} RangeYields(
    init: Instr, next: Instr, l: seq<Value>, stk: seq<Value>, args: seq<int>, ls: seq<seq<Value>>, vs: seq<Value>)
    requires Slots(init, next, l) && AreArguments(stk, args) && init.argc == |args|
    requires ls != [] && ExecRangeInit(init, l, stk) == Next(ls[0], stk[..|stk| - |args|])
    requires Iterations(next, ls, vs, stk[..|stk| - |args|])
    ensures forall k :: 0 <= k < |vs| ==> GoesOn(args, k) && vs[k] == IntValue(ValueAt(args, k))
    ensures var e := ExecRangeNext(next, ls[|vs|], stk[..|stk| - |args|]);
            if GoesOn(args, |vs|) then e.Next? else e.Branch?
    ensures AfterValues(next, ls[|vs|], args, |vs|)
    decreases |vs|
  {
    hide ExecRangeInit, ExecRangeNext, F64, Wrap64, GoesOn, ValueAt;
    Initialised(init, next, l, stk, args);
    var rest := stk[..|stk| - |args|];
    var n := |vs|;
    if n > 0 {
      FewerIterations(next, ls, vs, rest);
      RangeYields(init, next, l, stk, args, ls[..n], vs[..n - 1]);
      Advances(next, ls[n - 1], rest, args, n - 1);
      assert Iteration(next, ls[n - 1], vs[n - 1], ls[n], rest);
    }
    Advances(next, ls[n], rest, args, n);
  }

  // ------------------------------------------------------------------- lengths

  /** How many values there are, if counting does not wrap. */
  function Count(args: seq<int>): nat
    requires Arity(args) && By(args) != 0
  {
    var d, b, e := By(args), Begin(args), End(args);
    if d > 0 then (if b < e then (e - b + d - 1) / d else 0) else (if b > e then (b - e - d - 1) / (0 - d) else 0)
  }

  lemma Quotient(x: int, d: int)
    requires x >= d > 0
    ensures var n := x / d; n >= 1 && x - d < n * d <= x
  {
    assert x == x / d * d + x % d;
  }

  /** Counting n times by d covers the width w, and not before. */
  lemma Covers(w: int, d: int, k: nat)
    requires w > 0 && d > 0
    ensures var n := (w + d - 1) / d;
            n >= 1 && w <= n * d < w + d && (k < n ==> k * d < w)
  {
    var n := (w + d - 1) / d;
    Quotient(w + d - 1, d);
    if k < n { Scaled(k, n - 1, d); }
    assert (n - 1) * d == n * d - d;
  }

  lemma Scaled(k: nat, n: int, d: int)
    requires k <= n && d > 0
    ensures 0 <= k * d <= n * d
  {
  }

  lemma NegatedProduct(k: nat, d: int)
    ensures k * d == 0 - k * (0 - d)
  {
  }

  /** Before Count(args) the values do not wrap and are before the end; the loop
      ends there if and only if the value after the last one is a 64-bit
      integer. Otherwise it wraps and the loop goes on. */
  lemma LoopEnds(args: seq<int>, k: nat)
    requires Arity(args) && By(args) != 0
    ensures k < Count(args) ==> ValueAt(args, k) == Begin(args) + k * By(args) && GoesOn(args, k)
    ensures k == Count(args) ==> (GoesOn(args, k) <==> !Int64(Begin(args) + k * By(args)))
  {
    hide Wrap64;
    var d, b, e := By(args), Begin(args), End(args);
    if k <= Count(args) {
      if d > 0 { UpEnds(b, e, d, k); } else { DownEnds(b, e, d, k); }
    }
  }

  /** The count of Count, upwards: the width in steps, rounded up. */
  lemma UpEnds(b: int, e: int, d: int, k: nat)
    requires Int64(b) && Int64(e) && Int64(d) && d > 0
    requires var n := if b < e then (e - b + d - 1) / d else 0; k <= n
    ensures var n := if b < e then (e - b + d - 1) / d else 0; var v := Wrap64(b + k * d);
            (k < n ==> v == b + k * d < e) && (k == n ==> (v < e <==> !Int64(b + k * d)))
  {
    hide Wrap64;
    if b < e { Covers(e - b, d, k); }
    assert 0 * d == 0;
    Scaled(0, k, d);
    assert b + k * d >= b;
    WrapOnce(b + k * d);
  }

  lemma DownEnds(b: int, e: int, d: int, k: nat)
    requires Int64(b) && Int64(e) && Int64(d) && d < 0
    requires var n := if b > e then (b - e - d - 1) / (0 - d) else 0; k <= n
    ensures var n := if b > e then (b - e - d - 1) / (0 - d) else 0; var v := Wrap64(b + k * d);
            (k < n ==> v == b + k * d > e) && (k == n ==> (v > e <==> !Int64(b + k * d)))
  {
    hide Wrap64;
    NegatedProduct(k, d);
    if b > e { Covers(b - e, 0 - d, k); }
    Scaled(0, k, 0 - d);
    WrapOnce(b + k * d);
  }

  lemma WrapOnce(x: int)
    requires -TWO_64 <= x < TWO_64
    ensures Wrap64(x) == if x < -TWO_63 then x + TWO_64 else if x >= TWO_63 then x - TWO_64 else x
  {
  }

  /** Without a step of its own every loop ends. */
  lemma ShortLoopsEnd(args: seq<int>)
    requires Arity(args) && |args| <= 2
    ensures !GoesOn(args, Count(args))
    ensures Count(args) == if |args| == 2 then (if args[0] > args[1] then args[0] - args[1] else args[1] - args[0])
                           else if args[0] > 0 then args[0] else 0
  {
    hide Wrap64;
    LoopEnds(args, Count(args));
    var n := Count(args);
    assert n * By(args) == if By(args) == 1 then n else 0 - n;
  }
}
