/** What the machine's arithmetic is, in terms of the integers: remainders,
    64-bit wrap-around, and rounding to doubles. */
module Arithmetic {
  import opened Options
  import opened Machine
  import opened Source
  import opened CodeGen
  import opened Doubles
  import JitIr

  // --------------------------------------------------------------- remainder

  predicate Quotient(a: int, b: int, r: int, q: int) { a == b * q + r }

  /** r is what is left of a after taking away a multiple of b: smaller than b,
      and with the sign of a. */
  ghost predicate IsRemainder(r: int, a: int, b: int) {
    (exists q: int :: Quotient(a, b, r, q)) && (if b > 0 then -b < r < b else b < r < -b) &&
    (r == 0 || (r > 0 <==> a > 0))
  }

  lemma TruncModIs(a: int, b: int)
    requires b != 0
    ensures IsRemainder(TruncMod(a, b), a, b)
  {
    hide IsRemainder, TruncMod, Left;
    TruncModOf(a, b);
    var k, r := Divided(Abs(a), Abs(b));
    Truncated(a, b, k, r, TruncMod(a, b));
  }

  function Left(n: nat, m: nat): nat
    requires m > 0
  {
    n % m
  }

  lemma TruncModOf(a: int, b: int)
    requires b != 0
    ensures TruncMod(a, b) == if a >= 0 then Left(Abs(a), Abs(b)) else 0 - Left(Abs(a), Abs(b))
  {
  }

  lemma Truncated(a: int, b: int, k: nat, r: nat, t: int)
    requires b != 0 && Abs(a) == Abs(b) * k + r && r < Abs(b) && t == if a >= 0 then r else 0 - r
    ensures IsRemainder(t, a, b)
  {
    Products(Abs(b), k);
    Products(b, k);
    assert Quotient(a, b, t, if (a >= 0) == (b > 0) then k else 0 - k);
  }

  lemma Divided(n: nat, m: nat) returns (k: nat, r: nat)
    requires m > 0
    ensures n == m * k + r && r == Left(n, m) < m
  {
    k, r := n / m, n % m;
  }

  lemma Products(m: int, k: int)
    ensures m * -k == -(m * k) && -m * k == -(m * k) && -m * -k == m * k
  {
  }

  /** There is only one. */
  lemma RemainderUnique(a: int, b: int, r: int, s: int)
    requires b != 0 && IsRemainder(r, a, b) && IsRemainder(s, a, b)
    ensures r == s
  {
    var p: int :| Quotient(a, b, r, p);
    var q: int :| Quotient(a, b, s, q);
    assert r - s == b * (q - p);
    if p != q { FarApart(b, q - p); }
  }

  /** A multiple of b is 0 or at least as large as b. */
  lemma FarApart(b: int, k: int)
    requires b != 0 && k != 0
    ensures b * k >= Abs(b) || b * k <= 0 - Abs(b)
  {
    var m: int := Abs(b);
    Products(m, k);
    if k > 0 { MulMonotone(1, k, m); } else { MulMonotone(k, -1, m); }
  }

  /** A remainder in a script: fails on 0, and is the remainder with the sign of
      the left operand. */
  lemma EvalRemainder(e: Expr, env: Env)
    requires e.Bin? && e.op == Mod && Eval(e.l, env).Some? && Eval(e.r, env).Some?
    requires Eval(e.l, env).value.VInt? && Eval(e.r, env).value.VInt?
    ensures var a, b := Eval(e.l, env).value.i, Eval(e.r, env).value.i;
            (b == 0 ==> Eval(e, env) == None) &&
            (b != 0 ==> forall r: int :: IsRemainder(r, a, b) ==> Eval(e, env) == if Safe(r) then Some(VInt(r)) else None)
  {
    hide TruncMod, IsRemainder;
    var a, b := Eval(e.l, env).value.i, Eval(e.r, env).value.i;
    if b != 0 {
      TruncModIs(a, b);
      forall r | IsRemainder(r, a, b) ensures r == TruncMod(a, b) { RemainderUnique(a, b, r, TruncMod(a, b)); }
    }
  }

  /** The same of the interpreter's instructions, the JIT's, constant folding,
      and the fused test of divisibility. */
  lemma MachineRemainder(op: byte, x: Value, y: Value)
    requires (op == MOD || op == MOD_NUM) && x.Number? && y.Number?
    ensures y.i == 0 ==> Binary(op, x, y) == None && JitIr.IrBinary(JitIr.ModNumber, x, y) == None
    ensures y.i != 0 ==> forall r: int :: IsRemainder(r, x.i, y.i) ==>
              Binary(op, x, y) == Some(IntValue(r)) && JitIr.IrBinary(JitIr.ModNumber, x, y) == Some(IntValue(r))
    ensures y.f != 0 ==> forall r: int :: IsRemainder(r, x.f, y.f) ==> FoldConst(Mod, x, y) == Some(IntValue(Wrap64(r)))
  {
    hide TruncMod, IsRemainder, Wrap64, F64;
    if y.i != 0 {
      TruncModIs(x.i, y.i);
      forall r | IsRemainder(r, x.i, y.i) ensures r == TruncMod(x.i, y.i) {
        RemainderUnique(x.i, y.i, r, TruncMod(x.i, y.i));
      }
    }
    if y.f != 0 {
      TruncModIs(x.f, y.f);
      forall r | IsRemainder(r, x.f, y.f) ensures r == TruncMod(x.f, y.f) {
        RemainderUnique(x.f, y.f, r, TruncMod(x.f, y.f));
      }
    }
  }

  lemma DivisibleJump(s: nat, c: int, l: seq<Value>, stk: seq<Value>)
    requires s < |l| && l[s].Number? && c != 0
    ensures var e := ExecConstJump(JUMP_IF_LOCAL_DIVISIBLE_CONST_FALSE, s, c, l, stk);
            e == if exists q: int :: Quotient(Wrap64(l[s].f), c, 0, q) then Next(l, stk) else Branch(l, stk)
  {
    hide Wrap64, TruncMod;
    var a := Wrap64(l[s].f);
    TruncModIs(a, c);
    if q: int :| Quotient(a, c, 0, q) {
      assert IsRemainder(0, a, c);
      RemainderUnique(a, c, 0, TruncMod(a, c));
    }
  }

  // ------------------------------------------------------------- wrap-around

  /** The only 64-bit integer that differs from x by a multiple of 2^64. */
  lemma WrapIs(x: int, w: int)
    ensures w == Wrap64(x) <==> -TWO_63 <= w < TWO_63 && exists q: int :: Quotient(x, TWO_64, w, q)
  {
    var q := (x + TWO_63) / TWO_64;
    assert Quotient(x, TWO_64, Wrap64(x), q);
    if -TWO_63 <= w < TWO_63 {
      if p: int :| Quotient(x, TWO_64, w, p) {
        if p != q { FarApart(TWO_64, q - p); }
      }
    }
  }

  // ---------------------------------------------------------------- rounding

  function Power2(e: nat): (p: nat)
    ensures p > 0
  {
    if e == 0 then 1 else 2 * Power2(e - 1)
  }

  /** An integer that is a double: at most 53 bits, shifted. */
  predicate Shifted(d: int, m: int, e: nat) { -TWO_53 <= m <= TWO_53 && d == m * Power2(e) }

  predicate EvenShifted(d: int, m: int, e: nat) { Shifted(d, 2 * m, e) }

  ghost predicate IsDouble(d: int) { exists m: int, e: nat :: Shifted(d, m, e) }

  function Abs(x: int): nat { if x >= 0 then x else -x }

  lemma {:induction false} UlpPower(a: nat, u: nat, e: nat) returns (k: nat)
    requires u == Power2(e)
    ensures Ulp(a, u) == Power2(k) && k >= e
    decreases a / u
  {
    if a < TWO_53 * u {
      k := e;
    } else {
      HalvingDecreases(a, u);
      k := UlpPower(a, 2 * u, e + 1);
    }
  }

  lemma {:induction false} PowersDivide(i: nat, j: nat) returns (q: nat)
    requires i <= j
    ensures Power2(j) == q * Power2(i) && q > 0 && (i < j ==> q >= 2)
    decreases j
  {
    if i == j {
      q := 1;
    } else {
      var p := PowersDivide(i, j - 1);
      q := 2 * p;
      assert 2 * (p * Power2(i)) == (2 * p) * Power2(i);
    }
  }

  /** The nearest multiple of u, of two equally near ones the even one. */
  lemma RoundNearest(a: nat, u: nat, k: int)
    requires u > 0
    ensures Abs(RoundEven(a, u) - a) <= Abs(k * u - a)
    ensures Abs(RoundEven(a, u) - a) == Abs(k * u - a) && k * u != RoundEven(a, u) ==>
              exists q: nat :: RoundEven(a, u) == MulOf(2 * q, u)
  {
    var q, m := a / u, a % u;
    Steps(q, k, u);
    RoundIs(a, u);
    hide RoundEven;
    if Abs(RoundEven(a, u) - a) == Abs(k * u - a) && k * u != RoundEven(a, u) {
      assert 2 * m == u;
      var even := if q % 2 == 0 then q else q + 1;
      assert RoundEven(a, u) == MulOf(2 * (even / 2), u);
    }
  }

  lemma RoundIs(a: nat, u: nat)
    requires u > 0
    ensures var q, m := a / u, a % u;
            a == q * u + m && m < u &&
            RoundEven(a, u) == if 2 * m < u || (2 * m == u && q % 2 == 0) then q * u else q * u + u
    ensures (a / u + 1) * u == a / u * u + u
  {
  }

  /** Another multiple is a whole step away. */
  lemma Steps(q: nat, k: int, u: nat)
    ensures k == q || k * u <= q * u - u || k * u == q * u + u || k * u >= q * u + 2 * u
  {
    if k < q { MulMonotone(k, q - 1, u); }
    if k > q + 1 { MulMonotone(q + 2, k, u); }
    assert (q - 1) * u == q * u - u && (q + 1) * u == q * u + u && (q + 2) * u == q * u + 2 * u;
  }

  function MulOf(q: int, u: int): int { q * u }

  /** For x above 2^53: every double is as far away as some multiple of the
      unit in the last place, or farther. */
  lemma DoubleOrFarther(x: nat, k: nat, d: int) returns (j: int)
    requires x > TWO_53 && Ulp(x, 1) == Power2(k) && IsDouble(d)
    ensures Abs(j * Power2(k) - x) <= Abs(d - x)
    ensures Abs(j * Power2(k) - x) == Abs(d - x) ==> j * Power2(k) == d
  {
    var m: int, e: nat :| Shifted(d, m, e);
    var u := Power2(k);
    if e >= k {
      var q := PowersDivide(k, e);
      j := m * q;
      assert m * (q * u) == (m * q) * u;
    } else {
      var q := PowersDivide(e, k);
      j := TWO_53 / 2;
      var v := Power2(e);
      Below(x, d, m, u, v, q, j);
    }
  }

  lemma Below(x: nat, d: int, m: int, u: nat, v: nat, q: nat, j: nat)
    requires 2 * j == TWO_53 && u == q * v && q >= 2 && m <= TWO_53 && d == m * v && 2 * x >= TWO_53 * u
    ensures d <= j * u <= x
  {
    MulMonotone(m, TWO_53, v);
    MulMonotone(2, q, v);
    assert j * (2 * v) == TWO_53 * v;
    MulMonotone2(j, 2 * v, u);
    assert 2 * (j * u) == TWO_53 * u;
  }

  lemma MulMonotone2(j: nat, a: int, b: int)
    requires a <= b
    ensures j * a <= j * b
  {
  }

  /** float64(x) is the nearest double, and of two equally near ones the one
      whose last bit is 0. */
  ghost predicate Nearest(r: int, x: int) {
    IsDouble(r) &&
    forall d: int :: IsDouble(d) ==>
      Abs(r - x) <= Abs(d - x) &&
      (Abs(r - x) == Abs(d - x) && d != r ==> exists m: int, e: nat :: EvenShifted(r, m, e))
  }

  lemma F64Nearest(x: int)
    ensures Nearest(F64(x), x)
  {
    if Safe(x) {
      assert Power2(0) == 1;
      assert Shifted(x, x, 0);
    } else if x > 0 {
      LargeNearest(x);
    } else {
      LargeNearest(-x);
      NearestNegates(F64(-x), -x);
      F64Negates(x);
    }
  }

  lemma NearestNegates(r: int, x: int)
    requires Nearest(r, x)
    ensures Nearest(-r, -x)
  {
    hide IsDouble, EvenShifted;
    DoubleNegates(r);
    var s := -r;
    forall d: int | IsDouble(d)
      ensures Abs(s + x) <= Abs(d + x)
      ensures Abs(s + x) == Abs(d + x) && d != s ==> exists m: int, e: nat :: EvenShifted(s, m, e)
    {
      DoubleNegates(d);
      var c := -d;
      assert IsDouble(c);
      assert Abs(s + x) == Abs(r - x) && Abs(d + x) == Abs(c - x);
      if Abs(s + x) == Abs(d + x) && d != s {
        var m: int, e: nat :| EvenShifted(r, m, e);
        var n := -m;
        EvenNegates(r, s, m, n, e);
      }
    }
  }

  lemma EvenNegates(r: int, s: int, m: int, n: int, e: nat)
    requires EvenShifted(r, m, e) && s == -r && n == -m
    ensures EvenShifted(s, n, e)
  {
    hide Power2;
    var p := Power2(e);
    Products(2 * m, p);
  }

  lemma DoubleNegates(d: int)
    requires IsDouble(d)
    ensures IsDouble(-d)
  {
    var m: int, e: nat :| Shifted(d, m, e);
    assert Shifted(-d, -m, e);
  }

  lemma LargeNearest(x: nat)
    requires x > TWO_53
    ensures Nearest(F64(x), x)
  {
    assert Power2(0) == 1;
    var k := UlpPower(x, 1, 0);
    var u, r := Power2(k), F64(x);
    assert r == RoundEven(x, Ulp(x, 1));
    var q := FewDigits(x, u, k);
    hide Ulp, RoundEven, F64, Power2, Abs;
    forall d: int | IsDouble(d)
      ensures Abs(r - x) <= Abs(d - x)
      ensures Abs(r - x) == Abs(d - x) && d != r ==> exists m: int, e: nat :: EvenShifted(r, m, e)
    {
      var j := DoubleOrFarther(x, k, d);
      RoundNearest(x, u, j);
      if Abs(r - x) == Abs(d - x) && d != r {
        var h: nat :| r == MulOf(2 * h, u);
        Cancel(q, 2 * h, u);
        assert EvenShifted(r, h, k);
      }
    }
  }

  lemma Cancel(p: int, q: int, u: nat)
    requires u > 0 && p * u == q * u
    ensures p == q
  {
    if p != q { FarApart(u, p - q); }
  }

  /** What is rounded has at most 53 bits. */
  lemma FewDigits(x: nat, u: nat, k: nat) returns (q: nat)
    requires Ulp(x, 1) == u == Power2(k) && u > 0
    ensures RoundEven(x, u) == q * u && Shifted(RoundEven(x, u), q, k)
  {
    hide RoundEven, Ulp, Power2;
    RoundNear(x, u);
    assert x < TWO_53 * u;
    if x / u >= TWO_53 { MulMonotone(TWO_53, x / u, u); assert false; }
    q := if RoundEven(x, u) == x / u * u then x / u else x / u + 1;
  }
}
