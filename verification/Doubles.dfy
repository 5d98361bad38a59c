/** Comparing integers through their doubles: where it is exact. */
module Doubles {
  import opened Options
  import opened Machine
  import opened CodeGen

  lemma {:induction false} UlpGrows(x: nat, y: nat, u: nat)
    requires u > 0 && x <= y
    ensures Ulp(x, u) == Ulp(y, u) || 2 * Ulp(x, u) <= Ulp(y, u)
    decreases x / u
  {
    if x >= TWO_53 * u {
      HalvingDecreases(x, u);
      UlpGrows(x, y, 2 * u);
    }
  }

  lemma MulMonotone(p: int, q: int, u: nat)
    requires p <= q
    ensures p * u <= q * u
  {
  }

  /** Rounding `a` gives one of the two multiples of `u` around it. */
  lemma RoundNear(a: nat, u: nat)
    requires u > 0
    ensures a / u * u <= a < (a / u + 1) * u
    ensures RoundEven(a, u) == a / u * u || RoundEven(a, u) == (a / u + 1) * u
    ensures a % u == 0 ==> RoundEven(a, u) == a
  {
    assert a == a / u * u + a % u;
  }

  lemma RoundAtLeast(a: nat, u: nat, q: nat)
    requires u > 0 && q * u <= a
    ensures q * u <= RoundEven(a, u)
  {
    RoundNear(a, u);
    hide RoundEven;
    var k := a / u;
    if q > k {
      MulMonotone(k + 1, q, u);
      assert false;
    }
    MulMonotone(q, k, u);
    MulMonotone(q, k + 1, u);
  }

  lemma RoundAtMost(a: nat, u: nat, q: nat)
    requires u > 0 && a <= q * u
    ensures RoundEven(a, u) <= q * u
  {
    RoundNear(a, u);
    hide RoundEven;
    var k := a / u;
    if q > k {
      MulMonotone(k + 1, q, u);
      MulMonotone(k, q, u);
    } else {
      MulMonotone(q, k, u);
      assert a == k * u;
      assert a == u * k + 0;
      Multiple(k, u);
    }
  }

  lemma Multiple(k: nat, u: nat)
    requires u > 0
    ensures (k * u) % u == 0 && (k * u) / u == k
  {
    var a := k * u;
    var q, r := a / u, a % u;
    assert a == q * u + r;
    if k > q {
      MulMonotone(q + 1, k, u);
      assert false;
    } else if k < q {
      MulMonotone(k + 1, q, u);
      assert false;
    }
  }

  lemma SameQuotient(x: nat, y: nat, u: nat)
    requires u > 0 && x <= y && x / u == y / u
    ensures RoundEven(x, u) <= RoundEven(y, u)
  {
    var q := x / u;
    var low, high := q * u, (q + 1) * u;
    assert high == low + u;
    assert x % u == x - low && y % u == y - low;
    assert RoundEven(x, u) == if 2 * (x % u) < u || (2 * (x % u) == u && q % 2 == 0) then low else high;
    assert RoundEven(y, u) == if 2 * (y % u) < u || (2 * (y % u) == u && q % 2 == 0) then low else high;
  }

  lemma RoundMonotone(x: nat, y: nat, u: nat)
    requires u > 0 && x <= y
    ensures RoundEven(x, u) <= RoundEven(y, u)
  {
    var i, j := x / u, y / u;
    if i == j {
      SameQuotient(x, y, u);
    } else {
      RoundNear(x, u);
      RoundNear(y, u);
      hide RoundEven;
      if i < j {
        MulMonotone(i + 1, j, u);
        MulMonotone(i, j, u);
        MulMonotone(j, j + 1, u);
      } else {
        MulMonotone(j + 1, i, u);
        assert false;
      }
    }
  }

  lemma PositiveMonotone(x: nat, y: nat)
    requires x <= y
    ensures F64(x) <= F64(y)
  {
    hide Ulp, RoundEven;
    if y > TWO_53 {
      var uy := Ulp(y, 1);
      if x <= TWO_53 {
        RoundAtLeast(y, uy, TWO_53 / 2);
        OneUlp();
        UlpGrows(TWO_53, y, 1);
      } else {
        var ux := Ulp(x, 1);
        UlpGrows(x, y, 1);
        if ux == uy {
          RoundMonotone(x, y, ux);
        } else {
          RoundAtMost(x, ux, TWO_53);
          RoundAtLeast(y, uy, TWO_53 / 2);
        }
      }
    }
  }

  lemma OneUlp()
    ensures Ulp(TWO_53, 1) == 2
  {
    assert Ulp(TWO_53, 1) == Ulp(TWO_53, 2);
  }

  /** Conversion to double never reverses an order. */
  lemma F64Monotone(x: int, y: int)
    requires x <= y
    ensures F64(x) <= F64(y)
  {
    if x >= 0 { PositiveMonotone(x, y); }
    else if y <= 0 { PositiveMonotone(-y, -x); F64Negates(x); F64Negates(y); }
    else { PositiveMonotone(0, y); PositiveMonotone(0, -x); F64Negates(x); }
  }

  lemma F64Negates(x: int)
    ensures F64(-x) == -F64(x)
  {
  }

  /** The fused compare-and-jump on locals holding a and b. */
  predicate FusedJumps(cmp: byte, op: byte, a: int, b: int) {
    CmpTaken(FusedOp(cmp, op), IntValue(a).f, IntValue(b).f)
  }

  /** LESS_NUM or GREATER_NUM followed by the conditional jump. */
  predicate UnfusedJumps(cmp: byte, op: byte, a: int, b: int) {
    (if cmp == LESS_NUM then a < b else a > b) == (op == JUMP_IF_TRUE_POP)
  }

  /** The fused jump decides like the instructions it replaces if and only if
      the two integers are not different numbers with the same double. */
  lemma FusedExactly(cmp: byte, op: byte, a: int, b: int)
    requires cmp == LESS_NUM || cmp == GREATER_NUM
    requires op == JUMP_IF_TRUE_POP || op == JUMP_IF_FALSE_POP
    ensures FusedJumps(cmp, op, a, b) == UnfusedJumps(cmp, op, a, b) <==>
            !(F64(a) == F64(b) && (if cmp == LESS_NUM then a < b else a > b))
  {
    if a <= b { F64Monotone(a, b); }
    if b <= a { F64Monotone(b, a); }
  }

  /** Within 2^53 of zero it always does; one step beyond, it may not. */
  lemma FusedOnSafe(cmp: byte, op: byte, a: int, b: int)
    requires cmp == LESS_NUM || cmp == GREATER_NUM
    requires op == JUMP_IF_TRUE_POP || op == JUMP_IF_FALSE_POP
    ensures Safe(a) && Safe(b) ==> FusedJumps(cmp, op, a, b) == UnfusedJumps(cmp, op, a, b)
    ensures FusedJumps(LESS_NUM, op, TWO_53, TWO_53 + 1) != UnfusedJumps(LESS_NUM, op, TWO_53, TWO_53 + 1)
  {
    FusedExactly(cmp, op, a, b);
    FusedExactly(LESS_NUM, op, TWO_53, TWO_53 + 1);
    assert Ulp(TWO_53 + 1, 1) == 2;
    assert (TWO_53 + 1) / 2 == TWO_53 / 2 && (TWO_53 / 2) % 2 == 0;
  }
}
