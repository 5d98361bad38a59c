/** What emitting one more instruction and patching a waiting jump do to
    laid-out code, and which jumps of a program still wait. */
module Emission {
  import opened Options
  import opened Machine
  import opened Assembly
  import opened Source
  import opened CodeGen
  import opened ExprCorrect
  import opened Layout
  import opened Peephole

  // ---------------------------------------------------------------- emitting

  lemma AppendBytes(p: Prog, ins: Instr)
    requires Settled(p) && !HasOperand(ins)
    ensures Settled(p + [ins]) && Assemble(p + [ins]) == Assemble(p) + Encode(ins)
    ensures Off(p + [ins], |p|) == |Assemble(p)|
  {
    hide Encode, Assemble;
    AssembleAppend(p, ins);
    SettledThen(p, [ins]);
    assert (p + [ins])[..|p|] == p[..|p|];
    OffOfPrefix(p, p + [ins], |p|);
  }

  /** Code may be followed by code whose jumps stay inside or wait. */
  lemma SettledThen(p: Prog, c: Prog)
    requires Settled(p)
    requires forall j :: 0 <= j < |c| && HasOperand(c[j]) && Operand(c[j]) >= 0 ==>
               0 <= |p| + Target(c, j) <= |p| + |c|
    ensures Settled(p + c)
  {
    var q := p + c;
    forall i | 0 <= i < |q| && HasOperand(q[i]) && Operand(q[i]) >= 0 ensures 0 <= Target(q, i) <= |q| {
      if i < |p| {
        assert q[i] == p[i] && 0 <= Target(p, i) <= |p|;
      } else {
        assert q[i] == c[i - |p|];
      }
    }
  }

  /** A LOOP back to instruction `start`. */
  lemma AppendLoop(p: Prog, start: nat)
    requires Settled(p) && start <= |p|
    ensures var q := p + [Jump(LOOP, |p| - start + 1)];
            Settled(q) && Off(q, |p|) == |Assemble(p)| && Off(p, start) <= |Assemble(p)| &&
            Assemble(q) == Assemble(p) + [LOOP, Hi(|Assemble(p)| + 3 - Off(p, start)), Lo(|Assemble(p)| + 3 - Off(p, start))]
  {
    hide Encode, Assemble, Hi, Lo;
    var ins := Jump(LOOP, |p| - start + 1);
    var q := p + [ins];
    AssembleAppend(p, ins);
    SettledThen(p, [ins]);
    assert q[..|p|] == p[..|p|];
    OffOfPrefix(p, q, |p|);
    assert q[..start] == p[..start];
    OffOfPrefix(p, q, start);
    OffMonotone(p, start, |p|);
    assert Off(q, |p| + 1) == Off(q, |p|) + 3;
    LoopBytes(Distance(q, |p|));
  }

  lemma LoopBytes(d: int)
    ensures Encode(Jump(LOOP, d)) == [LOOP, Hi(d), Lo(d)]
  {
  }

  // ---------------------------------------------------------------- patching

  /** PatchUint16: two bytes replaced. */
  function Overwrite(bs: seq<byte>, o: nat, hi: byte, lo: byte): (r: seq<byte>)
    requires o + 1 < |bs|
    ensures |r| == |bs|
  {
    bs[..o] + [hi, lo] + bs[o + 2..]
  }

  lemma {:induction false} JoinPatched(cs: seq<seq<byte>>, ds: seq<seq<byte>>, n: nat, at: nat, hi: byte, lo: byte)
    requires |cs| == |ds| && at < n <= |cs| && |cs[at]| >= 2
    requires ds == cs[at := Overwrite(cs[at], |cs[at]| - 2, hi, lo)]
    ensures var o := |Join(cs, at)| + |cs[at]| - 2;
            o + 2 <= |Join(cs, n)| && Join(ds, n) == Overwrite(Join(cs, n), o, hi, lo)
  {
    var o := |Join(cs, at)| + |cs[at]| - 2;
    if at < n - 1 {
      JoinPatched(cs, ds, n - 1, at, hi, lo);
    } else {
      JoinSame(cs, ds, at);
    }
  }

  lemma PatchedChunk(ins: Instr, d: int)
    requires HasOperand(ins)
    ensures var z := Encode(WithOperand(ins, 0));
            |z| >= 3 && Encode(WithOperand(ins, d)) == Overwrite(z, |z| - 2, Hi(d), Lo(d))
  {
  }

  /** The program in which the waiting jump at `at` leads to the end. */
  function Patched(p: Prog, at: nat): (q: Prog)
    requires at < |p|
    ensures |q| == |p|
  {
    p[at := WithOperand(p[at], |p| - at - 1)]
  }

  lemma {:induction false} OffPatched(p: Prog, at: nat, i: nat)
    requires at < |p| && i <= |p|
    ensures Off(Patched(p, at), i) == Off(p, i)
  {
    if i > 0 { OffPatched(p, at, i - 1); }
  }

  lemma SettledPatched(p: Prog, at: nat)
    requires Settled(p) && at < |p| && HasOperand(p[at]) && !IsBackward(p[at])
    ensures Settled(Patched(p, at))
  {
    var q := Patched(p, at);
    forall i | 0 <= i < |q| && HasOperand(q[i]) && Operand(q[i]) >= 0 ensures 0 <= Target(q, i) <= |q| {
      if i != at { assert q[i] == p[i]; }
    }
  }

  lemma ResolvePatched(p: Prog, at: nat, i: nat)
    requires Settled(p) && at < |p| && HasOperand(p[at]) && !IsBackward(p[at]) && i < |p| && i != at
    ensures Resolve(Patched(p, at), i) == Resolve(p, i)
  {
    hide Size;
    var q := Patched(p, at);
    assert q[i] == p[i];
    if HasOperand(p[i]) && Operand(p[i]) >= 0 {
      OffPatched(p, at, Target(p, i));
      OffPatched(p, at, i + 1);
    }
  }

  lemma ResolveAtPatch(p: Prog, at: nat)
    requires Settled(p) && at < |p| && HasOperand(p[at]) && !IsBackward(p[at]) && Operand(p[at]) < 0
    ensures Resolve(p, at) == WithOperand(p[at], 0)
    ensures Resolve(Patched(p, at), at) == WithOperand(p[at], Off(p, |p|) - Off(p, at + 1))
  {
    hide Size, Off;
    OffPatched(p, at, |p|);
    OffPatched(p, at, at + 1);
    assert Target(Patched(p, at), at) == |p|;
  }

  lemma OffNext(p: Prog, i: nat)
    requires i < |p|
    ensures Off(p, i + 1) == Off(p, i) + Size(p[i])
  {
  }

  lemma PatchedChunks(p: Prog, at: nat, d: int)
    requires Settled(p) && at < |p| && HasOperand(p[at]) && !IsBackward(p[at]) && Operand(p[at]) < 0
    requires d == Off(p, |p|) - Off(p, at + 1)
    ensures |Chunks(p)[at]| >= 3
    ensures Chunks(Patched(p, at)) == Chunks(p)[at := Overwrite(Chunks(p)[at], |Chunks(p)[at]| - 2, Hi(d), Lo(d))]
  {
    hide Encode, Resolve, Hi, Lo, Settled, WithOperand, Patched, Off, Target, Distance, Overwrite;
    ResolveAtPatch(p, at);
    PatchedChunk(p[at], d);
    var cs, ds := Chunks(p), Chunks(Patched(p, at));
    forall i | 0 <= i < |p| && i != at ensures ds[i] == cs[i] { ResolvePatched(p, at, i); }
  }

  /** Patching overwrites the jump's last two bytes with the distance from
      there to the end of the code. */
  lemma PatchBytes(p: Prog, at: nat)
    requires Settled(p) && at < |p| && HasOperand(p[at]) && !IsBackward(p[at]) && Operand(p[at]) < 0
    ensures Settled(Patched(p, at))
    ensures var o := Off(p, at + 1) - 2; var d := |Assemble(p)| - o - 2;
            0 <= o && o + 2 <= |Assemble(p)| &&
            Assemble(Patched(p, at)) == Overwrite(Assemble(p), o, Hi(d), Lo(d))
  {
    hide Encode, Resolve, Hi, Lo, Settled, WithOperand, Patched, Off, Target, Distance, Overwrite;
    SettledPatched(p, at);
    var d := Off(p, |p|) - Off(p, at + 1);
    PatchedChunks(p, at, d);
    JoinPatched(Chunks(p), Chunks(Patched(p, at)), |p|, at, Hi(d), Lo(d));
    JoinLength(p, Chunks(p), at);
    OffNext(p, at);
  }

  // ------------------------------------------------------ jumps that wait

  /** The jumps of a fragment that wait as `hole`, in order. */
  ghost function Waits(c: Prog, hole: int): (r: seq<nat>)
    ensures forall n :: 0 <= n < |r| ==> r[n] < |c| && c[r[n]] == Jump(JUMP, hole)
    ensures forall m, n :: 0 <= m < n < |r| ==> r[m] < r[n]
  {
    if |c| == 0 then []
    else
      var r := Waits(c[..|c| - 1], hole);
      if c[|c| - 1] == Jump(JUMP, hole) then r + [|c| - 1] else r
  }

  lemma {:induction false} WaitsAll(c: Prog, hole: int, i: nat)
    requires i < |c| && c[i] == Jump(JUMP, hole)
    ensures i in Waits(c, hole)
  {
    if i < |c| - 1 { WaitsAll(c[..|c| - 1], hole, i); }
  }

  /** Where their operands are, for a fragment at offset `base`. */
  ghost function HoleOffsets(c: Prog, base: nat, hole: int): seq<int>
  {
    if |c| == 0 then []
    else
      var r := HoleOffsets(c[..|c| - 1], base, hole);
      if c[|c| - 1] == Jump(JUMP, hole) then r + [base + Off(c, |c|) - 2] else r
  }

  lemma {:induction false} HolesCount(c: Prog, base: nat, hole: int)
    ensures |HoleOffsets(c, base, hole)| == |Waits(c, hole)|
  {
    if |c| > 0 { HolesCount(c[..|c| - 1], base, hole); }
  }

  lemma {:induction false} HoleOffsetAt(c: Prog, base: nat, hole: int, n: nat)
    requires n < |Waits(c, hole)|
    ensures |HoleOffsets(c, base, hole)| == |Waits(c, hole)|
    ensures HoleOffsets(c, base, hole)[n] == base + Off(c, Waits(c, hole)[n] + 1) - 2
  {
    var d := c[..|c| - 1];
    HolesCount(c, base, hole);
    HolesCount(d, base, hole);
    if n < |Waits(d, hole)| {
      HoleOffsetAt(d, base, hole, n);
      var i := Waits(d, hole)[n] + 1;
      assert c[..i] == d[..i];
      OffOfPrefix(c, d, i);
    }
  }

  lemma {:induction false} OffJoined(a: Prog, b: Prog, i: nat)
    requires i <= |b|
    ensures Off(a + b, |a| + i) == Off(a, |a|) + Off(b, i)
  {
    if i == 0 {
      assert (a + b)[..|a|] == a[..|a|];
      OffOfPrefix(a + b, a, |a|);
    } else {
      OffJoined(a, b, i - 1);
    }
  }

  /** The last instruction adds its hole, if it is one. */
  lemma {:induction false} HolesLast(c: Prog, d: Prog, last: Instr, base: nat, hole: int)
    requires c == d + [last]
    ensures HoleOffsets(c, base, hole) ==
            HoleOffsets(d, base, hole) + if last == Jump(JUMP, hole) then [base + Off(c, |c|) - 2] else []
  {
    hide Off;
    assert c[..|c| - 1] == d;
  }

  /** Consecutive fragments wait one after the other. */
  lemma {:induction false} HolesJoined(a: Prog, b: Prog, base: nat, hole: int)
    ensures HoleOffsets(a + b, base, hole) == HoleOffsets(a, base, hole) + HoleOffsets(b, base + Off(a, |a|), hole)
    decreases |b|
  {
    if |b| == 0 {
      assert a + b == a;
    } else {
      hide HoleOffsets, Off;
      var d, last := b[..|b| - 1], b[|b| - 1];
      assert b == d + [last] && a + b == (a + d) + [last];
      HolesJoined(a, d, base, hole);
      HolesLast(a + b, a + d, last, base, hole);
      HolesLast(b, d, last, base + Off(a, |a|), hole);
      OffJoined(a, b, |b|);
    }
  }

  /** Only sizes and waiting jumps matter. */
  lemma {:induction false} HolesSame(c: Prog, d: Prog, base: nat, hole: int)
    requires |c| == |d|
    requires forall j :: 0 <= j < |c| ==> Size(c[j]) == Size(d[j]) && (c[j] == Jump(JUMP, hole) <==> d[j] == Jump(JUMP, hole))
    ensures HoleOffsets(c, base, hole) == HoleOffsets(d, base, hole) && Off(c, |c|) == Off(d, |d|)
  {
    if |c| > 0 {
      hide HoleOffsets;
      var c', d' := c[..|c| - 1], d[..|d| - 1];
      assert c == c' + [c[|c| - 1]] && d == d' + [d[|d| - 1]];
      HolesSame(c', d', base, hole);
      HolesLast(c, c', c[|c| - 1], base, hole);
      HolesLast(d, d', d[|d| - 1], base, hole);
      OffOfPrefix(c, c', |c| - 1);
      OffOfPrefix(d, d', |d| - 1);
    }
  }

  lemma {:induction false} HolesNone(c: Prog, base: nat, hole: int)
    requires forall i :: 0 <= i < |c| ==> c[i] != Jump(JUMP, hole)
    ensures HoleOffsets(c, base, hole) == []
  {
    if |c| > 0 { HolesNone(c[..|c| - 1], base, hole); }
  }

  /** The jumps `ats` of a fragment led to its end. */
  ghost function PartFilled(c: Prog, ats: seq<nat>): (r: Prog)
    ensures |r| == |c|
  {
    seq(|c|, j requires 0 <= j < |c| => if j in ats then Jump(JUMP, |c| - j - 1) else c[j])
  }

  lemma PatchNext(p: Prog, c: Prog, hole: int, n: nat)
    requires hole < 0 && n < |Waits(c, hole)|
    ensures var ats := Waits(c, hole);
            var q := p + PartFilled(c, ats[..n]);
            q[|p| + ats[n]] == Jump(JUMP, hole) &&
            Patched(q, |p| + ats[n]) == p + PartFilled(c, ats[..n + 1]) &&
            n < |HoleOffsets(c, Off(p, |p|), hole)| &&
            Off(q, |p| + ats[n] + 1) - 2 == HoleOffsets(c, Off(p, |p|), hole)[n]
  {
    hide Waits, HoleOffsets, Off, Size, PartFilled, Patched;
    PatchNextCode(p, c, Waits(c, hole), n, hole);
    PatchNextOffset(p, c, hole, n);
  }

  lemma PatchNextCode(p: Prog, c: Prog, ats: seq<nat>, n: nat, hole: int)
    requires n < |ats| && ats[n] < |c| && c[ats[n]] == Jump(JUMP, hole)
    requires forall m :: 0 <= m < n ==> ats[m] < ats[n]
    ensures var q := p + PartFilled(c, ats[..n]);
            q[|p| + ats[n]] == Jump(JUMP, hole) &&
            Patched(q, |p| + ats[n]) == p + PartFilled(c, ats[..n + 1])
  {
    var d := PartFilled(c, ats[..n]);
    assert ats[n] !in ats[..n];
    assert ats[..n + 1] == ats[..n] + [ats[n]];
    assert (p + d)[|p| + ats[n]] == d[ats[n]];
  }

  lemma PatchNextOffset(p: Prog, c: Prog, hole: int, n: nat)
    requires hole < 0 && n < |Waits(c, hole)|
    ensures n < |HoleOffsets(c, Off(p, |p|), hole)|
    ensures Off(p + PartFilled(c, Waits(c, hole)[..n]), |p| + Waits(c, hole)[n] + 1) - 2 ==
            HoleOffsets(c, Off(p, |p|), hole)[n]
  {
    hide Waits, HoleOffsets, Off, Size, PartFilled;
    var d := PartFilled(c, Waits(c, hole)[..n]);
    var i := Waits(c, hole)[n] + 1;
    OffJoined(p, d, i);
    forall j | 0 <= j < |c| ensures Size(c[j]) == Size(d[j]) { PartSize(c, hole, n, j); }
    OffSizes(c, d, i);
    HoleOffsetAt(c, Off(p, |p|), hole, n);
    assert |p| + i == |p| + Waits(c, hole)[n] + 1;
  }

  lemma PartSize(c: Prog, hole: int, n: nat, j: nat)
    requires n <= |Waits(c, hole)| && j < |c|
    ensures Size(PartFilled(c, Waits(c, hole)[..n])[j]) == Size(c[j])
  {
  }

  lemma {:induction false} OffSizes(c: Prog, d: Prog, i: nat)
    requires |c| == |d| && i <= |c| && forall j :: 0 <= j < |c| ==> Size(c[j]) == Size(d[j])
    ensures Off(c, i) == Off(d, i)
  {
    if i > 0 { OffSizes(c, d, i - 1); }
  }

  lemma AllFilled(c: Prog, hole: int)
    ensures PartFilled(c, Waits(c, hole)) == Fill(c, hole, |c|)
    ensures PartFilled(c, []) == c
  {
    forall j | 0 <= j < |c| ensures PartFilled(c, Waits(c, hole))[j] == Fill(c, hole, |c|)[j] {
      if c[j] == Jump(JUMP, hole) { WaitsAll(c, hole, j); }
    }
  }
}
