/** The stack machine that gives bytecode its meaning: values, instruction
    formats, and the step function over raw code bytes.

    Only the instructions that integer/boolean code over local slots uses are
    given a meaning; global variables are never defined here, so touching one
    raises, and any other opcode faults. */
module Machine {
  import opened Options

  type byte = b: int | 0 <= b < 256

  // ---------------------------------------------------------------- numbers

  const TWO_53: int := 0x20_0000_0000_0000
  const TWO_63: int := 0x8000_0000_0000_0000
  const TWO_64: int := 0x1_0000_0000_0000_0000

  /** Two's-complement wrap-around of a 64-bit integer. */
  function Wrap64(x: int): int {
    (x + TWO_63) % TWO_64 - TWO_63
  }

  /** The distance between neighbouring doubles around magnitude `a`: the first
      power of two `u'`, starting from `u`, with a < 2^53 * u'. */
  function Ulp(a: nat, u: nat): (r: nat)
    requires u > 0
    ensures r >= u && a < TWO_53 * r
    ensures r == u || 2 * a >= TWO_53 * r
    decreases a / u
  {
    if a < TWO_53 * u then u
    else
      HalvingDecreases(a, u);
      Ulp(a, 2 * u)
  }

  lemma HalvingDecreases(a: nat, u: nat)
    requires u > 0 && a >= TWO_53 * u
    ensures a / (2 * u) < a / u
  {
    var q' := a / (2 * u);
    assert 2 * u * q' <= a;
    assert q' + 1 <= 2 * q' || q' == 0;
    assert u * (q' + 1) <= a;
  }

  /** `a` rounded to the nearest multiple of `u`, ties to the even multiple. */
  function RoundEven(a: nat, u: nat): (r: nat)
    requires u > 0
  {
    var q, m := a / u, a % u;
    if 2 * m < u || (2 * m == u && q % 2 == 0) then q * u else (q + 1) * u
  }

  /** float64(x): the double nearest to the integer x (itself an integer). */
  function F64(x: int): (r: int)
    ensures -TWO_53 <= x <= TWO_53 ==> r == x
  {
    if -TWO_53 <= x <= TWO_53 then x
    else if x > 0 then RoundEven(x, Ulp(x, 1))
    else 0 - RoundEven(-x, Ulp(-x, 1))
  }

  predicate Safe(x: int) { -TWO_53 <= x <= TWO_53 }

  /** Go's `%`: the remainder takes the sign of the dividend. */
  function TruncMod(a: int, b: int): int
    requires b != 0
  {
    var m := if b > 0 then b else -b;
    if a >= 0 then a % m else -((-a) % m)
  }

  // ----------------------------------------------------------------- values

  /** value.Value restricted to nil, booleans and integer-kind numbers. A number
      carries both its Int field and its Num field (a double holding an
      integer). */
  datatype Value = Nil | Bool(b: bool) | Number(i: int, f: int)

  function IntValue(x: int): Value { Number(x, F64(x)) }

  predicate Truthy(v: Value) {
    match v
    case Nil => false
    case Bool(b) => b
    case Number(_, _) => true
  }

  predicate ValuesEqual(x: Value, y: Value) {
    if x.Number? && y.Number? then x.i == y.i else x == y
  }

  // ---------------------------------------------------------------- opcodes

  const CONSTANT: byte := 0
  const NIL: byte := 1
  const TRUE: byte := 2
  const FALSE: byte := 3
  const POP: byte := 4
  const GET_LOCAL: byte := 7
  const SET_LOCAL: byte := 8
  const GET_GLOBAL: byte := 12
  const SET_GLOBAL: byte := 13
  const EQUAL: byte := 17
  const GREATER: byte := 18
  const LESS: byte := 19
  const ADD: byte := 20
  const SUB: byte := 21
  const MUL: byte := 22
  const MOD: byte := 25
  const NOT: byte := 26
  const NEGATE: byte := 27
  const JUMP: byte := 31
  const JUMP_IF_FALSE: byte := 32
  const JUMP_IF_TRUE: byte := 33
  const LOOP: byte := 34
  const ADD_NUM: byte := 35
  const SUB_NUM: byte := 36
  const MUL_NUM: byte := 37
  const MOD_NUM: byte := 40
  const LESS_NUM: byte := 41
  const GREATER_NUM: byte := 42
  const ADD_CONST_LOCAL_INT: byte := 50
  const RANGE_INIT_FAST: byte := 59
  const RANGE_NEXT_FAST: byte := 60
  const JUMP_IF_LOCAL_LE_CONST_FALSE: byte := 61
  const JUMP_IF_LOCAL_DIVISIBLE_CONST_FALSE: byte := 62
  const RETURN: byte := 94
  const ADD_LOCAL_LOCAL: byte := 98
  const GET_LOCAL_ARRAY_FIELD: byte := 99
  const ADD_TO_LOCAL: byte := 101
  const SUB_TO_LOCAL: byte := 102
  const MUL_TO_LOCAL: byte := 103
  const JUMP_IF_FALSE_POP: byte := 104
  const JUMP_IF_TRUE_POP: byte := 105
  const INC_LOCAL: byte := 106
  const DEC_LOCAL: byte := 107
  const JUMP_IF_LOCAL_GT_LOCAL_TRUE: byte := 108
  const JUMP_IF_LOCAL_LT_LOCAL_FALSE: byte := 109
  const JUMP_IF_LOCAL_GT_LOCAL_FALSE: byte := 110
  const JUMP_IF_LOCAL_LT_LOCAL_TRUE: byte := 111
  const JUMP_IF_ARRAY_FIELD_GTE_LOCAL_TRUE: byte := 112
  const JUMP_IF_ARRAY_FIELD_LTE_LOCAL_TRUE: byte := 113

  // ----------------------------------------------------------- instructions

  /** One instruction, grouped by operand layout. The jump operand `t` counts
      bytes in decoded code and instructions in the code generator's output;
      it is relative to the end of the instruction, backwards for LOOP. */
  datatype Instr =
    | Plain(op: byte)
    | Slot(op: byte, s: nat)
    | Const(k: nat)
    | Global(op: byte, k: nat)
    | AddConst(s: nat, k: nat)
    | AddLocal(dst: nat, src: nat)
    | Jump(op: byte, t: int)
    | CmpJump(op: byte, a: nat, b: nat, t: int)
    | ConstJump(op: byte, s: nat, k: nat, t: int)
    | RangeInit(cur: nat, end: nat, step: nat, argc: nat)
    | RangeNext(cur: nat, end: nat, step: nat, val: nat, t: int)

  predicate IsPlainOp(op: byte) {
    op == NIL || op == TRUE || op == FALSE || op == POP || op == RETURN ||
    (EQUAL <= op <= MUL) || op == MOD || op == NOT || op == NEGATE ||
    (ADD_NUM <= op <= MUL_NUM) || (MOD_NUM <= op <= GREATER_NUM)
  }

  predicate IsSlotOp(op: byte) {
    op == GET_LOCAL || op == SET_LOCAL || (ADD_TO_LOCAL <= op <= MUL_TO_LOCAL) ||
    op == INC_LOCAL || op == DEC_LOCAL
  }

  predicate IsJumpOp(op: byte) {
    (JUMP <= op <= LOOP) || op == JUMP_IF_FALSE_POP || op == JUMP_IF_TRUE_POP
  }

  predicate IsCmpJumpOp(op: byte) {
    JUMP_IF_LOCAL_GT_LOCAL_TRUE <= op <= JUMP_IF_LOCAL_LT_LOCAL_TRUE
  }

  predicate IsConstJumpOp(op: byte) {
    op == JUMP_IF_LOCAL_LE_CONST_FALSE || op == JUMP_IF_LOCAL_DIVISIBLE_CONST_FALSE
  }

  /** The opcode belongs to the instruction's layout. */
  predicate WellFormed(ins: Instr) {
    match ins
    case Plain(op) => IsPlainOp(op)
    case Slot(op, _) => IsSlotOp(op)
    case Jump(op, _) => IsJumpOp(op)
    case CmpJump(op, _, _, _) => IsCmpJumpOp(op)
    case Global(op, _) => op == GET_GLOBAL || op == SET_GLOBAL
    case ConstJump(op, _, _, _) => IsConstJumpOp(op)
    case _ => true
  }

  function Opcode(ins: Instr): byte {
    match ins
    case Plain(op) => op
    case Slot(op, _) => op
    case Const(_) => CONSTANT
    case Global(op, _) => op
    case AddConst(_, _) => ADD_CONST_LOCAL_INT
    case AddLocal(_, _) => ADD_LOCAL_LOCAL
    case Jump(op, _) => op
    case CmpJump(op, _, _, _) => op
    case ConstJump(op, _, _, _) => op
    case RangeInit(_, _, _, _) => RANGE_INIT_FAST
    case RangeNext(_, _, _, _, _) => RANGE_NEXT_FAST
  }

  /** Instruction lengths, as the disassembler steps over them. */
  function Size(ins: Instr): (n: nat)
    ensures 1 <= n <= 7
  {
    match ins
    case Plain(_) => 1
    case Slot(_, _) => 2
    case Const(_) => 3
    case Global(_, _) => 3
    case AddConst(_, _) => 4
    case AddLocal(_, _) => 3
    case Jump(_, _) => 3
    case CmpJump(_, _, _, _) => 5
    case ConstJump(_, _, _, _) => 6
    case RangeInit(_, _, _, _) => 5
    case RangeNext(_, _, _, _, _) => 7
  }

  /** The two bytes of a big-endian 16-bit operand. */
  function Hi(v: int): byte { v / 256 % 256 }
  function Lo(v: int): byte { v % 256 }

  /** byte(v): what a one-byte operand keeps of v. */
  function Low8(v: int): byte { v % 256 }

  lemma ByteFits(v: int)
    requires 0 <= v < 256
    ensures Low8(v) == v
  {
  }

  lemma Uint16Fits(v: int)
    requires 0 <= v < 65536
    ensures (Hi(v) as int) * 256 + Lo(v) == v
  {
  }

  /** The bytes of one instruction; operands are truncated to their width. */
  function Encode(ins: Instr): (bs: seq<byte>)
    ensures |bs| == Size(ins) && bs[0] == Opcode(ins)
  {
    match ins
    case Plain(op) => [op]
    case Slot(op, s) => [op, Low8(s)]
    case Const(k) => [CONSTANT, Hi(k), Lo(k)]
    case Global(op, k) => [op, Hi(k), Lo(k)]
    case AddConst(s, k) => [ADD_CONST_LOCAL_INT, Low8(s), Hi(k), Lo(k)]
    case AddLocal(d, s) => [ADD_LOCAL_LOCAL, Low8(d), Low8(s)]
    case Jump(op, t) => [op, Hi(t), Lo(t)]
    case CmpJump(op, a, b, t) => [op, Low8(a), Low8(b), Hi(t), Lo(t)]
    case ConstJump(op, s, k, t) => [op, Low8(s), Hi(k), Lo(k), Hi(t), Lo(t)]
    case RangeInit(c, e, st, n) => [RANGE_INIT_FAST, Low8(c), Low8(e), Low8(st), Low8(n)]
    case RangeNext(c, e, st, v, t) =>
      [RANGE_NEXT_FAST, Low8(c), Low8(e), Low8(st), Low8(v), Hi(t), Lo(t)]
  }

  function ReadUint16(code: seq<byte>, at: nat): nat
    requires at + 1 < |code|
  {
    (code[at] as int) * 256 + code[at + 1]
  }

  /** The instruction at byte `pc`, or None for an unknown or truncated one. */
  function Decode(code: seq<byte>, pc: int): Option<Instr> {
    if !(0 <= pc < |code|) then None
    else
      var op := code[pc];
      if IsPlainOp(op) then Some(Plain(op))
      else if IsSlotOp(op) then
        if pc + 1 < |code| then Some(Slot(op, code[pc + 1])) else None
      else if op == CONSTANT then
        if pc + 2 < |code| then Some(Const(ReadUint16(code, pc + 1))) else None
      else if op == GET_GLOBAL || op == SET_GLOBAL then
        if pc + 2 < |code| then Some(Global(op, ReadUint16(code, pc + 1))) else None
      else if op == ADD_CONST_LOCAL_INT then
        if pc + 3 < |code| then Some(AddConst(code[pc + 1], ReadUint16(code, pc + 2))) else None
      else if op == ADD_LOCAL_LOCAL then
        if pc + 2 < |code| then Some(AddLocal(code[pc + 1], code[pc + 2])) else None
      else if IsJumpOp(op) then
        if pc + 2 < |code| then Some(Jump(op, ReadUint16(code, pc + 1))) else None
      else if IsCmpJumpOp(op) then
        if pc + 4 < |code| then
          Some(CmpJump(op, code[pc + 1], code[pc + 2], ReadUint16(code, pc + 3)))
        else None
      else if IsConstJumpOp(op) then
        if pc + 5 < |code| then
          Some(ConstJump(op, code[pc + 1], ReadUint16(code, pc + 2), ReadUint16(code, pc + 4)))
        else None
      else if op == RANGE_INIT_FAST then
        if pc + 4 < |code| then
          Some(RangeInit(code[pc + 1], code[pc + 2], code[pc + 3], code[pc + 4]))
        else None
      else if op == RANGE_NEXT_FAST then
        if pc + 6 < |code| then
          Some(RangeNext(code[pc + 1], code[pc + 2], code[pc + 3], code[pc + 4], ReadUint16(code, pc + 5)))
        else None
      else None
  }

  // ------------------------------------------------------------- execution

  /** What one instruction does to the locals and the operand stack: go on,
      take its jump, leave the frame, or raise. */
  datatype Effect =
    | Next(l: seq<Value>, stk: seq<Value>)
    | Branch(l: seq<Value>, stk: seq<Value>)
    | Leave(v: Value)
    | Raise

  function Arith(op: byte, x: int, y: int): Option<int> {
    if op == ADD || op == ADD_NUM then Some(Wrap64(x + y))
    else if op == SUB || op == SUB_NUM then Some(Wrap64(x - y))
    else if op == MUL || op == MUL_NUM then Some(Wrap64(x * y))
    else if (op == MOD || op == MOD_NUM) && y != 0 then Some(TruncMod(x, y))
    else None
  }

  /** The binary operators that pop two operands and push one result. */
  function Binary(op: byte, x: Value, y: Value): Option<Value> {
    if op == EQUAL then Some(Bool(ValuesEqual(x, y)))
    else if !x.Number? || !y.Number? then None
    else if op == LESS then Some(Bool(F64(Wrap64(x.f)) < F64(Wrap64(y.f))))
    else if op == GREATER then Some(Bool(F64(Wrap64(x.f)) > F64(Wrap64(y.f))))
    else if op == LESS_NUM then Some(Bool(x.i < y.i))
    else if op == GREATER_NUM then Some(Bool(x.i > y.i))
    else
      match Arith(op, x.i, y.i)
      case Some(z) => Some(IntValue(z))
      case None => None
  }

  function ExecPlain(op: byte, l: seq<Value>, stk: seq<Value>): Effect {
    if op == NIL then Next(l, stk + [Nil])
    else if op == TRUE then Next(l, stk + [Bool(true)])
    else if op == FALSE then Next(l, stk + [Bool(false)])
    else if |stk| == 0 then Raise
    else
      var n := |stk|;
      var top := stk[n - 1];
      if op == POP then Next(l, stk[..n - 1])
      else if op == RETURN then Leave(top)
      else if op == NOT then Next(l, stk[..n - 1] + [Bool(!Truthy(top))])
      else if op == NEGATE then
        if top.Number? then Next(l, stk[..n - 1] + [IntValue(Wrap64(-Wrap64(top.f)))]) else Raise
      else if n == 1 then Raise
      else
        match Binary(op, stk[n - 2], top)
        case Some(v) => Next(l, stk[..n - 2] + [v])
        case None => Raise
  }

  function ExecSlot(op: byte, s: nat, l: seq<Value>, stk: seq<Value>): Effect {
    if s >= |l| then Raise
    else if op == GET_LOCAL then Next(l, stk + [l[s]])
    else if op == INC_LOCAL || op == DEC_LOCAL then
      var d := if op == INC_LOCAL then 1 else -1;
      if l[s].Number? then
        Next(l[s := Number(Wrap64(l[s].i + d), F64(l[s].f + d))], stk)
      else Raise
    else if |stk| == 0 then Raise
    else
      var n := |stk|;
      var top := stk[n - 1];
      if op == SET_LOCAL then Next(l[s := top], stk[..n - 1])
      else if !l[s].Number? || !top.Number? then Raise
      else if op == ADD_TO_LOCAL then Next(l[s := IntValue(Wrap64(l[s].i + top.i))], stk[..n - 1])
      else if op == SUB_TO_LOCAL then Next(l[s := IntValue(Wrap64(l[s].i - top.i))], stk[..n - 1])
      else if op == MUL_TO_LOCAL then Next(l[s := IntValue(Wrap64(l[s].i * top.i))], stk[..n - 1])
      else Raise
  }

  function ExecJump(op: byte, l: seq<Value>, stk: seq<Value>): Effect {
    if op == JUMP || op == LOOP then Branch(l, stk)
    else if |stk| == 0 then Raise
    else
      var n := |stk|;
      var yes := Truthy(stk[n - 1]);
      if op == JUMP_IF_FALSE then if yes then Next(l, stk) else Branch(l, stk)
      else if op == JUMP_IF_TRUE then if yes then Branch(l, stk) else Next(l, stk)
      else if op == JUMP_IF_FALSE_POP then
        if yes then Next(l, stk[..n - 1]) else Branch(l, stk[..n - 1])
      else if op == JUMP_IF_TRUE_POP then
        if yes then Branch(l, stk[..n - 1]) else Next(l, stk[..n - 1])
      else Raise
  }

  /** The fused comparisons read the Num field of both locals. */
  predicate CmpTaken(op: byte, x: int, y: int) {
    if op == JUMP_IF_LOCAL_GT_LOCAL_TRUE then x > y
    else if op == JUMP_IF_LOCAL_LT_LOCAL_FALSE then x >= y
    else if op == JUMP_IF_LOCAL_GT_LOCAL_FALSE then x <= y
    else x < y
  }

  function ExecCmpJump(op: byte, a: nat, b: nat, l: seq<Value>, stk: seq<Value>): Effect {
    if a < |l| && b < |l| && l[a].Number? && l[b].Number? then
      if CmpTaken(op, l[a].f, l[b].f) then Branch(l, stk) else Next(l, stk)
    else Raise
  }

  function ExecConstJump(op: byte, s: nat, c: int, l: seq<Value>, stk: seq<Value>): Effect {
    if s >= |l| then Raise
    else if op == JUMP_IF_LOCAL_LE_CONST_FALSE then
      if !l[s].Number? || l[s].f > F64(c) then Branch(l, stk) else Next(l, stk)
    else if c == 0 then Raise
    else if !l[s].Number? || TruncMod(Wrap64(l[s].f), c) != 0 then Branch(l, stk)
    else Next(l, stk)
  }

  /** RANGE_INIT_FAST: pops `argc` numbers and seeds current, end and step so
      that the first RANGE_NEXT_FAST yields the start. */
  function ExecRangeInit(ins: Instr, l: seq<Value>, stk: seq<Value>): Effect
    requires ins.RangeInit?
  {
    var n := |stk|;
    if ins.cur >= |l| || ins.end >= |l| || ins.step >= |l| then Raise
    else if !(1 <= ins.argc <= 3) || n < ins.argc then Raise
    else if exists j | n - ins.argc <= j < n :: !stk[j].Number? then Raise
    else
      var rest := stk[..n - ins.argc];
      if ins.argc == 1 then
        Next(l[ins.cur := IntValue(-1)][ins.end := stk[n - 1]][ins.step := IntValue(1)], rest)
      else if ins.argc == 2 then
        var d := if stk[n - 2].i > stk[n - 1].i then -1 else 1;
        Next(l[ins.cur := IntValue(Wrap64(stk[n - 2].i - d))][ins.end := stk[n - 1]][ins.step := IntValue(d)], rest)
      else
        Next(l[ins.cur := IntValue(Wrap64(stk[n - 3].i - stk[n - 1].i))][ins.end := stk[n - 2]][ins.step := stk[n - 1]], rest)
  }

  function ExecRangeNext(ins: Instr, l: seq<Value>, stk: seq<Value>): Effect
    requires ins.RangeNext?
  {
    if ins.cur >= |l| || ins.end >= |l| || ins.step >= |l| || ins.val >= |l| then Raise
    else if !l[ins.cur].Number? || !l[ins.end].Number? || !l[ins.step].Number? then Raise
    else
      var d, e := l[ins.step].i, l[ins.end].i;
      var next := Wrap64(l[ins.cur].i + d);
      if (d > 0 && next >= e) || (d < 0 && next <= e) then Branch(l, stk)
      else Next(l[ins.cur := IntValue(next)][ins.val := IntValue(next)], stk)
  }

  /** The effect of one decoded instruction. `ks` is the resolved constant
      pool. */
  function Exec(ins: Instr, ks: seq<Value>, l: seq<Value>, stk: seq<Value>): Effect {
    match ins
    case Plain(op) => ExecPlain(op, l, stk)
    case Slot(op, s) => ExecSlot(op, s, l, stk)
    case Const(k) => if k < |ks| then Next(l, stk + [ks[k]]) else Raise
    case Global(_, _) => Raise
    case AddConst(s, k) =>
      if s < |l| && k < |ks| && ks[k].Number? && l[s].Number? then
        Next(l[s := IntValue(Wrap64(l[s].i + ks[k].i))], stk)
      else Raise
    case AddLocal(d, s) =>
      if d < |l| && s < |l| && l[d].Number? && l[s].Number? then
        Next(l[d := IntValue(Wrap64(l[d].i + l[s].i))], stk)
      else Raise
    case Jump(op, _) => ExecJump(op, l, stk)
    case CmpJump(op, a, b, _) => ExecCmpJump(op, a, b, l, stk)
    case ConstJump(op, s, k, _) =>
      if k < |ks| && ks[k].Number? then ExecConstJump(op, s, ks[k].i, l, stk) else Raise
    case RangeInit(_, _, _, _) => ExecRangeInit(ins, l, stk)
    case RangeNext(_, _, _, _, _) => ExecRangeNext(ins, l, stk)
  }

  /** The jump operand of an instruction that has one. */
  function Operand(ins: Instr): int {
    match ins
    case Jump(_, t) => t
    case CmpJump(_, _, _, t) => t
    case ConstJump(_, _, _, t) => t
    case RangeNext(_, _, _, _, t) => t
    case _ => 0
  }

  predicate IsBackward(ins: Instr) { ins.Jump? && ins.op == LOOP }

  predicate HasOperand(ins: Instr) {
    ins.Jump? || ins.CmpJump? || ins.ConstJump? || ins.RangeNext?
  }

  /** One frame of the machine. `Returned` keeps the frame's last locals. */
  datatype Status =
    | Running(pc: int, l: seq<Value>, stk: seq<Value>)
    | Returned(v: Value, l: seq<Value>)
    | Fault

  /** Where an effect leads, given the positions after the instruction and at
      its jump target. */
  function Apply(e: Effect, after: int, target: int, l: seq<Value>): Status {
    match e
    case Next(l', stk') => Running(after, l', stk')
    case Branch(l', stk') => Running(target, l', stk')
    case Leave(v) => Returned(v, l)
    case Raise => Fault
  }

  /** One turn of the dispatch loop over the code bytes. */
  function Step(code: seq<byte>, ks: seq<Value>, st: Status): Status {
    if !st.Running? then st
    else
      match Decode(code, st.pc)
      case None => Fault
      case Some(ins) =>
        var after := st.pc + Size(ins);
        var t := Operand(ins);
        Apply(Exec(ins, ks, st.l, st.stk), after, if IsBackward(ins) then after - t else after + t, st.l)
  }

  function Run(code: seq<byte>, ks: seq<Value>, st: Status, n: nat): Status
    decreases n
  {
    if n == 0 then st else Run(code, ks, Step(code, ks, st), n - 1)
  }
}
