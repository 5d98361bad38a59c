/** Lowering bytecode to the JIT's intermediate code: one pass over byte
    offsets that tracks the static stack depth, shares constants, and patches
    jumps at the end. */
module JitLower {
  import opened Options
  import opened Machine
  import opened JitIr

  // ------------------------------------------------------- constant sharing

  function Digit(d: nat): char
    requires d < 10
  {
    "0123456789"[d]
  }

  /** %d of a natural number. */
  function Digits(n: nat): (s: string)
    ensures |s| > 0
  {
    if n < 10 then [Digit(n)] else Digits(n / 10) + [Digit(n % 10)]
  }

  function Decimal(i: int): string {
    if i < 0 then "-" + Digits(-i) else Digits(i)
  }

  lemma DigitsDiffer(a: nat, b: nat)
    requires a < 10 && b < 10
    ensures Digit(a) == Digit(b) ==> a == b
    ensures Digit(a) != '-'
  {
    var s := "0123456789";
    assert s[0] == '0' && s[1] == '1' && s[2] == '2' && s[3] == '3' && s[4] == '4';
    assert s[5] == '5' && s[6] == '6' && s[7] == '7' && s[8] == '8' && s[9] == '9';
  }

  lemma {:induction false} DigitsInjective(m: nat, n: nat)
    requires Digits(m) == Digits(n)
    ensures m == n
  {
    hide Digit;
    var s := Digits(m);
    assert s[|s| - 1] == Digit(m % 10) && s[|s| - 1] == Digit(n % 10);
    DigitsDiffer(m % 10, n % 10);
    if m >= 10 && n >= 10 {
      assert s[..|s| - 1] == Digits(m / 10) && s[..|s| - 1] == Digits(n / 10);
      DigitsInjective(m / 10, n / 10);
    }
  }

  lemma {:induction false} NoSign(n: nat)
    ensures Digits(n)[0] != '-'
  {
    DigitsDiffer(n % 10, n % 10);
    if n >= 10 {
      NoSign(n / 10);
      assert Digits(n)[0] == Digits(n / 10)[0];
    }
  }

  lemma DecimalInjective(i: int, j: int)
    requires Decimal(i) == Decimal(j)
    ensures i == j
  {
    if i < 0 && j < 0 {
      assert Decimal(i)[1..] == Digits(-i) && Decimal(j)[1..] == Digits(-j);
      DigitsInjective(-i, -j);
    } else if i >= 0 && j >= 0 {
      DigitsInjective(i, j);
    } else if i < 0 {
      NoSign(j);
      assert false;
    } else {
      NoSign(i);
      assert false;
    }
  }

  /** constantCacheKey on nil, booleans and integers. */
  function CacheKey(v: Value): string {
    match v
    case Nil => "nil"
    case Number(i, _) => "num:1:" + Decimal(i)
    case Bool(b) => if b then "bool:true" else "bool:false"
  }

  /** A constant of a function: an integer with its own double, a boolean, nil. */
  predicate Scalar(v: Value) { v.Number? ==> v == IntValue(v.i) }

  lemma KeySecond(v: Value)
    ensures |CacheKey(v)| >= 2 && CacheKey(v)[1] == if v.Number? then 'u' else if v.Nil? then 'i' else 'o'
  {
    hide Decimal;
  }

  /** Two scalar constants share a key only if they are the same constant. */
  lemma KeyInjective(a: Value, b: Value)
    requires Scalar(a) && Scalar(b) && CacheKey(a) == CacheKey(b)
    ensures a == b
  {
    hide Decimal;
    KeySecond(a);
    KeySecond(b);
    var ka, kb := CacheKey(a), CacheKey(b);
    if a.Number? && b.Number? {
      assert ka[6..] == Decimal(a.i) && kb[6..] == Decimal(b.i);
      DecimalInjective(a.i, b.i);
    } else if a.Bool? && b.Bool? {
      assert ka[5] == (if a.b then 't' else 'f') && kb[5] == (if b.b then 't' else 'f');
    }
  }

  // ---------------------------------------------------------------- lowering

  const ADD_LOCAL_MUL_LOCAL: byte := 44

  /** How an opcode is lowered: its IR operation, its length, the static depth
      it needs, and how it changes that depth. */
  datatype Rule = Rule(op: IrOp, size: nat, needs: nat, delta: int)

  function RuleOf(op: byte): (r: Option<Rule>)
    ensures r.Some? ==>
              r.value.size >= 1 && (Jumps(r.value.op) ==> r.value.size >= 3) &&
              (r.value.op == LoadConst ==> r.value.size == 3) && (r.value.op == RangeInitFast <==> op == RANGE_INIT_FAST) &&
              (r.value.op == RangeInitFast ==> r.value.size == 5) && (r.value.op == RangeNextFast ==> r.value.size == 7) &&
              (r.value.op == AddLocalMulLocal ==> r.value.size == 4) && (r.value.op == IrReturn <==> op == RETURN) &&
              (r.value.size == 2 <==> r.value.op == LoadLocal || r.value.op == SetLocal)
  {
    if op == GET_LOCAL then Some(Rule(LoadLocal, 2, 0, 1))
    else if op == SET_LOCAL then Some(Rule(SetLocal, 2, 1, 0))
    else if op == CONSTANT then Some(Rule(LoadConst, 3, 0, 1))
    else if op == NIL then Some(Rule(LoadNil, 1, 0, 1))
    else if op == TRUE then Some(Rule(LoadTrue, 1, 0, 1))
    else if op == FALSE then Some(Rule(LoadFalse, 1, 0, 1))
    else if op == POP then Some(Rule(Pop, 1, 1, -1))
    else if op == RANGE_INIT_FAST then Some(Rule(RangeInitFast, 5, 0, 0))
    else if op == RANGE_NEXT_FAST then Some(Rule(RangeNextFast, 7, 0, 0))
    else if op == ADD then Some(Rule(AddValue, 1, 2, -1))
    else if op == SUB || op == SUB_NUM then Some(Rule(SubNumber, 1, 2, -1))
    else if op == MUL || op == MUL_NUM then Some(Rule(MulNumber, 1, 2, -1))
    else if op == MOD || op == MOD_NUM then Some(Rule(ModNumber, 1, 2, -1))
    else if op == ADD_LOCAL_MUL_LOCAL then Some(Rule(AddLocalMulLocal, 4, 0, 0))
    else if op == EQUAL then Some(Rule(Equal, 1, 2, -1))
    else if op == LESS_NUM then Some(Rule(LessNum, 1, 2, -1))
    else if op == GREATER_NUM then Some(Rule(GreaterNum, 1, 2, -1))
    else if op == NOT then Some(Rule(Not, 1, 1, 0))
    else if op == ADD_NUM then Some(Rule(AddNumber, 1, 2, -1))
    else if op == NEGATE then Some(Rule(NegNumber, 1, 1, 0))
    else if op == JUMP || op == LOOP then Some(Rule(IrJump, 3, 0, 0))
    else if op == JUMP_IF_FALSE then Some(Rule(IrJumpIfFalse, 3, 1, 0))
    else if op == JUMP_IF_TRUE then Some(Rule(IrJumpIfTrue, 3, 1, 0))
    else if op == RETURN then Some(Rule(IrReturn, 1, 1, 0))
    else None
  }

  predicate Jumps(op: IrOp) { op == IrJump || op == IrJumpIfFalse || op == IrJumpIfTrue || op == RangeNextFast }

  datatype Patch = Patch(at: nat, target: int)

  /** The variables of the pass. */
  datatype Scan = Scan(offset: nat, depth: int, maxStack: int, ir: seq<Ir>, constants: seq<Value>, meta: seq<Meta>,
                       keys: map<string, nat>, metaKeys: map<Meta, nat>, index: map<int, nat>,
                       depths: map<int, int>, patches: seq<Patch>)

  const START: Scan := Scan(0, 0, 0, [], [], [], map[], map[], map[], map[], [])

  /** The depth at an offset: at least what a jump to it recorded. */
  function DepthAt(s: Scan): int {
    if s.offset in s.depths && s.depths[s.offset] > s.depth then s.depths[s.offset] else s.depth
  }

  function Recorded(depths: map<int, int>, target: int, depth: int): map<int, int> {
    if target !in depths || depth > depths[target] then depths[target := depth] else depths
  }

  /** Where the jump at an offset leads. */
  function TargetOf(code: seq<byte>, o: nat, rule: Rule): int
    requires Jumps(rule.op) && o + rule.size <= |code| && rule.size >= 3
  {
    var d := ReadUint16(code, o + rule.size - 2);
    if code[o] == LOOP then o + rule.size - d else o + rule.size + d
  }

  /** CONSTANT: constants with one key share an entry. */
  function LoweredConst(code: seq<byte>, pool: seq<Value>, s: Scan, next: Scan): Option<Scan>
    requires s.offset + 3 <= |code|
  {
    var k := ReadUint16(code, s.offset + 1);
    if k >= |pool| then None
    else
      var key := CacheKey(pool[k]);
      if key in s.keys then Some(next.(ir := s.ir + [Ir(LoadConst, s.keys[key], 0)]))
      else
        var i := |s.constants| % 65536;
        Some(next.(ir := s.ir + [Ir(LoadConst, i, 0)], constants := s.constants + [pool[k]], keys := s.keys[key := i]))
  }

  /** addMetadata: the index of an entry, and the table with it. */
  function MetaIndex(s: Scan, entry: Meta): nat {
    if entry in s.metaKeys then s.metaKeys[entry] else |s.meta| % 65536
  }

  function WithMeta(s: Scan, next: Scan, entry: Meta): Scan {
    if entry in s.metaKeys then next
    else next.(meta := s.meta + [entry], metaKeys := s.metaKeys[entry := |s.meta| % 65536])
  }

  function LoweredInit(code: seq<byte>, s: Scan, next: Scan): Scan
    requires s.offset + 5 <= |code|
  {
    var o := s.offset;
    var entry := InitMeta(code[o + 1], code[o + 2], code[o + 3], code[o + 4]);
    WithMeta(s, next, entry).(ir := s.ir + [Ir(RangeInitFast, MetaIndex(s, entry), 0)])
  }

  function LoweredNext(code: seq<byte>, s: Scan, next: Scan, rule: Rule): Scan
    requires s.offset + 7 <= |code| && rule.op == RangeNextFast && rule.size == 7
  {
    var o := s.offset;
    var entry := NextMeta(code[o + 1], code[o + 2], code[o + 3], code[o + 4]);
    WithMeta(s, next, entry).(ir := s.ir + [Ir(RangeNextFast, 0, MetaIndex(s, entry))],
                              patches := s.patches + [Patch(|s.ir|, TargetOf(code, o, rule))])
  }

  function LoweredJump(code: seq<byte>, s: Scan, next: Scan, rule: Rule): Scan
    requires Jumps(rule.op) && s.offset + rule.size <= |code| && rule.size >= 3
  {
    var target := TargetOf(code, s.offset, rule);
    next.(ir := s.ir + [Ir(rule.op, 0, 0)], patches := s.patches + [Patch(|s.ir|, target)],
          depths := Recorded(s.depths, target, DepthAt(s)))
  }

  /** The remaining opcodes: at most slots for operands. */
  function LoweredPlain(code: seq<byte>, s: Scan, next: Scan, rule: Rule): Scan
    requires s.offset + rule.size <= |code| && (rule.op == AddLocalMulLocal ==> rule.size == 4)
  {
    next.(ir := s.ir + [PlainIr(code, s.offset, rule)])
  }

  function PlainIr(code: seq<byte>, o: nat, rule: Rule): Ir
    requires o + rule.size <= |code| && (rule.op == AddLocalMulLocal ==> rule.size == 4)
  {
    if rule.op == AddLocalMulLocal then Ir(AddLocalMulLocal, code[o + 1] + 256 * code[o + 2] as int, code[o + 3])
    else Ir(rule.op, if rule.size == 2 then code[o + 1] else 0, 0)
  }

  /** The depth that a range's arguments take. */
  function ArgcAt(code: seq<byte>, o: nat): nat
    requires o < |code|
  {
    if code[o] == RANGE_INIT_FAST && o + 4 < |code| then code[o + 4] else 0
  }

  /** The offset, depth and index map after an instruction. */
  function Moved(code: seq<byte>, s: Scan, rule: Rule): Scan
    requires s.offset < |code|
  {
    var depth := DepthAt(s) + rule.delta - ArgcAt(code, s.offset);
    s.(offset := s.offset + rule.size, depth := depth, index := s.index[s.offset := |s.ir|],
       maxStack := if depth > s.maxStack then depth else s.maxStack)
  }

  /** One turn of the loop for an opcode other than RETURN; None rejects. */
  function Turn(code: seq<byte>, pool: seq<Value>, s: Scan): Option<Scan>
    requires s.offset < |code|
  {
    var o := s.offset;
    match RuleOf(code[o])
    case None => None
    case Some(rule) =>
      if o + rule.size > |code| then None
      else if DepthAt(s) < rule.needs || DepthAt(s) < ArgcAt(code, o) then None
      else
        var next := Moved(code, s, rule);
        if rule.op == LoadConst then LoweredConst(code, pool, s, next)
        else if rule.op == RangeInitFast then Some(LoweredInit(code, s, next))
        else if rule.op == RangeNextFast then Some(LoweredNext(code, s, next, rule))
        else if Jumps(rule.op) then Some(LoweredJump(code, s, next, rule))
        else Some(LoweredPlain(code, s, next, rule))
  }

  /** hasOnlyDeadEpilogue. */
  predicate DeadEpilogue(code: seq<byte>, o: nat) {
    forall i :: o <= i < |code| ==> code[i] == NIL || code[i] == RETURN
  }

  /** The jumps set to instruction indices; None if one leads nowhere. */
  function PatchIr(ir: seq<Ir>, patches: seq<Patch>, index: map<int, nat>): (r: Option<seq<Ir>>)
    ensures r.Some? ==> |r.value| == |ir|
  {
    if |patches| == 0 then Some(ir)
    else
      var n := |patches| - 1;
      match PatchIr(ir, patches[..n], index)
      case None => None
      case Some(done) =>
        var p := patches[n];
        if p.target in index && p.at < |ir| then
          Some(done[p.at := Ir(done[p.at].op, index[p.target] % 65536, done[p.at].aux)])
        else None
  }

  /** What RETURN at the current offset makes of the pass, together with the
      offsets of the instructions. */
  function Finish(code: seq<byte>, s: Scan): Option<(Lowered, map<int, nat>)>
    requires s.offset < |code|
  {
    var depth := DepthAt(s);
    if depth < 1 || !DeadEpilogue(code, s.offset + 1) then None
    else
      var index := s.index[s.offset := |s.ir|][|code| := |s.ir| + 1];
      match PatchIr(s.ir + [Ir(IrReturn, 0, 0)], s.patches, index)
      case None => None
      case Some(ir) =>
        Some((Lowered(ir, s.constants, s.meta, if depth > s.maxStack then depth else s.maxStack), index))
  }

  function LowerFrom(code: seq<byte>, pool: seq<Value>, s: Scan): Option<(Lowered, map<int, nat>)>
    decreases |code| - s.offset
  {
    if s.offset >= |code| then None
    else if code[s.offset] == RETURN then Finish(code, s)
    else
      match Turn(code, pool, s)
      case None => None
      case Some(s') => if s'.offset > s.offset then LowerFrom(code, pool, s') else None
  }

  /** lowerBytecode on scalar constants: the program and the map from byte
      offsets to instructions, or rejection. */
  function Lower(code: seq<byte>, pool: seq<Value>): Option<(Lowered, map<int, nat>)> {
    LowerFrom(code, pool, START)
  }

  // ------------------------------------------------------------- correctness

  /** Instruction i carries out the bytecode at offset o, its jump aside. */
  predicate Lowers(code: seq<byte>, pool: seq<Value>, o: int, i: Ir, constants: seq<Value>, meta: seq<Meta>) {
    0 <= o < |code| && RuleOf(code[o]).Some? &&
    var rule := RuleOf(code[o]).value;
    o + rule.size <= |code| && i.op == rule.op &&
    (rule.size == 2 ==> i.operand == code[o + 1]) &&
    (rule.op == LoadConst ==>
      ReadUint16(code, o + 1) < |pool| && i.operand < |constants| &&
      constants[i.operand] == pool[ReadUint16(code, o + 1)]) &&
    (rule.op == RangeInitFast ==>
      i.operand < |meta| && meta[i.operand] == InitMeta(code[o + 1], code[o + 2], code[o + 3], code[o + 4])) &&
    (rule.op == RangeNextFast ==>
      i.aux < |meta| && meta[i.aux] == NextMeta(code[o + 1], code[o + 2], code[o + 3], code[o + 4])) &&
    (rule.op == AddLocalMulLocal ==>
      i.operand == code[o + 1] + 256 * code[o + 2] as int && i.aux == code[o + 3])
  }

  function SizeAt(code: seq<byte>, o: int): nat
    requires 0 <= o < |code| && RuleOf(code[o]).Some?
  {
    RuleOf(code[o]).value.size
  }

  ghost predicate KeysOk(s: Scan) {
    (forall i :: 0 <= i < |s.constants| ==> Scalar(s.constants[i])) &&
    (forall key :: key in s.keys ==> s.keys[key] < |s.constants| && CacheKey(s.constants[s.keys[key]]) == key) &&
    (forall m :: m in s.metaKeys ==> s.metaKeys[m] < |s.meta| && s.meta[s.metaKeys[m]] == m)
  }

  ghost predicate CountsOk(code: seq<byte>, s: Scan) {
    |s.constants| <= |s.ir| && |s.meta| <= |s.ir| && |s.ir| <= s.offset <= |code| &&
    (s.offset == 0 ==> |s.ir| == 0 && s.index == map[]) && (s.offset > 0 ==> 0 in s.index && s.index[0] == 0)
  }

  ghost predicate EntryOk(code: seq<byte>, pool: seq<Value>, s: Scan, o: int)
    requires o in s.index
  {
    0 <= o < s.offset && s.index[o] < |s.ir| && Lowers(code, pool, o, s.ir[s.index[o]], s.constants, s.meta) &&
    code[o] != RETURN && NextOk(s, s.index[o], o + SizeAt(code, o)) && JumpOk(code, s, o)
  }

  ghost predicate NextOk(s: Scan, i: nat, next: int) {
    (next == s.offset && i + 1 == |s.ir|) || (next in s.index && s.index[next] == i + 1)
  }

  ghost predicate JumpOk(code: seq<byte>, s: Scan, o: int)
    requires o in s.index && 0 <= o < |code| && RuleOf(code[o]).Some? && o + SizeAt(code, o) <= |code|
  {
    var rule := RuleOf(code[o]).value;
    Jumps(rule.op) ==> Patch(s.index[o], TargetOf(code, o, rule)) in s.patches
  }

  ghost predicate PatchesOk(ir: seq<Ir>, patches: seq<Patch>) {
    (forall k :: 0 <= k < |patches| ==> patches[k].at < |ir| && Jumps(ir[patches[k].at].op)) &&
    (forall j, k :: 0 <= j < k < |patches| ==> patches[j].at < patches[k].at)
  }

  ghost predicate ScanOk(code: seq<byte>, pool: seq<Value>, s: Scan) {
    KeysOk(s) && CountsOk(code, s) && PatchesOk(s.ir, s.patches) &&
    forall o :: o in s.index ==> EntryOk(code, pool, s, o)
  }

  ghost predicate Scalars(pool: seq<Value>) { forall i :: 0 <= i < |pool| ==> Scalar(pool[i]) }

  /** What a turn does to the variables, whatever the opcode. */
  ghost predicate Grows(code: seq<byte>, pool: seq<Value>, s: Scan, t: Scan, rule: Rule) {
    0 <= s.offset < |code| && RuleOf(code[s.offset]) == Some(rule) &&
    t.offset == s.offset + rule.size <= |code| && |t.ir| == |s.ir| + 1 && t.ir[..|s.ir|] == s.ir &&
    s.constants <= t.constants && s.meta <= t.meta &&
    |t.constants| <= |s.constants| + 1 && |t.meta| <= |s.meta| + 1 && t.index == s.index[s.offset := |s.ir|] &&
    KeysOk(t) && Lowers(code, pool, s.offset, t.ir[|s.ir|], t.constants, t.meta) &&
    t.patches == s.patches + if Jumps(rule.op) then [Patch(|s.ir|, TargetOf(code, s.offset, rule))] else []
  }

  lemma TurnGrows(code: seq<byte>, pool: seq<Value>, s: Scan)
    requires s.offset < |code| < 65536 && code[s.offset] != RETURN && Scalars(pool)
    requires KeysOk(s) && CountsOk(code, s) && Turn(code, pool, s).Some?
    ensures RuleOf(code[s.offset]).Some?
    ensures Grows(code, pool, s, Turn(code, pool, s).value, RuleOf(code[s.offset]).value)
  {
    hide RuleOf, CacheKey, TargetOf, DepthAt, Recorded, Scalar, ArgcAt, LoweredConst, LoweredInit, LoweredNext,
         LoweredJump, LoweredPlain, KeysOk, CountsOk, Grows, Moved, Lowers;
    var rule := RuleOf(code[s.offset]).value;
    var next := Moved(code, s, rule);
    if rule.op == LoadConst {
      ConstGrows(code, pool, s, next, rule);
    } else if rule.op == RangeInitFast {
      InitGrows(code, pool, s, next, rule);
    } else if rule.op == RangeNextFast {
      NextGrows(code, pool, s, next, rule);
    } else if Jumps(rule.op) {
      JumpGrows(code, pool, s, next, rule);
    } else {
      PlainGrows(code, pool, s, next, rule);
    }
  }

  lemma KeysKept(s: Scan, t: Scan)
    requires KeysOk(s) && t.constants == s.constants && t.keys == s.keys && t.meta == s.meta && t.metaKeys == s.metaKeys
    ensures KeysOk(t)
  {
  }

  lemma PlainGrows(code: seq<byte>, pool: seq<Value>, s: Scan, next: Scan, rule: Rule)
    requires s.offset < |code| < 65536 && RuleOf(code[s.offset]) == Some(rule) && !Jumps(rule.op)
    requires rule.op != LoadConst && rule.op != RangeInitFast
    requires s.offset + rule.size <= |code| && next == Moved(code, s, rule) && KeysOk(s)
    ensures Grows(code, pool, s, LoweredPlain(code, s, next, rule), rule)
  {
    hide RuleOf, TargetOf, DepthAt, ArgcAt, KeysOk;
    var t := LoweredPlain(code, s, next, rule);
    KeysKept(s, t);
    GrowsFrom(code, pool, s, t, rule, PlainIr(code, s.offset, rule));
  }

  /** From the pieces of a turn. */
  lemma GrowsFrom(code: seq<byte>, pool: seq<Value>, s: Scan, t: Scan, rule: Rule, i: Ir)
    requires 0 <= s.offset < |code| && RuleOf(code[s.offset]) == Some(rule)
    requires t.offset == s.offset + rule.size <= |code| && t.ir == s.ir + [i] && t.index == s.index[s.offset := |s.ir|]
    requires s.constants <= t.constants && s.meta <= t.meta
    requires |t.constants| <= |s.constants| + 1 && |t.meta| <= |s.meta| + 1
    requires KeysOk(t) && Lowers(code, pool, s.offset, i, t.constants, t.meta)
    requires t.patches == s.patches + if Jumps(rule.op) then [Patch(|s.ir|, TargetOf(code, s.offset, rule))] else []
    ensures Grows(code, pool, s, t, rule)
  {
    hide RuleOf, TargetOf, KeysOk, Lowers;
  }

  lemma ConstGrows(code: seq<byte>, pool: seq<Value>, s: Scan, next: Scan, rule: Rule)
    requires s.offset < |code| < 65536 && RuleOf(code[s.offset]) == Some(rule) && rule.op == LoadConst
    requires s.offset + rule.size <= |code| && next == Moved(code, s, rule) && Scalars(pool)
    requires KeysOk(s) && CountsOk(code, s) && LoweredConst(code, pool, s, next).Some?
    ensures Grows(code, pool, s, LoweredConst(code, pool, s, next).value, rule)
  {
    FewConstants(code, s);
    MovedFields(code, s, rule);
    hide RuleOf, CacheKey, TargetOf, DepthAt, Scalar, ArgcAt, KeysOk, Lowers, Grows, LoweredConst, CountsOk, Moved;
    var t := LoweredConst(code, pool, s, next).value;
    ConstShape(code, pool, s, next);
    SharedConst(code, pool, s, next);
    ConstLowers(code, pool, s.offset, t.ir[|s.ir|], t.constants, t.meta, rule);
    GrowsFrom(code, pool, s, t, rule, t.ir[|s.ir|]);
  }

  lemma FewConstants(code: seq<byte>, s: Scan)
    requires CountsOk(code, s) && s.offset < |code| < 65536
    ensures |s.constants| < 65536
  {
  }

  lemma MovedFields(code: seq<byte>, s: Scan, rule: Rule)
    requires 0 <= s.offset < |code|
    ensures var t := Moved(code, s, rule);
            t.offset == s.offset + rule.size && t.index == s.index[s.offset := |s.ir|] && t.constants == s.constants &&
            t.keys == s.keys && t.meta == s.meta && t.metaKeys == s.metaKeys && t.patches == s.patches && t.ir == s.ir
  {
  }

  lemma ConstShape(code: seq<byte>, pool: seq<Value>, s: Scan, next: Scan)
    requires s.offset + 3 <= |code| && LoweredConst(code, pool, s, next).Some? && next.constants == s.constants
    ensures var t := LoweredConst(code, pool, s, next).value;
            |t.ir| == |s.ir| + 1 && t.ir == s.ir + [t.ir[|s.ir|]] && t.offset == next.offset && t.index == next.index &&
            s.constants <= t.constants && |t.constants| <= |s.constants| + 1 && t.meta == next.meta &&
            t.patches == next.patches
  {
    hide CacheKey;
  }

  /** The entry a constant gets is that constant. */
  lemma SharedConst(code: seq<byte>, pool: seq<Value>, s: Scan, next: Scan)
    requires s.offset + 3 <= |code| && Scalars(pool) && KeysOk(s) && |s.constants| < 65536
    requires next.constants == s.constants && next.keys == s.keys && next.meta == s.meta && next.metaKeys == s.metaKeys
    requires LoweredConst(code, pool, s, next).Some?
    ensures var t := LoweredConst(code, pool, s, next).value;
            KeysOk(t) && |t.ir| == |s.ir| + 1 && t.ir[|s.ir|].op == LoadConst &&
            ReadUint16(code, s.offset + 1) < |pool| && t.ir[|s.ir|].operand < |t.constants| &&
            t.constants[t.ir[|s.ir|].operand] == pool[ReadUint16(code, s.offset + 1)]
  {
    hide CacheKey, Scalar;
    var v := pool[ReadUint16(code, s.offset + 1)];
    if CacheKey(v) in s.keys { KeyInjective(v, s.constants[s.keys[CacheKey(v)]]); }
  }

  lemma ConstLowers(code: seq<byte>, pool: seq<Value>, o: nat, i: Ir, cs: seq<Value>, ms: seq<Meta>, rule: Rule)
    requires o < |code| && RuleOf(code[o]) == Some(rule) && rule.op == LoadConst && o + 3 <= |code| && i.op == LoadConst
    requires ReadUint16(code, o + 1) < |pool| && i.operand < |cs| && cs[i.operand] == pool[ReadUint16(code, o + 1)]
    ensures Lowers(code, pool, o, i, cs, ms)
  {
    hide RuleOf;
  }

  lemma MetaGrows(s: Scan, next: Scan, entry: Meta)
    requires KeysOk(s) && |s.meta| < 65536 && next.meta == s.meta && next.metaKeys == s.metaKeys
    requires next.constants == s.constants && next.keys == s.keys
    ensures var t := WithMeta(s, next, entry);
            KeysOk(t) && s.meta <= t.meta && |t.meta| <= |s.meta| + 1 && MetaIndex(s, entry) < |t.meta| &&
            t.meta[MetaIndex(s, entry)] == entry
  {
  }

  lemma InitGrows(code: seq<byte>, pool: seq<Value>, s: Scan, next: Scan, rule: Rule)
    requires s.offset < |code| < 65536 && RuleOf(code[s.offset]) == Some(rule) && rule.op == RangeInitFast
    requires s.offset + rule.size <= |code| && next == Moved(code, s, rule) && KeysOk(s) && CountsOk(code, s)
    ensures Grows(code, pool, s, LoweredInit(code, s, next), rule)
  {
    hide RuleOf, TargetOf, DepthAt, ArgcAt, MetaIndex, KeysOk, Lowers, Grows, LoweredInit;
    var o := s.offset;
    var entry := InitMeta(code[o + 1], code[o + 2], code[o + 3], code[o + 4]);
    var t := LoweredInit(code, s, next);
    InitShape(code, s, next);
    MetaGrows(s, next, entry);
    KeysKept(WithMeta(s, next, entry), t);
    MetaLowers(code, pool, o, t.ir[|s.ir|], t.constants, t.meta, rule);
    GrowsFrom(code, pool, s, t, rule, t.ir[|s.ir|]);
  }

  lemma InitShape(code: seq<byte>, s: Scan, next: Scan)
    requires s.offset + 5 <= |code|
    ensures var o := s.offset;
            var entry := InitMeta(code[o + 1], code[o + 2], code[o + 3], code[o + 4]);
            var t, w := LoweredInit(code, s, next), WithMeta(s, next, entry);
            t.ir == s.ir + [Ir(RangeInitFast, MetaIndex(s, entry), 0)] && t.offset == next.offset &&
            t.index == next.index && t.constants == w.constants == next.constants && t.keys == w.keys &&
            t.meta == w.meta && t.metaKeys == w.metaKeys && t.patches == next.patches
  {
    hide MetaIndex;
  }

  lemma MetaLowers(code: seq<byte>, pool: seq<Value>, o: nat, i: Ir, cs: seq<Value>, ms: seq<Meta>, rule: Rule)
    requires o < |code| && RuleOf(code[o]) == Some(rule) && o + rule.size <= |code| && i.op == rule.op
    requires rule.op == RangeInitFast || rule.op == RangeNextFast
    requires rule.op == RangeInitFast ==>
               i.operand < |ms| && ms[i.operand] == InitMeta(code[o + 1], code[o + 2], code[o + 3], code[o + 4])
    requires rule.op == RangeNextFast ==>
               i.aux < |ms| && ms[i.aux] == NextMeta(code[o + 1], code[o + 2], code[o + 3], code[o + 4])
    ensures Lowers(code, pool, o, i, cs, ms)
  {
    hide RuleOf;
  }

  lemma NextGrows(code: seq<byte>, pool: seq<Value>, s: Scan, next: Scan, rule: Rule)
    requires s.offset < |code| < 65536 && RuleOf(code[s.offset]) == Some(rule) && rule.op == RangeNextFast
    requires s.offset + rule.size <= |code| && next == Moved(code, s, rule) && KeysOk(s) && CountsOk(code, s)
    ensures Grows(code, pool, s, LoweredNext(code, s, next, rule), rule)
  {
    hide RuleOf, TargetOf, DepthAt, ArgcAt, MetaIndex, KeysOk, Lowers, Grows, LoweredNext;
    var o := s.offset;
    var entry := NextMeta(code[o + 1], code[o + 2], code[o + 3], code[o + 4]);
    var t := LoweredNext(code, s, next, rule);
    NextShape(code, s, next, rule);
    MetaGrows(s, next, entry);
    KeysKept(WithMeta(s, next, entry), t);
    MetaLowers(code, pool, o, t.ir[|s.ir|], t.constants, t.meta, rule);
    GrowsFrom(code, pool, s, t, rule, t.ir[|s.ir|]);
  }

  lemma NextShape(code: seq<byte>, s: Scan, next: Scan, rule: Rule)
    requires s.offset + 7 <= |code| && rule.op == RangeNextFast && rule.size == 7
    ensures var o := s.offset;
            var entry := NextMeta(code[o + 1], code[o + 2], code[o + 3], code[o + 4]);
            var t, w := LoweredNext(code, s, next, rule), WithMeta(s, next, entry);
            t.ir == s.ir + [Ir(RangeNextFast, 0, MetaIndex(s, entry))] && t.offset == next.offset &&
            t.index == next.index && t.constants == w.constants == next.constants && t.keys == w.keys &&
            t.meta == w.meta && t.metaKeys == w.metaKeys && t.patches == s.patches + [Patch(|s.ir|, TargetOf(code, o, rule))]
  {
    hide TargetOf, MetaIndex;
  }

  lemma JumpGrows(code: seq<byte>, pool: seq<Value>, s: Scan, next: Scan, rule: Rule)
    requires s.offset < |code| < 65536 && RuleOf(code[s.offset]) == Some(rule) && Jumps(rule.op) && rule.op != RangeNextFast
    requires s.offset + rule.size <= |code| && next == Moved(code, s, rule) && KeysOk(s)
    ensures Grows(code, pool, s, LoweredJump(code, s, next, rule), rule)
  {
    hide RuleOf, TargetOf, DepthAt, ArgcAt, KeysOk, Recorded;
    KeysKept(s, LoweredJump(code, s, next, rule));
  }

  /** An instruction still lowers its bytecode when the tables grow. */
  lemma LowersGrown(code: seq<byte>, pool: seq<Value>, o: int, i: Ir, cs: seq<Value>, ms: seq<Meta>, cs': seq<Value>, ms': seq<Meta>)
    requires Lowers(code, pool, o, i, cs, ms) && cs <= cs' && ms <= ms'
    ensures Lowers(code, pool, o, i, cs', ms')
  {
    hide RuleOf;
  }

  lemma TurnOk(code: seq<byte>, pool: seq<Value>, s: Scan)
    requires s.offset < |code| < 65536 && code[s.offset] != RETURN && Scalars(pool)
    requires ScanOk(code, pool, s) && Turn(code, pool, s).Some?
    ensures ScanOk(code, pool, Turn(code, pool, s).value)
  {
    hide RuleOf, Turn, KeysOk, EntryOk, Grows, PatchesOk, CountsOk;
    TurnGrows(code, pool, s);
    var t, rule := Turn(code, pool, s).value, RuleOf(code[s.offset]).value;
    PatchesGrow(code, pool, s, t, rule);
    GrowFacts(code, pool, s, t, rule);
    if s.offset in s.index { EntryBefore(code, pool, s, s.offset); }
    forall o | o in t.index ensures EntryOk(code, pool, t, o) {
      if o == s.offset { EntryNew(code, pool, s, t, rule); }
      else { EntryKept(code, pool, s, t, rule, o); }
    }
  }

  lemma GrowFacts(code: seq<byte>, pool: seq<Value>, s: Scan, t: Scan, rule: Rule)
    requires Grows(code, pool, s, t, rule) && CountsOk(code, s)
    ensures KeysOk(t) && CountsOk(code, t) && t.index == s.index[s.offset := |s.ir|]
  {
    hide RuleOf, TargetOf, KeysOk, Lowers;
  }

  lemma EntryBefore(code: seq<byte>, pool: seq<Value>, s: Scan, o: int)
    requires o in s.index && EntryOk(code, pool, s, o)
    ensures o < s.offset
  {
  }

  lemma EntryIndex(code: seq<byte>, pool: seq<Value>, s: Scan, o: int)
    requires o in s.index && EntryOk(code, pool, s, o)
    ensures o < s.offset && s.index[o] < |s.ir|
  {
  }

  lemma PatchesGrow(code: seq<byte>, pool: seq<Value>, s: Scan, t: Scan, rule: Rule)
    requires Grows(code, pool, s, t, rule) && PatchesOk(s.ir, s.patches)
    ensures PatchesOk(t.ir, t.patches)
  {
    hide RuleOf, TargetOf, KeysOk;
    assert t.ir[|s.ir|].op == rule.op;
    forall k | 0 <= k < |t.patches| ensures t.patches[k].at < |t.ir| && Jumps(t.ir[t.patches[k].at].op) {
      if k < |s.patches| { assert t.ir[..|s.ir|][s.patches[k].at] == s.ir[s.patches[k].at]; }
    }
  }

  lemma EntryNew(code: seq<byte>, pool: seq<Value>, s: Scan, t: Scan, rule: Rule)
    requires Grows(code, pool, s, t, rule) && code[s.offset] != RETURN
    ensures EntryOk(code, pool, t, s.offset)
  {
    hide RuleOf, TargetOf, KeysOk, Lowers;
    if Jumps(rule.op) {
      assert t.patches[|s.patches|] == Patch(|s.ir|, TargetOf(code, s.offset, rule));
    }
  }

  lemma EntryKept(code: seq<byte>, pool: seq<Value>, s: Scan, t: Scan, rule: Rule, o: int)
    requires Grows(code, pool, s, t, rule) && o in s.index && EntryOk(code, pool, s, o) && s.offset !in s.index
    ensures EntryOk(code, pool, t, o)
  {
    hide RuleOf, TargetOf, KeysOk, Lowers, SizeAt, JumpOk, NextOk;
    var i := s.index[o];
    assert t.ir[i] == t.ir[..|s.ir|][i] == s.ir[i];
    LowersGrown(code, pool, o, s.ir[i], s.constants, s.meta, t.constants, t.meta);
    LowersSize(code, pool, o, s.ir[i], s.constants, s.meta);
    NextKept(code, pool, s, t, rule, i, o + SizeAt(code, o));
    JumpKept(code, pool, s, t, rule, o);
  }

  lemma NextKept(code: seq<byte>, pool: seq<Value>, s: Scan, t: Scan, rule: Rule, i: nat, next: int)
    requires Grows(code, pool, s, t, rule) && NextOk(s, i, next) && s.offset !in s.index
    ensures NextOk(t, i, next)
  {
    hide RuleOf, TargetOf, KeysOk, Lowers;
  }

  lemma JumpKept(code: seq<byte>, pool: seq<Value>, s: Scan, t: Scan, rule: Rule, o: int)
    requires Grows(code, pool, s, t, rule) && o in s.index && o != s.offset
    requires 0 <= o < |code| && RuleOf(code[o]).Some? && o + SizeAt(code, o) <= |code| && JumpOk(code, s, o)
    ensures JumpOk(code, t, o)
  {
    hide RuleOf, TargetOf, KeysOk, Lowers;
    var r := RuleOf(code[o]).value;
    if Jumps(r.op) {
      assert Patch(s.index[o], TargetOf(code, o, r)) in s.patches;
    }
  }

  lemma LowersSize(code: seq<byte>, pool: seq<Value>, o: int, i: Ir, cs: seq<Value>, ms: seq<Meta>)
    requires Lowers(code, pool, o, i, cs, ms)
    ensures 0 <= o < |code| && RuleOf(code[o]).Some? && SizeAt(code, o) == RuleOf(code[o]).value.size
    ensures o + SizeAt(code, o) <= |code| && i.op == RuleOf(code[o]).value.op
  {
    hide RuleOf;
  }

  // ------------------------------------------------------------- the result

  /** Patching changes no operation, and no instruction that is not a jump. */
  lemma {:induction false} PatchKeeps(ir: seq<Ir>, patches: seq<Patch>, index: map<int, nat>, i: nat)
    requires PatchIr(ir, patches, index).Some? && i < |ir|
    requires forall k :: 0 <= k < |patches| ==> patches[k].at < |ir| && Jumps(ir[patches[k].at].op)
    ensures var r := PatchIr(ir, patches, index).value;
            r[i].op == ir[i].op && r[i].aux == ir[i].aux && (!Jumps(ir[i].op) ==> r[i] == ir[i])
  {
    if |patches| > 0 { PatchKeeps(ir, patches[..|patches| - 1], index, i); }
  }

  /** Every patched jump gets its target's index. */
  lemma {:induction false} PatchSets(ir: seq<Ir>, patches: seq<Patch>, index: map<int, nat>, k: nat)
    requires PatchIr(ir, patches, index).Some? && k < |patches| && patches[k].at < |ir|
    requires forall i, j :: 0 <= i < j < |patches| ==> patches[i].at < patches[j].at
    ensures patches[k].target in index
    ensures PatchIr(ir, patches, index).value[patches[k].at].operand == index[patches[k].target] % 65536
  {
    var n := |patches| - 1;
    if k < n {
      assert patches[..n][k] == patches[k];
      PatchSets(ir, patches[..n], index, k);
    }
  }

  /** The instructions carry out the bytecode, offset by offset. */
  ghost predicate Corresponds(code: seq<byte>, pool: seq<Value>, p: Lowered, index: map<int, nat>) {
    0 in index && index[0] == 0 && |code| in index && index[|code|] == |p.ir| &&
    forall o :: o in index && o != |code| ==> OffsetOk(code, pool, p, index, o)
  }

  ghost predicate OffsetOk(code: seq<byte>, pool: seq<Value>, p: Lowered, index: map<int, nat>, o: int)
    requires o in index
  {
    0 <= o < |code| && index[o] < |p.ir| && Lowers(code, pool, o, p.ir[index[o]], p.constants, p.meta) &&
    var rule := RuleOf(code[o]).value;
    (code[o] != RETURN ==> o + rule.size in index && index[o + rule.size] == index[o] + 1) &&
    (Jumps(rule.op) ==>
      TargetOf(code, o, rule) in index && p.ir[index[o]].operand == index[TargetOf(code, o, rule)])
  }

  lemma {:induction false} LowerFromCorresponds(code: seq<byte>, pool: seq<Value>, s: Scan)
    requires |code| < 65536 && Scalars(pool) && ScanOk(code, pool, s) && LowerFrom(code, pool, s).Some?
    ensures var r := LowerFrom(code, pool, s).value; Corresponds(code, pool, r.0, r.1)
    decreases |code| - s.offset
  {
    hide Turn, ScanOk, Finish, Corresponds;
    if s.offset < |code| {
      if code[s.offset] == RETURN {
        FinishCorresponds(code, pool, s);
      } else {
        TurnOk(code, pool, s);
        LowerFromCorresponds(code, pool, Turn(code, pool, s).value);
      }
    }
  }

  lemma FinishCorresponds(code: seq<byte>, pool: seq<Value>, s: Scan)
    requires s.offset < |code| < 65536 && code[s.offset] == RETURN && ScanOk(code, pool, s) && Finish(code, s).Some?
    ensures var r := Finish(code, s).value; Corresponds(code, pool, r.0, r.1)
  {
    hide RuleOf, KeysOk, EntryOk, PatchIr, PatchesOk, DeadEpilogue, OffsetOk;
    var r := Finish(code, s).value;
    var p, index := r.0, r.1;
    PatchesLonger(s.ir, s.patches, Ir(IrReturn, 0, 0));
    if s.offset in s.index { EntryBefore(code, pool, s, s.offset); }
    forall t | t in s.index ensures t < s.offset && s.index[t] < |s.ir| { EntryIndex(code, pool, s, t); }
    forall o | o in index && o != |code| ensures OffsetOk(code, pool, p, index, o) {
      if o == s.offset { ReturnOk(code, pool, s, p, index); }
      else { OldOffsetOk(code, pool, s, p, index, o); }
    }
  }

  lemma PatchesLonger(ir: seq<Ir>, patches: seq<Patch>, i: Ir)
    requires PatchesOk(ir, patches)
    ensures PatchesOk(ir + [i], patches)
  {
  }

  /** How the result of Finish relates to the variables. */
  ghost predicate Finished(code: seq<byte>, s: Scan, p: Lowered, index: map<int, nat>) {
    s.offset < |code| && index == s.index[s.offset := |s.ir|][|code| := |s.ir| + 1] &&
    PatchIr(s.ir + [Ir(IrReturn, 0, 0)], s.patches, index) == Some(p.ir) &&
    p.constants == s.constants && p.meta == s.meta && PatchesOk(s.ir + [Ir(IrReturn, 0, 0)], s.patches)
  }

  lemma ReturnOk(code: seq<byte>, pool: seq<Value>, s: Scan, p: Lowered, index: map<int, nat>)
    requires Finished(code, s, p, index) && code[s.offset] == RETURN
    ensures OffsetOk(code, pool, p, index, s.offset)
  {
    hide Finished, Lowers, RuleOf, TargetOf;
    var was := Unpatched(code, s, p, index, |s.ir|);
    FinishedTables(code, s, p, index);
    ReturnLowers(code, pool, s.offset, p.ir[|s.ir|], p.constants, p.meta);
  }

  lemma ReturnLowers(code: seq<byte>, pool: seq<Value>, o: int, i: Ir, cs: seq<Value>, ms: seq<Meta>)
    requires 0 <= o < |code| && code[o] == RETURN && i.op == IrReturn
    ensures Lowers(code, pool, o, i, cs, ms) && !Jumps(RuleOf(code[o]).value.op)
  {
  }

  /** What Finish makes of an instruction. */
  lemma Unpatched(code: seq<byte>, s: Scan, p: Lowered, index: map<int, nat>, i: nat) returns (was: Ir)
    requires Finished(code, s, p, index) && i <= |s.ir|
    ensures was == (if i < |s.ir| then s.ir[i] else Ir(IrReturn, 0, 0)) && |p.ir| == |s.ir| + 1
    ensures p.ir[i].op == was.op && p.ir[i].aux == was.aux && (!Jumps(was.op) ==> p.ir[i] == was)
  {
    hide PatchIr, Jumps;
    var ir := s.ir + [Ir(IrReturn, 0, 0)];
    PatchKeeps(ir, s.patches, index, i);
    was := ir[i];
  }

  lemma JumpSet(code: seq<byte>, s: Scan, p: Lowered, index: map<int, nat>, patch: Patch)
    requires Finished(code, s, p, index) && patch in s.patches && |s.ir| <= s.offset < |code| < 65536
    requires forall t :: t in s.index ==> s.index[t] < |s.ir|
    ensures patch.at <= |s.ir| && |p.ir| == |s.ir| + 1
    ensures patch.target in index && p.ir[patch.at].operand == index[patch.target]
  {
    hide PatchIr, Jumps;
    var ir := s.ir + [Ir(IrReturn, 0, 0)];
    var k :| 0 <= k < |s.patches| && s.patches[k] == patch;
    PatchSets(ir, s.patches, index, k);
    TargetSmall(code, s, index, patch.target);
  }

  lemma OldOffsetOk(code: seq<byte>, pool: seq<Value>, s: Scan, p: Lowered, index: map<int, nat>, o: int)
    requires Finished(code, s, p, index) && CountsOk(code, s) && |code| < 65536
    requires o in s.index && EntryOk(code, pool, s, o)
    requires forall t :: t in s.index ==> t < s.offset && s.index[t] < |s.ir|
    ensures OffsetOk(code, pool, p, index, o)
  {
    hide PatchIr, PatchesOk, RuleOf, TargetOf, Lowers, KeysOk, SizeAt, Finished, NextOk, CountsOk, JumpOk;
    var i := s.index[o];
    var was := Unpatched(code, s, p, index, i);
    LowersSize(code, pool, o, was, s.constants, s.meta);
    LowersPatched(code, pool, o, was, p.ir[i], s.constants, s.meta);
    FinishedTables(code, s, p, index);
    OldJumpOk(code, s, p, index, o);
    NextIndexed(code, s, index, i, o + SizeAt(code, o));
  }

  lemma OldJumpOk(code: seq<byte>, s: Scan, p: Lowered, index: map<int, nat>, o: int)
    requires Finished(code, s, p, index) && CountsOk(code, s) && |code| < 65536 && o in s.index && 0 <= o < |code|
    requires RuleOf(code[o]).Some? && o + SizeAt(code, o) <= |code| && JumpOk(code, s, o)
    requires forall t :: t in s.index ==> s.index[t] < |s.ir|
    ensures var rule := RuleOf(code[o]).value;
            Jumps(rule.op) ==>
              TargetOf(code, o, rule) in index && s.index[o] < |p.ir| &&
              p.ir[s.index[o]].operand == index[TargetOf(code, o, rule)]
  {
    hide PatchIr, PatchesOk, RuleOf, TargetOf, Finished;
    var rule := RuleOf(code[o]).value;
    FinishedTables(code, s, p, index);
    if Jumps(rule.op) { JumpSet(code, s, p, index, Patch(s.index[o], TargetOf(code, o, rule))); }
  }

  lemma FinishedTables(code: seq<byte>, s: Scan, p: Lowered, index: map<int, nat>)
    requires Finished(code, s, p, index)
    ensures s.offset < |code| && index == s.index[s.offset := |s.ir|][|code| := |s.ir| + 1]
    ensures p.constants == s.constants && p.meta == s.meta
  {
    hide PatchIr, PatchesOk;
  }

  lemma NextIndexed(code: seq<byte>, s: Scan, index: map<int, nat>, i: nat, next: int)
    requires s.offset < |code| && index == s.index[s.offset := |s.ir|][|code| := |s.ir| + 1]
    requires NextOk(s, i, next) && forall t :: t in s.index ==> t < s.offset
    ensures next in index && index[next] == i + 1
  {
  }

  lemma TargetSmall(code: seq<byte>, s: Scan, index: map<int, nat>, t: int)
    requires t in index && index == s.index[s.offset := |s.ir|][|code| := |s.ir| + 1] && |s.ir| <= s.offset < |code| < 65536
    requires t in s.index ==> s.index[t] < |s.ir|
    ensures index[t] < 65536
  {
  }

  /** Setting a jump's operand keeps what the instruction does. */
  lemma LowersPatched(code: seq<byte>, pool: seq<Value>, o: int, i: Ir, j: Ir, cs: seq<Value>, ms: seq<Meta>)
    requires Lowers(code, pool, o, i, cs, ms) && j.op == i.op && j.aux == i.aux && (!Jumps(i.op) ==> j == i)
    ensures Lowers(code, pool, o, j, cs, ms)
  {
  }

  /** What lowering accepts, it translates instruction by instruction. */
  lemma LowerCorresponds(code: seq<byte>, pool: seq<Value>)
    requires |code| < 65536 && Scalars(pool) && Lower(code, pool).Some?
    ensures var r := Lower(code, pool).value; Corresponds(code, pool, r.0, r.1)
  {
    hide LowerFrom, Corresponds, RuleOf;
    assert ScanOk(code, pool, START);
    LowerFromCorresponds(code, pool, START);
  }
}
