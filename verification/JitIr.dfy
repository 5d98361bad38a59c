/** The JIT's intermediate code, its two byte encodings, and what a program of
    it means. */
module JitIr {
  import opened Options
  import opened Machine

  datatype IrOp =
    | LoadLocal | SetLocal | LoadGlobalSlot | DefineGlobalSlot | LoadField | LoadConst | Closure
    | LoadNil | LoadTrue | LoadFalse | Pop | CallGlobalSlot | CallConst | InvokeMember
    | RangeInitFast | RangeNextFast | CastInt | CastFloat | AddValue | ArrayValue | MapValue
    | GetIndex | GetIndexArray | GetIndexMap | SetIndex | SetIndexArray | SetIndexMap | Slice
    | AddLocalMulLocal | Equal | LessNum | GreaterNum | Not
    | AddNumber | SubNumber | MulNumber | DivNumber | ModNumber | NegNumber
    | IrJump | IrJumpIfFalse | IrJumpIfTrue | IrReturn

  /** An instruction with its two 16-bit operands. */
  datatype Ir = Ir(op: IrOp, operand: nat, aux: nat)

  /** Operands that do not fit an instruction. */
  datatype Meta = InitMeta(cur: nat, end: nat, step: nat, argc: nat) | NextMeta(cur: nat, end: nat, step: nat, val: nat)

  /** What lowering produces. */
  datatype Lowered = Lowered(ir: seq<Ir>, constants: seq<Value>, meta: seq<Meta>, maxStack: int)

  // ----------------------------------------------------------------- catalog

  const OP_COUNT: nat := 93

  /** The bytecode operations a backend catalogs, in order. */
  function CatalogOps(): (ops: seq<byte>)
    ensures |ops| == OP_COUNT
  {
    seq(OP_COUNT, i requires 0 <= i < OP_COUNT => if i < 92 then i else RETURN)
  }

  datatype Spec = Spec(op: byte, code: byte)

  /** buildInstructionCatalog: consecutive backend codes from `base`. */
  method BuildCatalog(base: byte) returns (catalog: seq<Spec>)
    ensures |catalog| == OP_COUNT
    ensures forall i :: 0 <= i < OP_COUNT ==> catalog[i] == Spec(CatalogOps()[i], (base + i) % 256)
  {
    var ops := CatalogOps();
    catalog := [];
    for i := 0 to |ops|
      invariant |catalog| == i && forall j :: 0 <= j < i ==> catalog[j] == Spec(ops[j], (base + j) % 256)
    {
      catalog := catalog + [Spec(ops[i], (base + i) % 256)];
    }
  }

  const WINDOWS_BASE: byte := 0x10
  const POSIX_BASE: byte := 0x80

  /** The bytecode operation whose catalog code an IR operation uses. */
  function BytecodeOf(op: IrOp): byte {
    match op
    case LoadLocal => 7 case SetLocal => 8 case LoadGlobalSlot => 15 case DefineGlobalSlot => 14
    case LoadField => 67 case LoadConst => 0 case Closure => 47 case LoadNil => 1 case LoadTrue => 2
    case LoadFalse => 3 case Pop => 4 case CallGlobalSlot => 53 case CallConst => 49 case InvokeMember => 54
    case RangeInitFast => 59 case RangeNextFast => 60 case CastInt => 84 case CastFloat => 85
    case AddValue => 20 case ArrayValue => 71 case MapValue => 72 case GetIndex => 73 case GetIndexArray => 74
    case GetIndexMap => 75 case SetIndex => 80 case SetIndexArray => 81 case SetIndexMap => 82 case Slice => 83
    case AddLocalMulLocal => 44 case Equal => 17 case LessNum => 41 case GreaterNum => 42 case Not => 26
    case AddNumber => 35 case SubNumber => 36 case MulNumber => 37 case DivNumber => 39 case ModNumber => 40
    case NegNumber => 27 case IrJump => 31 case IrJumpIfFalse => 32 case IrJumpIfTrue => 33 case IrReturn => RETURN
  }

  /** opcodeSetForBackend: the code of a bytecode operation in a catalog; the
      lookup of an operation that is not in it gives 0. */
  method OpcodeOf(catalog: seq<Spec>, op: byte) returns (code: byte)
    requires forall i, j :: 0 <= i < j < |catalog| ==> catalog[i].op != catalog[j].op
    ensures forall i :: 0 <= i < |catalog| && catalog[i].op == op ==> code == catalog[i].code
    ensures (forall i :: 0 <= i < |catalog| ==> catalog[i].op != op) ==> code == 0
  {
    code := 0;
    for i := 0 to |catalog|
      invariant forall j :: 0 <= j < i && catalog[j].op == op ==> code == catalog[j].code
      invariant (forall j :: 0 <= j < i ==> catalog[j].op != op) ==> code == 0
    {
      if catalog[i].op == op { code := catalog[i].code; }
    }
  }

  /** opcodeFor on the opcode set of a backend. */
  function OpcodeFor(op: IrOp, base: byte): byte {
    var b := BytecodeOf(op);
    (base + if b == RETURN then 92 else b) % 256
  }

  /** The function's answer is the catalog's. */
  method OpcodeInCatalog(op: IrOp, base: byte) returns (code: byte)
    ensures code == OpcodeFor(op, base)
  {
    var catalog := BuildCatalog(base);
    assert CatalogOps()[92] == RETURN;
    var b := BytecodeOf(op);
    assert b < 92 ==> catalog[b].op == b;
    assert b == RETURN ==> catalog[92].op == b;
    code := OpcodeOf(catalog, b);
  }

  /** The executor's switch: the operation whose code is `code`. */
  function Dispatch(code: byte, base: byte): Option<IrOp> {
    if code < base then None else FromBytecode(if code - base == 92 then RETURN else code - base)
  }

  function FromBytecode(b: int): Option<IrOp> {
    match b
    case 7 => Some(LoadLocal) case 8 => Some(SetLocal) case 15 => Some(LoadGlobalSlot)
    case 14 => Some(DefineGlobalSlot) case 67 => Some(LoadField) case 0 => Some(LoadConst) case 47 => Some(Closure)
    case 1 => Some(LoadNil) case 2 => Some(LoadTrue) case 3 => Some(LoadFalse) case 4 => Some(Pop)
    case 53 => Some(CallGlobalSlot) case 49 => Some(CallConst) case 54 => Some(InvokeMember)
    case 59 => Some(RangeInitFast) case 60 => Some(RangeNextFast) case 84 => Some(CastInt) case 85 => Some(CastFloat)
    case 20 => Some(AddValue) case 71 => Some(ArrayValue) case 72 => Some(MapValue) case 73 => Some(GetIndex)
    case 74 => Some(GetIndexArray) case 75 => Some(GetIndexMap) case 80 => Some(SetIndex)
    case 81 => Some(SetIndexArray) case 82 => Some(SetIndexMap) case 83 => Some(Slice)
    case 44 => Some(AddLocalMulLocal) case 17 => Some(Equal) case 41 => Some(LessNum) case 42 => Some(GreaterNum)
    case 26 => Some(Not) case 35 => Some(AddNumber) case 36 => Some(SubNumber) case 37 => Some(MulNumber)
    case 39 => Some(DivNumber) case 40 => Some(ModNumber) case 27 => Some(NegNumber) case 31 => Some(IrJump)
    case 32 => Some(IrJumpIfFalse) case 33 => Some(IrJumpIfTrue) case 94 => Some(IrReturn)
    case _ => None
  }

  lemma FromBytecodeFinds(op: IrOp)
    ensures FromBytecode(BytecodeOf(op)) == Some(op)
    ensures BytecodeOf(op) < 92 || BytecodeOf(op) == RETURN
  {
  }

  /** On each backend the switch finds the operation that was encoded; so no
      two operations share a code. */
  lemma DispatchFinds(op: IrOp, base: byte)
    requires base == WINDOWS_BASE || base == POSIX_BASE
    ensures Dispatch(OpcodeFor(op, base), base) == Some(op)
  {
    hide BytecodeOf, FromBytecode;
    FromBytecodeFinds(op);
    BaseBack(BytecodeOf(op), base);
  }

  /** Adding the base and taking it off again. */
  lemma BaseBack(b: byte, base: byte)
    requires (base == WINDOWS_BASE || base == POSIX_BASE) && (b < 92 || b == RETURN)
    ensures var c := (base + if b == RETURN then 92 else b) % 256;
            c >= base && b == if c - base == 92 then RETURN else c - base
  {
  }

  // --------------------------------------------------------------- execution

  /** One IR instruction on the locals and the JIT's own stack. Instructions on
      globals, fields, calls, casts and collections are not modelled. */
  function IrExec(i: Ir, p: Lowered, l: seq<Value>, stk: seq<Value>): Effect {
    var n := |stk|;
    match i.op
    case LoadLocal => if i.operand < |l| then Next(l, stk + [l[i.operand]]) else Raise
    case SetLocal => if n >= 1 && i.operand < |l| then Next(l[i.operand := stk[n - 1]], stk) else Raise
    case LoadConst => if i.operand < |p.constants| then Next(l, stk + [p.constants[i.operand]]) else Raise
    case LoadNil => Next(l, stk + [Nil])
    case LoadTrue => Next(l, stk + [Bool(true)])
    case LoadFalse => Next(l, stk + [Bool(false)])
    case Pop => if n >= 1 then Next(l, stk[..n - 1]) else Raise
    case RangeInitFast => InitRange(i, p, l, stk)
    case RangeNextFast => NextRange(i, p, l, stk)
    case AddLocalMulLocal => AddProduct(i.operand % 256, i.operand / 256 % 256, i.aux, l, stk)
    case Not => if n >= 1 then Next(l, stk[..n - 1] + [Bool(!Truthy(stk[n - 1]))]) else Raise
    case NegNumber =>
      if n >= 1 && stk[n - 1].Number? then Next(l, stk[..n - 1] + [IntValue(Wrap64(-stk[n - 1].i))]) else Raise
    case IrJump => Branch(l, stk)
    case IrJumpIfFalse => if n == 0 then Raise else if Truthy(stk[n - 1]) then Next(l, stk) else Branch(l, stk)
    case IrJumpIfTrue => if n == 0 then Raise else if Truthy(stk[n - 1]) then Branch(l, stk) else Next(l, stk)
    case IrReturn => if n >= 1 then Leave(stk[n - 1]) else Raise
    case _ =>
      if n < 2 then Raise
      else
        match IrBinary(i.op, stk[n - 2], stk[n - 1])
        case Some(v) => Next(l, stk[..n - 2] + [v])
        case None => Raise
  }

  /** The two-operand instructions: ADD, EQUAL, the comparisons and
      executeNumeric. */
  function IrBinary(op: IrOp, x: Value, y: Value): Option<Value> {
    if op == Equal then Some(Bool(JitEqual(x, y)))
    else if !x.Number? || !y.Number? then None
    else if op == LessNum then Some(Bool(x.i < y.i))
    else if op == GreaterNum then Some(Bool(x.i > y.i))
    else if op == AddNumber || op == AddValue then Some(IntValue(Wrap64(x.i + y.i)))
    else if op == SubNumber then Some(IntValue(Wrap64(x.i - y.i)))
    else if op == MulNumber then Some(IntValue(Wrap64(x.i * y.i)))
    else if op == ModNumber && y.i != 0 then Some(IntValue(TruncMod(x.i, y.i)))
    else None
  }

  predicate JitEqual(x: Value, y: Value) {
    match (x, y)
    case (Nil, Nil) => true
    case (Bool(a), Bool(b)) => a == b
    case (Number(i, _), Number(j, _)) => i == j
    case _ => false
  }

  /** jitInitFastRange: one or two arguments only. */
  function InitRange(i: Ir, p: Lowered, l: seq<Value>, stk: seq<Value>): Effect {
    if i.operand >= |p.meta| || !p.meta[i.operand].InitMeta? then Raise
    else
      var m, n := p.meta[i.operand], |stk|;
      if n < m.argc || m.cur >= |l| || m.end >= |l| || m.step >= |l| then Raise
      else if m.argc == 1 then
        var end := stk[n - 1];
        if end.Number? then
          Next(l[m.cur := IntValue(-1)][m.end := end][m.step := IntValue(1)], stk[..n - 1])
        else Raise
      else if m.argc == 2 then
        var start, end := stk[n - 2], stk[n - 1];
        if start.Number? && end.Number? then
          var d := if start.i > end.i then -1 else 1;
          Next(l[m.cur := IntValue(Wrap64(start.i - d))][m.end := end][m.step := IntValue(d)], stk[..n - 2])
        else Raise
      else Raise
  }

  /** jitRangeNextFast, and the copy into the loop variable. */
  function NextRange(i: Ir, p: Lowered, l: seq<Value>, stk: seq<Value>): Effect {
    if i.aux >= |p.meta| || !p.meta[i.aux].NextMeta? then Raise
    else
      var m := p.meta[i.aux];
      if m.cur >= |l| || m.end >= |l| || m.step >= |l| || m.val >= |l| then Raise
      else if !l[m.cur].Number? || !l[m.end].Number? || !l[m.step].Number? then Raise
      else
        var d, e := l[m.step].i, l[m.end].i;
        var next := Wrap64(l[m.cur].i + d);
        if (d > 0 && next >= e) || (d < 0 && next <= e) then Branch(l, stk)
        else
          var l1 := l[m.cur := IntValue(next)];
          Next(l1[m.val := l1[m.cur]], stk)
  }

  function AddProduct(t: nat, a: nat, b: nat, l: seq<Value>, stk: seq<Value>): Effect {
    if t < |l| && a < |l| && b < |l| && l[t].Number? && l[a].Number? && l[b].Number? then
      Next(l[t := IntValue(Wrap64(l[t].i + Wrap64(l[a].i * l[b].i)))], stk)
    else Raise
  }

  /** The executor's state. */
  datatype JState = JRunning(ip: int, l: seq<Value>, stk: seq<Value>) | JReturned(v: Value) | JError

  function IrStep(p: Lowered, st: JState): JState {
    if !st.JRunning? then st
    else if !(0 <= st.ip < |p.ir|) then JError
    else
      match IrExec(p.ir[st.ip], p, st.l, st.stk)
      case Next(l', stk') => JRunning(st.ip + 1, l', stk')
      case Branch(l', stk') => JRunning(p.ir[st.ip].operand, l', stk')
      case Leave(v) => JReturned(v)
      case Raise => JError
  }

  function IrRun(p: Lowered, st: JState, n: nat): JState
    decreases n
  {
    if n == 0 then st else IrRun(p, IrStep(p, st), n - 1)
  }
}
