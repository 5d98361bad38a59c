/** The statement subset that is compiled, and its direct evaluation over named,
    lexically scoped variables. Evaluation knows nothing of slots or bytecode. */
module Source {
  import opened Options
  import opened Machine

  datatype BinOp = And | Or | Add | Sub | Mul | Mod | Eq | Ne | Lt | Gt | Le | Ge

  datatype Expr =
    | IntLit(n: int)
    | BoolLit(b: bool)
    | Var(x: string)
    | Group(e: Expr)
    | Neg(e: Expr)
    | Not(e: Expr)
    | Bin(op: BinOp, l: Expr, r: Expr)

  datatype AssignOp = Set | AddSet | SubSet | MulSet

  /** The declared or inferred type names that steer instruction choice. TOther
      stands for every name that is not numeric, TNone for the empty (unknown)
      name. */
  datatype Type = TInt | TNumber | TBool | TOther | TNone

  datatype Stmt =
    | Let(x: string, declared: Option<Type>, e: Expr)
    | Assign(x: string, op: AssignOp, e: Expr)
    | ExprStmt(e: Expr)
    | If(c: Expr, thn: Block, els: Option<Block>)
    | While(cond: Option<Expr>, body: Block)
    | DoLoop(body: Block, cond: Option<Expr>)
    | ForRange(x: string, args: seq<Expr>, filter: Option<Expr>, body: Block)
    | Break
    | Continue

  datatype Block = Done | Then(s: Stmt, rest: Block)

  /** Every break and continue is in a loop, and every range has one to three
      arguments. */
  predicate Placed(s: Stmt, inLoop: bool) {
    match s
    case If(_, thn, els) => PlacedIn(thn, inLoop) && (els.Some? ==> PlacedIn(els.value, inLoop))
    case While(_, body) => PlacedIn(body, true)
    case DoLoop(body, _) => PlacedIn(body, true)
    case ForRange(_, args, _, body) => 1 <= |args| <= 3 && PlacedIn(body, true)
    case Break => inLoop
    case Continue => inLoop
    case _ => true
  }

  predicate PlacedIn(b: Block, inLoop: bool) {
    match b
    case Done => true
    case Then(s, rest) => Placed(s, inLoop) && PlacedIn(rest, inLoop)
  }

  // ------------------------------------------------------------ expressions

  datatype Val = VInt(i: int) | VBool(b: bool)

  /** A variable; a binding without a value cannot be read or assigned. */
  datatype Binding = Binding(name: string, val: Option<Val>)
  type Env = seq<Binding>

  /** The innermost binding of a name: its position, or -1. */
  function Find(env: Env, x: string): (r: int)
    ensures -1 <= r < |env|
    ensures r >= 0 ==> env[r].name == x
  {
    if |env| == 0 then -1
    else if env[|env| - 1].name == x then |env| - 1
    else Find(env[..|env| - 1], x)
  }

  function Lookup(env: Env, x: string): Option<Val> {
    var i := Find(env, x);
    if i < 0 then None else env[i].val
  }

  predicate Truth(v: Val) { v.VBool? ==> v.b }

  /** An integer result, if it is exact as a double. */
  function Exact(n: int): Option<Val> {
    if Safe(n) then Some(VInt(n)) else None
  }

  function Apply2(op: BinOp, a: Val, b: Val): Option<Val> {
    if op == Eq then Some(VBool(a == b))
    else if op == Ne then Some(VBool(a != b))
    else if op == And then Some(VBool(Truth(a) && Truth(b)))
    else if op == Or then Some(VBool(Truth(a) || Truth(b)))
    else if !a.VInt? || !b.VInt? then None
    else if op == Add then Exact(a.i + b.i)
    else if op == Sub then Exact(a.i - b.i)
    else if op == Mul then Exact(a.i * b.i)
    else if op == Mod then if b.i == 0 then None else Exact(TruncMod(a.i, b.i))
    else if op == Lt then Some(VBool(a.i < b.i))
    else if op == Gt then Some(VBool(a.i > b.i))
    else if op == Le then Some(VBool(a.i <= b.i))
    else Some(VBool(a.i >= b.i))
  }

  /** The value of an expression. None when it reads an unset variable, applies
      an operator to the wrong kind of value, divides by zero, or computes an
      integer outside -2^53..2^53. */
  function Eval(e: Expr, env: Env): Option<Val> {
    match e
    case IntLit(n) => Exact(n)
    case BoolLit(b) => Some(VBool(b))
    case Var(x) => Lookup(env, x)
    case Group(e1) => Eval(e1, env)
    case Neg(e1) =>
      (match Eval(e1, env)
       case Some(VInt(n)) => Exact(-n)
       case _ => None)
    case Not(e1) =>
      (match Eval(e1, env)
       case Some(v) => Some(VBool(!Truth(v)))
       case None => None)
    case Bin(op, l, r) =>
      match Eval(l, env)
      case None => None
      case Some(a) =>
        if op == And && !Truth(a) then Some(VBool(false))
        else if op == Or && Truth(a) then Some(VBool(true))
        else
          match Eval(r, env)
          case None => None
          case Some(b) => Apply2(op, a, b)
  }

  // ------------------------------------------------------------- statements

  datatype Outcome =
    | Normal(env: Env)
    | Broke(env: Env)
    | Continued(env: Env)
    | OutOfFuel
    | Failed

  function AssignValue(x: string, op: AssignOp, e: Expr): Expr {
    match op
    case Set => e
    case AddSet => Bin(Add, Var(x), e)
    case SubSet => Bin(Sub, Var(x), e)
    case MulSet => Bin(Mul, Var(x), e)
  }

  /** An absent condition is true. */
  function EvalCond(c: Option<Expr>, env: Env): Option<Val> {
    match c
    case Some(e) => Eval(e, env)
    case None => Some(VBool(true))
  }

  /** Leaving a scope forgets the variables declared in it. */
  function Close(o: Outcome, n: nat): Outcome {
    match o
    case Normal(env) => if n <= |env| then Normal(env[..n]) else Failed
    case Broke(env) => if n <= |env| then Broke(env[..n]) else Failed
    case Continued(env) => if n <= |env| then Continued(env[..n]) else Failed
    case _ => o
  }

  function ExecStmt(s: Stmt, env: Env, fuel: nat): Outcome
    decreases s, fuel
  {
    match s
    case Let(x, _, e) =>
      (match Eval(e, env)
       case Some(v) => Normal(env + [Binding(x, Some(v))])
       case None => Failed)
    case Assign(x, op, e) =>
      var i := Find(env, x);
      if i < 0 || env[i].val.None? then Failed
      else
        (match Eval(AssignValue(x, op, e), env)
         case Some(v) => Normal(env[i := Binding(x, Some(v))])
         case None => Failed)
    case ExprStmt(e) => if Eval(e, env).Some? then Normal(env) else Failed
    case If(c, thn, els) =>
      (match Eval(c, env)
       case None => Failed
       case Some(v) =>
         if Truth(v) then ExecScope(thn, env, fuel)
         else
           match els
           case Some(b) => ExecScope(b, env, fuel)
           case None => Normal(env))
    case While(c, body) => ExecWhile(c, body, env, fuel)
    case DoLoop(body, c) => ExecDo(body, c, env, fuel)
    case ForRange(x, args, filter, body) =>
      (match EvalArgs(args, env + RangeScope(x))
       case None => Failed
       case Some(vs) =>
         if !(1 <= |vs| <= 3) then Failed
         else
           var r := RangeOf(vs);
           Close(ExecFor(filter, body, env + RangeScope(x), |env|, r.0, r.1, r.2, fuel), |env|))
    case Break => Broke(env)
    case Continue => Continued(env)
  }

  /** Statement lists; a break or continue skips the rest. */
  function ExecBlock(b: Block, env: Env, fuel: nat): Outcome
    decreases b, fuel, 0
  {
    match b
    case Done => Normal(env)
    case Then(s, rest) =>
      match ExecStmt(s, env, fuel)
      case Normal(env') => ExecBlock(rest, env', fuel)
      case o => o
  }

  function ExecScope(b: Block, env: Env, fuel: nat): Outcome
    decreases b, fuel, 1
  {
    Close(ExecBlock(b, env, fuel), |env|)
  }

  /** `loop c: body end`: one unit of fuel per iteration. */
  function ExecWhile(c: Option<Expr>, body: Block, env: Env, fuel: nat): Outcome
    decreases body, fuel, 2
  {
    if fuel == 0 then OutOfFuel
    else
      match EvalCond(c, env)
      case None => Failed
      case Some(v) =>
        if !Truth(v) then Normal(env)
        else
          match ExecScope(body, env, fuel)
          case Normal(env') => ExecWhile(c, body, env', fuel - 1)
          case Continued(env') => ExecWhile(c, body, env', fuel - 1)
          case Broke(env') => Normal(env')
          case o => o
  }

  /** `do loop: body end c`: the condition is checked after the body. */
  function ExecDo(body: Block, c: Option<Expr>, env: Env, fuel: nat): Outcome
    decreases body, fuel, 2
  {
    if fuel == 0 then OutOfFuel
    else
      match ExecScope(body, env, fuel)
      case Broke(env') => Normal(env')
      case OutOfFuel => OutOfFuel
      case Failed => Failed
      case o =>
        match EvalCond(c, o.env)
        case None => Failed
        case Some(v) => if Truth(v) then ExecDo(body, c, o.env, fuel - 1) else Normal(o.env)
  }

  /** The scope of a range loop: the variable and three hidden bindings. */
  function RangeScope(x: string): Env {
    [Binding(x, None), Binding("__range_current_" + x, None),
     Binding("__range_end_" + x, None), Binding("__range_step_" + x, None)]
  }

  /** The integer values of the range arguments. */
  function EvalArgs(args: seq<Expr>, env: Env): Option<seq<int>> {
    if |args| == 0 then Some([])
    else
      match EvalArgs(args[..|args| - 1], env)
      case None => None
      case Some(vs) =>
        match Eval(args[|args| - 1], env)
        case Some(VInt(n)) => Some(vs + [n])
        case _ => None
  }

  /** Start, end and step of range(end), range(start, end) and
      range(start, end, step); without a step it is 1 towards the end. */
  function RangeOf(vs: seq<int>): (int, int, int)
    requires 1 <= |vs| <= 3
  {
    if |vs| == 1 then (0, vs[0], 1)
    else if |vs| == 2 then (vs[0], vs[1], if vs[0] > vs[1] then -1 else 1)
    else (vs[0], vs[1], vs[2])
  }

  predicate InRange(i: int, end: int, step: int) {
    (step > 0 ==> i < end) && (step < 0 ==> i > end)
  }

  /** Iterations i, i + step, ... up to but excluding end; the loop variable is
      the binding at position `at`. */
  function ExecFor(filter: Option<Expr>, body: Block, env: Env, at: nat, i: int, end: int, step: int,
                   fuel: nat): Outcome
    decreases body, fuel, 2
  {
    if fuel == 0 then OutOfFuel
    else if !InRange(i, end, step) then Normal(env)
    else if at >= |env| || !Safe(i) then Failed
    else
      var env1 := env[at := Binding(env[at].name, Some(VInt(i)))];
      match EvalCond(filter, env1)
      case None => Failed
      case Some(v) =>
        match (if Truth(v) then ExecScope(body, env1, fuel) else Normal(env1))
        case Normal(env') => ExecFor(filter, body, env', at, i + step, end, step, fuel - 1)
        case Continued(env') => ExecFor(filter, body, env', at, i + step, end, step, fuel - 1)
        case Broke(env') => Normal(env')
        case o => o
  }
}
