/** What a statement list means, with variables looked up by name. */
module StSemantics {
  import opened Names
  import opened Ir
  import opened Ast

  /** The meaning of the operators; `None` is an operation that fails. */
  datatype Ops = Ops(
    bin: (BinaryOp, Value, Value) -> Option<Value>,
    un: (UnaryOp, Value) -> Option<Value>,
    truthy: Value -> bool,
    narrow: (Value, IntWidth) -> Value)

  /** The variables by key: locals hide globals. */
  datatype Env = Env(locals: map<string, Value>, globals: map<string, Value>)

  /** The declared integer width of each variable. */
  datatype Widths = Widths(locals: map<string, IntWidth>, globals: map<string, IntWidth>)

  /** An undeclared name reads as 0. */
  function Read(env: Env, name: string): Value {
    var k := Key(name);
    if k in env.locals then env.locals[k]
    else if k in env.globals then env.globals[k]
    else Int(0)
  }

  function WidthOf(ws: map<string, IntWidth>, k: string): IntWidth {
    if k in ws then ws[k] else NoWidth
  }

  function WriteLocal(ops: Ops, ws: Widths, env: Env, name: string, v: Value): Env {
    var k := Key(name);
    if k in env.locals then env.(locals := env.locals[k := ops.narrow(v, WidthOf(ws.locals, k))]) else env
  }

  /** A store wraps to the declared width; storing to an undeclared name does nothing. */
  function Write(ops: Ops, ws: Widths, env: Env, name: string, v: Value): Env {
    var k := Key(name);
    if k in env.locals then WriteLocal(ops, ws, env, name, v)
    else if k in env.globals then env.(globals := env.globals[k := ops.narrow(v, WidthOf(ws.globals, k))])
    else env
  }

  /** Operands are evaluated left to right; AND and OR are strict. */
  function Eval(ops: Ops, env: Env, e: Expr): Option<Value> {
    match e
    case Lit(v) => Some(v)
    case Variable(n) => Some(Read(env, n))
    case Anonymous => Some(Int(0))
    case BinaryExpr(op, l, r) =>
      (match Eval(ops, env, l)
       case None => None
       case Some(a) =>
         match Eval(ops, env, r)
         case None => None
         case Some(b) => ops.bin(op, a, b))
    case UnaryExpr(op, x) =>
      (match Eval(ops, env, x)
       case None => None
       case Some(a) => ops.un(op, a))
    case Paren(x) => Eval(ops, env, x)
  }

  function Truth(ops: Ops, v: Option<Value>): Option<bool> {
    match v
    case None => None
    case Some(x) => Some(ops.truthy(x))
  }

  function Bin(ops: Ops, op: BinaryOp, a: Option<Value>, b: Option<Value>): Option<Value> {
    if a.None? || b.None? then None else ops.bin(op, a.value, b.value)
  }

  /** Whether the CASE subject v is selected. */
  function Selects(ops: Ops, env: Env, v: Value, sel: Selector): Option<bool> {
    match sel
    case Single(e) => Truth(ops, Bin(ops, Eq, Some(v), Eval(ops, env, e)))
    case Interval(lo, hi) =>
      var a := Eval(ops, env, lo);
      var b := Eval(ops, env, hi);
      if a.None? || b.None? then None
      else Truth(ops, Bin(ops, And, ops.bin(Ge, v, a.value), ops.bin(Le, v, b.value)))
  }

  /** Selectors are tried in order up to the first that matches. */
  function SelectsAny(ops: Ops, env: Env, v: Value, sels: seq<Selector>): Option<bool> {
    if sels == [] then Some(false)
    else
      match Selects(ops, env, v, sels[0])
      case None => None
      case Some(true) => Some(true)
      case Some(false) => SelectsAny(ops, env, v, sels[1..])
  }

  /** How a statement ends. `OutOfFuel` means some loop needs more passes
      than it was given. */
  datatype Outcome =
    | Done(env: Env)
    | Exited(env: Env)     // EXIT reached: the innermost loop is to be left
    | Left(env: Env)       // RETURN reached
    | Failed(env: Env)     // an operation failed
    | OutOfFuel

  /** Static context of a run. */
  datatype Lang = Lang(ops: Ops, widths: Widths)

  function Run(g: Lang, ss: seq<Stmt>, env: Env, inLoop: bool, fuel: nat): Outcome
    decreases fuel, ss, 0
  {
    if ss == [] then Done(env)
    else
      match RunStmt(g, ss[0], env, inLoop, fuel)
      case Done(e) => Run(g, ss[1..], e, inLoop, fuel)
      case other => other
  }

  function RunStmt(g: Lang, s: Stmt, env: Env, inLoop: bool, fuel: nat): Outcome
    decreases fuel, s, 1
  {
    match s
    case Assign(_, x, e) =>
      (match Eval(g.ops, env, e)
       case None => Failed(env)
       case Some(v) => Done(Write(g.ops, g.widths, env, x, v)))
    case If(_, _, _) => RunArms(g, s, 0, env, inLoop, fuel)
    case Case(_, subject, _, _) =>
      (match Eval(g.ops, env, subject)
       case None => Failed(env)
       case Some(v) => RunBranches(g, s, 0, v, env, inLoop, fuel))
    case For(_, x, from, _, _, _) =>
      (match Eval(g.ops, env, from)
       case None => Failed(env)
       case Some(v) => RunFor(g, s, WriteLocal(g.ops, g.widths, env, x, v), fuel))
    case While(_, _, _) => RunWhile(g, s, env, fuel)
    case Repeat(_, _, _) => RunRepeat(g, s, env, fuel)
    case Return(_) => Left(env)
    case Exit(_) => if inLoop then Exited(env) else Done(env)
    case Empty(_) => Done(env)
  }

  /** The first arm whose condition holds, from arm i on. */
  function RunArms(g: Lang, s: Stmt, i: nat, env: Env, inLoop: bool, fuel: nat): Outcome
    requires s.If? && i <= |s.arms|
    decreases fuel, s, 0, |s.arms| - i
  {
    if i == |s.arms| then Run(g, s.els, env, inLoop, fuel)
    else
      match Truth(g.ops, Eval(g.ops, env, s.arms[i].cond))
      case None => Failed(env)
      case Some(true) => Run(g, s.arms[i].body, env, inLoop, fuel)
      case Some(false) => RunArms(g, s, i + 1, env, inLoop, fuel)
  }

  /** The first branch that selects v, from branch i on. */
  function RunBranches(g: Lang, s: Stmt, i: nat, v: Value, env: Env, inLoop: bool, fuel: nat): Outcome
    requires s.Case? && i <= |s.branches|
    decreases fuel, s, 0, |s.branches| - i
  {
    if i == |s.branches| then Run(g, s.els, env, inLoop, fuel)
    else
      match SelectsAny(g.ops, env, v, s.branches[i].selectors)
      case None => Failed(env)
      case Some(true) => Run(g, s.branches[i].body, env, inLoop, fuel)
      case Some(false) => RunBranches(g, s, i + 1, v, env, inLoop, fuel)
  }

  /** WHILE: EXIT ends the loop normally. */
  function RunWhile(g: Lang, s: Stmt, env: Env, fuel: nat): Outcome
    requires s.While?
    decreases fuel, s, 0
  {
    if fuel == 0 then OutOfFuel
    else
      match Truth(g.ops, Eval(g.ops, env, s.cond))
      case None => Failed(env)
      case Some(false) => Done(env)
      case Some(true) =>
        match Run(g, s.body, env, true, fuel)
        case Done(e) => RunWhile(g, s, e, fuel - 1)
        case Exited(e) => Done(e)
        case other => other
  }

  /** REPEAT: leave once the condition holds after the body. */
  function RunRepeat(g: Lang, s: Stmt, env: Env, fuel: nat): Outcome
    requires s.Repeat?
    decreases fuel, s, 0
  {
    if fuel == 0 then OutOfFuel
    else
      match Run(g, s.body, env, true, fuel)
      case Done(e) =>
        (match Truth(g.ops, Eval(g.ops, e, s.cond))
         case None => Failed(e)
         case Some(true) => Done(e)
         case Some(false) => RunRepeat(g, s, e, fuel - 1))
      case Exited(e) => Done(e)
      case other => other
  }

  function StepOf(g: Lang, s: Stmt, env: Env): Option<Value>
    requires s.For?
  {
    match s.step
    case None => Some(Int(1))
    case Some(e) => Eval(g.ops, env, e)
  }

  /** FOR as compiled: the bound and the step are evaluated on every pass, the test is
      always `<=`, and the variable is stored only when it is local. */
  function RunFor(g: Lang, s: Stmt, env: Env, fuel: nat): Outcome
    requires s.For?
    decreases fuel, s, 0
  {
    if fuel == 0 then OutOfFuel
    else
      match Truth(g.ops, Bin(g.ops, Le, Some(Read(env, s.variable)), Eval(g.ops, env, s.to)))
      case None => Failed(env)
      case Some(false) => Done(env)
      case Some(true) =>
        match Run(g, s.body, env, true, fuel)
        case Done(e) =>
          (match Bin(g.ops, Add, Some(Read(e, s.variable)), StepOf(g, s, e))
           case None => Failed(e)
           case Some(v) => RunFor(g, s, WriteLocal(g.ops, g.widths, e, s.variable, v), fuel - 1))
        case Exited(e) => Done(e)
        case other => other
  }
}
