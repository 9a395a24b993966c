/** The code `FunctionCompiler` emits, as functions on the builder's state. */
module CodeGen {
  import opened Names
  import opened Ir
  import opened Ast

  /** The mutable fields of `FunctionCompiler`. `next_label` is the length of the label
      table: both start at 0 and `alloc_label` raises both by one. */
  datatype Builder = Builder(
    instrs: seq<Instr>,
    sourceMap: seq<Range>,
    nextReg: nat,
    labels: seq<nat>,
    exits: seq<Label>,
    pending: Option<Range>)

  const NO_SOURCE := Range(0, 0)

  const EMPTY := Builder([], [], 0, [], [], None)

  function AllocReg(c: Builder): Builder { c.(nextReg := c.nextReg + 1) }

  function AllocLabel(c: Builder): Builder { c.(labels := c.labels + [UNPLACED]) }

  /** `Vec::resize` to at least n entries. */
  function Resized(labels: seq<nat>, n: nat): (r: seq<nat>)
    ensures |r| == if |labels| < n then n else |labels|
    ensures forall l :: 0 <= l < |labels| ==> r[l] == labels[l]
  {
    if |labels| < n then labels + seq(n - |labels|, _ => UNPLACED) else labels
  }

  function Place(c: Builder, l: Label): Builder {
    c.(labels := Resized(c.labels, l + 1)[l := |c.instrs|])
  }

  function Emit(c: Builder, i: Instr): Builder {
    c.(instrs := c.instrs + [i],
       sourceMap := c.sourceMap + [if c.pending.Some? then c.pending.value else NO_SOURCE],
       pending := None)
  }

  function EmitSourced(c: Builder, i: Instr, range: Range): Builder {
    c.(instrs := c.instrs + [i], sourceMap := c.sourceMap + [range], pending := None)
  }

  function SetSource(c: Builder, range: Range): Builder { c.(pending := Some(range)) }

  function PushExit(c: Builder, l: Label): Builder { c.(exits := c.exits + [l]) }

  function PopExit(c: Builder): Builder {
    if c.exits == [] then c else c.(exits := c.exits[..|c.exits| - 1])
  }

  function OpcodeOf(op: BinaryOp): Opcode {
    match op
    case Add => OpAdd case Sub => OpSub case Mul => OpMul case Div => OpDiv
    case Mod => OpMod case Power => OpPow case And => OpAnd case Or => OpOr
    case Xor => OpXor case Eq => CmpEq case Ne => CmpNe case Lt => CmpLt
    case Gt => CmpGt case Le => CmpLe case Ge => CmpGe
  }

  function UnaryOpcodeOf(op: UnaryOp): UnaryOpcode {
    match op case Neg => OpNeg case Not => OpNot
  }

  function LoadInstr(sc: Scope, dst: Reg, name: string): Instr {
    match FindSlot(sc.locals, Key(name))
    case Some(slot) => LoadLocal(dst, slot)
    case None =>
      match FindSlot(sc.globals, Key(name))
      case Some(slot) => LoadGlobal(dst, slot)
      case None => LoadConst(dst, Int(0))
  }

  function EmitTo(c: Builder, i: Instr): (Builder, Reg) {
    (Emit(AllocReg(c), i), c.nextReg)
  }

  function CompileLoad(sc: Scope, c: Builder, name: string): (Builder, Reg) {
    EmitTo(c, LoadInstr(sc, c.nextReg, name))
  }

  function CompileExpr(sc: Scope, c: Builder, e: Expr): (Builder, Reg)
    decreases e
  {
    match e
    case Lit(v) => EmitTo(c, LoadConst(c.nextReg, v))
    case Variable(n) => CompileLoad(sc, c, n)
    case Anonymous => EmitTo(c, LoadConst(c.nextReg, Int(0)))
    case BinaryExpr(op, l, r) =>
      var (c1, left) := CompileExpr(sc, c, l);
      var (c2, right) := CompileExpr(sc, c1, r);
      EmitTo(c2, Binary(OpcodeOf(op), c2.nextReg, left, right))
    case UnaryExpr(op, x) =>
      var (c1, src) := CompileExpr(sc, c, x);
      EmitTo(c1, Unary(UnaryOpcodeOf(op), c1.nextReg, src))
    case Paren(x) => CompileExpr(sc, c, x)
  }

  /** The last step of `compile_store` for a plain variable. */
  function CompileStore(sc: Scope, c: Builder, name: string, src: Reg, range: Range): Builder {
    match FindSlot(sc.locals, Key(name))
    case Some(slot) => EmitSourced(c, StoreLocal(slot, src), range)
    case None =>
      match FindSlot(sc.globals, Key(name))
      case Some(slot) => EmitSourced(c, StoreGlobal(slot, src), range)
      case None => c
  }

  /** FOR stores its variable only when it is local. */
  function StoreIfLocal(sc: Scope, c: Builder, name: string, src: Reg): Builder {
    match FindSlot(sc.locals, Key(name))
    case Some(slot) => Emit(c, StoreLocal(slot, src))
    case None => c
  }

  function CompileStmts(sc: Scope, c: Builder, ss: seq<Stmt>): Builder
    decreases ss, 0
  {
    if ss == [] then c else CompileStmts(sc, CompileStmt(sc, c, ss[0]), ss[1..])
  }

  function CompileStmt(sc: Scope, c0: Builder, s: Stmt): Builder
    decreases s, 2
  {
    var c := SetSource(c0, s.range);
    match s
    case Assign(range, x, e) =>
      var (c1, r) := CompileExpr(sc, c, e);
      CompileStore(sc, c1, x, r, range)
    case If(_, _, _) => CompileIf(sc, c, s)
    case Case(_, _, _, _) => CompileCase(sc, c, s)
    case For(_, _, _, _, _, _) => CompileFor(sc, c, s)
    case While(_, _, _) => CompileWhile(sc, c, s)
    case Repeat(_, _, _) => CompileRepeat(sc, c, s)
    case Return(range) =>
      var r := c.nextReg;
      Emit(EmitSourced(AllocReg(c), LoadConst(r, Int(0)), range), Ret(r))
    case Exit(_) => if c.exits == [] then c else Emit(c, Jump(c.exits[|c.exits| - 1]))
    case Empty(_) => c
  }

  function CompileIf(sc: Scope, c: Builder, s: Stmt): Builder
    requires s.If?
    decreases s, 1, |s.arms| + 1
  {
    var end := |c.labels|;
    Place(CompileArms(sc, AllocLabel(c), s, 0, end), end)
  }

  function CompileArms(sc: Scope, c: Builder, s: Stmt, i: nat, end: Label): Builder
    requires s.If? && i <= |s.arms|
    decreases s, 1, |s.arms| - i
  {
    if i == |s.arms| then CompileStmts(sc, c, s.els)
    else CompileArms(sc, CompileArm(sc, c, s.arms[i], end), s, i + 1, end)
  }

  function CompileArm(sc: Scope, c: Builder, arm: Arm, end: Label): Builder
    decreases arm, 0
  {
    var next := |c.labels|;
    var (c1, r) := CompileExpr(sc, AllocLabel(c), arm.cond);
    var c2 := CompileStmts(sc, Emit(c1, JumpIfNot(r, next)), arm.body);
    Place(Emit(c2, Jump(end)), next)
  }

  function CompileCase(sc: Scope, c: Builder, s: Stmt): Builder
    requires s.Case?
    decreases s, 1, |s.branches| + 1
  {
    var end := |c.labels|;
    var (c1, subject) := CompileExpr(sc, AllocLabel(c), s.subject);
    Place(CompileBranches(sc, c1, s, 0, subject, end), end)
  }

  function CompileBranches(sc: Scope, c: Builder, s: Stmt, i: nat, subject: Reg, end: Label): Builder
    requires s.Case? && i <= |s.branches|
    decreases s, 1, |s.branches| - i
  {
    if i == |s.branches| then CompileStmts(sc, c, s.els)
    else CompileBranches(sc, CompileBranch(sc, c, s.branches[i], subject, end), s, i + 1, subject, end)
  }

  /** The selector tests of a branch, up to the placed body label. */
  function BranchTest(sc: Scope, c: Builder, b: Branch, subject: Reg): Builder {
    var body := |c.labels|;
    var c1 := CompileSelectors(sc, AllocLabel(AllocLabel(c)), b.selectors, subject, body);
    Place(Emit(c1, Jump(body + 1)), body)
  }

  function CompileBranch(sc: Scope, c: Builder, b: Branch, subject: Reg, end: Label): Builder
    decreases b, 0
  {
    var c1 := CompileStmts(sc, BranchTest(sc, c, b, subject), b.body);
    Place(Emit(c1, Jump(end)), |c.labels| + 1)
  }

  function CompileSelectors(sc: Scope, c: Builder, sels: seq<Selector>, subject: Reg, body: Label): Builder
    decreases sels
  {
    if sels == [] then c
    else CompileSelectors(sc, CompileSelector(sc, c, sels[0], subject, body), sels[1..], subject, body)
  }

  function CompileSelector(sc: Scope, c: Builder, sel: Selector, subject: Reg, body: Label): Builder {
    match sel
    case Single(e) =>
      var (c1, v) := CompileExpr(sc, c, e);
      var (c2, cmp) := EmitTo(c1, Binary(CmpEq, c1.nextReg, subject, v));
      Emit(c2, JumpIf(cmp, body))
    case Interval(lo, hi) =>
      var (c1, l) := CompileExpr(sc, c, lo);
      var (c2, h) := CompileExpr(sc, c1, hi);
      var r := c2.nextReg;
      var c3 := AllocReg(AllocReg(AllocReg(c2)));
      var c4 := Emit(c3, Binary(CmpGe, r, subject, l));
      var c5 := Emit(c4, Binary(CmpLe, r + 1, subject, h));
      var c6 := Emit(c5, Binary(OpAnd, r + 2, r, r + 1));
      Emit(c6, JumpIf(r + 2, body))
  }

  /** FOR up to the placed loop label. */
  function ForInit(sc: Scope, c: Builder, s: Stmt): Builder
    requires s.For?
  {
    var (c1, from) := CompileExpr(sc, AllocLabel(AllocLabel(c)), s.from);
    Place(StoreIfLocal(sc, c1, s.variable, from), |c.labels|)
  }

  /** The test at the head of every FOR pass: variable <= bound. */
  function ForTest(sc: Scope, c: Builder, s: Stmt): (Builder, Reg)
    requires s.For?
  {
    var (c1, v) := CompileLoad(sc, c, s.variable);
    var (c2, bound) := CompileExpr(sc, c1, s.to);
    EmitTo(c2, Binary(CmpLe, c2.nextReg, v, bound))
  }

  function ForStep(sc: Scope, c: Builder, s: Stmt): (Builder, Reg)
    requires s.For?
  {
    match s.step
    case None => EmitTo(c, LoadConst(c.nextReg, Int(1)))
    case Some(e) => CompileExpr(sc, c, e)
  }

  /** The increment at the end of every FOR pass. */
  function ForNext(sc: Scope, c: Builder, s: Stmt): Builder
    requires s.For?
  {
    var (c1, inc) := ForStep(sc, c, s);
    var (c2, v) := CompileLoad(sc, c1, s.variable);
    var (c3, sum) := EmitTo(c2, Binary(OpAdd, c2.nextReg, v, inc));
    StoreIfLocal(sc, c3, s.variable, sum)
  }

  /** A loop body: EXIT inside it jumps to the label. */
  function CompileLoopBody(sc: Scope, c: Builder, ss: seq<Stmt>, exit: Label): Builder
    decreases ss, 1
  {
    PopExit(CompileStmts(sc, PushExit(c, exit), ss))
  }

  /** FOR up to the end of its body. */
  function ForBody(sc: Scope, c: Builder, s: Stmt): Builder
    requires s.For?
    decreases s, 0
  {
    var exit := |c.labels| + 1;
    var (c1, cond) := ForTest(sc, ForInit(sc, c, s), s);
    CompileLoopBody(sc, Emit(c1, JumpIfNot(cond, exit)), s.body, exit)
  }

  function CompileFor(sc: Scope, c: Builder, s: Stmt): Builder
    requires s.For?
    decreases s, 1
  {
    var loop := |c.labels|;
    Place(Emit(ForNext(sc, ForBody(sc, c, s), s), Jump(loop)), loop + 1)
  }

  function CompileWhile(sc: Scope, c: Builder, s: Stmt): Builder
    requires s.While?
    decreases s, 1
  {
    var loop := |c.labels|;
    var exit := loop + 1;
    var (c1, cond) := CompileExpr(sc, Place(AllocLabel(AllocLabel(c)), loop), s.cond);
    var c2 := CompileLoopBody(sc, Emit(c1, JumpIfNot(cond, exit)), s.body, exit);
    Place(Emit(c2, Jump(loop)), exit)
  }

  function CompileRepeat(sc: Scope, c: Builder, s: Stmt): Builder
    requires s.Repeat?
    decreases s, 1
  {
    var loop := |c.labels|;
    var exit := loop + 1;
    var c1 := CompileLoopBody(sc, Place(AllocLabel(AllocLabel(c)), loop), s.body, exit);
    var (c2, cond) := CompileExpr(sc, c1, s.cond);
    Place(Emit(c2, JumpIfNot(cond, loop)), exit)
  }
}
