/** The source map: where the debugger finds the statements (`compile.rs:541-560, 781-829`). */
module SourceMaps {
  import opened Names
  import opened Ir
  import opened Ast
  import opened CodeGen
  import opened CodeShape

  /** The entry the next plain instruction gets. */
  function Next(c: Builder): Range { if c.pending.Some? then c.pending.value else NO_SOURCE }

  /** The code of c' continues that of c, and its first instruction has the given entry. */
  predicate StartsAs(c: Builder, c': Builder, range: Range) {
    |c.sourceMap| < |c'.sourceMap| && c.sourceMap <= c'.sourceMap && c'.sourceMap[|c.sourceMap|] == range
  }

  lemma Continued(sc: Scope, c: Builder, c1: Builder, c2: Builder, open: set<Label>, range: Range)
    requires StartsAs(c, c1, range) && Good(sc, c1, c2, open)
    ensures StartsAs(c, c2, range)
  {
  }

  /** The first instruction of an expression takes the pending entry. */
  lemma {:induction false} ExprStarts(sc: Scope, c: Builder, e: Expr)
    requires WellFormed(sc, c)
    ensures StartsAs(c, CompileExpr(sc, c, e).0, Next(c))
    decreases e
  {
    match e
    case BinaryExpr(op, l, r) =>
      var (c1, left) := CompileExpr(sc, c, l);
      var (c2, right) := CompileExpr(sc, c1, r);
      ExprStarts(sc, c, l);
      ExprGood(sc, c, l);
      ExprGood(sc, c1, r);
      Continued(sc, c, c1, c2, {}, Next(c));
    case UnaryExpr(op, x) => ExprStarts(sc, c, x);
    case Paren(x) => ExprStarts(sc, c, x);
    case _ =>
  }

  /** A REPEAT starts with its body, and an IF with its first condition. */
  predicate StartsItself(s: Stmt) { !(s.Repeat? && s.body != []) && !(s.If? && s.arms == []) }

  lemma IfStarts(sc: Scope, c: Builder, s: Stmt)
    requires WellFormed(sc, c) && s.If? && s.arms != []
    ensures StartsAs(c, CompileIf(sc, c, s), Next(c))
  {
    var end := |c.labels|;
    var a := AllocLabel(c);
    var c1 := CompileArm(sc, a, s.arms[0], end);
    AllocLabelGood(sc, c);
    ArmStarts(sc, a, s.arms[0], end);
    ArmGood(sc, a, s.arms[0], end);
    ArmsGood(sc, c1, s, 1, end);
    Continued(sc, a, c1, CompileArms(sc, a, s, 0, end), {}, Next(c));
  }

  lemma ArmStarts(sc: Scope, c: Builder, arm: Arm, end: Label)
    requires WellFormed(sc, c) && end < |c.labels|
    ensures StartsAs(c, CompileArm(sc, c, arm, end), Next(c))
  {
    var next := |c.labels|;
    var a := AllocLabel(c);
    var (c1, r) := CompileExpr(sc, a, arm.cond);
    var j := Emit(c1, JumpIfNot(r, next));
    AllocLabelGood(sc, c);
    ExprStarts(sc, a, arm.cond);
    ExprGood(sc, a, arm.cond);
    EmitGood(sc, c1, JumpIfNot(r, next), j);
    StmtsGood(sc, j, arm.body);
    Continued(sc, a, c1, j, {}, Next(c));
    Continued(sc, a, j, CompileStmts(sc, j, arm.body), {}, Next(c));
  }

  lemma CaseStarts(sc: Scope, c: Builder, s: Stmt)
    requires WellFormed(sc, c) && s.Case?
    ensures StartsAs(c, CompileCase(sc, c, s), Next(c))
  {
    var end := |c.labels|;
    var a := AllocLabel(c);
    var (c1, subject) := CompileExpr(sc, a, s.subject);
    AllocLabelGood(sc, c);
    ExprStarts(sc, a, s.subject);
    ExprGood(sc, a, s.subject);
    BranchesGood(sc, c1, s, 0, subject, end);
    Continued(sc, a, c1, CompileBranches(sc, c1, s, 0, subject, end), {}, Next(c));
  }

  lemma ForInitStarts(sc: Scope, c: Builder, s: Stmt)
    requires WellFormed(sc, c) && s.For?
    ensures StartsAs(c, ForInit(sc, c, s), Next(c))
  {
    var a := AllocLabel(AllocLabel(c));
    var (c1, from) := CompileExpr(sc, a, s.from);
    AllocTwoGood(sc, c);
    ExprStarts(sc, a, s.from);
    ExprGood(sc, a, s.from);
    StoreGood(sc, c1, s.variable, from, NO_SOURCE);
    Continued(sc, a, c1, StoreIfLocal(sc, c1, s.variable, from), {}, Next(c));
  }

  lemma ForStarts(sc: Scope, c: Builder, s: Stmt)
    requires WellFormed(sc, c) && s.For?
    ensures StartsAs(c, CompileFor(sc, c, s), Next(c))
  {
    var i0 := ForInit(sc, c, s);
    var (c1, cond) := ForTest(sc, i0, s);
    var exit := |c.labels| + 1;
    var j := Emit(c1, JumpIfNot(cond, exit));
    var c2 := CompileLoopBody(sc, j, s.body, exit);
    ForInitStarts(sc, c, s);
    ForInitGood(sc, c, s);
    ForTestGood(sc, i0, s);
    EmitGood(sc, c1, JumpIfNot(cond, exit), j);
    LoopBodyGood(sc, j, s.body, exit);
    ForNextGood(sc, c2, s);
    Continued(sc, c, i0, c1, {}, Next(c));
    Continued(sc, c, c1, j, {}, Next(c));
    Continued(sc, c, j, c2, {}, Next(c));
    Continued(sc, c, c2, ForNext(sc, c2, s), {}, Next(c));
  }

  lemma WhileStarts(sc: Scope, c: Builder, s: Stmt)
    requires WellFormed(sc, c) && s.While?
    ensures StartsAs(c, CompileWhile(sc, c, s), Next(c))
  {
    var h := Place(AllocLabel(AllocLabel(c)), |c.labels|);
    var (c1, cond) := CompileExpr(sc, h, s.cond);
    var j := Emit(c1, JumpIfNot(cond, |c.labels| + 1));
    LoopHeadGood(sc, c);
    ExprStarts(sc, h, s.cond);
    ExprGood(sc, h, s.cond);
    EmitGood(sc, c1, JumpIfNot(cond, |c.labels| + 1), j);
    LoopBodyGood(sc, j, s.body, |c.labels| + 1);
    Continued(sc, h, c1, j, {}, Next(c));
    Continued(sc, h, j, CompileLoopBody(sc, j, s.body, |c.labels| + 1), {}, Next(c));
  }

  lemma RepeatStarts(sc: Scope, c: Builder, s: Stmt)
    requires WellFormed(sc, c) && s.Repeat? && s.body == []
    ensures StartsAs(c, CompileRepeat(sc, c, s), Next(c))
  {
    var h := Place(AllocLabel(AllocLabel(c)), |c.labels|);
    var c1 := CompileLoopBody(sc, h, s.body, |c.labels| + 1);
    LoopHeadGood(sc, c);
    LoopBodyGood(sc, h, s.body, |c.labels| + 1);
    ExprStarts(sc, c1, s.cond);
  }

  lemma AssignStarts(sc: Scope, c: Builder, s: Stmt)
    requires WellFormed(sc, c) && s.Assign?
    ensures var (c1, r) := CompileExpr(sc, c, s.value); StartsAs(c, CompileStore(sc, c1, s.target, r, s.range), Next(c))
  {
    var (c1, r) := CompileExpr(sc, c, s.value);
    ExprStarts(sc, c, s.value);
    ExprGood(sc, c, s.value);
    StoreGood(sc, c1, s.target, r, s.range);
    Continued(sc, c, c1, CompileStore(sc, c1, s.target, r, s.range), {}, Next(c));
  }

  /** The first instruction of a statement carries the place of the statement in the source:
      that is where a breakpoint on it is put. */
  lemma StatementIsMapped(sc: Scope, c: Builder, s: Stmt)
    requires WellFormed(sc, c) && StartsItself(s)
    ensures var c' := CompileStmt(sc, c, s);
      |c.instrs| < |c'.instrs| ==> |c.instrs| < |c'.sourceMap| && c'.sourceMap[|c.instrs|] == s.range
  {
    var m := SetSource(c, s.range);
    assert WellFormed(sc, m);
    match s
    case Assign(_, _, _) => AssignStarts(sc, m, s);
    case If(_, _, _) => IfStarts(sc, m, s);
    case Case(_, _, _, _) => CaseStarts(sc, m, s);
    case For(_, _, _, _, _, _) => ForStarts(sc, m, s);
    case While(_, _, _) => WhileStarts(sc, m, s);
    case Repeat(_, _, _) => RepeatStarts(sc, m, s);
    case _ =>
  }

  lemma {:induction false} StmtsSplit(sc: Scope, c: Builder, ss: seq<Stmt>, k: nat)
    requires k <= |ss|
    ensures CompileStmts(sc, c, ss) == CompileStmts(sc, CompileStmts(sc, c, ss[..k]), ss[k..])
    decreases ss
  {
    if k > 0 {
      assert ss[..k][1..] == ss[1..][..k - 1];
      StmtsSplit(sc, CompileStmt(sc, c, ss[0]), ss[1..], k - 1);
    }
  }

  /** So it stays to the end of the list, whatever is compiled behind it. */
  lemma ListIsMapped(sc: Scope, c: Builder, ss: seq<Stmt>, k: nat)
    requires WellFormed(sc, c) && k < |ss| && StartsItself(ss[k])
    ensures var at := |CompileStmts(sc, c, ss[..k]).instrs|;
      at < |CompileStmts(sc, c, ss[..k + 1]).instrs| ==>
        at < |CompileStmts(sc, c, ss).sourceMap| && CompileStmts(sc, c, ss).sourceMap[at] == ss[k].range
  {
    var c1 := CompileStmts(sc, c, ss[..k]);
    StmtsGood(sc, c, ss[..k]);
    StmtsSplit(sc, c, ss, k);
    StmtsSplit(sc, c, ss[..k + 1], k);
    assert ss[..k + 1][..k] == ss[..k] && ss[..k + 1][k..] == [ss[k]];
    assert CompileStmts(sc, c1, [ss[k]]) == CompileStmts(sc, CompileStmt(sc, c1, ss[k]), [ss[k]][1..]);
    StatementIsMapped(sc, c1, ss[k]);
    StmtGood(sc, c1, ss[k]);
    StmtsGood(sc, CompileStmt(sc, c1, ss[k]), ss[k + 1..]);
    assert ss[k..][0] == ss[k] && ss[k..][1..] == ss[k + 1..];
  }
}
