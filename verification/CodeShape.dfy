/** What every piece of emitted code keeps: code already emitted stays, labels already
    placed stay, new labels get placed, and every operand is in range. */
module CodeShape {
  import opened Names
  import opened Ir
  import opened Ast
  import opened CodeGen

  predicate InstrOk(sc: Scope, i: Instr, regs: nat, labels: nat) {
    match i
    case LoadConst(d, _) => d < regs
    case LoadLocal(d, slot) => d < regs && slot < |sc.locals|
    case StoreLocal(slot, r) => r < regs && slot < |sc.locals|
    case LoadGlobal(d, slot) => d < regs && slot < |sc.globals|
    case StoreGlobal(slot, r) => r < regs && slot < |sc.globals|
    case Binary(_, d, l, r) => d < regs && l < regs && r < regs
    case Unary(_, d, r) => d < regs && r < regs
    case Jump(l) => l < labels
    case JumpIf(r, l) => r < regs && l < labels
    case JumpIfNot(r, l) => r < regs && l < labels
    case Ret(r) => r < regs
    case RetVoid => true
  }

  ghost predicate WellFormed(sc: Scope, c: Builder) {
    && |c.sourceMap| == |c.instrs|
    && (forall k {:trigger InstrOk(sc, c.instrs[k], c.nextReg, |c.labels|)} ::
          0 <= k < |c.instrs| ==> InstrOk(sc, c.instrs[k], c.nextReg, |c.labels|))
    && (forall k :: 0 <= k < |c.exits| ==> c.exits[k] < |c.labels|)
  }

  /** b continues a. Labels outside `open` keep their position, and the new ones among
      them are placed. */
  ghost predicate Ext(a: Builder, b: Builder, open: set<Label>) {
    && a.instrs <= b.instrs && a.sourceMap <= b.sourceMap
    && a.nextReg <= b.nextReg
    && |a.labels| <= |b.labels|
    && a.exits == b.exits
    && (forall l :: 0 <= l < |a.labels| && l !in open ==> b.labels[l] == a.labels[l])
    && (forall l :: |a.labels| <= l < |b.labels| && l !in open ==> b.labels[l] <= |b.instrs|)
  }

  /** A well-formed continuation. */
  ghost predicate Good(sc: Scope, a: Builder, b: Builder, open: set<Label>) {
    Ext(a, b, open) && WellFormed(sc, b)
  }

  lemma Trans(sc: Scope, a: Builder, b: Builder, c: Builder, open: set<Label>)
    requires Good(sc, a, b, open) && Good(sc, b, c, open)
    ensures Good(sc, a, c, open)
  {
  }

  /** Once its own labels are placed, a construct has no open label left. */
  lemma Close(sc: Scope, a: Builder, b: Builder, open: set<Label>)
    requires Good(sc, a, b, open)
    requires forall l :: l in open ==> |a.labels| <= l < |b.labels| && b.labels[l] <= |b.instrs|
    ensures Good(sc, a, b, {})
  {
  }

  lemma Open(sc: Scope, a: Builder, b: Builder, open: set<Label>)
    requires Good(sc, a, b, {})
    ensures Good(sc, a, b, open)
  {
  }

  lemma EmitGood(sc: Scope, c: Builder, i: Instr, c': Builder)
    requires WellFormed(sc, c) && InstrOk(sc, i, c.nextReg, |c.labels|)
    requires c' == Emit(c, i) || exists range :: c' == EmitSourced(c, i, range)
    ensures Good(sc, c, c', {})
  {
    assert c'.instrs == c.instrs + [i];
  }

  lemma AllocRegGood(sc: Scope, c: Builder)
    requires WellFormed(sc, c)
    ensures Good(sc, c, AllocReg(c), {})
  {
    forall k | 0 <= k < |c.instrs|
      ensures InstrOk(sc, c.instrs[k], c.nextReg + 1, |c.labels|)
    {
      assert InstrOk(sc, c.instrs[k], c.nextReg, |c.labels|);
    }
  }

  lemma EmitToGood(sc: Scope, c: Builder, i: Instr)
    requires WellFormed(sc, c) && InstrOk(sc, i, c.nextReg + 1, |c.labels|)
    ensures Good(sc, c, EmitTo(c, i).0, {}) && EmitTo(c, i).1 < EmitTo(c, i).0.nextReg
  {
    AllocRegGood(sc, c);
    EmitGood(sc, AllocReg(c), i, EmitTo(c, i).0);
    Trans(sc, c, AllocReg(c), EmitTo(c, i).0, {});
  }

  lemma AllocLabelGood(sc: Scope, c: Builder)
    requires WellFormed(sc, c)
    ensures Good(sc, c, AllocLabel(c), {|c.labels|})
  {
    forall k | 0 <= k < |c.instrs|
      ensures InstrOk(sc, c.instrs[k], c.nextReg, |c.labels| + 1)
    {
      assert InstrOk(sc, c.instrs[k], c.nextReg, |c.labels|);
    }
  }

  lemma AllocTwoGood(sc: Scope, c: Builder)
    requires WellFormed(sc, c)
    ensures Good(sc, c, AllocLabel(AllocLabel(c)), {|c.labels|, |c.labels| + 1})
    ensures |AllocLabel(AllocLabel(c)).labels| == |c.labels| + 2
  {
    AllocLabelGood(sc, c);
    AllocLabelGood(sc, AllocLabel(c));
  }

  lemma PlaceGood(sc: Scope, c: Builder, l: Label)
    requires WellFormed(sc, c) && l < |c.labels|
    ensures Good(sc, c, Place(c, l), {l})
    ensures Place(c, l).labels == c.labels[l := |c.instrs|]
  {
    assert Resized(c.labels, l + 1) == c.labels;
    var p := Place(c, l);
    assert |p.labels| == |c.labels|;
  }

  lemma {:induction false} ExprGood(sc: Scope, c: Builder, e: Expr)
    requires WellFormed(sc, c)
    ensures Good(sc, c, CompileExpr(sc, c, e).0, {})
    ensures CompileExpr(sc, c, e).0.labels == c.labels
    ensures c.nextReg <= CompileExpr(sc, c, e).1 < CompileExpr(sc, c, e).0.nextReg
    ensures |c.instrs| < |CompileExpr(sc, c, e).0.instrs|
    decreases e
  {
    match e
    case Lit(v) => EmitToGood(sc, c, LoadConst(c.nextReg, v));
    case Variable(n) => EmitToGood(sc, c, LoadInstr(sc, c.nextReg, n));
    case Anonymous => EmitToGood(sc, c, LoadConst(c.nextReg, Int(0)));
    case BinaryExpr(op, l, r) =>
      var (c1, left) := CompileExpr(sc, c, l);
      var (c2, right) := CompileExpr(sc, c1, r);
      ExprGood(sc, c, l);
      ExprGood(sc, c1, r);
      var i := Binary(OpcodeOf(op), c2.nextReg, left, right);
      EmitToGood(sc, c2, i);
      Trans(sc, c, c1, c2, {});
      Trans(sc, c, c2, EmitTo(c2, i).0, {});
    case UnaryExpr(op, x) =>
      var (c1, src) := CompileExpr(sc, c, x);
      ExprGood(sc, c, x);
      var i := Unary(UnaryOpcodeOf(op), c1.nextReg, src);
      EmitToGood(sc, c1, i);
      Trans(sc, c, c1, EmitTo(c1, i).0, {});
    case Paren(x) => ExprGood(sc, c, x);
  }

  lemma StoreGood(sc: Scope, c: Builder, name: string, src: Reg, range: Range)
    requires WellFormed(sc, c) && src < c.nextReg
    ensures Good(sc, c, CompileStore(sc, c, name, src, range), {})
    ensures Good(sc, c, StoreIfLocal(sc, c, name, src), {})
    ensures StoreIfLocal(sc, c, name, src).labels == c.labels
  {
    match FindSlot(sc.locals, Key(name))
    case Some(slot) =>
      EmitGood(sc, c, StoreLocal(slot, src), CompileStore(sc, c, name, src, range));
      EmitGood(sc, c, StoreLocal(slot, src), StoreIfLocal(sc, c, name, src));
    case None =>
      match FindSlot(sc.globals, Key(name))
      case Some(slot) => EmitGood(sc, c, StoreGlobal(slot, src), CompileStore(sc, c, name, src, range));
      case None =>
  }

  lemma {:induction false} StmtsGood(sc: Scope, c: Builder, ss: seq<Stmt>)
    requires WellFormed(sc, c)
    ensures Good(sc, c, CompileStmts(sc, c, ss), {})
    decreases ss, 0
  {
    if ss != [] {
      var c1 := CompileStmt(sc, c, ss[0]);
      StmtGood(sc, c, ss[0]);
      StmtsGood(sc, c1, ss[1..]);
      Trans(sc, c, c1, CompileStmts(sc, c1, ss[1..]), {});
    }
  }

  lemma {:induction false} StmtGood(sc: Scope, c0: Builder, s: Stmt)
    requires WellFormed(sc, c0)
    ensures Good(sc, c0, CompileStmt(sc, c0, s), {})
    decreases s, 2
  {
    var c := SetSource(c0, s.range);
    match s
    case Assign(range, x, e) =>
      var (c1, r) := CompileExpr(sc, c, e);
      ExprGood(sc, c, e);
      StoreGood(sc, c1, x, r, range);
      Trans(sc, c, c1, CompileStore(sc, c1, x, r, range), {});
    case If(_, _, _) => IfGood(sc, c, s);
    case Case(_, _, _, _) => CaseGood(sc, c, s);
    case For(_, _, _, _, _, _) => ForGood(sc, c, s);
    case While(_, _, _) => WhileGood(sc, c, s);
    case Repeat(_, _, _) => RepeatGood(sc, c, s);
    case Return(range) =>
      var r := c.nextReg;
      var c1 := EmitSourced(AllocReg(c), LoadConst(r, Int(0)), range);
      AllocRegGood(sc, c);
      EmitGood(sc, AllocReg(c), LoadConst(r, Int(0)), c1);
      EmitGood(sc, c1, Ret(r), Emit(c1, Ret(r)));
    case Exit(_) =>
      if c.exits != [] {
        var i := Jump(c.exits[|c.exits| - 1]);
        EmitGood(sc, c, i, Emit(c, i));
      }
    case Empty(_) =>
  }

  lemma {:induction false} IfGood(sc: Scope, c: Builder, s: Stmt)
    requires WellFormed(sc, c) && s.If?
    ensures Good(sc, c, CompileIf(sc, c, s), {})
    decreases s, 1, |s.arms| + 1
  {
    var end := |c.labels|;
    var c1 := CompileArms(sc, AllocLabel(c), s, 0, end);
    AllocLabelGood(sc, c);
    ArmsGood(sc, AllocLabel(c), s, 0, end);
    PlaceGood(sc, c1, end);
    Open(sc, AllocLabel(c), c1, {end});
    Trans(sc, c, AllocLabel(c), c1, {end});
    Trans(sc, c, c1, Place(c1, end), {end});
    Close(sc, c, Place(c1, end), {end});
  }

  lemma {:induction false} ArmsGood(sc: Scope, c: Builder, s: Stmt, i: nat, end: Label)
    requires WellFormed(sc, c) && s.If? && i <= |s.arms| && end < |c.labels|
    ensures Good(sc, c, CompileArms(sc, c, s, i, end), {})
    decreases s, 1, |s.arms| - i
  {
    if i == |s.arms| {
      StmtsGood(sc, c, s.els);
    } else {
      var c1 := CompileArm(sc, c, s.arms[i], end);
      ArmGood(sc, c, s.arms[i], end);
      ArmsGood(sc, c1, s, i + 1, end);
      Trans(sc, c, c1, CompileArms(sc, c1, s, i + 1, end), {});
    }
  }

  lemma {:induction false} ArmGood(sc: Scope, c: Builder, arm: Arm, end: Label)
    requires WellFormed(sc, c) && end < |c.labels|
    ensures Good(sc, c, CompileArm(sc, c, arm, end), {})
    decreases arm, 0
  {
    var next := |c.labels|;
    var a := AllocLabel(c);
    var (c1, r) := CompileExpr(sc, a, arm.cond);
    var c2 := Emit(c1, JumpIfNot(r, next));
    var c3 := CompileStmts(sc, c2, arm.body);
    var c4 := Emit(c3, Jump(end));
    AllocLabelGood(sc, c);
    ExprGood(sc, a, arm.cond);
    EmitGood(sc, c1, JumpIfNot(r, next), c2);
    StmtsGood(sc, c2, arm.body);
    EmitGood(sc, c3, Jump(end), c4);
    PlaceGood(sc, c4, next);
    Trans(sc, a, c1, c2, {});
    Trans(sc, a, c2, c3, {});
    Trans(sc, a, c3, c4, {});
    Open(sc, a, c4, {next});
    Trans(sc, c, a, c4, {next});
    Trans(sc, c, c4, Place(c4, next), {next});
    Close(sc, c, Place(c4, next), {next});
  }

  lemma {:induction false} CaseGood(sc: Scope, c: Builder, s: Stmt)
    requires WellFormed(sc, c) && s.Case?
    ensures Good(sc, c, CompileCase(sc, c, s), {})
    decreases s, 1, |s.branches| + 1
  {
    var end := |c.labels|;
    var a := AllocLabel(c);
    var (c1, subject) := CompileExpr(sc, a, s.subject);
    var c2 := CompileBranches(sc, c1, s, 0, subject, end);
    AllocLabelGood(sc, c);
    ExprGood(sc, a, s.subject);
    BranchesGood(sc, c1, s, 0, subject, end);
    PlaceGood(sc, c2, end);
    Trans(sc, a, c1, c2, {});
    Open(sc, a, c2, {end});
    Trans(sc, c, a, c2, {end});
    Trans(sc, c, c2, Place(c2, end), {end});
    Close(sc, c, Place(c2, end), {end});
  }

  lemma {:induction false} BranchesGood(sc: Scope, c: Builder, s: Stmt, i: nat, subject: Reg, end: Label)
    requires WellFormed(sc, c) && s.Case? && i <= |s.branches| && end < |c.labels| && subject < c.nextReg
    ensures Good(sc, c, CompileBranches(sc, c, s, i, subject, end), {})
    decreases s, 1, |s.branches| - i
  {
    if i == |s.branches| {
      StmtsGood(sc, c, s.els);
    } else {
      var c1 := CompileBranch(sc, c, s.branches[i], subject, end);
      BranchGood(sc, c, s.branches[i], subject, end);
      BranchesGood(sc, c1, s, i + 1, subject, end);
      Trans(sc, c, c1, CompileBranches(sc, c1, s, i + 1, subject, end), {});
    }
  }

  lemma BranchTestGood(sc: Scope, c: Builder, b: Branch, subject: Reg)
    requires WellFormed(sc, c) && subject < c.nextReg
    ensures var t := BranchTest(sc, c, b, subject);
            && Good(sc, c, t, {|c.labels|, |c.labels| + 1}) && |t.labels| == |c.labels| + 2
            && t.labels[|c.labels|] == |t.instrs|
  {
    var body := |c.labels|;
    var open := {body, body + 1};
    var a := AllocLabel(AllocLabel(c));
    var c1 := CompileSelectors(sc, a, b.selectors, subject, body);
    var c2 := Emit(c1, Jump(body + 1));
    AllocTwoGood(sc, c);
    SelectorsGood(sc, a, b.selectors, subject, body);
    EmitGood(sc, c1, Jump(body + 1), c2);
    PlaceGood(sc, c2, body);
    Trans(sc, a, c1, c2, {});
    Open(sc, a, c2, open);
    Trans(sc, c, a, c2, open);
    assert Good(sc, c2, Place(c2, body), open);
    Trans(sc, c, c2, Place(c2, body), open);
  }

  lemma {:induction false} BranchGood(sc: Scope, c: Builder, b: Branch, subject: Reg, end: Label)
    requires WellFormed(sc, c) && end < |c.labels| && subject < c.nextReg
    ensures Good(sc, c, CompileBranch(sc, c, b, subject, end), {})
    decreases b, 0
  {
    var body := |c.labels|;
    var next := body + 1;
    var open := {body, next};
    var c1 := BranchTest(sc, c, b, subject);
    var c2 := CompileStmts(sc, c1, b.body);
    var c3 := Emit(c2, Jump(end));
    BranchTestGood(sc, c, b, subject);
    StmtsGood(sc, c1, b.body);
    EmitGood(sc, c2, Jump(end), c3);
    PlaceGood(sc, c3, next);
    Trans(sc, c1, c2, c3, {});
    Open(sc, c1, c3, open);
    Trans(sc, c, c1, c3, open);
    assert Good(sc, c3, Place(c3, next), open);
    Trans(sc, c, c3, Place(c3, next), open);
    Close(sc, c, Place(c3, next), open);
  }

  lemma {:induction false} SelectorsGood(sc: Scope, c: Builder, sels: seq<Selector>, subject: Reg, body: Label)
    requires WellFormed(sc, c) && body < |c.labels| && subject < c.nextReg
    ensures Good(sc, c, CompileSelectors(sc, c, sels, subject, body), {})
    ensures CompileSelectors(sc, c, sels, subject, body).labels == c.labels
    decreases sels
  {
    if sels != [] {
      var c1 := CompileSelector(sc, c, sels[0], subject, body);
      SelectorGood(sc, c, sels[0], subject, body);
      SelectorsGood(sc, c1, sels[1..], subject, body);
      Trans(sc, c, c1, CompileSelectors(sc, c1, sels[1..], subject, body), {});
    }
  }

  lemma SelectorGood(sc: Scope, c: Builder, sel: Selector, subject: Reg, body: Label)
    requires WellFormed(sc, c) && body < |c.labels| && subject < c.nextReg
    ensures Good(sc, c, CompileSelector(sc, c, sel, subject, body), {})
    ensures CompileSelector(sc, c, sel, subject, body).labels == c.labels
  {
    match sel
    case Single(e) => SingleGood(sc, c, e, subject, body);
    case Interval(lo, hi) => IntervalGood(sc, c, lo, hi, subject, body);
  }

  lemma SingleGood(sc: Scope, c: Builder, e: Expr, subject: Reg, body: Label)
    requires WellFormed(sc, c) && body < |c.labels| && subject < c.nextReg
    ensures Good(sc, c, CompileSelector(sc, c, Single(e), subject, body), {})
    ensures CompileSelector(sc, c, Single(e), subject, body).labels == c.labels
  {
    var (c1, v) := CompileExpr(sc, c, e);
    var i := Binary(CmpEq, c1.nextReg, subject, v);
    var (c2, cmp) := EmitTo(c1, i);
    ExprGood(sc, c, e);
    EmitToGood(sc, c1, i);
    EmitGood(sc, c2, JumpIf(cmp, body), Emit(c2, JumpIf(cmp, body)));
    Trans(sc, c, c1, c2, {});
    Trans(sc, c, c2, Emit(c2, JumpIf(cmp, body)), {});
  }

  lemma IntervalGood(sc: Scope, c: Builder, lo: Expr, hi: Expr, subject: Reg, body: Label)
    requires WellFormed(sc, c) && body < |c.labels| && subject < c.nextReg
    ensures Good(sc, c, CompileSelector(sc, c, Interval(lo, hi), subject, body), {})
    ensures CompileSelector(sc, c, Interval(lo, hi), subject, body).labels == c.labels
  {
    var (c1, l) := CompileExpr(sc, c, lo);
    var (c2, h) := CompileExpr(sc, c1, hi);
    ExprGood(sc, c, lo);
    ExprGood(sc, c1, hi);
    Trans(sc, c, c1, c2, {});
    IntervalTestGood(sc, c2, l, h, subject, body);
    Trans(sc, c, c2, IntervalTest(c2, l, h, subject, body), {});
  }

  /** The three comparisons and the jump of a range selector. */
  function IntervalTest(c2: Builder, l: Reg, h: Reg, subject: Reg, body: Label): Builder {
    var r := c2.nextReg;
    var c3 := AllocReg(AllocReg(AllocReg(c2)));
    var c4 := Emit(c3, Binary(CmpGe, r, subject, l));
    var c5 := Emit(c4, Binary(CmpLe, r + 1, subject, h));
    var c6 := Emit(c5, Binary(OpAnd, r + 2, r, r + 1));
    Emit(c6, JumpIf(r + 2, body))
  }

  lemma IntervalTestGood(sc: Scope, c2: Builder, l: Reg, h: Reg, subject: Reg, body: Label)
    requires WellFormed(sc, c2) && body < |c2.labels| && subject < c2.nextReg && l < c2.nextReg && h < c2.nextReg
    ensures Good(sc, c2, IntervalTest(c2, l, h, subject, body), {})
  {
    var r := c2.nextReg;
    AllocRegGood(sc, c2);
    AllocRegGood(sc, AllocReg(c2));
    AllocRegGood(sc, AllocReg(AllocReg(c2)));
    var c3 := AllocReg(AllocReg(AllocReg(c2)));
    var c4 := Emit(c3, Binary(CmpGe, r, subject, l));
    var c5 := Emit(c4, Binary(CmpLe, r + 1, subject, h));
    var c6 := Emit(c5, Binary(OpAnd, r + 2, r, r + 1));
    var c7 := Emit(c6, JumpIf(r + 2, body));
    EmitGood(sc, c3, Binary(CmpGe, r, subject, l), c4);
    EmitGood(sc, c4, Binary(CmpLe, r + 1, subject, h), c5);
    EmitGood(sc, c5, Binary(OpAnd, r + 2, r, r + 1), c6);
    EmitGood(sc, c6, JumpIf(r + 2, body), c7);
    Trans(sc, c3, c4, c5, {});
    Trans(sc, c3, c5, c6, {});
    Trans(sc, c3, c6, c7, {});
  }

  lemma {:induction false} LoopBodyGood(sc: Scope, c: Builder, ss: seq<Stmt>, exit: Label)
    requires WellFormed(sc, c) && exit < |c.labels|
    ensures Good(sc, c, CompileLoopBody(sc, c, ss, exit), {})
    ensures CompileLoopBody(sc, c, ss, exit) ==
            CompileStmts(sc, PushExit(c, exit), ss).(exits := c.exits)
    decreases ss, 1
  {
    var c1 := PushExit(c, exit);
    StmtsGood(sc, c1, ss);
    var c2 := CompileStmts(sc, c1, ss);
    assert c2.exits == c.exits + [exit];
    assert c2.exits[..|c2.exits| - 1] == c.exits;
    forall k | 0 <= k < |c.exits| ensures c.exits[k] < |c2.labels| {}
  }

  lemma ForInitGood(sc: Scope, c: Builder, s: Stmt)
    requires WellFormed(sc, c) && s.For?
    ensures var open := {|c.labels|, |c.labels| + 1};
            Good(sc, c, ForInit(sc, c, s), open) && |ForInit(sc, c, s).labels| == |c.labels| + 2
  {
    var loop := |c.labels|;
    var open := {loop, loop + 1};
    var a := AllocLabel(AllocLabel(c));
    var (c1, from) := CompileExpr(sc, a, s.from);
    var c2 := StoreIfLocal(sc, c1, s.variable, from);
    AllocTwoGood(sc, c);
    ExprGood(sc, a, s.from);
    StoreGood(sc, c1, s.variable, from, NO_SOURCE);
    PlaceGood(sc, c2, loop);
    Trans(sc, a, c1, c2, {});
    Open(sc, a, c2, open);
    Trans(sc, c, a, c2, open);
    assert Good(sc, c2, Place(c2, loop), open);
    Trans(sc, c, c2, Place(c2, loop), open);
  }

  lemma ForTestGood(sc: Scope, c: Builder, s: Stmt)
    requires WellFormed(sc, c) && s.For?
    ensures Good(sc, c, ForTest(sc, c, s).0, {})
    ensures ForTest(sc, c, s).0.labels == c.labels
    ensures ForTest(sc, c, s).1 < ForTest(sc, c, s).0.nextReg
    ensures |c.instrs| < |ForTest(sc, c, s).0.instrs|
  {
    var (c1, v) := CompileLoad(sc, c, s.variable);
    EmitToGood(sc, c, LoadInstr(sc, c.nextReg, s.variable));
    var (c2, bound) := CompileExpr(sc, c1, s.to);
    ExprGood(sc, c1, s.to);
    var i := Binary(CmpLe, c2.nextReg, v, bound);
    EmitToGood(sc, c2, i);
    Trans(sc, c, c1, c2, {});
    Trans(sc, c, c2, EmitTo(c2, i).0, {});
  }

  lemma ForStepGood(sc: Scope, c: Builder, s: Stmt)
    requires WellFormed(sc, c) && s.For?
    ensures Good(sc, c, ForStep(sc, c, s).0, {})
    ensures ForStep(sc, c, s).0.labels == c.labels
    ensures c.nextReg <= ForStep(sc, c, s).1 < ForStep(sc, c, s).0.nextReg
  {
    match s.step
    case None => EmitToGood(sc, c, LoadConst(c.nextReg, Int(1)));
    case Some(e) => ExprGood(sc, c, e);
  }

  lemma ForNextGood(sc: Scope, c: Builder, s: Stmt)
    requires WellFormed(sc, c) && s.For?
    ensures Good(sc, c, ForNext(sc, c, s), {})
    ensures ForNext(sc, c, s).labels == c.labels
  {
    var (c1, inc) := ForStep(sc, c, s);
    ForStepGood(sc, c, s);
    var (c2, v) := CompileLoad(sc, c1, s.variable);
    EmitToGood(sc, c1, LoadInstr(sc, c1.nextReg, s.variable));
    var i := Binary(OpAdd, c2.nextReg, v, inc);
    var (c3, sum) := EmitTo(c2, i);
    EmitToGood(sc, c2, i);
    StoreGood(sc, c3, s.variable, sum, NO_SOURCE);
    Trans(sc, c, c1, c2, {});
    Trans(sc, c, c2, c3, {});
    Trans(sc, c, c3, ForNext(sc, c, s), {});
  }

  /** A loop: head h with its two labels, the rest up to c4, then the exit label. */
  lemma LoopCloses(sc: Scope, c: Builder, h: Builder, c4: Builder)
    requires var loop := |c.labels|;
             && Good(sc, c, h, {loop, loop + 1}) && Good(sc, h, c4, {})
             && |h.labels| == loop + 2 && h.labels[loop] <= |h.instrs|
    ensures Good(sc, c, Place(c4, |c.labels| + 1), {})
  {
    var loop := |c.labels|;
    var open := {loop, loop + 1};
    PlaceGood(sc, c4, loop + 1);
    Open(sc, h, c4, open);
    Trans(sc, c, h, c4, open);
    assert Good(sc, c4, Place(c4, loop + 1), open);
    Trans(sc, c, c4, Place(c4, loop + 1), open);
    assert c4.labels[loop] == h.labels[loop];
    Close(sc, c, Place(c4, loop + 1), open);
  }

  /** The middle of FOR and WHILE: test, JumpIfNot, body, tail, Jump back. */
  lemma LoopMiddle(sc: Scope, h: Builder, c1: Builder, j: Builder, c2: Builder, c3: Builder, c4: Builder)
    requires Good(sc, h, c1, {}) && Good(sc, c1, j, {}) && Good(sc, j, c2, {}) && Good(sc, c2, c3, {}) && Good(sc, c3, c4, {})
    ensures Good(sc, h, c4, {})
  {
    Trans(sc, h, c1, j, {});
    Trans(sc, h, j, c2, {});
    Trans(sc, h, c2, c3, {});
    Trans(sc, h, c3, c4, {});
  }

  lemma {:induction false} ForGood(sc: Scope, c: Builder, s: Stmt)
    requires WellFormed(sc, c) && s.For?
    ensures Good(sc, c, CompileFor(sc, c, s), {})
    decreases s, 1
  {
    var loop := |c.labels|;
    var exit := loop + 1;
    var i0 := ForInit(sc, c, s);
    var (c1, cond) := ForTest(sc, i0, s);
    var j := Emit(c1, JumpIfNot(cond, exit));
    var c2 := CompileLoopBody(sc, j, s.body, exit);
    var c3 := ForNext(sc, c2, s);
    var c4 := Emit(c3, Jump(loop));
    ForInitGood(sc, c, s);
    ForTestGood(sc, i0, s);
    EmitGood(sc, c1, JumpIfNot(cond, exit), j);
    LoopBodyGood(sc, j, s.body, exit);
    ForNextGood(sc, c2, s);
    EmitGood(sc, c3, Jump(loop), c4);
    LoopMiddle(sc, i0, c1, j, c2, c3, c4);
    LoopCloses(sc, c, i0, c4);
  }

  /** The two labels of WHILE and REPEAT, the loop label placed here. */
  lemma LoopHeadGood(sc: Scope, c: Builder)
    requires WellFormed(sc, c)
    ensures var loop := |c.labels|; var h := Place(AllocLabel(AllocLabel(c)), loop);
            && Good(sc, c, h, {loop, loop + 1}) && |h.labels| == loop + 2
            && h.labels[loop] == |c.instrs| && h.instrs == c.instrs
  {
    var loop := |c.labels|;
    var a := AllocLabel(AllocLabel(c));
    AllocTwoGood(sc, c);
    PlaceGood(sc, a, loop);
    assert Good(sc, a, Place(a, loop), {loop, loop + 1});
    Trans(sc, c, a, Place(a, loop), {loop, loop + 1});
  }

  lemma {:induction false} WhileGood(sc: Scope, c: Builder, s: Stmt)
    requires WellFormed(sc, c) && s.While?
    ensures Good(sc, c, CompileWhile(sc, c, s), {})
    decreases s, 1
  {
    var loop := |c.labels|;
    var exit := loop + 1;
    var h := Place(AllocLabel(AllocLabel(c)), loop);
    var (c1, cond) := CompileExpr(sc, h, s.cond);
    var j := Emit(c1, JumpIfNot(cond, exit));
    var c2 := CompileLoopBody(sc, j, s.body, exit);
    var c3 := Emit(c2, Jump(loop));
    LoopHeadGood(sc, c);
    ExprGood(sc, h, s.cond);
    EmitGood(sc, c1, JumpIfNot(cond, exit), j);
    LoopBodyGood(sc, j, s.body, exit);
    EmitGood(sc, c2, Jump(loop), c3);
    LoopMiddle(sc, h, c1, j, c2, c2, c3);
    LoopCloses(sc, c, h, c3);
  }

  lemma {:induction false} RepeatGood(sc: Scope, c: Builder, s: Stmt)
    requires WellFormed(sc, c) && s.Repeat?
    ensures Good(sc, c, CompileRepeat(sc, c, s), {})
    decreases s, 1
  {
    var loop := |c.labels|;
    var exit := loop + 1;
    var h := Place(AllocLabel(AllocLabel(c)), loop);
    var c1 := CompileLoopBody(sc, h, s.body, exit);
    var (c2, cond) := CompileExpr(sc, c1, s.cond);
    var c3 := Emit(c2, JumpIfNot(cond, loop));
    LoopHeadGood(sc, c);
    LoopBodyGood(sc, h, s.body, exit);
    ExprGood(sc, c1, s.cond);
    EmitGood(sc, c2, JumpIfNot(cond, loop), c3);
    Trans(sc, h, c1, c2, {});
    Trans(sc, h, c2, c3, {});
    LoopCloses(sc, c, h, c3);
  }
}
