/** `FunctionCompiler` of `st-compiler/src/compile.rs`: the object that emits the code,
    its methods tied to the functions of module CodeGen. */
module FunctionCompilers {
  import opened Names
  import opened Ir
  import opened Ast
  import opened Vm
  import CodeGen
  import CodeShape
  import Pou

  class FunctionCompiler {
    var instructions: seq<Instr>
    var sourceMap: seq<Range>
    var locals: seq<VarSlot>
    var nextReg: nat
    var nextLabel: nat
    var labelPositions: seq<nat>
    var loopExitLabels: seq<Label>
    var pendingSource: Option<Range>
    const globals: seq<VarSlot>

    ghost predicate Valid() reads this { nextLabel == |labelPositions| }

    ghost function State(): CodeGen.Builder reads this {
      CodeGen.Builder(instructions, sourceMap, nextReg, labelPositions, loopExitLabels, pendingSource)
    }

    ghost function Sc(): Scope reads this { Scope(locals, globals) }

    constructor (globals: seq<VarSlot>)
      ensures Valid() && State() == CodeGen.EMPTY && Sc() == Scope([], globals)
    {
      this.globals := globals;
      instructions, sourceMap, locals := [], [], [];
      nextReg, nextLabel, labelPositions, loopExitLabels, pendingSource := 0, 0, [], [], None;
    }

    method AllocReg() returns (r: Reg)
      requires Valid()
      modifies this`nextReg
      ensures Valid() && r == old(nextReg) && State() == CodeGen.AllocReg(old(State()))
    {
      r := nextReg;
      nextReg := nextReg + 1;
    }

    method Resize(n: nat)
      modifies this`labelPositions
      ensures labelPositions == CodeGen.Resized(old(labelPositions), n)
    {
      while |labelPositions| < n
        invariant |old(labelPositions)| <= |labelPositions|
        invariant |labelPositions| <= n || labelPositions == old(labelPositions)
        invariant forall l :: 0 <= l < |old(labelPositions)| ==> labelPositions[l] == old(labelPositions)[l]
        invariant forall l :: |old(labelPositions)| <= l < |labelPositions| ==> labelPositions[l] == UNPLACED
      {
        labelPositions := labelPositions + [UNPLACED];
      }
    }

    method AllocLabel() returns (l: Label)
      requires Valid()
      modifies this`nextLabel, this`labelPositions
      ensures Valid() && l == |old(labelPositions)| && State() == CodeGen.AllocLabel(old(State()))
    {
      l := nextLabel;
      nextLabel := nextLabel + 1;
      if |labelPositions| <= l {
        Resize(l + 1);
      }
      assert labelPositions == old(labelPositions) + [UNPLACED];
    }

    method PlaceLabel(l: Label)
      modifies this`labelPositions
      ensures State() == CodeGen.Place(old(State()), l)
      ensures old(Valid()) && l < nextLabel ==> Valid()
    {
      var pos := |instructions|;
      if |labelPositions| <= l {
        Resize(l + 1);
      }
      labelPositions := labelPositions[l := pos];
    }

    method Emit(i: Instr)
      requires Valid()
      modifies this`instructions, this`sourceMap, this`pendingSource
      ensures Valid() && State() == CodeGen.Emit(old(State()), i)
    {
      if pendingSource.Some? {
        sourceMap := sourceMap + [pendingSource.value];
        pendingSource := None;
      } else {
        sourceMap := sourceMap + [CodeGen.NO_SOURCE];
      }
      instructions := instructions + [i];
    }

    method EmitSourced(i: Instr, range: Range)
      requires Valid()
      modifies this`instructions, this`sourceMap, this`pendingSource
      ensures Valid() && State() == CodeGen.EmitSourced(old(State()), i, range)
    {
      pendingSource := None;
      sourceMap := sourceMap + [range];
      instructions := instructions + [i];
    }

    method CompileLoadVariable(name: string) returns (r: Reg)
      requires Valid()
      modifies this
      ensures Valid() && Sc() == old(Sc()) && (State(), r) == CodeGen.CompileLoad(Sc(), old(State()), name)
      ensures nextLabel == old(nextLabel)
    {
      r := AllocReg();
      var slot := FindSlot(locals, Key(name));
      var global := FindSlot(globals, Key(name));
      if slot.Some? {
        Emit(LoadLocal(r, slot.value));
      } else if global.Some? {
        Emit(LoadGlobal(r, global.value));
      } else {
        Emit(LoadConst(r, Int(0)));
      }
    }

    method CompileExpression(e: Expr) returns (r: Reg)
      requires Valid()
      modifies this
      ensures Valid() && Sc() == old(Sc()) && (State(), r) == CodeGen.CompileExpr(Sc(), old(State()), e)
      ensures nextLabel == old(nextLabel)
      decreases e
    {
      match e
      case Lit(v) => r := AllocReg(); Emit(LoadConst(r, v));
      case Variable(n) => r := CompileLoadVariable(n);
      case Anonymous => r := AllocReg(); Emit(LoadConst(r, Int(0)));
      case BinaryExpr(op, left, right) =>
        var a := CompileExpression(left);
        var b := CompileExpression(right);
        r := AllocReg();
        Emit(Binary(CodeGen.OpcodeOf(op), r, a, b));
      case UnaryExpr(op, operand) =>
        var a := CompileExpression(operand);
        r := AllocReg();
        Emit(Unary(CodeGen.UnaryOpcodeOf(op), r, a));
      case Paren(inner) => r := CompileExpression(inner);
    }

    method CompileStore(target: string, src: Reg, range: Range)
      requires Valid()
      modifies this
      ensures Valid() && Sc() == old(Sc()) && State() == CodeGen.CompileStore(Sc(), old(State()), target, src, range)
      ensures nextLabel == old(nextLabel)
    {
      var slot := FindSlot(locals, Key(target));
      var global := FindSlot(globals, Key(target));
      if slot.Some? {
        EmitSourced(StoreLocal(slot.value, src), range);
      } else if global.Some? {
        EmitSourced(StoreGlobal(global.value, src), range);
      }
    }

    method StoreIfLocal(name: string, src: Reg)
      requires Valid()
      modifies this
      ensures Valid() && Sc() == old(Sc()) && State() == CodeGen.StoreIfLocal(Sc(), old(State()), name, src)
      ensures nextLabel == old(nextLabel)
    {
      var slot := FindSlot(locals, Key(name));
      if slot.Some? {
        Emit(StoreLocal(slot.value, src));
      }
    }

    /** `compile_var_blocks_inner` with `emit_init`. */
    method CompileVarBlocks(decls: seq<Pou.VarDecl>)
      requires Valid()
      modifies this
      ensures Valid() && locals == old(locals) + Pou.Slots(decls)
      ensures State() == Pou.CompileVars(old(locals), globals, old(State()), decls)
    {
      assert decls[0..] == decls;
      for i := 0 to |decls|
        invariant Valid() && locals == old(locals) + Pou.Slots(decls[..i])
        invariant Pou.CompileVars(locals, globals, State(), decls[i..])
               == Pou.CompileVars(old(locals), globals, old(State()), decls)
      {
        var decl := decls[i];
        var slot := |locals|;
        assert decls[i..][0] == decl && decls[i..][1..] == decls[i + 1..];
        assert Pou.Slots(decls[..i + 1]) == Pou.Slots(decls[..i]) + [decl.slot];
        locals := locals + [decl.slot];
        if decl.init.Some? {
          var r := CompileExpression(decl.init.value);
          Emit(StoreLocal(slot, r));
        }
      }
      assert decls[..|decls|] == decls;
    }

    /** Slots only: class variables of a method body. */
    method RegisterVarBlocks(decls: seq<Pou.VarDecl>)
      requires Valid()
      modifies this`locals
      ensures Valid() && locals == old(locals) + Pou.Slots(decls)
    {
      for i := 0 to |decls|
        invariant locals == old(locals) + Pou.Slots(decls[..i])
      {
        assert Pou.Slots(decls[..i + 1]) == Pou.Slots(decls[..i]) + [decls[i].slot];
        locals := locals + [decls[i].slot];
      }
      assert decls[..|decls|] == decls;
    }

    method CompileStatements(stmts: seq<Stmt>)
      requires Valid()
      modifies this
      ensures Valid() && Sc() == old(Sc()) && State() == CodeGen.CompileStmts(Sc(), old(State()), stmts)
      ensures nextLabel >= old(nextLabel)
      decreases stmts, 0
    {
      assert stmts[0..] == stmts;
      for i := 0 to |stmts|
        invariant Valid() && Sc() == old(Sc()) && nextLabel >= old(nextLabel)
        invariant CodeGen.CompileStmts(Sc(), State(), stmts[i..]) == CodeGen.CompileStmts(Sc(), old(State()), stmts)
      {
        assert stmts[i..][0] == stmts[i] && stmts[i..][1..] == stmts[i + 1..];
        CompileStatement(stmts[i]);
      }
    }

    method CompileStatement(s: Stmt)
      requires Valid()
      modifies this
      ensures Valid() && Sc() == old(Sc()) && State() == CodeGen.CompileStmt(Sc(), old(State()), s)
      ensures nextLabel >= old(nextLabel)
      decreases s, 2
    {
      pendingSource := Some(s.range);
      match s
      case Assign(range, target, value) =>
        var r := CompileExpression(value);
        CompileStore(target, r, range);
      case If(_, _, _) => CompileIf(s);
      case Case(_, _, _, _) => CompileCase(s);
      case For(_, _, _, _, _, _) => CompileFor(s);
      case While(_, _, _) => CompileWhile(s);
      case Repeat(_, _, _) => CompileRepeat(s);
      case Return(range) =>
        var zero := AllocReg();
        EmitSourced(LoadConst(zero, Int(0)), range);
        Emit(Ret(zero));
      case Exit(_) =>
        if loopExitLabels != [] {
          Emit(Jump(loopExitLabels[|loopExitLabels| - 1]));
        }
      case Empty(_) =>
    }

    method CompileIf(s: Stmt)
      requires Valid() && s.If?
      modifies this
      ensures Valid() && Sc() == old(Sc()) && State() == CodeGen.CompileIf(Sc(), old(State()), s)
      ensures nextLabel >= old(nextLabel)
      decreases s, 1
    {
      var endLabel := AllocLabel();
      ghost var c0 := State();
      for i := 0 to |s.arms|
        invariant Valid() && Sc() == old(Sc()) && old(nextLabel) == endLabel < nextLabel
        invariant CodeGen.CompileArms(Sc(), State(), s, i, endLabel) == CodeGen.CompileArms(Sc(), c0, s, 0, endLabel)
      {
        var arm := s.arms[i];
        var nextArm := AllocLabel();
        var cond := CompileExpression(arm.cond);
        Emit(JumpIfNot(cond, nextArm));
        CompileStatements(arm.body);
        Emit(Jump(endLabel));
        PlaceLabel(nextArm);
      }
      CompileStatements(s.els);
      PlaceLabel(endLabel);
    }

    method CompileSelector(sel: Selector, subject: Reg, body: Label)
      requires Valid()
      modifies this
      ensures Valid() && Sc() == old(Sc()) && State() == CodeGen.CompileSelector(Sc(), old(State()), sel, subject, body)
      ensures nextLabel == old(nextLabel)
    {
      match sel
      case Single(e) =>
        var v := CompileExpression(e);
        var cmp := AllocReg();
        Emit(Binary(CmpEq, cmp, subject, v));
        Emit(JumpIf(cmp, body));
      case Interval(lo, hi) =>
        var l := CompileExpression(lo);
        var h := CompileExpression(hi);
        EmitIntervalTest(l, h, subject, body);
    }

    /** The three comparisons and the jump of a range selector. */
    method EmitIntervalTest(l: Reg, h: Reg, subject: Reg, body: Label)
      requires Valid()
      modifies this
      ensures Valid() && Sc() == old(Sc()) && State() == CodeShape.IntervalTest(old(State()), l, h, subject, body)
      ensures nextLabel == old(nextLabel)
    {
      var cmpLo := AllocReg();
      var cmpHi := AllocReg();
      var both := AllocReg();
      Emit(Binary(CmpGe, cmpLo, subject, l));
      Emit(Binary(CmpLe, cmpHi, subject, h));
      Emit(Binary(OpAnd, both, cmpLo, cmpHi));
      Emit(JumpIf(both, body));
    }

    method CompileCase(s: Stmt)
      requires Valid() && s.Case?
      modifies this
      ensures Valid() && Sc() == old(Sc()) && State() == CodeGen.CompileCase(Sc(), old(State()), s)
      ensures nextLabel >= old(nextLabel)
      decreases s, 1
    {
      var endLabel := AllocLabel();
      var subject := CompileExpression(s.subject);
      ghost var c0 := State();
      for i := 0 to |s.branches|
        invariant Valid() && Sc() == old(Sc()) && old(nextLabel) == endLabel < nextLabel
        invariant CodeGen.CompileBranches(Sc(), State(), s, i, subject, endLabel)
               == CodeGen.CompileBranches(Sc(), c0, s, 0, subject, endLabel)
      {
        CompileBranch(s.branches[i], subject, endLabel);
      }
      CompileStatements(s.els);
      PlaceLabel(endLabel);
    }

    /** The selectors of one branch, each jumping to the body when it matches. */
    method CompileSelectors(sels: seq<Selector>, subject: Reg, bodyLabel: Label)
      requires Valid() && bodyLabel < nextLabel
      modifies this
      ensures Valid() && Sc() == old(Sc()) && nextLabel == old(nextLabel)
      ensures State() == CodeGen.CompileSelectors(Sc(), old(State()), sels, subject, bodyLabel)
    {
      ghost var c0 := State();
      assert sels[0..] == sels;
      for j := 0 to |sels|
        invariant Valid() && Sc() == old(Sc()) && nextLabel == old(nextLabel)
        invariant CodeGen.CompileSelectors(Sc(), State(), sels[j..], subject, bodyLabel)
               == CodeGen.CompileSelectors(Sc(), c0, sels, subject, bodyLabel)
      {
        assert sels[j..][0] == sels[j] && sels[j..][1..] == sels[j + 1..];
        CompileSelector(sels[j], subject, bodyLabel);
      }
    }

    method CompileBranch(b: Branch, subject: Reg, endLabel: Label)
      requires Valid() && endLabel < nextLabel
      modifies this
      ensures Valid() && Sc() == old(Sc()) && State() == CodeGen.CompileBranch(Sc(), old(State()), b, subject, endLabel)
      ensures nextLabel >= old(nextLabel)
      decreases b, 0
    {
      var bodyLabel := AllocLabel();
      var nextBranch := AllocLabel();
      CompileSelectors(b.selectors, subject, bodyLabel);
      Emit(Jump(nextBranch));
      PlaceLabel(bodyLabel);
      CompileStatements(b.body);
      Emit(Jump(endLabel));
      PlaceLabel(nextBranch);
    }

    /** The increment at the end of a FOR pass. */
    method CompileIncrement(s: Stmt)
      requires Valid() && s.For?
      modifies this
      ensures Valid() && Sc() == old(Sc()) && nextLabel == old(nextLabel)
      ensures State() == CodeGen.ForNext(Sc(), old(State()), s)
    {
      var inc: Reg;
      if s.step.Some? {
        inc := CompileExpression(s.step.value);
      } else {
        inc := AllocReg();
        Emit(LoadConst(inc, Int(1)));
      }
      var v := CompileLoadVariable(s.variable);
      var sum := AllocReg();
      Emit(Binary(OpAdd, sum, v, inc));
      StoreIfLocal(s.variable, sum);
    }

    method CompileFor(s: Stmt)
      requires Valid() && s.For?
      modifies this
      ensures Valid() && Sc() == old(Sc()) && State() == CodeGen.CompileFor(Sc(), old(State()), s)
      ensures nextLabel >= old(nextLabel)
      decreases s, 1
    {
      var loopLabel := AllocLabel();
      var exitLabel := AllocLabel();
      var from := CompileExpression(s.from);
      StoreIfLocal(s.variable, from);
      PlaceLabel(loopLabel);
      assert State() == CodeGen.ForInit(Sc(), old(State()), s);
      var cond := CompileForTest(s);
      Emit(JumpIfNot(cond, exitLabel));
      CompileLoopBody(s.body, exitLabel);
      assert State() == CodeGen.ForBody(Sc(), old(State()), s);
      CompileIncrement(s);
      Emit(Jump(loopLabel));
      PlaceLabel(exitLabel);
    }

    /** The test at the head of every pass. */
    method CompileForTest(s: Stmt) returns (cond: Reg)
      requires Valid() && s.For?
      modifies this
      ensures Valid() && Sc() == old(Sc()) && (State(), cond) == CodeGen.ForTest(Sc(), old(State()), s)
      ensures nextLabel == old(nextLabel)
    {
      var v := CompileLoadVariable(s.variable);
      var bound := CompileExpression(s.to);
      cond := AllocReg();
      Emit(Binary(CmpLe, cond, v, bound));
    }

    /** A loop body between push and pop of its exit label. */
    method CompileLoopBody(stmts: seq<Stmt>, exitLabel: Label)
      requires Valid()
      modifies this
      ensures Valid() && Sc() == old(Sc()) && State() == CodeGen.CompileLoopBody(Sc(), old(State()), stmts, exitLabel)
      ensures nextLabel >= old(nextLabel)
      decreases stmts, 1
    {
      loopExitLabels := loopExitLabels + [exitLabel];
      CompileStatements(stmts);
      if loopExitLabels != [] {
        loopExitLabels := loopExitLabels[..|loopExitLabels| - 1];
      }
    }

    method CompileWhile(s: Stmt)
      requires Valid() && s.While?
      modifies this
      ensures Valid() && Sc() == old(Sc()) && State() == CodeGen.CompileWhile(Sc(), old(State()), s)
      ensures nextLabel >= old(nextLabel)
      decreases s, 1
    {
      var loopLabel := AllocLabel();
      var exitLabel := AllocLabel();
      PlaceLabel(loopLabel);
      var cond := CompileExpression(s.cond);
      Emit(JumpIfNot(cond, exitLabel));
      CompileLoopBody(s.body, exitLabel);
      Emit(Jump(loopLabel));
      PlaceLabel(exitLabel);
    }

    method CompileRepeat(s: Stmt)
      requires Valid() && s.Repeat?
      modifies this
      ensures Valid() && Sc() == old(Sc()) && State() == CodeGen.CompileRepeat(Sc(), old(State()), s)
      ensures nextLabel >= old(nextLabel)
      decreases s, 1
    {
      var loopLabel := AllocLabel();
      var exitLabel := AllocLabel();
      PlaceLabel(loopLabel);
      CompileLoopBody(s.body, exitLabel);
      var cond := CompileExpression(s.cond);
      Emit(JumpIfNot(cond, loopLabel));
      PlaceLabel(exitLabel);
    }
  }

  /** The return at the end of a body. */
  method EmitEpilogue(fc: FunctionCompiler, result: Option<nat>)
    requires fc.Valid()
    modifies fc
    ensures fc.Valid() && fc.Sc() == old(fc.Sc()) && fc.State() == Pou.Epilogue(old(fc.State()), result)
  {
    match result
    case None => fc.Emit(RetVoid);
    case Some(slot) =>
      var r := fc.AllocReg();
      fc.Emit(LoadLocal(r, slot));
      fc.Emit(Ret(r));
  }

  /** `compile_item`: a fresh compiler, declarations, statements, epilogue, `finish`. */
  method CompileItem(p: Pou.PouDef, globals: seq<VarSlot>)
    returns (code: Code, registerCount: nat, sourceMap: seq<Range>, bodyStart: nat, layout: seq<VarSlot>)
    ensures var c := Pou.CompilePou(p, globals);
            && code == Pou.Finish(c) && registerCount == c.nextReg && sourceMap == c.sourceMap
            && bodyStart == |Pou.BodyStart(p, globals).instrs| && layout == Pou.Layout(p)
  {
    var fc := new FunctionCompiler(globals);
    fc.RegisterVarBlocks(p.registered);
    assert fc.locals == Pou.Slots(p.registered);
    fc.CompileVarBlocks(p.decls);
    if p.result.Some? {
      fc.locals := fc.locals + [p.result.value];
    }
    assert fc.locals == Pou.Layout(p);
    assert fc.State() == Pou.BodyStart(p, globals);
    bodyStart := |fc.instructions|;
    fc.CompileStatements(p.body);
    EmitEpilogue(fc, if p.result.Some? then Some(|p.registered| + |p.decls|) else None);
    code, registerCount, sourceMap, layout := Code(fc.instructions, fc.labelPositions), fc.nextReg, fc.sourceMap, fc.locals;
  }
}
