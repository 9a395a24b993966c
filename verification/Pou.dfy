/** Whole POU bodies: declarations, statements, epilogue. `compile_item` builds all five
    kinds this way: PROGRAM, FUNCTION_BLOCK and class bodies end in RetVoid, FUNCTION and
    METHOD with a result in LoadLocal, Ret. */
module Pou {
  import opened Names
  import opened Ir
  import opened Ast
  import opened StSemantics
  import opened Vm
  import opened Runs
  import opened CodeGen
  import opened CodeShape
  import opened CodeRuns
  import opened CodeCorrect

  datatype VarDecl = VarDecl(slot: VarSlot, init: Option<Expr>)

  /** `registered` are declared without running their initialisers (the class variables
      a method sees); `decls` with them; `result` is the slot a FUNCTION or METHOD returns. */
  datatype PouDef = PouDef(
    registered: seq<VarDecl>, decls: seq<VarDecl>, result: Option<VarSlot>, body: seq<Stmt>)

  function Slots(decls: seq<VarDecl>): (r: seq<VarSlot>)
    ensures |r| == |decls|
  {
    seq(|decls|, i requires 0 <= i < |decls| => decls[i].slot)
  }

  /** `compile_var_blocks`: one slot per declaration, its initialiser right after it. */
  function CompileVars(locals: seq<VarSlot>, globals: seq<VarSlot>, c: Builder, decls: seq<VarDecl>): Builder
    decreases decls
  {
    if decls == [] then c
    else
      var here := locals + [decls[0].slot];
      var c1 :=
        match decls[0].init
        case None => c
        case Some(e) =>
          var (c2, r) := CompileExpr(Scope(here, globals), c, e);
          Emit(c2, StoreLocal(|locals|, r));
      CompileVars(here, globals, c1, decls[1..])
  }

  function Layout(p: PouDef): (r: seq<VarSlot>)
  {
    Slots(p.registered) + Slots(p.decls) + (if p.result.Some? then [p.result.value] else [])
  }

  /** The builder where the body starts; its instruction count is `body_start_pc`. */
  function BodyStart(p: PouDef, globals: seq<VarSlot>): Builder {
    CompileVars(Slots(p.registered), globals, EMPTY, p.decls)
  }

  function Epilogue(c: Builder, result: Option<nat>): Builder {
    match result
    case None => Emit(c, RetVoid)
    case Some(slot) => Emit(Emit(AllocReg(c), LoadLocal(c.nextReg, slot)), Ret(c.nextReg))
  }

  function ResultSlot(p: PouDef): Option<nat> {
    if p.result.Some? then Some(|p.registered| + |p.decls|) else None
  }

  function CompilePou(p: PouDef, globals: seq<VarSlot>): Builder {
    var sc := Scope(Layout(p), globals);
    Epilogue(CompileStmts(sc, BodyStart(p, globals), p.body), ResultSlot(p))
  }

  function Finish(c: Builder): Code { Code(c.instrs, c.labels) }

  // ---------------------------------------------------------------- well-formed output

  lemma MoreLocals(locals: seq<VarSlot>, more: seq<VarSlot>, globals: seq<VarSlot>, c: Builder)
    requires WellFormed(Scope(locals, globals), c) && |locals| <= |more|
    ensures WellFormed(Scope(more, globals), c)
  {
    forall k | 0 <= k < |c.instrs|
      ensures InstrOk(Scope(more, globals), c.instrs[k], c.nextReg, |c.labels|)
    {
      assert InstrOk(Scope(locals, globals), c.instrs[k], c.nextReg, |c.labels|);
    }
  }

  lemma {:induction false} VarsGood(locals: seq<VarSlot>, globals: seq<VarSlot>, c: Builder, decls: seq<VarDecl>, all: seq<VarSlot>)
    requires WellFormed(Scope(locals, globals), c) && c.labels == [] && c.exits == []
    requires |locals| + |decls| <= |all|
    ensures var c' := CompileVars(locals, globals, c, decls);
            WellFormed(Scope(all, globals), c') && c'.labels == [] && c'.exits == []
    decreases decls
  {
    if decls == [] {
      MoreLocals(locals, all, globals, c);
    } else {
      var here := locals + [decls[0].slot];
      var sc := Scope(here, globals);
      MoreLocals(locals, here, globals, c);
      match decls[0].init
      case None => VarsGood(here, globals, c, decls[1..], all);
      case Some(e) =>
        var (c2, r) := CompileExpr(sc, c, e);
        ExprGood(sc, c, e);
        EmitGood(sc, c2, StoreLocal(|locals|, r), Emit(c2, StoreLocal(|locals|, r)));
        VarsGood(here, globals, Emit(c2, StoreLocal(|locals|, r)), decls[1..], all);
    }
  }

  lemma BodyStartGood(p: PouDef, globals: seq<VarSlot>)
    ensures var c := BodyStart(p, globals);
            WellFormed(Scope(Layout(p), globals), c) && c.labels == [] && c.exits == []
  {
    VarsGood(Slots(p.registered), globals, EMPTY, p.decls, Layout(p));
  }

  /** Every finished body: all labels placed on an instruction, every operand in range, the
      source map as long as the code, and a return as the last instruction. */
  lemma PouWellFormed(p: PouDef, globals: seq<VarSlot>)
    ensures var c := CompilePou(p, globals); var sc := Scope(Layout(p), globals);
            && c.instrs != []
            && |c.sourceMap| == |c.instrs|
            && c.exits == []
            && (forall l :: 0 <= l < |c.labels| ==> c.labels[l] < |c.instrs|)
            && (forall k :: 0 <= k < |c.instrs| ==> InstrOk(sc, c.instrs[k], c.nextReg, |c.labels|))
            && (c.instrs[|c.instrs| - 1].Ret? || c.instrs[|c.instrs| - 1].RetVoid?)
  {
    var sc := Scope(Layout(p), globals);
    var c0 := BodyStart(p, globals);
    var c1 := CompileStmts(sc, c0, p.body);
    var c := CompilePou(p, globals);
    BodyStartGood(p, globals);
    StmtsGood(sc, c0, p.body);
    match ResultSlot(p)
    case None => EmitGood(sc, c1, RetVoid, c);
    case Some(slot) =>
      AllocRegGood(sc, c1);
      var c2 := Emit(AllocReg(c1), LoadLocal(c1.nextReg, slot));
      EmitGood(sc, AllocReg(c1), LoadLocal(c1.nextReg, slot), c2);
      EmitGood(sc, c2, Ret(c1.nextReg), c);
  }

  // ---------------------------------------------------------------- meaning of a body

  /** The machine of a compiled POU. */
  function MachineOf(p: PouDef, globals: seq<VarSlot>, alu: Alu): Machine {
    Machine(alu, Scope(Layout(p), globals), Finish(CompilePou(p, globals)))
  }

  function StepFn(m: Machine): Stepper { s => Step(m, s) }

  function WorldOf(m: Machine, ops: Ops): World {
    World(m, Lang(ops, WidthsOf(m.scope)), StepFn(m),
          mem => if MemOk(m.scope, mem) then EnvOf(m.scope, mem) else Env(map[], map[]))
  }

  /** EXIT outside a loop does nothing, so a body never ends as `Exited`. */
  lemma {:induction false} NoExit(g: Lang, ss: seq<Stmt>, env: Env, fuel: nat)
    ensures !Run(g, ss, env, false, fuel).Exited?
    decreases fuel, ss, 0
  {
    if ss != [] {
      NoExitStmt(g, ss[0], env, fuel);
      var o := RunStmt(g, ss[0], env, false, fuel);
      if o.Done? { NoExit(g, ss[1..], o.env, fuel); }
    }
  }

  lemma {:induction false} NoExitStmt(g: Lang, s: Stmt, env: Env, fuel: nat)
    ensures !RunStmt(g, s, env, false, fuel).Exited?
    decreases fuel, s, 2
  {
    match s
    case If(_, _, _) => NoExitArms(g, s, 0, env, fuel);
    case Case(_, _, _, _) =>
      var v := Eval(g.ops, env, s.subject);
      if v.Some? { NoExitBranches(g, s, 0, v.value, env, fuel); }
    case For(_, _, _, _, _, _) =>
      var v := Eval(g.ops, env, s.from);
      if v.Some? { LoopNoExit(g, s, WriteLocal(g.ops, g.widths, env, s.variable, v.value), fuel); }
    case While(_, _, _) => LoopNoExit(g, s, env, fuel);
    case Repeat(_, _, _) => LoopNoExit(g, s, env, fuel);
    case _ =>
  }

  lemma {:induction false} NoExitArms(g: Lang, s: Stmt, i: nat, env: Env, fuel: nat)
    requires s.If? && i <= |s.arms|
    ensures !RunArms(g, s, i, env, false, fuel).Exited?
    decreases fuel, s, 1, |s.arms| - i
  {
    if i == |s.arms| { NoExit(g, s.els, env, fuel); }
    else { NoExit(g, s.arms[i].body, env, fuel); NoExitArms(g, s, i + 1, env, fuel); }
  }

  lemma {:induction false} NoExitBranches(g: Lang, s: Stmt, i: nat, v: Value, env: Env, fuel: nat)
    requires s.Case? && i <= |s.branches|
    ensures !RunBranches(g, s, i, v, env, false, fuel).Exited?
    decreases fuel, s, 1, |s.branches| - i
  {
    if i == |s.branches| { NoExit(g, s.els, env, fuel); }
    else { NoExit(g, s.branches[i].body, env, fuel); NoExitBranches(g, s, i + 1, v, env, fuel); }
  }

  /** A loop turns EXIT into its own normal end. */
  lemma {:induction false} LoopNoExit(g: Lang, s: Stmt, env: Env, fuel: nat)
    ensures s.While? ==> !RunWhile(g, s, env, fuel).Exited?
    ensures s.Repeat? ==> !RunRepeat(g, s, env, fuel).Exited?
    ensures s.For? ==> !RunFor(g, s, env, fuel).Exited?
    decreases fuel
  {
    if fuel > 0 && (s.While? || s.Repeat? || s.For?) {
      var o := Run(g, s.body, env, true, fuel);
      if o.Done? {
        if s.For? {
          var v := Bin(g.ops, Add, Some(Read(o.env, s.variable)), StepOf(g, s, o.env));
          if v.Some? { LoopNoExit(g, s, WriteLocal(g.ops, g.widths, o.env, s.variable, v.value), fuel - 1); }
        } else {
          LoopNoExit(g, s, o.env, fuel - 1);
        }
      }
    }
  }

  /** The VM's final state says what the outcome o of the body says. */
  ghost predicate EndsAs(p: PouDef, m: Machine, t: State, o: Outcome) {
    match o
    case Done(e) =>
      && t.Returned? && MemOk(m.scope, t.mem) && EnvOf(m.scope, t.mem) == e
      && (match ResultSlot(p)
          case None => t.value == Void
          case Some(slot) => slot < |t.mem.locals| && t.value == t.mem.locals[slot])
    case Left(e) => t.Returned? && t.value == Int(0) && MemOk(m.scope, t.mem) && EnvOf(m.scope, t.mem) == e
    case Failed(e) => t.Trapped? && MemOk(m.scope, t.mem) && EnvOf(m.scope, t.mem) == e
    case Exited(_) => false
    case OutOfFuel => false
  }

  /** A frame about to run the body: any registers, memory of the right shape. */
  ghost predicate AtBody(p: PouDef, globals: seq<VarSlot>, m: Machine, s: State) {
    && s.Running? && s.pc == |BodyStart(p, globals).instrs|
    && CompilePou(p, globals).nextReg <= |s.regs| && MemOk(m.scope, s.mem)
  }

  lemma BodyReady(p: PouDef, globals: seq<VarSlot>, alu: Alu, ops: Ops, s: State)
    requires Agrees(alu, ops) && AtBody(p, globals, MachineOf(p, globals, alu), s)
    ensures var m := MachineOf(p, globals, alu); var c0 := BodyStart(p, globals);
            var c1 := CompileStmts(m.scope, c0, p.body);
            Start(WorldOf(m, ops), c0, c1, 0, s) && c0.exits == [] && c1.instrs <= m.code.instrs
  {
    var m := MachineOf(p, globals, alu);
    var c0 := BodyStart(p, globals);
    BodyStartGood(p, globals);
    StmtsGood(m.scope, c0, p.body);
  }

  /** The epilogue returns Void or the result slot. */
  lemma RunEpilogue(p: PouDef, globals: seq<VarSlot>, alu: Alu, s: State) returns (n: nat)
    requires var m := MachineOf(p, globals, alu);
             var c1 := CompileStmts(m.scope, BodyStart(p, globals), p.body);
             && s.Running? && s.pc == |c1.instrs| && CompilePou(p, globals).nextReg <= |s.regs|
             && MemOk(m.scope, s.mem)
    ensures var m := MachineOf(p, globals, alu);
            Steps(StepFn(m), s, n) ==
            Returned(match ResultSlot(p) case None => Void case Some(slot) => s.mem.locals[slot], s.mem)
  {
    var m := MachineOf(p, globals, alu);
    var c1 := CompileStmts(m.scope, BodyStart(p, globals), p.body);
    var step := StepFn(m);
    match ResultSlot(p)
    case None =>
      FetchAt(c1, CompilePou(p, globals), RetVoid, m.code.instrs);
      n := 1;
      assert Steps(step, step(s), 0) == step(s);
    case Some(slot) =>
      var c2 := Emit(AllocReg(c1), LoadLocal(c1.nextReg, slot));
      assert c2.instrs <= m.code.instrs;
      FetchAt(c1, c2, LoadLocal(c1.nextReg, slot), m.code.instrs);
      FetchAt(c2, CompilePou(p, globals), Ret(c1.nextReg), m.code.instrs);
      n := 2;
      assert Steps(step, step(step(s)), 0) == step(step(s));
      assert Steps(step, step(s), 1) == step(step(s));
  }

  lemma InsideRuns(step: Stepper, s: State, fuel: nat, lo: nat, hi: nat)
    requires Inside(step, s, fuel + 1, lo, hi)
    ensures forall k :: 0 <= k <= fuel ==> Steps(step, s, k).Running?
  {
    forall k | 0 <= k <= fuel ensures Steps(step, s, k).Running? {
      InsideAt(step, s, fuel + 1, k, lo, hi);
    }
  }

  /** After the statements, the epilogue: their outcome becomes the state the VM stops in. */
  lemma BodyEnds(p: PouDef, globals: seq<VarSlot>, alu: Alu, ops: Ops, s: State, k: nat, t: State, fuel: nat, o: Outcome)
    returns (n: nat)
    requires AtBody(p, globals, MachineOf(p, globals, alu), s) && !o.OutOfFuel? && !o.Exited?
    requires var m := MachineOf(p, globals, alu); var c0 := BodyStart(p, globals);
             Sim(WorldOf(m, ops), s, k, t, |c0.instrs|, |CompileStmts(m.scope, c0, p.body).instrs|, 0, fuel, o)
    ensures var m := MachineOf(p, globals, alu); EndsAs(p, m, Steps(StepFn(m), s, n), o)
  {
    var m := MachineOf(p, globals, alu);
    var c0 := BodyStart(p, globals);
    ReachesSteps(StepFn(m), s, k, |c0.instrs|, |CompileStmts(m.scope, c0, p.body).instrs|, t);
    n := k;
    if o.Done? {
      var more := RunEpilogue(p, globals, alu, t);
      StepsAdd(StepFn(m), s, k, more);
      n := k + more;
    }
  }

  /** Meaning preservation, source to machine: whatever outcome the statements have, the
      compiled body stops in a state that says the same. */
  lemma BodyRuns(p: PouDef, globals: seq<VarSlot>, alu: Alu, ops: Ops, s: State, fuel: nat) returns (n: nat)
    requires Agrees(alu, ops) && AtBody(p, globals, MachineOf(p, globals, alu), s)
    ensures var m := MachineOf(p, globals, alu);
            var o := Run(Lang(ops, WidthsOf(m.scope)), p.body, EnvOf(m.scope, s.mem), false, fuel);
            if o.OutOfFuel? then forall k :: 0 <= k <= fuel ==> Steps(StepFn(m), s, k).Running?
            else EndsAs(p, m, Steps(StepFn(m), s, n), o)
  {
    var m := MachineOf(p, globals, alu);
    var w := WorldOf(m, ops);
    var c0 := BodyStart(p, globals);
    BodyReady(p, globals, alu, ops, s);
    var t;
    n, t := SimStmts(w, c0, p.body, 0, s, fuel);
    var o := Run(w.g, p.body, w.abs(s.mem), false, fuel);
    NoExit(w.g, p.body, w.abs(s.mem), fuel);
    if o.OutOfFuel? {
      InsideRuns(w.step, s, fuel, |c0.instrs|, |CompileStmts(m.scope, c0, p.body).instrs|);
    } else {
      n := BodyEnds(p, globals, alu, ops, s, n, t, fuel, o);
    }
  }

  ghost predicate Halts(step: Stepper, s: State) {
    exists n :: !Steps(step, s, n).Running?
  }

  ghost predicate Terminates(g: Lang, ss: seq<Stmt>, env: Env) {
    exists fuel :: !Run(g, ss, env, false, fuel).OutOfFuel?
  }

  /** Halting agrees both ways: the compiler adds no non-termination and hides none. */
  lemma HaltsIffTerminates(p: PouDef, globals: seq<VarSlot>, alu: Alu, ops: Ops, s: State)
    requires Agrees(alu, ops) && AtBody(p, globals, MachineOf(p, globals, alu), s)
    ensures var m := MachineOf(p, globals, alu);
            Halts(StepFn(m), s) <==> Terminates(Lang(ops, WidthsOf(m.scope)), p.body, EnvOf(m.scope, s.mem))
  {
    var m := MachineOf(p, globals, alu);
    var g := Lang(ops, WidthsOf(m.scope));
    var env := EnvOf(m.scope, s.mem);
    if Terminates(g, p.body, env) {
      var fuel :| !Run(g, p.body, env, false, fuel).OutOfFuel?;
      var n := BodyRuns(p, globals, alu, ops, s, fuel);
    }
    if Halts(StepFn(m), s) {
      var n :| !Steps(StepFn(m), s, n).Running?;
      var _ := BodyRuns(p, globals, alu, ops, s, n);
    }
  }

  /** Meaning preservation, machine to source: a state in which the compiled body stops is
      the one the statements' outcome describes. */
  lemma StopsAsMeant(p: PouDef, globals: seq<VarSlot>, alu: Alu, ops: Ops, s: State, n: nat)
    requires Agrees(alu, ops) && AtBody(p, globals, MachineOf(p, globals, alu), s)
    requires !Steps(StepFn(MachineOf(p, globals, alu)), s, n).Running?
    ensures var m := MachineOf(p, globals, alu);
            var o := Run(Lang(ops, WidthsOf(m.scope)), p.body, EnvOf(m.scope, s.mem), false, n);
            EndsAs(p, m, Steps(StepFn(m), s, n), o)
  {
    var step := StepFn(MachineOf(p, globals, alu));
    var k := BodyRuns(p, globals, alu, ops, s, n);
    var t := Steps(step, s, n);
    if k <= n {
      StepsAdd(step, s, k, n - k);
      StoppedStays(step, Steps(step, s, k), n - k);
    } else {
      StepsAdd(step, s, n, k - n);
      StoppedStays(step, t, k - n);
    }
  }

  lemma LastSlotFound(before: seq<VarSlot>, last: VarSlot)
    requires FindSlot(before, Key(last.name)).None?
    ensures FindSlot(before + [last], Key(last.name)) == Some(|before|)
  {
    var all := before + [last];
    assert forall j :: 0 <= j < |before| ==> all[j] == before[j];
    assert all[|before|] == last;
  }

  /** A FUNCTION that runs to its end returns the variable of its own name, provided no
      parameter or variable declared before has that name. */
  lemma FunctionResult(p: PouDef, globals: seq<VarSlot>, m: Machine, t: State, e: Env)
    requires p.result.Some? && m.scope == Scope(Layout(p), globals)
    requires EndsAs(p, m, t, Done(e))
    requires FindSlot(Slots(p.registered) + Slots(p.decls), Key(p.result.value.name)).None?
    ensures t.value == Read(e, p.result.value.name)
  {
    LastSlotFound(Slots(p.registered) + Slots(p.decls), p.result.value);
    var k := Key(p.result.value.name);
    assert e.locals == ByName(m.scope.locals, t.mem.locals);
    assert k in e.locals;
  }
}
