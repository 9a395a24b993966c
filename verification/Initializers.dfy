/** Initial values: what the code that `compile_var_blocks` emits in front of a body, and the
    synthetic `__global_init` function (`compile.rs:370-391`), leave in the slots. */
module Initializers {
  import opened Names
  import opened Ir
  import opened Ast
  import opened StSemantics
  import opened Vm
  import opened Runs
  import opened CodeGen
  import opened CodeShape
  import opened CodeRuns
  import opened Pou

  // ---------------------------------------------------------------- expressions see a prefix

  /** Instructions of an expression: they write registers only. */
  predicate Pure(i: Instr) { i.LoadConst? || i.LoadLocal? || i.LoadGlobal? || i.Binary? || i.Unary? }

  predicate PureIn(here: Scope, i: Instr) { Pure(i) && (i.LoadLocal? ==> i.slot < |here.locals|) }

  lemma {:induction false} ExprIsPure(sc: Scope, c: Builder, e: Expr)
    ensures var c' := CompileExpr(sc, c, e).0;
      c.instrs <= c'.instrs && forall k :: |c.instrs| <= k < |c'.instrs| ==> Pure(c'.instrs[k])
    decreases e
  {
    match e
    case BinaryExpr(op, l, r) =>
      var (c1, left) := CompileExpr(sc, c, l);
      ExprIsPure(sc, c, l);
      ExprIsPure(sc, c1, r);
    case UnaryExpr(op, x) => ExprIsPure(sc, c, x);
    case Paren(x) => ExprIsPure(sc, c, x);
    case _ =>
  }

  function Visible(mem: Mem, k: nat): Mem
    requires k <= |mem.locals|
  {
    mem.(locals := mem.locals[..k])
  }

  /** The state as code that knows only the first k locals sees it. */
  function Seen(s: State, k: nat): State
    requires s.Running? && k <= |s.mem.locals|
  {
    Running(s.pc, s.regs, Visible(s.mem, k))
  }

  /** A pure instruction does the same whether or not more locals follow. */
  lemma PureStep(m: Machine, here: Scope, s: State)
    requires s.Running? && s.pc < |m.code.instrs| && PureIn(here, m.code.instrs[s.pc]) && |here.locals| <= |s.mem.locals|
    ensures var t, u := Step(m, s), Step(m.(scope := here), Seen(s, |here.locals|));
      if t.Running? then t.mem == s.mem && u == Seen(t, |here.locals|)
      else (t.Trapped? ==> t == Trapped(s.mem)) && !u.Running? && (u.Trapped? <==> t.Trapped?) && !u.Returned?
  {
  }

  /** Nor does a run of pure instructions. */
  lemma {:induction false} PureRun(m: Machine, here: Scope, s: State, n: nat, lo: nat, hi: nat, u: State) returns (t: State)
    requires s.Running? && |here.locals| <= |s.mem.locals| && hi <= |m.code.instrs|
    requires forall k :: lo <= k < hi ==> PureIn(here, m.code.instrs[k])
    requires Reaches(StepFn(m.(scope := here)), Seen(s, |here.locals|), n, lo, hi, u)
    ensures t == Steps(StepFn(m), s, n)
    ensures u.Running? ==> t.Running? && t.mem == s.mem && u == Seen(t, |here.locals|)
    ensures u.Trapped? ==> t == Trapped(s.mem)
    decreases n
  {
    var step, view := StepFn(m), StepFn(m.(scope := here));
    if n == 0 {
      t := s;
    } else {
      PureStep(m, here, s);
      var next := step(s);
      if next.Running? {
        t := PureRun(m, here, next, n - 1, lo, hi, u);
      } else {
        assert n == 1;
        t := next;
        assert Steps(step, next, 0) == next;
      }
    }
  }

  // ---------------------------------------------------------------- local variables

  /** What the initialisers of `decls` leave in the slots behind `locals`: one after another,
      each with the variables declared so far in view. `None` when one of them fails. */
  function InitMem(ops: Ops, locals: seq<VarSlot>, globals: seq<VarSlot>, mem: Mem, decls: seq<VarDecl>): (r: Option<Mem>)
    requires |locals| + |decls| <= |mem.locals| && |mem.globals| == |globals|
    ensures r.Some? ==> |r.value.locals| == |mem.locals| && r.value.globals == mem.globals
    decreases decls
  {
    if decls == [] then Some(mem)
    else
      var here := locals + [decls[0].slot];
      match decls[0].init
      case None => InitMem(ops, here, globals, mem, decls[1..])
      case Some(e) =>
        match Eval(ops, EnvOf(Scope(here, globals), Visible(mem, |here|)), e)
        case None => None
        case Some(v) =>
          InitMem(ops, here, globals, mem.(locals := mem.locals[|locals| := ops.narrow(v, decls[0].slot.width)]), decls[1..])
  }

  lemma {:induction false} VarsExtend(locals: seq<VarSlot>, globals: seq<VarSlot>, c: Builder, decls: seq<VarDecl>)
    requires WellFormed(Scope(locals, globals), c)
    ensures var c' := CompileVars(locals, globals, c, decls); c.instrs <= c'.instrs && c.nextReg <= c'.nextReg
    decreases decls
  {
    if decls != [] {
      var here := locals + [decls[0].slot];
      var sc := Scope(here, globals);
      MoreLocals(locals, here, globals, c);
      match decls[0].init
      case None => VarsExtend(here, globals, c, decls[1..]);
      case Some(e) =>
        var (c2, r) := CompileExpr(sc, c, e);
        ExprGood(sc, c, e);
        EmitGood(sc, c2, StoreLocal(|locals|, r), Emit(c2, StoreLocal(|locals|, r)));
        VarsExtend(here, globals, Emit(c2, StoreLocal(|locals|, r)), decls[1..]);
    }
  }

  /** The code of an initialiser runs in the full frame as it does with the declared prefix. */
  lemma RunInitExpr(m: Machine, ops: Ops, here: Scope, c: Builder, e: Expr, s: State) returns (n: nat, t: State)
    requires Agrees(m.alu, ops) && WellFormed(here, c) && CompileExpr(here, c, e).0.instrs <= m.code.instrs
    requires |here.locals| <= |m.scope.locals| && here.globals == m.scope.globals && MemOk(m.scope, s.mem)
    requires s.Running? && s.pc == |c.instrs| && CompileExpr(here, c, e).0.nextReg <= |s.regs|
    ensures t == Steps(StepFn(m), s, n)
    ensures var (c', r) := CompileExpr(here, c, e);
      match Eval(ops, EnvOf(here, Visible(s.mem, |here.locals|)), e)
      case None => t == Trapped(s.mem)
      case Some(v) => t.Running? && t.pc == |c'.instrs| && t.mem == s.mem && |t.regs| == |s.regs| && r < |t.regs| && t.regs[r] == v
  {
    var small := m.(scope := here);
    var w := WorldOf(small, ops);
    var (c', r) := CompileExpr(here, c, e);
    assert Sound(w);
    var u;
    n, u := RunExpr(w, c, e, Seen(s, |here.locals|));
    ExprGood(here, c, e);
    ExprIsPure(here, c, e);
    forall k | |c.instrs| <= k < |c'.instrs| ensures PureIn(here, m.code.instrs[k]) {
      assert m.code.instrs[k] == c'.instrs[k] && InstrOk(here, c'.instrs[k], c'.nextReg, |c'.labels|);
    }
    t := PureRun(m, here, s, n, |c.instrs|, |c'.instrs|, u);
  }

  /** The code in front of the body leaves what the initialisers mean, and touches no global. */
  lemma {:induction false} RunVars(m: Machine, ops: Ops, locals: seq<VarSlot>, c: Builder, decls: seq<VarDecl>, s: State)
    returns (n: nat, t: State)
    requires Agrees(m.alu, ops) && locals + Slots(decls) <= m.scope.locals && MemOk(m.scope, s.mem)
    requires WellFormed(Scope(locals, m.scope.globals), c)
    requires var c' := CompileVars(locals, m.scope.globals, c, decls);
             c'.instrs <= m.code.instrs && s.Running? && s.pc == |c.instrs| && c'.nextReg <= |s.regs|
    ensures t == Steps(StepFn(m), s, n)
    ensures match InitMem(ops, locals, m.scope.globals, s.mem, decls)
            case None => t.Trapped?
            case Some(mem) =>
              t.Running? && t.pc == |CompileVars(locals, m.scope.globals, c, decls).instrs| && t.mem == mem && |t.regs| == |s.regs|
    decreases decls
  {
    if decls == [] {
      n, t := 0, s;
    } else {
      var globals := m.scope.globals;
      var here := locals + [decls[0].slot];
      HereIsPrefix(locals, decls, m.scope.locals);
      MoreLocals(locals, here, globals, c);
      match decls[0].init
      case None => n, t := RunVars(m, ops, here, c, decls[1..], s);
      case Some(e) =>
        var n1, t1 := RunInit(m, ops, locals, c, decls, s);
        var (c2, r) := CompileExpr(Scope(here, globals), c, e);
        var c3 := Emit(c2, StoreLocal(|locals|, r));
        if Eval(ops, EnvOf(Scope(here, globals), Visible(s.mem, |here|)), e).None? {
          n, t := n1, t1;
        } else {
          ExprGood(Scope(here, globals), c, e);
          EmitGood(Scope(here, globals), c2, StoreLocal(|locals|, r), c3);
          var n2, t2 := RunVars(m, ops, here, c3, decls[1..], t1);
          StepsAdd(StepFn(m), s, n1, n2);
          n, t := n1 + n2, t2;
        }
    }
  }

  lemma HereIsPrefix(locals: seq<VarSlot>, decls: seq<VarDecl>, all: seq<VarSlot>)
    requires decls != [] && locals + Slots(decls) <= all
    ensures locals + [decls[0].slot] + Slots(decls[1..]) <= all
    ensures |locals| < |all| && all[|locals|] == decls[0].slot
  {
    assert Slots(decls) == [decls[0].slot] + Slots(decls[1..]);
    assert locals + [decls[0].slot] + Slots(decls[1..]) == locals + Slots(decls);
    assert (locals + Slots(decls))[|locals|] == decls[0].slot;
  }

  /** One initialiser: its expression, then the store. */
  lemma RunInit(m: Machine, ops: Ops, locals: seq<VarSlot>, c: Builder, decls: seq<VarDecl>, s: State)
    returns (n: nat, t: State)
    requires Agrees(m.alu, ops) && MemOk(m.scope, s.mem) && decls != [] && decls[0].init.Some?
    requires locals + Slots(decls) <= m.scope.locals && WellFormed(Scope(locals, m.scope.globals), c)
    requires var c' := CompileVars(locals, m.scope.globals, c, decls);
             c'.instrs <= m.code.instrs && s.Running? && s.pc == |c.instrs| && c'.nextReg <= |s.regs|
    ensures t == Steps(StepFn(m), s, n)
    ensures var here := locals + [decls[0].slot];
      match Eval(ops, EnvOf(Scope(here, m.scope.globals), Visible(s.mem, |here|)), decls[0].init.value)
      case None => t.Trapped?
      case Some(v) =>
        var (c2, r) := CompileExpr(Scope(here, m.scope.globals), c, decls[0].init.value);
        t.Running? && t.pc == |c2.instrs| + 1 && |t.regs| == |s.regs|
        && t.mem == s.mem.(locals := s.mem.locals[|locals| := ops.narrow(v, decls[0].slot.width)])
  {
    var globals := m.scope.globals;
    var here := locals + [decls[0].slot];
    var sc := Scope(here, globals);
    var e := decls[0].init.value;
    var (c2, r) := CompileExpr(sc, c, e);
    var c3 := Emit(c2, StoreLocal(|locals|, r));
    HereIsPrefix(locals, decls, m.scope.locals);
    MoreLocals(locals, here, globals, c);
    ExprGood(sc, c, e);
    EmitGood(sc, c2, StoreLocal(|locals|, r), c3);
    VarsExtend(here, globals, c3, decls[1..]);
    assert c2.instrs <= c3.instrs <= m.code.instrs;
    n, t := RunInitExpr(m, ops, sc, c, e, s);
    if t.Running? {
      FetchAt(c2, c3, StoreLocal(|locals|, r), m.code.instrs);
      var step := StepFn(m);
      StepsAdd(step, s, n, 1);
      assert Steps(step, step(t), 0) == step(t);
      n, t := n + 1, step(t);
    }
  }

  /** A POU run from its first instruction reaches its body with every declared variable at
      its initial value, or fails in an initialiser. */
  lemma ReachesBody(p: PouDef, globals: seq<VarSlot>, alu: Alu, ops: Ops, s: State) returns (n: nat, t: State)
    requires Agrees(alu, ops) && s.Running? && s.pc == 0 && CompilePou(p, globals).nextReg <= |s.regs|
    requires |s.mem.locals| == |Layout(p)| && |s.mem.globals| == |globals|
    ensures t == Steps(StepFn(MachineOf(p, globals, alu)), s, n)
    ensures match InitMem(ops, Slots(p.registered), globals, s.mem, p.decls)
            case None => t.Trapped?
            case Some(mem) => t.Running? && t.mem == mem && AtBody(p, globals, MachineOf(p, globals, alu), t)
  {
    var m := MachineOf(p, globals, alu);
    var c0 := BodyStart(p, globals);
    BodyStartGood(p, globals);
    StmtsGood(m.scope, c0, p.body);
    assert c0.instrs <= m.code.instrs && c0.nextReg <= CompilePou(p, globals).nextReg;
    n, t := RunVars(m, ops, Slots(p.registered), EMPTY, p.decls, s);
  }

  // ---------------------------------------------------------------- global variables

  /** An initialised global: slot, source range and expression. */
  datatype GlobalInit = GlobalInit(slot: nat, range: Range, e: Expr)

  /** The body of `__global_init`: it is compiled without any locals. */
  function CompileInits(globals: seq<VarSlot>, c: Builder, inits: seq<GlobalInit>): Builder
    decreases inits
  {
    if inits == [] then Emit(c, RetVoid)
    else
      var (c1, r) := CompileExpr(Scope([], globals), SetSource(c, inits[0].range), inits[0].e);
      CompileInits(globals, Emit(c1, StoreGlobal(inits[0].slot, r)), inits[1..])
  }

  ghost predicate SlotsExist(globals: seq<VarSlot>, inits: seq<GlobalInit>) {
    forall k :: 0 <= k < |inits| ==> inits[k].slot < |globals|
  }

  /** The generated function has no labels, its operands are in range, its source map is as
      long as the code and its last instruction returns. */
  lemma {:induction false} InitsWellFormed(globals: seq<VarSlot>, c: Builder, inits: seq<GlobalInit>)
    requires WellFormed(Scope([], globals), c) && c.labels == [] && SlotsExist(globals, inits)
    ensures var c' := CompileInits(globals, c, inits);
      && WellFormed(Scope([], globals), c') && c'.labels == []
      && c.instrs < c'.instrs && c.nextReg <= c'.nextReg && c'.instrs[|c'.instrs| - 1] == RetVoid
    decreases inits
  {
    var sc := Scope([], globals);
    if inits == [] {
      EmitGood(sc, c, RetVoid, Emit(c, RetVoid));
    } else {
      var (c1, r) := CompileExpr(sc, SetSource(c, inits[0].range), inits[0].e);
      ExprGood(sc, SetSource(c, inits[0].range), inits[0].e);
      EmitGood(sc, c1, StoreGlobal(inits[0].slot, r), Emit(c1, StoreGlobal(inits[0].slot, r)));
      InitsWellFormed(globals, Emit(c1, StoreGlobal(inits[0].slot, r)), inits[1..]);
    }
  }

  /** The globals after their initialisers, in declaration order, each narrowed to its width. */
  function InitGlobals(ops: Ops, globals: seq<VarSlot>, values: seq<Value>, inits: seq<GlobalInit>): (r: Option<seq<Value>>)
    requires |values| == |globals|
    ensures r.Some? ==> |r.value| == |values|
    decreases inits
  {
    if inits == [] then Some(values)
    else
      match Eval(ops, EnvOf(Scope([], globals), Mem([], values)), inits[0].e)
      case None => None
      case Some(v) =>
        if inits[0].slot < |globals|
        then InitGlobals(ops, globals, values[inits[0].slot := ops.narrow(v, globals[inits[0].slot].width)], inits[1..])
        else None
  }

  /** Where the code of the first initialiser ends. */
  function AfterFirst(globals: seq<VarSlot>, c: Builder, i: GlobalInit): Builder {
    var (c1, r) := CompileExpr(Scope([], globals), SetSource(c, i.range), i.e);
    Emit(c1, StoreGlobal(i.slot, r))
  }

  lemma FirstIsPart(globals: seq<VarSlot>, c: Builder, inits: seq<GlobalInit>)
    requires WellFormed(Scope([], globals), c) && c.labels == [] && SlotsExist(globals, inits) && inits != []
    ensures var c2, c' := AfterFirst(globals, c, inits[0]), CompileInits(globals, c, inits);
      && WellFormed(Scope([], globals), c2) && c2.labels == []
      && c' == CompileInits(globals, c2, inits[1..]) && c2.instrs <= c'.instrs && c2.nextReg <= c'.nextReg
  {
    var sc := Scope([], globals);
    var (c1, r) := CompileExpr(sc, SetSource(c, inits[0].range), inits[0].e);
    ExprGood(sc, SetSource(c, inits[0].range), inits[0].e);
    EmitGood(sc, c1, StoreGlobal(inits[0].slot, r), AfterFirst(globals, c, inits[0]));
    InitsWellFormed(globals, AfterFirst(globals, c, inits[0]), inits[1..]);
  }

  lemma RunReturn(m: Machine, c: Builder, s: State)
    requires m.scope.locals == [] && MemOk(m.scope, s.mem) && Emit(c, RetVoid).instrs <= m.code.instrs && s.Running? && s.pc == |c.instrs|
    ensures Steps(StepFn(m), s, 1) == Returned(Void, Mem([], s.mem.globals))
  {
    FetchAt(c, Emit(c, RetVoid), RetVoid, m.code.instrs);
    assert s.mem == Mem([], s.mem.globals);
    assert Steps(StepFn(m), StepFn(m)(s), 0) == StepFn(m)(s);
  }

  /** Running `__global_init` leaves exactly that. */
  lemma {:induction false} RunInits(m: Machine, ops: Ops, c: Builder, inits: seq<GlobalInit>, s: State) returns (n: nat, t: State)
    requires Agrees(m.alu, ops) && m.scope.locals == [] && MemOk(m.scope, s.mem) && SlotsExist(m.scope.globals, inits)
    requires WellFormed(Scope([], m.scope.globals), c) && c.labels == []
    requires var c' := CompileInits(m.scope.globals, c, inits);
             c'.instrs <= m.code.instrs && s.Running? && s.pc == |c.instrs| && c'.nextReg <= |s.regs|
    ensures t == Steps(StepFn(m), s, n)
    ensures match InitGlobals(ops, m.scope.globals, s.mem.globals, inits)
            case None => t.Trapped?
            case Some(values) => t == Returned(Void, Mem([], values))
    decreases inits
  {
    if inits == [] {
      RunReturn(m, c, s);
      n, t := 1, Steps(StepFn(m), s, 1);
    } else {
      FirstIsPart(m.scope.globals, c, inits);
      n, t := RunGlobalInit(m, ops, c, inits[0], s);
      if t.Running? {
        var more, u := RunInits(m, ops, AfterFirst(m.scope.globals, c, inits[0]), inits[1..], t);
        StepsAdd(StepFn(m), s, n, more);
        n, t := n + more, u;
      }
    }
  }

  lemma RunGlobalInit(m: Machine, ops: Ops, c: Builder, i: GlobalInit, s: State) returns (n: nat, t: State)
    requires Agrees(m.alu, ops) && m.scope.locals == [] && MemOk(m.scope, s.mem) && i.slot < |m.scope.globals|
    requires WellFormed(Scope([], m.scope.globals), c)
    requires var c2 := AfterFirst(m.scope.globals, c, i);
             c2.instrs <= m.code.instrs && s.Running? && s.pc == |c.instrs| && c2.nextReg <= |s.regs|
    ensures t == Steps(StepFn(m), s, n)
    ensures match Eval(ops, EnvOf(Scope([], m.scope.globals), Mem([], s.mem.globals)), i.e)
            case None => t.Trapped?
            case Some(v) =>
              t.Running? && t.pc == |AfterFirst(m.scope.globals, c, i).instrs| && |t.regs| == |s.regs|
              && t.mem == Mem([], s.mem.globals[i.slot := ops.narrow(v, m.scope.globals[i.slot].width)])
  {
    var sc, step := m.scope, StepFn(m);
    var c0 := SetSource(c, i.range);
    var (c1, r) := CompileExpr(sc, c0, i.e);
    var c2 := AfterFirst(sc.globals, c, i);
    assert sc == Scope([], sc.globals) && s.mem == Mem([], s.mem.globals);
    assert c1.instrs <= c2.instrs <= m.code.instrs;
    n, t := RunInitExpr(m, ops, sc, c0, i.e, s);
    if t.Running? {
      FetchAt(c1, c2, StoreGlobal(i.slot, r), m.code.instrs);
      StepsAdd(step, s, n, 1);
      assert Steps(step, step(t), 0) == step(t);
      n, t := n + 1, step(t);
    }
  }
}
