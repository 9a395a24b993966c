/** What the results about the language say of compiled code: the compiler theorems joined to
    the concrete arithmetic of the machine. */
module Compiled {
  import opened Names
  import opened Ir
  import opened IntWidths
  import opened Ast
  import opened StSemantics
  import opened Vm
  import opened Runs
  import opened CodeRuns
  import opened Pou
  import opened VmArith
  import opened ForLoops

  /** The compiled program on the machine's own operators. */
  function PlcMachine(f: FloatUnit, p: PouDef, globals: seq<VarSlot>): Machine { MachineOf(p, globals, VmAlu(f)) }

  /** The language it implements. */
  function LangOf(f: FloatUnit, p: PouDef, globals: seq<VarSlot>): Lang {
    Lang(StOps(f), WidthsOf(Scope(Layout(p), globals)))
  }

  lemma OneStatement(g: Lang, st: Stmt, env: Env, fuel: nat)
    ensures Run(g, [st], env, false, fuel) == RunStmt(g, st, env, false, fuel)
  {
    var o := RunStmt(g, st, env, false, fuel);
    if o.Done? { assert Run(g, [st][1..], o.env, false, fuel) == Done(o.env); }
  }

  /** A compiled body of one statement stops if and only if the statement ends. */
  lemma HaltsIffEnds(f: FloatUnit, p: PouDef, globals: seq<VarSlot>, s: State, st: Stmt)
    requires AtBody(p, globals, PlcMachine(f, p, globals), s) && p.body == [st]
    ensures Halts(StepFn(PlcMachine(f, p, globals)), s) <==>
      exists fuel :: !RunStmt(LangOf(f, p, globals), st, EnvOf(Scope(Layout(p), globals), s.mem), false, fuel).OutOfFuel?
  {
    var g, env := LangOf(f, p, globals), EnvOf(Scope(Layout(p), globals), s.mem);
    VmImplementsOps(f);
    HaltsIffTerminates(p, globals, VmAlu(f), StOps(f), s);
    forall fuel: nat ensures Run(g, p.body, env, false, fuel) == RunStmt(g, st, env, false, fuel) { OneStatement(g, st, env, fuel); }
    if Terminates(g, p.body, env) {
      var fuel :| !Run(g, p.body, env, false, fuel).OutOfFuel?;
      assert !RunStmt(g, st, env, false, fuel).OutOfFuel?;
    }
    if fuel :| !RunStmt(g, st, env, false, fuel).OutOfFuel? {
      assert !Run(g, p.body, env, false, fuel).OutOfFuel?;
    }
  }

  /** The compiled FOR x := start TO b BY k DO END_FOR over a local stops if and only if b is
      below the largest value that counting by k meets in the width of x. */
  lemma EmptyLoopHalts(f: FloatUnit, p: PouDef, globals: seq<VarSlot>, s: State, st: Stmt, start: int, b: int, k: int)
    requires AtBody(p, globals, PlcMachine(f, p, globals), s) && p.body == [st]
    requires EmptyLoop(st, start, b, k) && MIN64 <= start <= MAX64 && FindSlot(Layout(p), Key(st.variable)).Some?
    ensures Halts(StepFn(PlcMachine(f, p, globals)), s) <==>
      b < Highest(start, k, Layout(p)[FindSlot(Layout(p), Key(st.variable)).value].width)
  {
    HaltsIffEnds(f, p, globals, s, st);
    LocalWidth(p, globals, st.variable);
    EmptyLoopEnds(f, LangOf(f, p, globals), st, EnvOf(Scope(Layout(p), globals), s.mem), start, b, k);
  }

  lemma LocalWidth(p: PouDef, globals: seq<VarSlot>, x: string)
    requires FindSlot(Layout(p), Key(x)).Some?
    ensures WidthOf(WidthsOf(Scope(Layout(p), globals)).locals, Key(x)) == Layout(p)[FindSlot(Layout(p), Key(x)).value].width
  {
  }

  /** The same with any body that ends normally, leaves the variable alone and moves neither
      bound nor step. */
  lemma CountingLoopHalts(f: FloatUnit, p: PouDef, globals: seq<VarSlot>, s: State, st: Stmt,
                          w: IntWidth, b: int, k: int, ok: Env -> bool, start: Value, a: int)
    requires AtBody(p, globals, PlcMachine(f, p, globals), s) && p.body == [st] && st.For?
    requires Steady(f, LangOf(f, p, globals), st, w, b, k, ok)
    requires var env := EnvOf(Scope(Layout(p), globals), s.mem);
      var e := WriteLocal(StOps(f), WidthsOf(Scope(Layout(p), globals)), env, st.variable, start);
      Eval(StOps(f), env, st.from) == Some(start) && ok(e) && Counter(f, LangOf(f, p, globals), e, st.variable, w, a)
    ensures Halts(StepFn(PlcMachine(f, p, globals)), s) <==> b < Highest(a, k, w)
  {
    var g, env := LangOf(f, p, globals), EnvOf(Scope(Layout(p), globals), s.mem);
    var e := WriteLocal(g.ops, g.widths, env, st.variable, start);
    HaltsIffEnds(f, p, globals, s, st);
    CountingLoopEnds(f, g, st, w, b, k, ok, e, a);
    StartsLoop(g, st, env, start);
  }

  lemma StartsLoop(g: Lang, st: Stmt, env: Env, start: Value)
    requires st.For? && Eval(g.ops, env, st.from) == Some(start)
    ensures (exists fuel :: !RunStmt(g, st, env, false, fuel).OutOfFuel?) <==>
      exists fuel :: !RunFor(g, st, WriteLocal(g.ops, g.widths, env, st.variable, start), fuel).OutOfFuel?
  {
    var e := WriteLocal(g.ops, g.widths, env, st.variable, start);
    if fuel: nat :| !RunStmt(g, st, env, false, fuel).OutOfFuel? { StartsWith(g, st, env, start, fuel); }
    if fuel: nat :| !RunFor(g, st, e, fuel).OutOfFuel? { StartsWith(g, st, env, start, fuel); }
  }

  lemma StartsWith(g: Lang, st: Stmt, env: Env, start: Value, fuel: nat)
    requires st.For? && Eval(g.ops, env, st.from) == Some(start)
    ensures RunStmt(g, st, env, false, fuel) == RunFor(g, st, WriteLocal(g.ops, g.widths, env, st.variable, start), fuel)
  {
  }

  /** The compiled empty FOR over a variable that is not local stops if and only if its test is
      not true at entry or its increment fails. */
  lemma UnstoredLoopHalts(f: FloatUnit, p: PouDef, globals: seq<VarSlot>, s: State, st: Stmt, start: Value)
    requires AtBody(p, globals, PlcMachine(f, p, globals), s) && p.body == [st] && st.For? && st.body == []
    requires FindSlot(Layout(p), Key(st.variable)).None?
    requires Eval(StOps(f), EnvOf(Scope(Layout(p), globals), s.mem), st.from) == Some(start)
    ensures var env := EnvOf(Scope(Layout(p), globals), s.mem);
      Halts(StepFn(PlcMachine(f, p, globals)), s) <==>
        Truth(StOps(f), Bin(StOps(f), Le, Some(Read(env, st.variable)), Eval(StOps(f), env, st.to))) != Some(true)
        || Bin(StOps(f), Add, Some(Read(env, st.variable)), StepOf(LangOf(f, p, globals), st, env)).None?
  {
    var g, env := LangOf(f, p, globals), EnvOf(Scope(Layout(p), globals), s.mem);
    HaltsIffEnds(f, p, globals, s, st);
    StartsLoop(g, st, env, start);
    assert WriteLocal(g.ops, g.widths, env, st.variable, start) == env;
    UnstoredLoopEnds(g, st, env);
  }

  /** The compiled assignment of an expression of +, - and * to a local stops with the exact
      value, modulo the width of the local, in its slot. */
  lemma AssignmentStores(f: FloatUnit, p: PouDef, globals: seq<VarSlot>, s: State, st: Stmt) returns (n: nat)
    requires AtBody(p, globals, PlcMachine(f, p, globals), s) && p.body == [st] && st.Assign?
    requires FindSlot(Layout(p), Key(st.target)).Some?
    requires !Layout(p)[FindSlot(Layout(p), Key(st.target)).value].width.NoWidth?
    requires IsRing(EnvOf(Scope(Layout(p), globals), s.mem), st.value)
    ensures var t := Steps(StepFn(PlcMachine(f, p, globals)), s, n); var i := FindSlot(Layout(p), Key(st.target)).value;
      && t.Returned? && |t.mem.locals| == |Layout(p)|
      && t.mem.locals[i] == Fit(Exact(EnvOf(Scope(Layout(p), globals), s.mem), st.value), Layout(p)[i].width)
  {
    var sc := Scope(Layout(p), globals);
    var g, env := LangOf(f, p, globals), EnvOf(sc, s.mem);
    VmImplementsOps(f);
    n := BodyRuns(p, globals, VmAlu(f), StOps(f), s, 0);
    LocalWidth(p, globals, st.target);
    OneStatement(g, st, env, 0);
    AssignmentIsExact(f, g, env, st, false, 0);
    var t := Steps(StepFn(PlcMachine(f, p, globals)), s, n);
    assert EnvOf(sc, t.mem).locals[Key(st.target)] == t.mem.locals[FindSlot(Layout(p), Key(st.target)).value];
  }
}
