/** Meaning preservation: emitted code runs the way its statements mean. */
module CodeCorrect {
  import opened Names
  import opened Ir
  import opened Ast
  import opened StSemantics
  import opened Vm
  import opened Runs
  import opened CodeGen
  import opened CodeShape
  import opened CodeRuns

  /** The code built from a to b is part of the final code, its labels have their final
      positions, and x is where the innermost enclosing loop is left. */
  ghost predicate Linked(code: Code, a: Builder, b: Builder, x: nat) {
    && b.instrs <= code.instrs
    && |b.labels| <= |code.labels|
    && (forall l :: |a.labels| <= l < |b.labels| ==> code.labels[l] == b.labels[l])
    && (a.exits != [] ==>
          var l := a.exits[|a.exits| - 1];
          l < |code.labels| && code.labels[l] == x && |b.instrs| <= x)
  }

  ghost predicate Start(w: World, a: Builder, b: Builder, x: nat, s: State) {
    Ready(w, a, b, s) && Linked(w.m.code, a, b, x)
  }

  ghost predicate Lands(w: World, s: State, t: State, pc: nat, env: Env) {
    && s.Running? && t.Running? && t.pc == pc && |t.regs| == |s.regs|
    && MemOk(w.m.scope, t.mem) && w.abs(t.mem) == env
  }

  /** The run from s of the block [lo, hi) agrees with the outcome o. When o needs more
      than `fuel` loop passes, the run stays in the block for more than `fuel` steps. */
  ghost predicate Sim(w: World, s: State, n: nat, t: State, lo: nat, hi: nat, x: nat, fuel: nat, o: Outcome) {
    match o
    case Done(e) => Lands(w, s, t, hi, e) && Reaches(w.step, s, n, lo, hi, t)
    case Exited(e) => Lands(w, s, t, x, e) && Reaches(w.step, s, n, lo, hi, t)
    case Left(e) =>
      t.Returned? && t.value == Int(0) && MemOk(w.m.scope, t.mem) && w.abs(t.mem) == e
      && Reaches(w.step, s, n, lo, hi, t)
    case Failed(e) =>
      t.Trapped? && MemOk(w.m.scope, t.mem) && w.abs(t.mem) == e
      && Reaches(w.step, s, n, lo, hi, t)
    case OutOfFuel => Inside(w.step, s, fuel + 1, lo, hi)
  }

  /** A run of k steps in front of a block that ends like the enclosing one. */
  lemma Prefix(w: World, s: State, k: nat, s1: State, n: nat, t: State,
               lo1: nat, hi1: nat, lo: nat, hi: nat, x: nat, fuel1: nat, fuel: nat, o: Outcome)
    requires s.Running? && s1.Running? && |s1.regs| == |s.regs|
    requires Reaches(w.step, s, k, lo, hi, s1) && Sim(w, s1, n, t, lo1, hi1, x, fuel1, o)
    requires lo <= lo1 && hi1 <= hi && (o.Done? ==> hi1 == hi)
    requires fuel <= fuel1 + k
    ensures Sim(w, s, k + n, t, lo, hi, x, fuel, o)
  {
    if o.OutOfFuel? {
      WidenInside(w.step, s1, fuel1 + 1, lo1, hi1, lo, hi);
      ChainInside(w.step, s, k, s1, fuel1 + 1, lo, hi);
      Shorten(w.step, s, k + (fuel1 + 1), fuel + 1, lo, hi);
    } else {
      Widen(w.step, s1, n, t, lo1, hi1, lo, hi);
      Chain(w.step, s, k, s1, n, t, lo, hi);
    }
  }

  /** The same for a last part that has the block's end. */
  lemma Sequel(w: World, s: State, k: nat, s1: State, n1: nat, t1: State, lo: nat, mid: nat, hi: nat, x: nat, fuel: nat, o: Outcome)
    returns (n: nat, t: State)
    requires s.Running? && s1.Running? && |s1.regs| == |s.regs| && lo <= mid
    requires Reaches(w.step, s, k, lo, hi, s1) && Sim(w, s1, n1, t1, mid, hi, x, fuel, o)
    ensures n == k + n1 && t == t1 && Sim(w, s, n, t, lo, hi, x, fuel, o)
  {
    n, t := k + n1, t1;
    Prefix(w, s, k, s1, n1, t1, mid, hi, lo, hi, x, fuel, fuel, o);
  }

  /** A block inside a larger one whose own labels are the open ones. */
  lemma SubLink(code: Code, c: Builder, a: Builder, b: Builder, c': Builder, open: set<Label>, x: nat)
    requires Linked(code, c, c', x) && Ext(b, c', open)
    requires |c.labels| <= |a.labels| <= |b.labels| && a.exits == c.exits
    requires forall l :: l in open ==> l < |a.labels|
    ensures Linked(code, a, b, x)
  {
    forall l | |a.labels| <= l < |b.labels| ensures code.labels[l] == b.labels[l] {
      assert l !in open;
    }
  }

  // ---------------------------------------------------------------- statements

  lemma {:induction false} SimStmts(w: World, c: Builder, ss: seq<Stmt>, x: nat, s: State, fuel: nat)
    returns (n: nat, t: State)
    requires Start(w, c, CompileStmts(w.m.scope, c, ss), x, s)
    ensures Sim(w, s, n, t, |c.instrs|, |CompileStmts(w.m.scope, c, ss).instrs|, x, fuel,
                Run(w.g, ss, w.abs(s.mem), c.exits != [], fuel))
    decreases fuel, ss, 0
  {
    if ss == [] {
      n, t := 0, s;
    } else {
      var c1 := CompileStmt(w.m.scope, c, ss[0]);
      var c' := CompileStmts(w.m.scope, c1, ss[1..]);
      StmtLinks(w, c, ss, x);
      var env := w.abs(s.mem);
      var o := RunStmt(w.g, ss[0], env, c.exits != [], fuel);
      var n1, t1 := SimStmt(w, c, ss[0], x, s, fuel);
      if o.Done? {
        Widen(w.step, s, n1, t1, |c.instrs|, |c1.instrs|, |c.instrs|, |c'.instrs|);
        var n2, t2 := SimStmts(w, c1, ss[1..], x, t1, fuel);
        n, t := Sequel(w, s, n1, t1, n2, t2, |c.instrs|, |c1.instrs|, |c'.instrs|, x, fuel,
                       Run(w.g, ss[1..], o.env, c.exits != [], fuel));
      } else {
        n, t := n1, t1;
        EndsEarly(w, s, n, t, |c.instrs|, |c1.instrs|, |c'.instrs|, x, fuel, o);
      }
    }
  }

  /** An outcome that leaves a block leaves a longer one too. */
  lemma EndsEarly(w: World, s: State, n: nat, t: State, lo: nat, hi1: nat, hi: nat, x: nat, fuel: nat, o: Outcome)
    requires s.Running? && lo <= hi1 <= hi && !o.Done? && Sim(w, s, n, t, lo, hi1, x, fuel, o)
    ensures Sim(w, s, n, t, lo, hi, x, fuel, o)
  {
    assert Reaches(w.step, s, 0, lo, hi, s);
    Prefix(w, s, 0, s, n, t, lo, hi1, lo, hi, x, fuel, fuel, o);
  }

  lemma StmtLinks(w: World, c: Builder, ss: seq<Stmt>, x: nat)
    requires ss != [] && WellFormed(w.m.scope, c) && Linked(w.m.code, c, CompileStmts(w.m.scope, c, ss), x)
    ensures var c1 := CompileStmt(w.m.scope, c, ss[0]); var c' := CompileStmts(w.m.scope, c1, ss[1..]);
            && WellFormed(w.m.scope, c1) && c1.exits == c.exits
            && c.nextReg <= c1.nextReg <= c'.nextReg && c.instrs <= c1.instrs <= c'.instrs
            && Linked(w.m.code, c, c1, x) && Linked(w.m.code, c1, c', x)
  {
    var sc := w.m.scope;
    var c1 := CompileStmt(sc, c, ss[0]);
    var c' := CompileStmts(sc, c1, ss[1..]);
    StmtGood(sc, c, ss[0]);
    StmtsGood(sc, c1, ss[1..]);
    SubLink(w.m.code, c, c, c1, c', {}, x);
    SubLink(w.m.code, c, c1, c', c', {}, x);
  }

  lemma {:induction false} SimStmt(w: World, c0: Builder, st: Stmt, x: nat, s: State, fuel: nat)
    returns (n: nat, t: State)
    requires Start(w, c0, CompileStmt(w.m.scope, c0, st), x, s)
    ensures Sim(w, s, n, t, |c0.instrs|, |CompileStmt(w.m.scope, c0, st).instrs|, x, fuel,
                RunStmt(w.g, st, w.abs(s.mem), c0.exits != [], fuel))
    decreases fuel, st, 3
  {
    var c := SetSource(c0, st.range);
    var c' := CompileStmt(w.m.scope, c0, st);
    assert Start(w, c, c', x, s);
    match st
    case Assign(_, _, _) => n, t := SimAssign(w, c, st, x, s, fuel);
    case If(_, _, _) => n, t := SimIf(w, c, st, x, s, fuel);
    case Case(_, _, _, _) => n, t := SimCase(w, c, st, x, s, fuel);
    case For(_, _, _, _, _, _) => n, t := SimFor(w, c, st, x, s, fuel);
    case While(_, _, _) => n, t := SimWhile(w, c, st, x, s, fuel);
    case Repeat(_, _, _) => n, t := SimRepeat(w, c, st, x, s, fuel);
    case Return(_) => n, t := SimReturn(w, c, st, x, s, fuel);
    case Exit(_) =>
      if c.exits == [] {
        n, t := 0, s;
      } else {
        FetchAt(c, c', Jump(c.exits[|c.exits| - 1]), w.m.code.instrs);
        n, t := 1, w.step(s);
        StepIs(w, s);
        One(w.step, s, |c.instrs|, |c'.instrs|);
      }
    case Empty(_) => n, t := 0, s;
  }

  lemma SimAssign(w: World, c: Builder, st: Stmt, x: nat, s: State, fuel: nat)
    returns (n: nat, t: State)
    requires st.Assign?
    requires var (c1, r) := CompileExpr(w.m.scope, c, st.value);
             Start(w, c, CompileStore(w.m.scope, c1, st.target, r, st.range), x, s)
    ensures var (c1, r) := CompileExpr(w.m.scope, c, st.value);
            var c' := CompileStore(w.m.scope, c1, st.target, r, st.range);
            Sim(w, s, n, t, |c.instrs|, |c'.instrs|, x, fuel,
                match Eval(w.g.ops, w.abs(s.mem), st.value)
                case None => Failed(w.abs(s.mem))
                case Some(v) => Done(Write(w.g.ops, w.g.widths, w.abs(s.mem), st.target, v)))
  {
    var sc := w.m.scope;
    var (c1, r) := CompileExpr(sc, c, st.value);
    var c' := CompileStore(sc, c1, st.target, r, st.range);
    AssignLinks(sc, c, st);
    var v := Eval(w.g.ops, w.abs(s.mem), st.value);
    var n1, t1 := RunExpr(w, c, st.value, s);
    if v.None? {
      n, t := n1, t1;
      TrapEnds(w, c, c1, r, |c'.instrs|, x, fuel, s, n, t);
    } else {
      n, t := StoreValue(w, c, c1, r, v.value, st, x, fuel, s, n1, t1);
    }
  }

  /** The value is in its register: the store. */
  lemma StoreValue(w: World, c: Builder, c1: Builder, r: Reg, v: Value, st: Stmt, x: nat, fuel: nat, s: State, n1: nat, t1: State)
    returns (n: nat, t: State)
    requires st.Assign? && ValueRuns(w, c, c1, r, Some(v), s, n1, t1) && |c.instrs| <= |c1.instrs|
    requires var c' := CompileStore(w.m.scope, c1, st.target, r, st.range); Ready(w, c1, c', t1) && |c1.instrs| <= |c'.instrs|
    ensures Sim(w, s, n, t, |c.instrs|, |CompileStore(w.m.scope, c1, st.target, r, st.range).instrs|, x, fuel,
                Done(Write(w.g.ops, w.g.widths, w.abs(s.mem), st.target, v)))
  {
    var c', env := CompileStore(w.m.scope, c1, st.target, r, st.range), Write(w.g.ops, w.g.widths, w.abs(s.mem), st.target, v);
    var n2, t2 := StoreFrom(w, c1, c', r, v, st, env, t1);
    n, t := n1 + n2, t2;
    StoreEnds(w, c, c1, c', r, v, env, x, fuel, s, n1, t1, n2, t2);
  }

  lemma StoreFrom(w: World, c: Builder, c': Builder, r: Reg, v: Value, st: Stmt, env: Env, s: State) returns (n: nat, t: State)
    requires st.Assign? && c' == CompileStore(w.m.scope, c, st.target, r, st.range) && Ready(w, c, c', s)
    requires r < |s.regs| && s.regs[r] == v && env == Write(w.g.ops, w.g.widths, w.abs(s.mem), st.target, v)
    ensures StoreRuns(w, c, c', s, env, n, t)
  {
    n, t := RunStore(w, c, st.target, r, st.range, s);
  }

  lemma TrapEnds(w: World, c: Builder, c1: Builder, r: Reg, hi: nat, x: nat, fuel: nat, s: State, n: nat, t: State)
    requires ValueRuns(w, c, c1, r, None, s, n, t) && |c.instrs| <= |c1.instrs| <= hi && MemOk(w.m.scope, s.mem)
    ensures Sim(w, s, n, t, |c.instrs|, hi, x, fuel, Failed(w.abs(s.mem)))
  {
    Widen(w.step, s, n, t, |c.instrs|, |c1.instrs|, |c.instrs|, hi);
  }

  lemma StoreEnds(w: World, c: Builder, c1: Builder, c': Builder, r: Reg, v: Value, env: Env, x: nat, fuel: nat,
                  s: State, n1: nat, t1: State, n2: nat, t2: State)
    requires ValueRuns(w, c, c1, r, Some(v), s, n1, t1) && StoreRuns(w, c1, c', t1, env, n2, t2)
    requires |c.instrs| <= |c1.instrs| <= |c'.instrs|
    ensures Sim(w, s, n1 + n2, t2, |c.instrs|, |c'.instrs|, x, fuel, Done(env))
  {
    Widen(w.step, s, n1, t1, |c.instrs|, |c1.instrs|, |c.instrs|, |c'.instrs|);
    Widen(w.step, t1, n2, t2, |c1.instrs|, |c'.instrs|, |c.instrs|, |c'.instrs|);
    Chain(w.step, s, n1, t1, n2, t2, |c.instrs|, |c'.instrs|);
  }

  lemma AssignLinks(sc: Scope, c: Builder, st: Stmt)
    requires st.Assign? && WellFormed(sc, c)
    ensures var (c1, r) := CompileExpr(sc, c, st.value);
            var c' := CompileStore(sc, c1, st.target, r, st.range);
            && WellFormed(sc, c1) && r < c1.nextReg && c.nextReg <= c1.nextReg <= c'.nextReg && c.instrs <= c1.instrs <= c'.instrs
  {
    var (c1, r) := CompileExpr(sc, c, st.value);
    ExprGood(sc, c, st.value);
    StoreGood(sc, c1, st.target, r, st.range);
  }

  lemma SimReturn(w: World, c: Builder, st: Stmt, x: nat, s: State, fuel: nat)
    returns (n: nat, t: State)
    requires st.Return?
    requires Start(w, c, Emit(EmitSourced(AllocReg(c), LoadConst(c.nextReg, Int(0)), st.range), Ret(c.nextReg)), x, s)
    ensures Sim(w, s, n, t, |c.instrs|, |c.instrs| + 2, x, fuel, Left(w.abs(s.mem)))
  {
    var r := c.nextReg;
    var c1 := EmitSourced(AllocReg(c), LoadConst(r, Int(0)), st.range);
    var c' := Emit(c1, Ret(r));
    assert c1.instrs <= c'.instrs;
    FetchAt(c, c1, LoadConst(r, Int(0)), w.m.code.instrs);
    FetchAt(c1, c', Ret(r), w.m.code.instrs);
    var t1 := w.step(s);
    n, t := 2, w.step(t1);
    StepIs(w, s);
    StepIs(w, t1);
    One(w.step, s, |c.instrs|, |c'.instrs|);
    One(w.step, t1, |c.instrs|, |c'.instrs|);
    Chain(w.step, s, 1, t1, 1, t, |c.instrs|, |c'.instrs|);
  }

  /** A condition followed by JumpIfNot: a trap, a jump to the label, or on to the next
      instruction. */
  lemma RunTest(w: World, c: Builder, c1: Builder, cond: Reg, v: Option<Value>, l: Label, s: State, n: nat, t: State)
    returns (u: State)
    requires ValueRuns(w, c, c1, cond, v, s, n, t)
    requires Emit(c1, JumpIfNot(cond, l)).instrs <= w.m.code.instrs && |c.instrs| <= |c1.instrs|
    requires Sound(w) && l < |w.m.code.labels|
    ensures var c2 := Emit(c1, JumpIfNot(cond, l));
            match Truth(w.g.ops, v)
            case None => u == Trapped(s.mem) && Reaches(w.step, s, n, |c.instrs|, |c2.instrs|, u)
            case Some(b) =>
              && u.Running? && u.pc == (if b then |c2.instrs| else w.m.code.labels[l])
              && u.mem == s.mem && SameBelow(s.regs, u.regs, c.nextReg)
              && Reaches(w.step, s, n + 1, |c.instrs|, |c2.instrs|, u)
  {
    var c2 := Emit(c1, JumpIfNot(cond, l));
    if v.None? {
      u := t;
      Widen(w.step, s, n, t, |c.instrs|, |c1.instrs|, |c.instrs|, |c2.instrs|);
    } else {
      FetchAt(c1, c2, JumpIfNot(cond, l), w.m.code.instrs);
      u := w.step(t);
      StepIs(w, t);
      Then(w, c, c1, c2, s, n, t);
    }
  }

  /** An unconditional jump right after a block. */
  lemma RunJump(w: World, s: State, n: nat, t: State, lo: nat, c1: Builder, l: Label)
    returns (u: State)
    requires Reaches(w.step, s, n, lo, |c1.instrs|, t) && t.Running? && t.pc == |c1.instrs| && lo <= |c1.instrs|
    requires Sound(w) && Emit(c1, Jump(l)).instrs <= w.m.code.instrs && l < |w.m.code.labels|
    ensures u == t.(pc := w.m.code.labels[l])
    ensures Reaches(w.step, s, n + 1, lo, |c1.instrs| + 1, u)
  {
    FetchAt(c1, Emit(c1, Jump(l)), Jump(l), w.m.code.instrs);
    u := w.step(t);
    StepIs(w, t);
    Widen(w.step, s, n, t, lo, |c1.instrs|, lo, |c1.instrs| + 1);
    One(w.step, t, lo, |c1.instrs| + 1);
    Chain(w.step, s, n, t, 1, u, lo, |c1.instrs| + 1);
  }

  /** The body of an arm or branch, entered in u, and the jump to the end behind it. */
  lemma {:induction false} SimThenJump(w: World, s: State, k: nat, u: State, c2: Builder, ss: seq<Stmt>, end: Label,
                                       lo: nat, hi: nat, x: nat, fuel: nat)
    returns (n: nat, t: State)
    requires Start(w, c2, CompileStmts(w.m.scope, c2, ss), x, u)
    requires s.Running? && |u.regs| == |s.regs| && Reaches(w.step, s, k, lo, hi, u)
    requires lo <= |c2.instrs| && |CompileStmts(w.m.scope, c2, ss).instrs| < hi
    requires Emit(CompileStmts(w.m.scope, c2, ss), Jump(end)).instrs <= w.m.code.instrs
    requires end < |w.m.code.labels| && w.m.code.labels[end] == hi
    ensures Sim(w, s, n, t, lo, hi, x, fuel, Run(w.g, ss, w.abs(u.mem), c2.exits != [], fuel))
    decreases fuel, ss, 1
  {
    var c3 := CompileStmts(w.m.scope, c2, ss);
    StmtsGood(w.m.scope, c2, ss);
    n, t := SimStmts(w, c2, ss, x, u, fuel);
    var o := Run(w.g, ss, w.abs(u.mem), c2.exits != [], fuel);
    if o.Done? {
      var t3 := RunJump(w, u, n, t, |c2.instrs|, c3, end);
      Widen(w.step, u, n + 1, t3, |c2.instrs|, |c3.instrs| + 1, lo, hi);
      Chain(w.step, s, k, u, n + 1, t3, lo, hi);
      n, t := k + (n + 1), t3;
    } else {
      Prefix(w, s, k, u, n, t, |c2.instrs|, |c3.instrs|, lo, hi, x, fuel, fuel, o);
      n := k + n;
    }
  }

  // ---------------------------------------------------------------- IF

  lemma {:induction false} SimIf(w: World, c: Builder, st: Stmt, x: nat, s: State, fuel: nat)
    returns (n: nat, t: State)
    requires st.If? && Start(w, c, CompileIf(w.m.scope, c, st), x, s)
    ensures Sim(w, s, n, t, |c.instrs|, |CompileIf(w.m.scope, c, st).instrs|, x, fuel,
                RunArms(w.g, st, 0, w.abs(s.mem), c.exits != [], fuel))
    decreases fuel, st, 2, |st.arms| + 1
  {
    var sc := w.m.scope;
    var end := |c.labels|;
    var a := AllocLabel(c);
    var c1 := CompileArms(sc, a, st, 0, end);
    var c' := Place(c1, end);
    AllocLabelGood(sc, c);
    ArmsGood(sc, a, st, 0, end);
    PlaceGood(sc, c1, end);
    SubLink(w.m.code, c, a, c1, c', {end}, x);
    n, t := SimArms(w, a, st, 0, end, x, s, fuel);
  }

  /** Arms from i on; `end` is the label of the end of the whole IF. */
  lemma {:induction false} SimArms(w: World, c: Builder, st: Stmt, i: nat, end: Label, x: nat, s: State, fuel: nat)
    returns (n: nat, t: State)
    requires st.If? && i <= |st.arms| && end < |c.labels|
    requires Start(w, c, CompileArms(w.m.scope, c, st, i, end), x, s)
    requires end < |w.m.code.labels| && w.m.code.labels[end] == |CompileArms(w.m.scope, c, st, i, end).instrs|
    ensures Sim(w, s, n, t, |c.instrs|, |CompileArms(w.m.scope, c, st, i, end).instrs|, x, fuel,
                RunArms(w.g, st, i, w.abs(s.mem), c.exits != [], fuel))
    decreases fuel, st, 2, |st.arms| - i
  {
    var sc := w.m.scope;
    if i == |st.arms| {
      n, t := SimStmts(w, c, st.els, x, s, fuel);
    } else {
      var arm := st.arms[i];
      var c1 := CompileArm(sc, c, arm, end);
      var c' := CompileArms(sc, c1, st, i + 1, end);
      ArmLinks(w, c, st, i, end, x);
      var env := w.abs(s.mem);
      var n1, t1 := SimArm(w, c, arm, end, |c'.instrs|, x, s, fuel);
      n, t := n1, t1;
      if Truth(w.g.ops, Eval(w.g.ops, env, arm.cond)) == Some(false) {
        var n2, t2 := SimArms(w, c1, st, i + 1, end, x, t1, fuel);
        n, t := Sequel(w, s, n1, t1, n2, t2, |c.instrs|, |c1.instrs|, |c'.instrs|, x, fuel,
                       RunArms(w.g, st, i + 1, env, c.exits != [], fuel));
      }
    }
  }

  lemma ArmLinks(w: World, c: Builder, st: Stmt, i: nat, end: Label, x: nat)
    requires st.If? && i < |st.arms| && end < |c.labels| && WellFormed(w.m.scope, c)
    requires Linked(w.m.code, c, CompileArms(w.m.scope, c, st, i, end), x)
    ensures var c1 := CompileArm(w.m.scope, c, st.arms[i], end); var c' := CompileArms(w.m.scope, c1, st, i + 1, end);
            && WellFormed(w.m.scope, c1) && c1.exits == c.exits && |c.labels| <= |c1.labels|
            && c.nextReg <= c1.nextReg <= c'.nextReg && c.instrs <= c1.instrs <= c'.instrs
            && Linked(w.m.code, c, c1, x) && Linked(w.m.code, c1, c', x)
  {
    var sc := w.m.scope;
    var c1 := CompileArm(sc, c, st.arms[i], end);
    var c' := CompileArms(sc, c1, st, i + 1, end);
    ArmGood(sc, c, st.arms[i], end);
    ArmsGood(sc, c1, st, i + 1, end);
    SubLink(w.m.code, c, c, c1, c', {}, x);
    SubLink(w.m.code, c, c1, c', c', {}, x);
  }

  lemma ArmParts(w: World, c: Builder, arm: Arm, end: Label, x: nat)
    requires end < |c.labels| && WellFormed(w.m.scope, c) && Linked(w.m.code, c, CompileArm(w.m.scope, c, arm, end), x)
    ensures var next := |c.labels|; var a := AllocLabel(c); var (c1, r) := CompileExpr(w.m.scope, a, arm.cond);
            var c2 := Emit(c1, JumpIfNot(r, next)); var c3 := CompileStmts(w.m.scope, c2, arm.body);
            var c4 := Emit(c3, Jump(end)); var c' := CompileArm(w.m.scope, c, arm, end);
            && WellFormed(w.m.scope, a) && WellFormed(w.m.scope, c1) && WellFormed(w.m.scope, c2)
            && r < c1.nextReg && a.nextReg <= c1.nextReg == c2.nextReg <= c3.nextReg == c4.nextReg == c'.nextReg
            && c.instrs == a.instrs <= c1.instrs <= c2.instrs <= c3.instrs <= c4.instrs == c'.instrs && c2.exits == c.exits
            && Linked(w.m.code, c2, c3, x) && next < |w.m.code.labels| && w.m.code.labels[next] == |c'.instrs|
  {
    var sc := w.m.scope;
    var next := |c.labels|;
    var a := AllocLabel(c);
    var (c1, r) := CompileExpr(sc, a, arm.cond);
    var c2 := Emit(c1, JumpIfNot(r, next));
    var c3 := CompileStmts(sc, c2, arm.body);
    var c4 := Emit(c3, Jump(end));
    var c' := Place(c4, next);
    AllocLabelGood(sc, c);
    ExprGood(sc, a, arm.cond);
    EmitGood(sc, c1, JumpIfNot(r, next), c2);
    StmtsGood(sc, c2, arm.body);
    EmitGood(sc, c3, Jump(end), c4);
    PlaceGood(sc, c4, next);
    Open(sc, c3, c4, {next});
    Trans(sc, c3, c4, c', {next});
    SubLink(w.m.code, c, c2, c3, c', {next}, x);
  }

  lemma {:induction false} SimArm(w: World, c: Builder, arm: Arm, end: Label, hi: nat, x: nat, s: State, fuel: nat)
    returns (n: nat, t: State)
    requires end < |c.labels| && Start(w, c, CompileArm(w.m.scope, c, arm, end), x, s)
    requires end < |w.m.code.labels| && w.m.code.labels[end] == hi && |CompileArm(w.m.scope, c, arm, end).instrs| <= hi
    ensures var env := w.abs(s.mem); var c' := CompileArm(w.m.scope, c, arm, end);
            match Truth(w.g.ops, Eval(w.g.ops, env, arm.cond))
            case None => Sim(w, s, n, t, |c.instrs|, hi, x, fuel, Failed(env))
            case Some(true) => Sim(w, s, n, t, |c.instrs|, hi, x, fuel, Run(w.g, arm.body, env, c.exits != [], fuel))
            case Some(false) => Lands(w, s, t, |c'.instrs|, env) && Reaches(w.step, s, n, |c.instrs|, hi, t)
    decreases fuel, arm, 0
  {
    var sc := w.m.scope;
    var next := |c.labels|;
    var a := AllocLabel(c);
    var (c1, r) := CompileExpr(sc, a, arm.cond);
    var c2 := Emit(c1, JumpIfNot(r, next));
    var c3 := CompileStmts(sc, c2, arm.body);
    var c4 := Emit(c3, Jump(end));
    ArmParts(w, c, arm, end, x);
    var env := w.abs(s.mem);
    var n1, t1 := RunExpr(w, a, arm.cond, s);
    var v := Eval(w.g.ops, env, arm.cond);
    var u := RunTest(w, a, c1, r, v, next, s, n1, t1);
    Widen(w.step, s, if v.None? then n1 else n1 + 1, u, |c.instrs|, |c2.instrs|, |c.instrs|, hi);
    match Truth(w.g.ops, v)
    case None => n, t := n1, u;
    case Some(false) => n, t := n1 + 1, u;
    case Some(true) => n, t := SimThenJump(w, s, n1 + 1, u, c2, arm.body, end, |c.instrs|, hi, x, fuel);
  }

  // ---------------------------------------------------------------- CASE

  lemma {:induction false} SimCase(w: World, c: Builder, st: Stmt, x: nat, s: State, fuel: nat)
    returns (n: nat, t: State)
    requires st.Case? && Start(w, c, CompileCase(w.m.scope, c, st), x, s)
    ensures Sim(w, s, n, t, |c.instrs|, |CompileCase(w.m.scope, c, st).instrs|, x, fuel,
                match Eval(w.g.ops, w.abs(s.mem), st.subject)
                case None => Failed(w.abs(s.mem))
                case Some(v) => RunBranches(w.g, st, 0, v, w.abs(s.mem), c.exits != [], fuel))
    decreases fuel, st, 2, |st.branches| + 1
  {
    var end := |c.labels|;
    var a := AllocLabel(c);
    var (c1, subject) := CompileExpr(w.m.scope, a, st.subject);
    var c' := CompileCase(w.m.scope, c, st);
    CaseLinks(w, c, st, x);
    var env := w.abs(s.mem);
    n, t := RunExpr(w, a, st.subject, s);
    Widen(w.step, s, n, t, |c.instrs|, |c1.instrs|, |c.instrs|, |c'.instrs|);
    var v := Eval(w.g.ops, env, st.subject);
    if v.Some? {
      var n2, t2 := SimBranches(w, c1, st, 0, v.value, subject, end, x, t, fuel);
      n, t := Sequel(w, s, n, t, n2, t2, |c.instrs|, |c1.instrs|, |c'.instrs|, x, fuel,
                     RunBranches(w.g, st, 0, v.value, env, c.exits != [], fuel));
    }
  }

  lemma CaseLinks(w: World, c: Builder, st: Stmt, x: nat)
    requires st.Case? && WellFormed(w.m.scope, c) && Linked(w.m.code, c, CompileCase(w.m.scope, c, st), x)
    ensures var a := AllocLabel(c); var end := |c.labels|;
            var (c1, subject) := CompileExpr(w.m.scope, a, st.subject);
            var c2 := CompileBranches(w.m.scope, c1, st, 0, subject, end);
            var c' := CompileCase(w.m.scope, c, st);
            && WellFormed(w.m.scope, a) && WellFormed(w.m.scope, c1) && a.instrs == c.instrs
            && subject < c1.nextReg && c1.exits == c.exits && end < |c1.labels|
            && a.nextReg <= c1.nextReg <= c2.nextReg == c'.nextReg
            && c.instrs <= c1.instrs <= c2.instrs == c'.instrs
            && end < |w.m.code.labels| && w.m.code.labels[end] == |c2.instrs|
            && Linked(w.m.code, c1, c2, x)
  {
    var sc := w.m.scope;
    var end := |c.labels|;
    var a := AllocLabel(c);
    var (c1, subject) := CompileExpr(sc, a, st.subject);
    var c2 := CompileBranches(sc, c1, st, 0, subject, end);
    var c' := Place(c2, end);
    AllocLabelGood(sc, c);
    ExprGood(sc, a, st.subject);
    BranchesGood(sc, c1, st, 0, subject, end);
    PlaceGood(sc, c2, end);
    assert c1.instrs <= c2.instrs == c'.instrs;
    SubLink(w.m.code, c, c1, c2, c', {end}, x);
  }

  lemma {:induction false} SimBranches(w: World, c: Builder, st: Stmt, i: nat, v: Value, subject: Reg, end: Label,
                                       x: nat, s: State, fuel: nat)
    returns (n: nat, t: State)
    requires st.Case? && i <= |st.branches| && end < |c.labels| && subject < c.nextReg
    requires Start(w, c, CompileBranches(w.m.scope, c, st, i, subject, end), x, s)
    requires subject < |s.regs| && s.regs[subject] == v
    requires end < |w.m.code.labels| && w.m.code.labels[end] == |CompileBranches(w.m.scope, c, st, i, subject, end).instrs|
    ensures Sim(w, s, n, t, |c.instrs|, |CompileBranches(w.m.scope, c, st, i, subject, end).instrs|, x, fuel,
                RunBranches(w.g, st, i, v, w.abs(s.mem), c.exits != [], fuel))
    decreases fuel, st, 2, |st.branches| - i
  {
    if i == |st.branches| {
      n, t := SimStmts(w, c, st.els, x, s, fuel);
    } else {
      var b := st.branches[i];
      var c1 := CompileBranch(w.m.scope, c, b, subject, end);
      var c' := CompileBranches(w.m.scope, c1, st, i + 1, subject, end);
      BranchLinks(w, c, st, i, subject, end, x);
      var n1, t1 := SimBranch(w, c, b, v, subject, end, |c'.instrs|, x, s, fuel);
      n, t := n1, t1;
      if SelectsAny(w.g.ops, w.abs(s.mem), v, b.selectors) == Some(false) {
        var n2, t2 := SimBranches(w, c1, st, i + 1, v, subject, end, x, t1, fuel);
        n, t := Sequel(w, s, n1, t1, n2, t2, |c.instrs|, |c1.instrs|, |c'.instrs|, x, fuel,
                       RunBranches(w.g, st, i + 1, v, w.abs(s.mem), c.exits != [], fuel));
      }
    }
  }

  lemma BranchLinks(w: World, c: Builder, st: Stmt, i: nat, subject: Reg, end: Label, x: nat)
    requires st.Case? && i < |st.branches| && end < |c.labels| && subject < c.nextReg && WellFormed(w.m.scope, c)
    requires Linked(w.m.code, c, CompileBranches(w.m.scope, c, st, i, subject, end), x)
    ensures var c1 := CompileBranch(w.m.scope, c, st.branches[i], subject, end);
            var c' := CompileBranches(w.m.scope, c1, st, i + 1, subject, end);
            && WellFormed(w.m.scope, c1) && c1.exits == c.exits && |c.labels| <= |c1.labels|
            && c.nextReg <= c1.nextReg <= c'.nextReg && c.instrs <= c1.instrs <= c'.instrs
            && Linked(w.m.code, c, c1, x) && Linked(w.m.code, c1, c', x)
  {
    var sc := w.m.scope;
    var c1 := CompileBranch(sc, c, st.branches[i], subject, end);
    var c' := CompileBranches(sc, c1, st, i + 1, subject, end);
    BranchGood(sc, c, st.branches[i], subject, end);
    BranchesGood(sc, c1, st, i + 1, subject, end);
    SubLink(w.m.code, c, c, c1, c', {}, x);
    SubLink(w.m.code, c, c1, c', c', {}, x);
  }

  lemma {:induction false} SimBranch(w: World, c: Builder, b: Branch, v: Value, subject: Reg, end: Label, hi: nat,
                                     x: nat, s: State, fuel: nat)
    returns (n: nat, t: State)
    requires end < |c.labels| && subject < c.nextReg && Start(w, c, CompileBranch(w.m.scope, c, b, subject, end), x, s)
    requires subject < |s.regs| && s.regs[subject] == v
    requires end < |w.m.code.labels| && w.m.code.labels[end] == hi && |CompileBranch(w.m.scope, c, b, subject, end).instrs| <= hi
    ensures var env := w.abs(s.mem); var c' := CompileBranch(w.m.scope, c, b, subject, end);
            match SelectsAny(w.g.ops, env, v, b.selectors)
            case None => Sim(w, s, n, t, |c.instrs|, hi, x, fuel, Failed(env))
            case Some(true) => Sim(w, s, n, t, |c.instrs|, hi, x, fuel, Run(w.g, b.body, env, c.exits != [], fuel))
            case Some(false) =>
              && Lands(w, s, t, |c'.instrs|, env) && Reaches(w.step, s, n, |c.instrs|, hi, t)
              && t.regs[subject] == v
    decreases fuel, b, 0
  {
    var sc := w.m.scope;
    var next := |c.labels| + 1;
    var c1 := BranchTest(sc, c, b, subject);
    var c2 := CompileStmts(sc, c1, b.body);
    var c3 := Emit(c2, Jump(end));
    var c' := Place(c3, next);
    BranchTestGood(sc, c, b, subject);
    StmtsGood(sc, c1, b.body);
    EmitGood(sc, c2, Jump(end), c3);
    PlaceGood(sc, c3, next);
    assert c1.instrs <= c2.instrs <= c3.instrs == c'.instrs;
    assert w.m.code.labels[next] == |c'.instrs|;
    assert w.m.code.labels[|c.labels|] == |c1.instrs|;
    var env := w.abs(s.mem);
    var n1, u := SimBranchTest(w, c, b, v, subject, s);
    Widen(w.step, s, n1, u, |c.instrs|, |c1.instrs|, |c.instrs|, hi);
    match SelectsAny(w.g.ops, env, v, b.selectors)
    case None => n, t := n1, u;
    case Some(false) =>
      n, t := n1, u;
      KeepReg(s.regs, t.regs, c.nextReg, subject);
    case Some(true) =>
      Open(sc, c2, c3, {next});
      Trans(sc, c2, c3, c', {next});
      SubLink(w.m.code, c, c1, c2, c', {next}, x);
      n, t := SimThenJump(w, s, n1, u, c1, b.body, end, |c.instrs|, hi, x, fuel);
  }

  /** Where the tests of a branch lead. */
  ghost predicate Tested(w: World, c: Builder, hi: nat, o: Option<bool>, yes: nat, no: nat, s: State, n: nat, t: State) {
    && s.Running?
    && Reaches(w.step, s, n, |c.instrs|, hi, t)
    && match o
       case None => t == Trapped(s.mem)
       case Some(b) =>
         t.Running? && t.pc == (if b then yes else no) && t.mem == s.mem && SameBelow(s.regs, t.regs, c.nextReg)
  }

  lemma BranchTestLinks(sc: Scope, c: Builder, b: Branch, subject: Reg)
    requires WellFormed(sc, c) && subject < c.nextReg
    ensures var a := AllocLabel(AllocLabel(c)); var c1 := CompileSelectors(sc, a, b.selectors, subject, |c.labels|);
            var c2 := Emit(c1, Jump(|c.labels| + 1)); var t := BranchTest(sc, c, b, subject);
            && WellFormed(sc, a) && WellFormed(sc, c1) && a.nextReg == c.nextReg <= c1.nextReg == c2.nextReg == t.nextReg
            && c.instrs == a.instrs <= c1.instrs <= c2.instrs == t.instrs && |a.labels| == |c.labels| + 2
  {
    var a := AllocLabel(AllocLabel(c));
    AllocTwoGood(sc, c);
    SelectorsGood(sc, a, b.selectors, subject, |c.labels|);
  }

  lemma SimBranchTest(w: World, c: Builder, b: Branch, v: Value, subject: Reg, s: State)
    returns (n: nat, t: State)
    requires subject < c.nextReg && Ready(w, c, BranchTest(w.m.scope, c, b, subject), s)
    requires subject < |s.regs| && s.regs[subject] == v
    requires |c.labels| + 1 < |w.m.code.labels|
    requires w.m.code.labels[|c.labels|] == |BranchTest(w.m.scope, c, b, subject).instrs|
    ensures Tested(w, c, |BranchTest(w.m.scope, c, b, subject).instrs|,
                   SelectsAny(w.g.ops, w.abs(s.mem), v, b.selectors),
                   w.m.code.labels[|c.labels|], w.m.code.labels[|c.labels| + 1], s, n, t)
  {
    var sc := w.m.scope;
    var body := |c.labels|;
    var a := AllocLabel(AllocLabel(c));
    var c1 := CompileSelectors(sc, a, b.selectors, subject, body);
    var c2 := Emit(c1, Jump(body + 1));
    BranchTestLinks(sc, c, b, subject);
    var n1, t1 := SimSelectors(w, a, b.selectors, v, subject, body, s);
    var o := SelectsAny(w.g.ops, w.abs(s.mem), v, b.selectors);
    if o == Some(false) {
      t := RunJump(w, s, n1, t1, |c.instrs|, c1, body + 1);
      n := n1 + 1;
    } else {
      n, t := n1, t1;
      Widen(w.step, s, n, t, |c.instrs|, |c1.instrs|, |c.instrs|, |c2.instrs|);
    }
  }

  lemma TestedPrefix(w: World, c: Builder, c1: Builder, hi: nat, o: Option<bool>, yes: nat, no: nat,
                     s: State, n1: nat, t1: State, n2: nat, t2: State)
    requires Tested(w, c, |c1.instrs|, Some(false), yes, |c1.instrs|, s, n1, t1)
    requires Tested(w, c1, hi, o, yes, no, t1, n2, t2)
    requires |c.instrs| <= |c1.instrs| <= hi && c.nextReg <= c1.nextReg
    ensures Tested(w, c, hi, o, yes, no, s, n1 + n2, t2)
  {
    Widen(w.step, s, n1, t1, |c.instrs|, |c1.instrs|, |c.instrs|, hi);
    Widen(w.step, t1, n2, t2, |c1.instrs|, hi, |c.instrs|, hi);
    Chain(w.step, s, n1, t1, n2, t2, |c.instrs|, hi);
    if o.Some? { SameTrans(s.regs, t1.regs, t2.regs, c.nextReg, c1.nextReg); }
  }

  lemma {:induction false} SimSelectors(w: World, c: Builder, sels: seq<Selector>, v: Value, subject: Reg, body: Label, s: State)
    returns (n: nat, t: State)
    requires subject < c.nextReg && Ready(w, c, CompileSelectors(w.m.scope, c, sels, subject, body), s)
    requires subject < |s.regs| && s.regs[subject] == v && body < |c.labels| && body < |w.m.code.labels|
    ensures var c' := CompileSelectors(w.m.scope, c, sels, subject, body);
            Tested(w, c, |c'.instrs|, SelectsAny(w.g.ops, w.abs(s.mem), v, sels),
                   w.m.code.labels[body], |c'.instrs|, s, n, t)
    decreases sels
  {
    var sc := w.m.scope;
    if sels == [] {
      n, t := 0, s;
    } else {
      var c1 := CompileSelector(sc, c, sels[0], subject, body);
      var c' := CompileSelectors(sc, c1, sels[1..], subject, body);
      SelectorLinks(sc, c, sels, subject, body);
      var n1, t1 := SimSelector(w, c, sels[0], v, subject, body, s);
      if Selects(w.g.ops, w.abs(s.mem), v, sels[0]) == Some(false) {
        KeepReg(s.regs, t1.regs, c.nextReg, subject);
        var n2, t2 := SimSelectors(w, c1, sels[1..], v, subject, body, t1);
        TestedPrefix(w, c, c1, |c'.instrs|, SelectsAny(w.g.ops, w.abs(s.mem), v, sels[1..]),
                     w.m.code.labels[body], |c'.instrs|, s, n1, t1, n2, t2);
        n, t := n1 + n2, t2;
      } else {
        n, t := n1, t1;
        TestedWider(w, c, |c1.instrs|, |c'.instrs|, Selects(w.g.ops, w.abs(s.mem), v, sels[0]), w.m.code.labels[body], s, n, t);
      }
    }
  }

  lemma SelectorLinks(sc: Scope, c: Builder, sels: seq<Selector>, subject: Reg, body: Label)
    requires sels != [] && WellFormed(sc, c) && body < |c.labels| && subject < c.nextReg
    ensures var c1 := CompileSelector(sc, c, sels[0], subject, body); var c' := CompileSelectors(sc, c1, sels[1..], subject, body);
            && c' == CompileSelectors(sc, c, sels, subject, body)
            && WellFormed(sc, c1) && c1.labels == c.labels && c.nextReg <= c1.nextReg <= c'.nextReg && c.instrs <= c1.instrs <= c'.instrs
  {
    SelectorGood(sc, c, sels[0], subject, body);
    SelectorsGood(sc, CompileSelector(sc, c, sels[0], subject, body), sels[1..], subject, body);
  }

  /** A selector that matches, or fails, decides for a longer list too. */
  lemma TestedWider(w: World, c: Builder, mid: nat, hi: nat, o: Option<bool>, yes: nat, s: State, n: nat, t: State)
    requires Tested(w, c, mid, o, yes, mid, s, n, t) && o != Some(false) && |c.instrs| <= mid <= hi
    ensures Tested(w, c, hi, o, yes, hi, s, n, t)
  {
    Widen(w.step, s, n, t, |c.instrs|, mid, |c.instrs|, hi);
  }

  /** A value followed by JumpIf. */
  lemma RunJumpIf(w: World, c: Builder, c1: Builder, r: Reg, v: Option<Value>, l: Label, s: State, n: nat, t: State)
    returns (k: nat, u: State)
    requires ValueRuns(w, c, c1, r, v, s, n, t)
    requires Emit(c1, JumpIf(r, l)).instrs <= w.m.code.instrs && |c.instrs| <= |c1.instrs|
    requires Sound(w) && l < |w.m.code.labels|
    ensures Tested(w, c, |c1.instrs| + 1, Truth(w.g.ops, v), w.m.code.labels[l], |c1.instrs| + 1, s, k, u)
  {
    var c2 := Emit(c1, JumpIf(r, l));
    if v.None? {
      k, u := n, t;
      Widen(w.step, s, n, t, |c.instrs|, |c1.instrs|, |c.instrs|, |c2.instrs|);
    } else {
      FetchAt(c1, c2, JumpIf(r, l), w.m.code.instrs);
      k, u := n + 1, w.step(t);
      StepIs(w, t);
      Then(w, c, c1, c2, s, n, t);
    }
  }

  lemma SimSelector(w: World, c: Builder, sel: Selector, v: Value, subject: Reg, body: Label, s: State)
    returns (n: nat, t: State)
    requires subject < c.nextReg && Ready(w, c, CompileSelector(w.m.scope, c, sel, subject, body), s)
    requires subject < |s.regs| && s.regs[subject] == v && body < |c.labels| && body < |w.m.code.labels|
    ensures var c' := CompileSelector(w.m.scope, c, sel, subject, body);
            Tested(w, c, |c'.instrs|, Selects(w.g.ops, w.abs(s.mem), v, sel),
                   w.m.code.labels[body], |c'.instrs|, s, n, t)
  {
    var sc := w.m.scope;
    match sel
    case Single(e) =>
      var (c1, r) := CompileExpr(sc, c, e);
      ExprGood(sc, c, e);
      var i := Binary(CmpEq, c1.nextReg, subject, r);
      var (c2, cmp) := EmitTo(c1, i);
      var c3 := Emit(c2, JumpIf(cmp, body));
      EmitToGood(sc, c1, i);
      assert c1.instrs <= c2.instrs <= c3.instrs;
      var val := Eval(w.g.ops, w.abs(s.mem), e);
      var n1, t1 := RunExpr(w, c, e, s);
      var res := Bin(w.g.ops, Eq, Some(v), val);
      if val.None? {
        TrapThen(w, c, c1, c2, r, cmp, s, n1, t1);
        n, t := RunJumpIf(w, c, c2, cmp, res, body, s, n1, t1);
      } else {
        KeepReg(s.regs, t1.regs, c.nextReg, subject);
        assert OpcodeOf(Eq) == CmpEq;
        var t2 := RunBinary(w, c1, Eq, subject, r, t1);
        ValueThen(w, c, c1, c2, r, val.value, cmp, res, s, n1, t1, 1, t2);
        n, t := RunJumpIf(w, c, c2, cmp, res, body, s, n1 + 1, t2);
      }
    case Interval(lo, hi) =>
      n, t := SimInterval(w, c, lo, hi, v, subject, body, s);
  }

  lemma IntervalLinks(sc: Scope, c: Builder, lo: Expr, hi: Expr, subject: Reg, body: Label)
    requires subject < c.nextReg && body < |c.labels| && WellFormed(sc, c)
    ensures var (c1, l) := CompileExpr(sc, c, lo); var (c2, h) := CompileExpr(sc, c1, hi);
            var c' := IntervalTest(c2, l, h, subject, body);
            && c' == CompileSelector(sc, c, Interval(lo, hi), subject, body)
            && WellFormed(sc, c1) && WellFormed(sc, c2) && l < c1.nextReg && h < c2.nextReg
            && c.nextReg <= c1.nextReg <= c2.nextReg <= c'.nextReg && c.instrs <= c1.instrs <= c2.instrs <= c'.instrs
  {
    var (c1, l) := CompileExpr(sc, c, lo);
    var (c2, h) := CompileExpr(sc, c1, hi);
    ExprGood(sc, c, lo);
    ExprGood(sc, c1, hi);
    IntervalTestGood(sc, c2, l, h, subject, body);
  }

  lemma SimInterval(w: World, c: Builder, lo: Expr, hi: Expr, v: Value, subject: Reg, body: Label, s: State)
    returns (n: nat, t: State)
    requires subject < c.nextReg && Ready(w, c, CompileSelector(w.m.scope, c, Interval(lo, hi), subject, body), s)
    requires subject < |s.regs| && s.regs[subject] == v && body < |c.labels| && body < |w.m.code.labels|
    ensures var c' := CompileSelector(w.m.scope, c, Interval(lo, hi), subject, body);
            Tested(w, c, |c'.instrs|, Selects(w.g.ops, w.abs(s.mem), v, Interval(lo, hi)),
                   w.m.code.labels[body], |c'.instrs|, s, n, t)
  {
    var sc := w.m.scope;
    var env := w.abs(s.mem);
    var (c1, l) := CompileExpr(sc, c, lo);
    var (c2, h) := CompileExpr(sc, c1, hi);
    var c' := IntervalTest(c2, l, h, subject, body);
    IntervalLinks(sc, c, lo, hi, subject, body);
    var a := Eval(w.g.ops, env, lo);
    var b := Eval(w.g.ops, env, hi);
    n, t := RunPair(w, c, lo, hi, s);
    if a.Some? && b.Some? {
      n, t := IntervalTail(w, c, c2, l, h, a.value, b.value, v, subject, body, s, n, t);
    } else {
      TrapTested(w, c, c2, h, |c'.instrs|, w.m.code.labels[body], s, n, t);
    }
  }

  /** A bound that fails ends the test. */
  lemma TrapTested(w: World, c: Builder, c2: Builder, r: Reg, hi: nat, yes: nat, s: State, n: nat, t: State)
    requires ValueRuns(w, c, c2, r, None, s, n, t) && |c2.instrs| <= hi
    ensures Tested(w, c, hi, None, yes, hi, s, n, t)
  {
    Widen(w.step, s, n, t, |c.instrs|, |c2.instrs|, |c.instrs|, hi);
  }

  /** Both bounds are in their registers: the test itself. */
  lemma IntervalTail(w: World, c: Builder, c2: Builder, l: Reg, h: Reg, a: Value, b: Value, v: Value, subject: Reg, body: Label,
                     s: State, n2: nat, t2: State)
    returns (n: nat, t: State)
    requires subject < c.nextReg <= c2.nextReg && l < c2.nextReg && h < c2.nextReg && |c.instrs| <= |c2.instrs|
    requires body < |w.m.code.labels| && Ready(w, c2, IntervalTest(c2, l, h, subject, body), t2)
    requires ValueRuns(w, c, c2, h, Some(b), s, n2, t2) && l < |t2.regs| && t2.regs[l] == a
    requires subject < |s.regs| && s.regs[subject] == v
    ensures var c' := IntervalTest(c2, l, h, subject, body); var ops := w.g.ops;
            Tested(w, c, |c'.instrs|, Truth(ops, Bin(ops, And, ops.bin(Ge, v, a), ops.bin(Le, v, b))),
                   w.m.code.labels[body], |c'.instrs|, s, n, t)
  {
    var ops := w.g.ops;
    var hi := |IntervalTest(c2, l, h, subject, body).instrs|;
    KeepReg(s.regs, t2.regs, c.nextReg, subject);
    var n3, t3 := RunIntervalTest(w, c2, l, h, subject, body, t2);
    assert Tested(w, c, |c2.instrs|, Some(false), w.m.code.labels[body], |c2.instrs|, s, n2, t2);
    TestedPrefix(w, c, c2, hi, Truth(ops, Bin(ops, And, ops.bin(Ge, v, a), ops.bin(Le, v, b))),
                 w.m.code.labels[body], hi, s, n2, t2, n3, t3);
    n, t := n2 + n3, t3;
  }

  /** CmpGe, CmpLe, And, JumpIf on registers already filled. */
  lemma RunIntervalTest(w: World, c: Builder, l: Reg, h: Reg, subject: Reg, body: Label, s: State)
    returns (n: nat, t: State)
    requires subject < c.nextReg && l < c.nextReg && h < c.nextReg && body < |w.m.code.labels|
    requires Ready(w, c, IntervalTest(c, l, h, subject, body), s)
    ensures var ops := w.g.ops; var v := s.regs[subject]; var c' := IntervalTest(c, l, h, subject, body);
            Tested(w, c, |c'.instrs|,
                   Truth(ops, Bin(ops, And, ops.bin(Ge, v, s.regs[l]), ops.bin(Le, v, s.regs[h]))),
                   w.m.code.labels[body], |c'.instrs|, s, n, t)
  {
    var r := c.nextReg;
    var c3 := AllocReg(AllocReg(AllocReg(c)));
    var c4 := Emit(c3, Binary(CmpGe, r, subject, l));
    var c5 := Emit(c4, Binary(CmpLe, r + 1, subject, h));
    var c6 := Emit(c5, Binary(OpAnd, r + 2, r, r + 1));
    var c7 := Emit(c6, JumpIf(r + 2, body));
    assert c4.instrs <= c5.instrs <= c6.instrs <= c7.instrs <= w.m.code.instrs;
    var v := s.regs[subject];
    var ge := w.g.ops.bin(Ge, v, s.regs[l]);
    var le := w.g.ops.bin(Le, v, s.regs[h]);
    n, t := RunCompares(w, c, c4, c5, l, h, subject, |c7.instrs|, s);
    if ge.Some? && le.Some? {
      n, t := RunAndJump(w, c, c5, c6, c7, r, ge.value, le.value, body, s, t);
    }
  }

  /** The two comparisons of an interval selector. */
  lemma RunCompares(w: World, c: Builder, c4: Builder, c5: Builder, l: Reg, h: Reg, subject: Reg, hi: nat, s: State)
    returns (n: nat, t: State)
    requires Sound(w) && s.Running? && s.pc == |c.instrs| && c5.instrs <= w.m.code.instrs && |c5.instrs| <= hi
    requires subject < c.nextReg && l < c.nextReg && h < c.nextReg && c.nextReg + 3 <= |s.regs|
    requires c4.instrs == c.instrs + [Binary(CmpGe, c.nextReg, subject, l)]
    requires c5.instrs == c4.instrs + [Binary(CmpLe, c.nextReg + 1, subject, h)]
    ensures var ge := w.g.ops.bin(Ge, s.regs[subject], s.regs[l]); var le := w.g.ops.bin(Le, s.regs[subject], s.regs[h]);
      && n > 0 && Reaches(w.step, s, n, |c.instrs|, hi, t)
      && (ge.None? || le.None? ==> t == Trapped(s.mem))
      && (ge.Some? && le.Some? ==>
            && n == 2 && t.Running? && t.pc == |c5.instrs| && t.mem == s.mem && SameBelow(s.regs, t.regs, c.nextReg)
            && t.regs[c.nextReg] == ge.value && t.regs[c.nextReg + 1] == le.value)
  {
    FetchAt(c, c4, Binary(CmpGe, c.nextReg, subject, l), w.m.code.instrs);
    FetchAt(c4, c5, Binary(CmpLe, c.nextReg + 1, subject, h), w.m.code.instrs);
    assert OpcodeOf(Ge) == CmpGe && OpcodeOf(Le) == CmpLe;
    var lo := |c.instrs|;
    n, t := 1, w.step(s);
    StepIs(w, s);
    One(w.step, s, lo, hi);
    if w.g.ops.bin(Ge, s.regs[subject], s.regs[l]).Some? {
      var t1 := t;
      n, t := 2, w.step(t1);
      StepIs(w, t1);
      One(w.step, t1, lo, hi);
      Chain(w.step, s, 1, t1, 1, t, lo, hi);
    }
  }

  /** The And of two computed flags and the jump on it. */
  lemma RunAndJump(w: World, c: Builder, c5: Builder, c6: Builder, c7: Builder, r: Reg, a: Value, b: Value, body: Label,
                   s: State, t2: State)
    returns (n: nat, t: State)
    requires Sound(w) && body < |w.m.code.labels| && r == c.nextReg && |c.instrs| <= |c5.instrs|
    requires c6 == Emit(c5, Binary(OpAnd, r + 2, r, r + 1)) && c7 == Emit(c6, JumpIf(r + 2, body))
    requires c7.instrs <= w.m.code.instrs
    requires s.Running? && t2.Running? && t2.pc == |c5.instrs| && t2.mem == s.mem
    requires SameBelow(s.regs, t2.regs, r) && r + 2 < |t2.regs| && t2.regs[r] == a && t2.regs[r + 1] == b
    requires Reaches(w.step, s, 2, |c.instrs|, |c7.instrs|, t2)
    ensures Tested(w, c, |c7.instrs|, Truth(w.g.ops, w.g.ops.bin(And, a, b)),
                   w.m.code.labels[body], |c7.instrs|, s, n, t)
  {
    var lo, hi := |c.instrs|, |c7.instrs|;
    assert c6.instrs <= c7.instrs;
    FetchAt(c5, c6, Binary(OpAnd, r + 2, r, r + 1), w.m.code.instrs);
    FetchAt(c6, c7, JumpIf(r + 2, body), w.m.code.instrs);
    assert OpcodeOf(And) == OpAnd;
    var t3 := w.step(t2);
    StepIs(w, t2);
    One(w.step, t2, lo, hi);
    Chain(w.step, s, 2, t2, 1, t3, lo, hi);
    if w.g.ops.bin(And, a, b).None? { n, t := 3, t3; return; }
    t := w.step(t3);
    StepIs(w, t3);
    n := 4;
    One(w.step, t3, lo, hi);
    Chain(w.step, s, 3, t3, 1, t, lo, hi);
    assert t3.regs[..r] == t2.regs[..r];
  }

  // ---------------------------------------------------------------- loops

  /** A loop body: EXIT lands at `hi`, where the exit label is. */
  lemma {:induction false} SimBody(w: World, c: Builder, ss: seq<Stmt>, exit: Label, hi: nat, s: State, fuel: nat)
    returns (n: nat, t: State)
    requires exit < |c.labels| && Ready(w, c, CompileLoopBody(w.m.scope, c, ss, exit), s)
    requires var c' := CompileLoopBody(w.m.scope, c, ss, exit);
             && exit < |w.m.code.labels| && w.m.code.labels[exit] == hi && |c'.instrs| <= hi
             && |c'.labels| <= |w.m.code.labels|
             && (forall l :: |c.labels| <= l < |c'.labels| ==> w.m.code.labels[l] == c'.labels[l])
    ensures Sim(w, s, n, t, |c.instrs|, |CompileLoopBody(w.m.scope, c, ss, exit).instrs|, hi, fuel,
                Run(w.g, ss, w.abs(s.mem), true, fuel))
    decreases fuel, ss, 1
  {
    var sc := w.m.scope;
    var p := PushExit(c, exit);
    LoopBodyGood(sc, c, ss, exit);
    StmtsGood(sc, p, ss);
    n, t := SimStmts(w, p, ss, hi, s, fuel);
  }

  /** How the outcome of a loop body ends the loop, or None when another pass follows. */
  function LoopEnd(o: Outcome): Option<Outcome> {
    match o
    case Done(_) => None
    case Exited(e) => Some(Done(e))
    case other => Some(other)
  }

  /** A pass that ends the loop from inside its body. */
  lemma BodyEnds(w: World, s: State, k: nat, u: State, n: nat, t: State, lo1: nat, hi1: nat, lo: nat, hi: nat,
                 x: nat, fuel: nat, o: Outcome)
    requires LoopEnd(o).Some?
    requires s.Running? && u.Running? && |u.regs| == |s.regs|
    requires Reaches(w.step, s, k, lo, hi, u) && Sim(w, u, n, t, lo1, hi1, hi, fuel, o)
    requires lo <= lo1 && hi1 <= hi
    ensures Sim(w, s, k + n, t, lo, hi, x, fuel, LoopEnd(o).value)
  {
    Prefix(w, s, k, u, n, t, lo1, hi1, lo, hi, hi, fuel, fuel, o);
  }

  /** The pieces of a WHILE or FOR: head c0..c1 with its test in register cond, JumpIfNot,
      body up to c2, tail up to c3, Jump back. */
  ghost predicate LoopParts(sc: Scope, c0: Builder, c1: Builder, cond: Reg, c2: Builder, c3: Builder, c': Builder,
                            loop: Label, body: seq<Stmt>) {
    var j := Emit(c1, JumpIfNot(cond, loop + 1));
    && c2 == CompileLoopBody(sc, j, body, loop + 1)
    && WellFormed(sc, c0) && WellFormed(sc, j) && WellFormed(sc, c2)
    && c0.instrs <= c1.instrs <= j.instrs <= c2.instrs <= c3.instrs <= c'.instrs
    && c0.nextReg <= c1.nextReg == j.nextReg <= c2.nextReg <= c3.nextReg <= c'.nextReg
    && loop + 2 == |j.labels| <= |c2.labels| == |c'.labels|
    && c'.labels[loop] == |c0.instrs| && c'.labels[loop + 1] == |c'.instrs|
    && (forall l :: loop + 2 <= l < |c2.labels| ==> c'.labels[l] == c2.labels[l])
    && Emit(c3, Jump(loop)).instrs == c'.instrs
  }

  /** Head, body and tail put together give the parts of the loop. */
  lemma MakeParts(sc: Scope, c0: Builder, c1: Builder, cond: Reg, c2: Builder, c3: Builder, c': Builder,
                  loop: Label, body: seq<Stmt>)
    requires WellFormed(sc, c0) && |c0.labels| == loop + 2 && c0.labels[loop] == |c0.instrs|
    requires Good(sc, c0, c1, {}) && c1.labels == c0.labels && cond < c1.nextReg
    requires c2 == CompileLoopBody(sc, Emit(c1, JumpIfNot(cond, loop + 1)), body, loop + 1)
    requires Good(sc, c2, c3, {}) && c3.labels == c2.labels
    requires c' == Place(Emit(c3, Jump(loop)), loop + 1)
    ensures LoopParts(sc, c0, c1, cond, c2, c3, c', loop, body)
  {
    var j := Emit(c1, JumpIfNot(cond, loop + 1));
    EmitGood(sc, c1, JumpIfNot(cond, loop + 1), j);
    LoopBodyGood(sc, j, body, loop + 1);
    EmitGood(sc, c3, Jump(loop), Emit(c3, Jump(loop)));
    PlaceGood(sc, Emit(c3, Jump(loop)), loop + 1);
  }

  /** The head of a loop pass and, when the test holds, its body. */
  lemma {:induction false} SimPass(w: World, c0: Builder, c1: Builder, cond: Reg, c2: Builder, c3: Builder, c': Builder,
                                   loop: Label, body: seq<Stmt>, v: Option<Value>, s: State, n1: nat, t1: State, fuel: nat)
    returns (k: nat, u: State, n2: nat, t2: State)
    requires Ready(w, c0, c', s) && LoopParts(w.m.scope, c0, c1, cond, c2, c3, c', loop, body)
    requires |c'.labels| <= |w.m.code.labels|
    requires forall l :: loop <= l < |c'.labels| ==> w.m.code.labels[l] == c'.labels[l]
    requires ValueRuns(w, c0, c1, cond, v, s, n1, t1)
    ensures k > 0 && Reaches(w.step, s, k, |c0.instrs|, |c'.instrs|, u)
    ensures match Truth(w.g.ops, v)
            case None => u == Trapped(s.mem)
            case Some(false) => Lands(w, s, u, |c'.instrs|, w.abs(s.mem))
            case Some(true) =>
              && u.Running? && |u.regs| == |s.regs|
              && Sim(w, u, n2, t2, |c1.instrs| + 1, |c2.instrs|, |c'.instrs|, fuel,
                     Run(w.g, body, w.abs(s.mem), true, fuel))
    decreases fuel, body, 2
  {
    var j := Emit(c1, JumpIfNot(cond, loop + 1));
    u := RunTest(w, c0, c1, cond, v, loop + 1, s, n1, t1);
    k := if v.None? then n1 else n1 + 1;
    Widen(w.step, s, k, u, |c0.instrs|, |j.instrs|, |c0.instrs|, |c'.instrs|);
    n2, t2 := 0, s;
    if Truth(w.g.ops, v) == Some(true) {
      n2, t2 := SimBody(w, j, body, loop + 1, |c'.instrs|, u, fuel);
    }
  }

  /** From the normal end t2 of a body, which began in u, back to the loop label. */
  lemma JumpBack(w: World, s: State, k: nat, u: State, b1: nat, n2: nat, t2: State, c2: Builder, loop: Label, lo: nat, hi: nat)
    returns (t: State)
    requires Sound(w) && Emit(c2, Jump(loop)).instrs <= w.m.code.instrs && loop < |w.m.code.labels|
    requires lo <= b1 <= |c2.instrs| && hi == |c2.instrs| + 1
    requires Reaches(w.step, s, k, lo, hi, u) && Reaches(w.step, u, n2, b1, |c2.instrs|, t2)
    requires t2.Running? && t2.pc == |c2.instrs|
    ensures t == t2.(pc := w.m.code.labels[loop]) && Reaches(w.step, s, k + (n2 + 1), lo, hi, t)
  {
    t := RunJump(w, u, n2, t2, b1, c2, loop);
    Widen(w.step, u, n2 + 1, t, b1, hi, lo, hi);
    Chain(w.step, s, k, u, n2 + 1, t, lo, hi);
  }

  lemma WhileParts(sc: Scope, c: Builder, st: Stmt)
    requires st.While? && WellFormed(sc, c)
    ensures var loop := |c.labels|; var h := Place(AllocLabel(AllocLabel(c)), loop);
            var (c1, cond) := CompileExpr(sc, h, st.cond);
            var c2 := CompileLoopBody(sc, Emit(c1, JumpIfNot(cond, loop + 1)), st.body, loop + 1);
            LoopParts(sc, h, c1, cond, c2, c2, CompileWhile(sc, c, st), loop, st.body) && h.instrs == c.instrs
  {
    var loop := |c.labels|;
    var h := Place(AllocLabel(AllocLabel(c)), loop);
    var (c1, cond) := CompileExpr(sc, h, st.cond);
    var j := Emit(c1, JumpIfNot(cond, loop + 1));
    var c2 := CompileLoopBody(sc, j, st.body, loop + 1);
    LoopHeadGood(sc, c);
    ExprGood(sc, h, st.cond);
    EmitGood(sc, c1, JumpIfNot(cond, loop + 1), j);
    LoopBodyGood(sc, j, st.body, loop + 1);
    MakeParts(sc, h, c1, cond, c2, c2, CompileWhile(sc, c, st), loop, st.body);
  }

  /** The head of a WHILE pass and, when the condition holds, its body. */
  lemma {:induction false} SimWhileHead(w: World, c: Builder, st: Stmt, x: nat, s: State, fuel: nat)
    returns (k: nat, u: State, b1: nat, c2: Builder, n2: nat, t2: State)
    requires st.While? && Start(w, c, CompileWhile(w.m.scope, c, st), x, s)
    ensures var hi := |CompileWhile(w.m.scope, c, st).instrs|; var env := w.abs(s.mem);
            && k > 0 && Reaches(w.step, s, k, |c.instrs|, hi, u)
            && |c.instrs| <= b1 <= |c2.instrs| && Emit(c2, Jump(|c.labels|)).instrs == CompileWhile(w.m.scope, c, st).instrs
            && |c.labels| < |w.m.code.labels| && w.m.code.labels[|c.labels|] == |c.instrs|
            && match Truth(w.g.ops, Eval(w.g.ops, env, st.cond))
               case None => u == Trapped(s.mem)
               case Some(false) => Lands(w, s, u, hi, env)
               case Some(true) =>
                 && u.Running? && |u.regs| == |s.regs|
                 && Sim(w, u, n2, t2, b1, |c2.instrs|, hi, fuel, Run(w.g, st.body, env, true, fuel))
    decreases fuel, st, 1, 1
  {
    var sc := w.m.scope;
    var loop := |c.labels|;
    var h := Place(AllocLabel(AllocLabel(c)), loop);
    var (c1, cond) := CompileExpr(sc, h, st.cond);
    c2 := CompileLoopBody(sc, Emit(c1, JumpIfNot(cond, loop + 1)), st.body, loop + 1);
    b1 := |c1.instrs| + 1;
    WhileParts(sc, c, st);
    var v := Eval(w.g.ops, w.abs(s.mem), st.cond);
    var n1, t1 := RunExpr(w, h, st.cond, s);
    k, u, n2, t2 := SimPass(w, h, c1, cond, c2, c2, CompileWhile(sc, c, st), loop, st.body, v, s, n1, t1, fuel);
  }

  lemma {:induction false} SimWhile(w: World, c: Builder, st: Stmt, x: nat, s: State, fuel: nat)
    returns (n: nat, t: State)
    requires st.While? && Start(w, c, CompileWhile(w.m.scope, c, st), x, s)
    ensures Sim(w, s, n, t, |c.instrs|, |CompileWhile(w.m.scope, c, st).instrs|, x, fuel,
                RunWhile(w.g, st, w.abs(s.mem), fuel))
    decreases fuel, st, 2
  {
    var lo, hi := |c.instrs|, |CompileWhile(w.m.scope, c, st).instrs|;
    var env := w.abs(s.mem);
    var k, u, b1, c2, n2, t2 := SimWhileHead(w, c, st, x, s, fuel);
    n, t := k, u;
    if fuel == 0 {
      assert Inside(w.step, w.step(s), 0, lo, hi);
    } else if Truth(w.g.ops, Eval(w.g.ops, env, st.cond)) == Some(true) {
      var o := Run(w.g, st.body, env, true, fuel);
      if o.Done? {
        var t3 := JumpBack(w, s, k, u, b1, n2, t2, c2, |c.labels|, lo, hi);
        n, t := SimWhileAgain(w, c, st, x, s, k + (n2 + 1), t3, fuel);
      } else {
        BodyEnds(w, s, k, u, n2, t2, b1, |c2.instrs|, lo, hi, x, fuel, o);
        n, t := k + n2, t2;
      }
    }
  }

  lemma {:induction false} SimWhileAgain(w: World, c: Builder, st: Stmt, x: nat, s: State, k: nat, u: State, fuel: nat)
    returns (n: nat, t: State)
    requires st.While? && fuel > 0 && k > 0 && Start(w, c, CompileWhile(w.m.scope, c, st), x, s)
    requires Lands(w, s, u, |c.instrs|, w.abs(u.mem))
    requires Reaches(w.step, s, k, |c.instrs|, |CompileWhile(w.m.scope, c, st).instrs|, u)
    ensures Sim(w, s, n, t, |c.instrs|, |CompileWhile(w.m.scope, c, st).instrs|, x, fuel,
                RunWhile(w.g, st, w.abs(u.mem), fuel - 1))
    decreases fuel, st, 1
  {
    var lo, hi := |c.instrs|, |CompileWhile(w.m.scope, c, st).instrs|;
    var n4, t4 := SimWhile(w, c, st, x, u, fuel - 1);
    Prefix(w, s, k, u, n4, t4, lo, hi, lo, hi, x, fuel - 1, fuel, RunWhile(w.g, st, w.abs(u.mem), fuel - 1));
    n, t := k + n4, t4;
  }

  lemma RepeatParts(sc: Scope, c: Builder, st: Stmt)
    requires st.Repeat? && WellFormed(sc, c)
    ensures var loop := |c.labels|; var h := Place(AllocLabel(AllocLabel(c)), loop);
            var c1 := CompileLoopBody(sc, h, st.body, loop + 1);
            var (c2, cond) := CompileExpr(sc, c1, st.cond);
            var c' := CompileRepeat(sc, c, st);
            && WellFormed(sc, h) && WellFormed(sc, c1) && h.instrs == c.instrs
            && h.instrs <= c1.instrs <= c2.instrs <= c'.instrs
            && h.nextReg <= c1.nextReg <= c2.nextReg <= c'.nextReg
            && loop + 2 == |h.labels| <= |c1.labels| == |c'.labels|
            && c'.labels[loop] == |c.instrs| && c'.labels[loop + 1] == |c'.instrs|
            && (forall l :: loop + 2 <= l < |c1.labels| ==> c'.labels[l] == c1.labels[l])
            && Emit(c2, JumpIfNot(cond, loop)).instrs == c'.instrs
  {
    var loop := |c.labels|;
    var h := Place(AllocLabel(AllocLabel(c)), loop);
    var c1 := CompileLoopBody(sc, h, st.body, loop + 1);
    var (c2, cond) := CompileExpr(sc, c1, st.cond);
    var c3 := Emit(c2, JumpIfNot(cond, loop));
    LoopHeadGood(sc, c);
    LoopBodyGood(sc, h, st.body, loop + 1);
    ExprGood(sc, c1, st.cond);
    EmitGood(sc, c2, JumpIfNot(cond, loop), c3);
    PlaceGood(sc, c3, loop + 1);
  }

  lemma {:induction false} RepeatBody(w: World, c: Builder, st: Stmt, x: nat, s: State, fuel: nat)
    returns (n: nat, t: State)
    requires st.Repeat? && fuel > 0 && Start(w, c, CompileRepeat(w.m.scope, c, st), x, s)
    ensures var h := Place(AllocLabel(AllocLabel(c)), |c.labels|);
            var c1 := CompileLoopBody(w.m.scope, h, st.body, |c.labels| + 1);
            var hi := |CompileRepeat(w.m.scope, c, st).instrs|;
            && |c.instrs| <= |c1.instrs| <= hi
            && Sim(w, s, n, t, |c.instrs|, |c1.instrs|, hi, fuel, Run(w.g, st.body, w.abs(s.mem), true, fuel))
    decreases fuel, st, 1
  {
    var loop := |c.labels|;
    var h := Place(AllocLabel(AllocLabel(c)), loop);
    RepeatParts(w.m.scope, c, st);
    n, t := SimBody(w, h, st.body, loop + 1, |CompileRepeat(w.m.scope, c, st).instrs|, s, fuel);
  }

  lemma RepeatNotEmpty(w: World, c: Builder, st: Stmt)
    requires st.Repeat? && WellFormed(w.m.scope, c)
    ensures |c.instrs| < |CompileRepeat(w.m.scope, c, st).instrs|
  {
    RepeatParts(w.m.scope, c, st);
  }

  lemma {:induction false} SimRepeat(w: World, c: Builder, st: Stmt, x: nat, s: State, fuel: nat)
    returns (n: nat, t: State)
    requires st.Repeat? && Start(w, c, CompileRepeat(w.m.scope, c, st), x, s)
    ensures Sim(w, s, n, t, |c.instrs|, |CompileRepeat(w.m.scope, c, st).instrs|, x, fuel,
                RunRepeat(w.g, st, w.abs(s.mem), fuel))
    decreases fuel, st, 2
  {
    var lo, hi := |c.instrs|, |CompileRepeat(w.m.scope, c, st).instrs|;
    n, t := 0, s;
    if fuel == 0 {
      RepeatNotEmpty(w, c, st);
      assert Inside(w.step, w.step(s), 0, lo, hi);
    } else {
      var n1, t1 := RepeatBody(w, c, st, x, s, fuel);
      var o := Run(w.g, st.body, w.abs(s.mem), true, fuel);
      if o.Done? {
        n, t := SimUntil(w, c, st, x, s, n1, t1, o.env, fuel);
      } else {
        var h := Place(AllocLabel(AllocLabel(c)), |c.labels|);
        assert Reaches(w.step, s, 0, lo, hi, s);
        BodyEnds(w, s, 0, s, n1, t1, lo, |CompileLoopBody(w.m.scope, h, st.body, |c.labels| + 1).instrs|, lo, hi, x, fuel, o);
        n, t := n1, t1;
      }
    }
  }

  /** The test of a REPEAT, after its body ended normally in t1. */
  lemma RunUntil(w: World, c: Builder, st: Stmt, s: State, n1: nat, t1: State) returns (n: nat, u: State)
    requires st.Repeat? && Ready(w, c, CompileRepeat(w.m.scope, c, st), s)
    requires |CompileRepeat(w.m.scope, c, st).labels| <= |w.m.code.labels|
    requires forall l :: |c.labels| <= l < |CompileRepeat(w.m.scope, c, st).labels| ==>
               w.m.code.labels[l] == CompileRepeat(w.m.scope, c, st).labels[l]
    requires var h := Place(AllocLabel(AllocLabel(c)), |c.labels|);
             var c1 := CompileLoopBody(w.m.scope, h, st.body, |c.labels| + 1);
             Reaches(w.step, s, n1, |c.instrs|, |c1.instrs|, t1) && Lands(w, s, t1, |c1.instrs|, w.abs(t1.mem))
    ensures n > 0 && Reaches(w.step, s, n, |c.instrs|, |CompileRepeat(w.m.scope, c, st).instrs|, u)
    ensures match Truth(w.g.ops, Eval(w.g.ops, w.abs(t1.mem), st.cond))
            case None => u == Trapped(t1.mem)
            case Some(b) =>
              Lands(w, s, u, if b then |CompileRepeat(w.m.scope, c, st).instrs| else |c.instrs|, w.abs(t1.mem))
  {
    var sc := w.m.scope;
    var loop := |c.labels|;
    var h := Place(AllocLabel(AllocLabel(c)), loop);
    var c1 := CompileLoopBody(sc, h, st.body, loop + 1);
    var (c2, cond) := CompileExpr(sc, c1, st.cond);
    RepeatParts(sc, c, st);
    var lo, hi := |c.instrs|, |CompileRepeat(sc, c, st).instrs|;
    var v := Eval(w.g.ops, w.abs(t1.mem), st.cond);
    var n2, t2 := RunExpr(w, c1, st.cond, t1);
    u := RunTest(w, c1, c2, cond, v, loop, t1, n2, t2);
    var k := if v.None? then n2 else n2 + 1;
    Widen(w.step, t1, k, u, |c1.instrs|, hi, lo, hi);
    Widen(w.step, s, n1, t1, lo, |c1.instrs|, lo, hi);
    Chain(w.step, s, n1, t1, k, u, lo, hi);
    n := n1 + k;
  }

  lemma {:induction false} SimUntil(w: World, c: Builder, st: Stmt, x: nat, s: State, n1: nat, t1: State, e: Env, fuel: nat)
    returns (n: nat, t: State)
    requires st.Repeat? && fuel > 0 && Start(w, c, CompileRepeat(w.m.scope, c, st), x, s)
    requires var h := Place(AllocLabel(AllocLabel(c)), |c.labels|);
             var c1 := CompileLoopBody(w.m.scope, h, st.body, |c.labels| + 1);
             Reaches(w.step, s, n1, |c.instrs|, |c1.instrs|, t1) && Lands(w, s, t1, |c1.instrs|, e)
    ensures Sim(w, s, n, t, |c.instrs|, |CompileRepeat(w.m.scope, c, st).instrs|, x, fuel,
                match Truth(w.g.ops, Eval(w.g.ops, e, st.cond))
                case None => Failed(e)
                case Some(true) => Done(e)
                case Some(false) => RunRepeat(w.g, st, e, fuel - 1))
    decreases fuel, st, 1
  {
    var lo, hi := |c.instrs|, |CompileRepeat(w.m.scope, c, st).instrs|;
    n, t := RunUntil(w, c, st, s, n1, t1);
    if Truth(w.g.ops, Eval(w.g.ops, e, st.cond)) == Some(false) {
      var k, u := n, t;
      var n4, t4 := SimRepeat(w, c, st, x, u, fuel - 1);
      Prefix(w, s, k, u, n4, t4, lo, hi, lo, hi, x, fuel - 1, fuel, RunRepeat(w.g, st, e, fuel - 1));
      n, t := k + n4, t4;
    }
  }

  /** The value of the test at the head of a FOR pass. */
  lemma RunForTest(w: World, c: Builder, st: Stmt, s: State) returns (n: nat, t: State)
    requires st.For? && Ready(w, c, ForTest(w.m.scope, c, st).0, s)
    ensures var (c', r) := ForTest(w.m.scope, c, st); var env := w.abs(s.mem);
            ValueRuns(w, c, c', r, Bin(w.g.ops, Le, Some(Read(env, st.variable)), Eval(w.g.ops, env, st.to)), s, n, t)
  {
    var sc := w.m.scope;
    var env := w.abs(s.mem);
    var (c1, v) := CompileLoad(sc, c, st.variable);
    EmitToGood(sc, c, LoadInstr(sc, c.nextReg, st.variable));
    var (c2, bound) := CompileExpr(sc, c1, st.to);
    ExprGood(sc, c1, st.to);
    assert OpcodeOf(Le) == CmpLe;
    var (c3, r) := EmitTo(c2, Binary(CmpLe, c2.nextReg, v, bound));
    assert c1.instrs <= c2.instrs <= c3.instrs;
    var b := Eval(w.g.ops, env, st.to);
    var t1 := RunLoad(w, c, st.variable, s);
    var n2, t2 := RunExpr(w, c1, st.to, t1);
    ValueThen(w, c, c1, c2, v, Read(env, st.variable), bound, b, s, 1, t1, n2, t2);
    n, t := 1 + n2, t2;
    if b.None? {
      TrapThen(w, c, c2, c3, bound, r, s, n, t);
    } else {
      t := RunBinary(w, c2, Le, v, bound, t2);
      ValueThen(w, c, c2, c3, bound, b.value, r, w.g.ops.bin(Le, Read(env, st.variable), b.value), s, n, t2, 1, t);
      n := n + 1;
    }
  }

  lemma RunForStep(w: World, c: Builder, st: Stmt, s: State) returns (n: nat, t: State)
    requires st.For? && Ready(w, c, ForStep(w.m.scope, c, st).0, s)
    ensures var (c', r) := ForStep(w.m.scope, c, st);
            ValueRuns(w, c, c', r, StepOf(w.g, st, w.abs(s.mem)), s, n, t)
  {
    match st.step
    case None => t := RunConst(w, c, Int(1), s); n := 1;
    case Some(e) => n, t := RunExpr(w, c, e, s);
  }

  /** The increment of the FOR variable. */
  lemma ForSumLinks(sc: Scope, c: Builder, st: Stmt)
    requires st.For? && WellFormed(sc, c)
    ensures var (c1, inc) := ForStep(sc, c, st); var (c2, v) := CompileLoad(sc, c1, st.variable);
            var (c3, sum) := EmitTo(c2, Binary(OpAdd, c2.nextReg, v, inc));
            && Good(sc, c, c3, {}) && WellFormed(sc, c1) && WellFormed(sc, c2)
            && inc < c1.nextReg && v < c2.nextReg && sum < c3.nextReg
            && c.nextReg <= c1.nextReg <= c2.nextReg <= c3.nextReg <= ForNext(sc, c, st).nextReg
            && c.instrs <= c1.instrs <= c2.instrs <= c3.instrs <= ForNext(sc, c, st).instrs
            && ForNext(sc, c, st) == StoreIfLocal(sc, c3, st.variable, sum)
  {
    var (c1, inc) := ForStep(sc, c, st);
    ForStepGood(sc, c, st);
    var (c2, v) := CompileLoad(sc, c1, st.variable);
    EmitToGood(sc, c1, LoadInstr(sc, c1.nextReg, st.variable));
    var (c3, sum) := EmitTo(c2, Binary(OpAdd, c2.nextReg, v, inc));
    EmitToGood(sc, c2, Binary(OpAdd, c2.nextReg, v, inc));
    StoreGood(sc, c3, st.variable, sum, NO_SOURCE);
    Trans(sc, c, c1, c2, {});
    Trans(sc, c, c2, c3, {});
  }

  lemma RunForSum(w: World, c: Builder, st: Stmt, s: State)
    returns (c3: Builder, sum: Reg, n: nat, t: State)
    requires st.For? && Ready(w, c, ForNext(w.m.scope, c, st), s)
    ensures Good(w.m.scope, c, c3, {}) && sum < c3.nextReg
    ensures ForNext(w.m.scope, c, st) == StoreIfLocal(w.m.scope, c3, st.variable, sum)
    ensures var env := w.abs(s.mem);
            ValueRuns(w, c, c3, sum, Bin(w.g.ops, Add, Some(Read(env, st.variable)), StepOf(w.g, st, env)), s, n, t)
  {
    var sc := w.m.scope;
    var env := w.abs(s.mem);
    var (c1, inc) := ForStep(sc, c, st);
    var (c2, v) := CompileLoad(sc, c1, st.variable);
    assert OpcodeOf(Add) == OpAdd;
    var i := Binary(OpAdd, c2.nextReg, v, inc);
    c3, sum := EmitTo(c2, i).0, EmitTo(c2, i).1;
    ForSumLinks(sc, c, st);
    var b := StepOf(w.g, st, env);
    n, t := RunForStep(w, c, st, s);
    if b.None? {
      TrapThen(w, c, c1, c3, inc, sum, s, n, t);
    } else {
      var a := Read(env, st.variable);
      var t2 := RunLoad(w, c1, st.variable, t);
      ValueThen(w, c, c1, c2, inc, b.value, v, Some(a), s, n, t, 1, t2);
      var t3 := RunBinary(w, c2, Add, v, inc, t2);
      ValueThen(w, c, c2, c3, v, a, sum, w.g.ops.bin(Add, a, b.value), s, n + 1, t2, 1, t3);
      n, t := n + 2, t3;
    }
  }

  /** The end of a FOR pass: increment, store, jump back. */
  lemma RunForNext(w: World, c: Builder, st: Stmt, loop: Label, s: State) returns (n: nat, t: State)
    requires st.For? && Ready(w, c, Emit(ForNext(w.m.scope, c, st), Jump(loop)), s) && loop < |w.m.code.labels|
    ensures var env := w.abs(s.mem); var hi := |Emit(ForNext(w.m.scope, c, st), Jump(loop)).instrs|;
            && Reaches(w.step, s, n, |c.instrs|, hi, t)
            && match Bin(w.g.ops, Add, Some(Read(env, st.variable)), StepOf(w.g, st, env))
               case None => t == Trapped(s.mem)
               case Some(v) => Lands(w, s, t, w.m.code.labels[loop], WriteLocal(w.g.ops, w.g.widths, env, st.variable, v))
  {
    var sc := w.m.scope;
    var c4 := ForNext(sc, c, st);
    var c5 := Emit(c4, Jump(loop));
    ForNextGood(sc, c, st);
    assert c4.instrs <= c5.instrs;
    var c3, sum, n3, t3 := RunForSum(w, c, st, s);
    StoreGood(sc, c3, st.variable, sum, NO_SOURCE);
    assert c3.instrs <= c4.instrs;
    Widen(w.step, s, n3, t3, |c.instrs|, |c3.instrs|, |c.instrs|, |c5.instrs|);
    if t3.Running? {
      n, t := StoreAndJump(w, c, c3, c4, sum, st, loop, s, n3, t3);
    } else {
      n, t := n3, t3;
    }
  }

  lemma StoreNew(w: World, c3: Builder, c4: Builder, sum: Reg, st: Stmt, s: State) returns (n: nat, t: State)
    requires st.For? && c4 == StoreIfLocal(w.m.scope, c3, st.variable, sum) && Ready(w, c3, c4, s) && sum < |s.regs|
    ensures StoreRuns(w, c3, c4, s, WriteLocal(w.g.ops, w.g.widths, w.abs(s.mem), st.variable, s.regs[sum]), n, t)
  {
    n, t := RunStoreIfLocal(w, c3, st.variable, sum, s);
  }

  lemma JumpAfterStore(w: World, lo: nat, c3: Builder, c4: Builder, loop: Label, s: State, n3: nat, t3: State, env: Env, n4: nat, t4: State)
    returns (t: State)
    requires Sound(w) && StoreRuns(w, c3, c4, t3, env, n4, t4)
    requires lo <= |c3.instrs| <= |c4.instrs| && s.Running? && |t3.regs| == |s.regs|
    requires Emit(c4, Jump(loop)).instrs <= w.m.code.instrs && loop < |w.m.code.labels|
    requires Reaches(w.step, s, n3, lo, |c4.instrs| + 1, t3)
    ensures Reaches(w.step, s, n3 + (n4 + 1), lo, |c4.instrs| + 1, t) && Lands(w, s, t, w.m.code.labels[loop], env)
  {
    t := JumpBack(w, s, n3, t3, |c3.instrs|, n4, t4, c4, loop, lo, |c4.instrs| + 1);
  }

  /** The new value of the variable is in its register: the store and the jump. */
  lemma StoreAndJump(w: World, c: Builder, c3: Builder, c4: Builder, sum: Reg, st: Stmt, loop: Label, s: State, n3: nat, t3: State)
    returns (n: nat, t: State)
    requires st.For? && c4 == StoreIfLocal(w.m.scope, c3, st.variable, sum) && Ready(w, c3, c4, t3) && sum < |t3.regs|
    requires |c.instrs| <= |c3.instrs| <= |c4.instrs| && s.Running? && |t3.regs| == |s.regs|
    requires Emit(c4, Jump(loop)).instrs <= w.m.code.instrs && loop < |w.m.code.labels|
    requires Reaches(w.step, s, n3, |c.instrs|, |c4.instrs| + 1, t3)
    ensures Reaches(w.step, s, n, |c.instrs|, |c4.instrs| + 1, t)
    ensures Lands(w, s, t, w.m.code.labels[loop], WriteLocal(w.g.ops, w.g.widths, w.abs(t3.mem), st.variable, t3.regs[sum]))
  {
    var n4, t4 := StoreNew(w, c3, c4, sum, st, t3);
    t := JumpAfterStore(w, |c.instrs|, c3, c4, loop, s, n3, t3,
      WriteLocal(w.g.ops, w.g.widths, w.abs(t3.mem), st.variable, t3.regs[sum]), n4, t4);
    n := n3 + (n4 + 1);
  }

  /** FOR after its head c1: everything before the first pass. */
  lemma ForInitLinks(sc: Scope, c: Builder, st: Stmt)
    requires st.For? && WellFormed(sc, c)
    ensures var a := AllocLabel(AllocLabel(c)); var (c1, from) := CompileExpr(sc, a, st.from);
            var c2 := StoreIfLocal(sc, c1, st.variable, from); var i0 := ForInit(sc, c, st);
            && WellFormed(sc, a) && WellFormed(sc, c1) && from < c1.nextReg <= c2.nextReg
            && c2.nextReg == i0.nextReg && c.instrs == a.instrs <= c1.instrs <= c2.instrs == i0.instrs
  {
    var a := AllocLabel(AllocLabel(c));
    var (c1, from) := CompileExpr(sc, a, st.from);
    AllocTwoGood(sc, c);
    ExprGood(sc, a, st.from);
    StoreGood(sc, c1, st.variable, from, NO_SOURCE);
  }

  lemma RunForInit(w: World, c: Builder, st: Stmt, s: State) returns (n: nat, t: State)
    requires st.For? && Ready(w, c, ForInit(w.m.scope, c, st), s)
    ensures var i0 := ForInit(w.m.scope, c, st); var env := w.abs(s.mem);
            && Reaches(w.step, s, n, |c.instrs|, |i0.instrs|, t) && n > 0
            && match Eval(w.g.ops, env, st.from)
               case None => t == Trapped(s.mem)
               case Some(v) => Lands(w, s, t, |i0.instrs|, WriteLocal(w.g.ops, w.g.widths, env, st.variable, v))
  {
    var sc := w.m.scope;
    var a := AllocLabel(AllocLabel(c));
    var (c1, from) := CompileExpr(sc, a, st.from);
    var c2 := StoreIfLocal(sc, c1, st.variable, from);
    ForInitLinks(sc, c, st);
    var lo, hi := |c.instrs|, |c2.instrs|;
    n, t := RunExpr(w, a, st.from, s);
    Widen(w.step, s, n, t, lo, |c1.instrs|, lo, hi);
    if Eval(w.g.ops, w.abs(s.mem), st.from).Some? {
      var n2, t2 := RunStoreIfLocal(w, c1, st.variable, from, t);
      Widen(w.step, t, n2, t2, |c1.instrs|, hi, lo, hi);
      Chain(w.step, s, n, t, n2, t2, lo, hi);
      n, t := n + n2, t2;
    }
  }

  lemma ForParts(sc: Scope, c: Builder, st: Stmt)
    requires st.For? && WellFormed(sc, c)
    ensures var loop := |c.labels|; var i0 := ForInit(sc, c, st);
            var (c1, cond) := ForTest(sc, i0, st);
            var c2 := ForBody(sc, c, st);
            && LoopParts(sc, i0, c1, cond, c2, ForNext(sc, c2, st), CompileFor(sc, c, st), loop, st.body)
            && c.instrs <= i0.instrs && c.nextReg <= i0.nextReg
  {
    var loop := |c.labels|;
    var i0 := ForInit(sc, c, st);
    var (c1, cond) := ForTest(sc, i0, st);
    var j := Emit(c1, JumpIfNot(cond, loop + 1));
    var c2 := CompileLoopBody(sc, j, st.body, loop + 1);
    ForInitGood(sc, c, st);
    ForInitPlaced(sc, c, st);
    ForTestGood(sc, i0, st);
    EmitGood(sc, c1, JumpIfNot(cond, loop + 1), j);
    LoopBodyGood(sc, j, st.body, loop + 1);
    ForNextGood(sc, c2, st);
    assert c2 == ForBody(sc, c, st);
    MakeParts(sc, i0, c1, cond, c2, ForNext(sc, c2, st), CompileFor(sc, c, st), loop, st.body);
  }

  lemma ForInitPlaced(sc: Scope, c: Builder, st: Stmt)
    requires st.For?
    ensures |c.labels| < |ForInit(sc, c, st).labels| && ForInit(sc, c, st).labels[|c.labels|] == |ForInit(sc, c, st).instrs|
  {
  }

  lemma ForHeadLinks(sc: Scope, c: Builder, st: Stmt)
    requires st.For? && WellFormed(sc, c)
    ensures var i0 := ForInit(sc, c, st); var c' := CompileFor(sc, c, st);
            && WellFormed(sc, i0) && c.instrs <= i0.instrs <= c'.instrs && c.nextReg <= i0.nextReg <= c'.nextReg
  {
    ForParts(sc, c, st);
  }

  lemma {:induction false} SimFor(w: World, c: Builder, st: Stmt, x: nat, s: State, fuel: nat)
    returns (n: nat, t: State)
    requires st.For? && Start(w, c, CompileFor(w.m.scope, c, st), x, s)
    ensures Sim(w, s, n, t, |c.instrs|, |CompileFor(w.m.scope, c, st).instrs|, x, fuel,
                match Eval(w.g.ops, w.abs(s.mem), st.from)
                case None => Failed(w.abs(s.mem))
                case Some(v) => RunFor(w.g, st, WriteLocal(w.g.ops, w.g.widths, w.abs(s.mem), st.variable, v), fuel))
    decreases fuel, st, 2, 1
  {
    var sc := w.m.scope;
    var i0 := ForInit(sc, c, st);
    var c' := CompileFor(sc, c, st);
    ForHeadLinks(sc, c, st);
    var lo, hi := |c.instrs|, |c'.instrs|;
    n, t := RunForInit(w, c, st, s);
    Widen(w.step, s, n, t, lo, |i0.instrs|, lo, hi);
    if Eval(w.g.ops, w.abs(s.mem), st.from).Some? {
      var n3, t3 := SimForLoop(w, c, st, x, t, fuel);
      n, t := Sequel(w, s, n, t, n3, t3, lo, |i0.instrs|, hi, x, fuel, RunFor(w.g, st, w.abs(t.mem), fuel));
    }
  }

  /** The head of a FOR pass and, when the test holds, its body. */
  lemma {:induction false} SimForHead(w: World, c: Builder, st: Stmt, s: State, fuel: nat)
    returns (k: nat, u: State, n2: nat, t2: State)
    requires st.For? && WellFormed(w.m.scope, c) && Ready(w, ForInit(w.m.scope, c, st), CompileFor(w.m.scope, c, st), s)
    requires |CompileFor(w.m.scope, c, st).labels| <= |w.m.code.labels|
    requires forall l :: |c.labels| <= l < |CompileFor(w.m.scope, c, st).labels| ==>
               w.m.code.labels[l] == CompileFor(w.m.scope, c, st).labels[l]
    ensures k > 0 && Reaches(w.step, s, k, |ForInit(w.m.scope, c, st).instrs|, |CompileFor(w.m.scope, c, st).instrs|, u)
    ensures var b1 := |ForTest(w.m.scope, ForInit(w.m.scope, c, st), st).0.instrs| + 1;
            var b2 := |ForBody(w.m.scope, c, st).instrs|;
            var env := w.abs(s.mem); var hi := |CompileFor(w.m.scope, c, st).instrs|;
            match Truth(w.g.ops, Bin(w.g.ops, Le, Some(Read(env, st.variable)), Eval(w.g.ops, env, st.to)))
            case None => u == Trapped(s.mem)
            case Some(false) => Lands(w, s, u, hi, env)
            case Some(true) =>
              && u.Running? && |u.regs| == |s.regs|
              && Sim(w, u, n2, t2, b1, b2, hi, fuel, Run(w.g, st.body, env, true, fuel))
    decreases fuel, st, 1
  {
    var sc := w.m.scope;
    var i0 := ForInit(sc, c, st);
    var (c1, cond) := ForTest(sc, i0, st);
    var c2 := ForBody(sc, c, st);
    ForParts(sc, c, st);
    var env := w.abs(s.mem);
    var v := Bin(w.g.ops, Le, Some(Read(env, st.variable)), Eval(w.g.ops, env, st.to));
    var n1, t1 := RunForTest(w, i0, st, s);
    k, u, n2, t2 := SimPass(w, i0, c1, cond, c2, ForNext(sc, c2, st), CompileFor(sc, c, st), |c.labels|, st.body, v, s, n1, t1, fuel);
  }

  /** From the normal end t2 of a FOR body, which began in u, back to the loop label. */
  lemma RunForTail(w: World, c2: Builder, st: Stmt, loop: Label, s: State, k: nat, u: State, b1: nat, n2: nat, t2: State,
                   lo: nat, hi: nat)
    returns (n: nat, t: State)
    requires st.For? && Ready(w, c2, Emit(ForNext(w.m.scope, c2, st), Jump(loop)), t2) && loop < |w.m.code.labels|
    requires hi == |Emit(ForNext(w.m.scope, c2, st), Jump(loop)).instrs| && lo <= b1 <= |c2.instrs| <= hi
    requires s.Running? && |t2.regs| == |s.regs|
    requires Reaches(w.step, s, k, lo, hi, u) && Reaches(w.step, u, n2, b1, |c2.instrs|, t2)
    ensures n >= k && Reaches(w.step, s, n, lo, hi, t)
    ensures var e := w.abs(t2.mem);
            match Bin(w.g.ops, Add, Some(Read(e, st.variable)), StepOf(w.g, st, e))
            case None => t == Trapped(t2.mem)
            case Some(v) => Lands(w, s, t, w.m.code.labels[loop], WriteLocal(w.g.ops, w.g.widths, e, st.variable, v))
  {
    var n3, t3 := RunForNext(w, c2, st, loop, t2);
    Widen(w.step, u, n2, t2, b1, |c2.instrs|, lo, hi);
    Widen(w.step, t2, n3, t3, |c2.instrs|, hi, lo, hi);
    Chain(w.step, s, k, u, n2, t2, lo, hi);
    Chain(w.step, s, k + n2, t2, n3, t3, lo, hi);
    n, t := k + n2 + n3, t3;
  }

  lemma ForLinks(w: World, c: Builder, st: Stmt, x: nat)
    requires st.For? && WellFormed(w.m.scope, c) && Linked(w.m.code, c, CompileFor(w.m.scope, c, st), x)
    ensures var sc := w.m.scope; var loop := |c.labels|; var c' := CompileFor(sc, c, st);
            var c2 := ForBody(sc, c, st); var e := Emit(ForNext(sc, c2, st), Jump(loop));
            && WellFormed(sc, c2) && e.instrs == c'.instrs && e.nextReg <= c'.nextReg && e.instrs <= w.m.code.instrs
            && loop < |w.m.code.labels| && w.m.code.labels[loop] == |ForInit(sc, c, st).instrs|
            && |ForInit(sc, c, st).instrs| < |ForTest(sc, ForInit(sc, c, st), st).0.instrs| + 1 <= |c2.instrs| <= |c'.instrs|
            && |c'.labels| <= |w.m.code.labels|
            && (forall l :: loop <= l < |c'.labels| ==> w.m.code.labels[l] == c'.labels[l])
  {
    ForParts(w.m.scope, c, st);
  }

  lemma {:induction false} SimForLoop(w: World, c: Builder, st: Stmt, x: nat, s: State, fuel: nat)
    returns (n: nat, t: State)
    requires st.For? && WellFormed(w.m.scope, c) && Ready(w, ForInit(w.m.scope, c, st), CompileFor(w.m.scope, c, st), s)
    requires Linked(w.m.code, c, CompileFor(w.m.scope, c, st), x)
    ensures Sim(w, s, n, t, |ForInit(w.m.scope, c, st).instrs|, |CompileFor(w.m.scope, c, st).instrs|, x, fuel,
                RunFor(w.g, st, w.abs(s.mem), fuel))
    decreases fuel, st, 2, 0
  {
    var sc := w.m.scope;
    ForLinks(w, c, st, x);
    var lo, hi := |ForInit(sc, c, st).instrs|, |CompileFor(sc, c, st).instrs|;
    var env := w.abs(s.mem);
    var k, u, n2, t2 := SimForHead(w, c, st, s, fuel);
    n, t := k, u;
    if fuel == 0 {
      assert Inside(w.step, w.step(s), 0, lo, hi);
    } else if Truth(w.g.ops, Bin(w.g.ops, Le, Some(Read(env, st.variable)), Eval(w.g.ops, env, st.to))) == Some(true) {
      n, t := SimForPass(w, c, st, x, s, k, u, n2, t2, fuel);
    }
  }

  /** A pass whose body has run: the increment and the next pass, or the end of the loop. */
  lemma {:induction false} SimForPass(w: World, c: Builder, st: Stmt, x: nat, s: State, k: nat, u: State, n2: nat, t2: State, fuel: nat)
    returns (n: nat, t: State)
    requires st.For? && WellFormed(w.m.scope, c) && Ready(w, ForInit(w.m.scope, c, st), CompileFor(w.m.scope, c, st), s)
    requires Linked(w.m.code, c, CompileFor(w.m.scope, c, st), x) && fuel > 0 && k > 0
    requires Reaches(w.step, s, k, |ForInit(w.m.scope, c, st).instrs|, |CompileFor(w.m.scope, c, st).instrs|, u)
    requires u.Running? && |u.regs| == |s.regs|
    requires Sim(w, u, n2, t2, |ForTest(w.m.scope, ForInit(w.m.scope, c, st), st).0.instrs| + 1, |ForBody(w.m.scope, c, st).instrs|,
                 |CompileFor(w.m.scope, c, st).instrs|, fuel, Run(w.g, st.body, w.abs(s.mem), true, fuel))
    ensures Sim(w, s, n, t, |ForInit(w.m.scope, c, st).instrs|, |CompileFor(w.m.scope, c, st).instrs|, x, fuel,
                match Run(w.g, st.body, w.abs(s.mem), true, fuel)
                case Done(e) =>
                  (match Bin(w.g.ops, Add, Some(Read(e, st.variable)), StepOf(w.g, st, e))
                   case None => Failed(e)
                   case Some(v) => RunFor(w.g, st, WriteLocal(w.g.ops, w.g.widths, e, st.variable, v), fuel - 1))
                case Exited(e) => Done(e)
                case other => other)
    decreases fuel, st, 1, 1
  {
    var sc := w.m.scope;
    ForLinks(w, c, st, x);
    var lo, hi := |ForInit(sc, c, st).instrs|, |CompileFor(sc, c, st).instrs|;
    var b1 := |ForTest(sc, ForInit(sc, c, st), st).0.instrs| + 1;
    var o := Run(w.g, st.body, w.abs(s.mem), true, fuel);
    if o.Done? {
      n, t := RunForTail(w, ForBody(sc, c, st), st, |c.labels|, s, k, u, b1, n2, t2, lo, hi);
      if t.Running? {
        n, t := SimForAgain(w, c, st, x, s, n, t, fuel);
      }
    } else {
      BodyEnds(w, s, k, u, n2, t2, b1, |ForBody(sc, c, st).instrs|, lo, hi, x, fuel, o);
      n, t := k + n2, t2;
    }
  }

  lemma ReadyAgain(w: World, c: Builder, c': Builder, s: State, u: State)
    requires Ready(w, c, c', s) && Lands(w, s, u, |c.instrs|, w.abs(u.mem))
    ensures Ready(w, c, c', u)
  {
  }

  /** The passes after the first one. */
  lemma {:induction false} SimForAgain(w: World, c: Builder, st: Stmt, x: nat, s: State, k: nat, u: State, fuel: nat)
    returns (n: nat, t: State)
    requires st.For? && WellFormed(w.m.scope, c) && Ready(w, ForInit(w.m.scope, c, st), CompileFor(w.m.scope, c, st), s)
    requires Linked(w.m.code, c, CompileFor(w.m.scope, c, st), x)
    requires fuel > 0 && k > 0
    requires Lands(w, s, u, |ForInit(w.m.scope, c, st).instrs|, w.abs(u.mem))
    requires Reaches(w.step, s, k, |ForInit(w.m.scope, c, st).instrs|, |CompileFor(w.m.scope, c, st).instrs|, u)
    ensures Sim(w, s, n, t, |ForInit(w.m.scope, c, st).instrs|, |CompileFor(w.m.scope, c, st).instrs|, x, fuel,
                RunFor(w.g, st, w.abs(u.mem), fuel - 1))
    decreases fuel, st, 1, 0
  {
    var lo, hi := |ForInit(w.m.scope, c, st).instrs|, |CompileFor(w.m.scope, c, st).instrs|;
    ReadyAgain(w, ForInit(w.m.scope, c, st), CompileFor(w.m.scope, c, st), s, u);
    var n4, t4 := SimForLoop(w, c, st, x, u, fuel - 1);
    Prefix(w, s, k, u, n4, t4, lo, hi, lo, hi, x, fuel - 1, fuel, RunFor(w.g, st, w.abs(u.mem), fuel - 1));
    n, t := k + n4, t4;
  }
}
