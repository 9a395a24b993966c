/** How straight-line pieces of emitted code run: expressions, loads and stores. */
module CodeRuns {
  import opened Names
  import opened Ir
  import opened Ast
  import opened StSemantics
  import opened Vm
  import opened Runs
  import opened CodeGen
  import opened CodeShape

  /** A machine and the language it implements. `step` and `abs` are the machine's step
      and the environment a memory denotes, kept as values so that proofs use their
      definitions only where they name them. */
  datatype World = World(m: Machine, g: Lang, step: Stepper, abs: Mem -> Env)

  /** The values of the declared names: the first slot of a name is the one that counts. */
  function ByName<T>(slots: seq<VarSlot>, vals: seq<T>): (r: map<string, T>)
    requires |vals| == |slots|
    ensures r.Keys == Keys(slots)
    ensures forall k :: k in r ==> r[k] == vals[FindSlot(slots, k).value]
  {
    map k | k in Keys(slots) :: vals[FindSlot(slots, k).value]
  }

  predicate MemOk(sc: Scope, mem: Mem) {
    |mem.locals| == |sc.locals| && |mem.globals| == |sc.globals|
  }

  function EnvOf(sc: Scope, mem: Mem): Env
    requires MemOk(sc, mem)
  {
    Env(ByName(sc.locals, mem.locals), ByName(sc.globals, mem.globals))
  }

  function SlotWidths(slots: seq<VarSlot>): (ws: seq<IntWidth>)
    ensures |ws| == |slots|
  {
    seq(|slots|, i requires 0 <= i < |slots| => slots[i].width)
  }

  function WidthsOf(sc: Scope): Widths {
    Widths(ByName(sc.locals, SlotWidths(sc.locals)), ByName(sc.globals, SlotWidths(sc.globals)))
  }

  /** The VM's instructions compute what the operators mean. */
  ghost predicate Agrees(alu: Alu, ops: Ops) {
    && (forall op, a, b :: alu.bin(OpcodeOf(op), a, b) == ops.bin(op, a, b))
    && (forall op, a :: alu.un(UnaryOpcodeOf(op), a) == ops.un(op, a))
    && (forall v :: alu.truthy(v) == ops.truthy(v))
    && (forall v, wd :: alu.narrow(v, wd) == ops.narrow(v, wd))
  }

  ghost predicate Sound(w: World) {
    && Agrees(w.m.alu, w.g.ops)
    && w.g.widths == WidthsOf(w.m.scope)
    && (forall s {:trigger Step(w.m, s)} :: w.step(s) == Step(w.m, s))
    && (forall mem {:trigger EnvOf(w.m.scope, mem)} ::
          MemOk(w.m.scope, mem) ==> w.abs(mem) == EnvOf(w.m.scope, mem))
  }

  /** The body c'..c of the code is in place and s stands at its start. */
  ghost predicate Ready(w: World, c: Builder, c': Builder, s: State) {
    && Sound(w)
    && WellFormed(w.m.scope, c)
    && c'.instrs <= w.m.code.instrs
    && s.Running? && s.pc == |c.instrs|
    && c'.nextReg <= |s.regs|
    && MemOk(w.m.scope, s.mem)
  }

  predicate SameBelow(a: seq<Value>, b: seq<Value>, n: nat) {
    |a| == |b| && n <= |a| && a[..n] == b[..n]
  }

  /** From s the code between c and c' leaves the value v in register r, memory and
      the older registers untouched; a failing operation traps. */
  ghost predicate ValueRuns(w: World, c: Builder, c': Builder, r: Reg, v: Option<Value>, s: State, n: nat, t: State) {
    && s.Running? && n > 0
    && Reaches(w.step, s, n, |c.instrs|, |c'.instrs|, t)
    && match v
       case None => t == Trapped(s.mem)
       case Some(x) =>
         && t.Running? && t.pc == |c'.instrs| && t.mem == s.mem
         && SameBelow(s.regs, t.regs, c.nextReg)
         && r < |t.regs| && t.regs[r] == x
  }

  lemma StepIs(w: World, s: State)
    requires Sound(w)
    ensures w.step(s) == Step(w.m, s)
  {
  }

  lemma AbsIs(w: World, mem: Mem)
    requires Sound(w) && MemOk(w.m.scope, mem)
    ensures w.abs(mem) == EnvOf(w.m.scope, mem)
  {
  }

  lemma One(step: Stepper, s: State, lo: nat, hi: nat)
    requires At(s, lo, hi)
    ensures Reaches(step, s, 1, lo, hi, step(s))
  {
    assert Reaches(step, step(s), 0, lo, hi, step(s));
  }

  /** One more instruction after a value. */
  lemma Then(w: World, c: Builder, c1: Builder, c2: Builder, s: State, n: nat, t: State)
    requires Reaches(w.step, s, n, |c.instrs|, |c1.instrs|, t) && t.Running? && t.pc == |c1.instrs|
    requires |c.instrs| <= |c1.instrs| < |c2.instrs|
    ensures Reaches(w.step, s, n + 1, |c.instrs|, |c2.instrs|, w.step(t))
  {
    Widen(w.step, s, n, t, |c.instrs|, |c1.instrs|, |c.instrs|, |c2.instrs|);
    One(w.step, t, |c.instrs|, |c2.instrs|);
    Chain(w.step, s, n, t, 1, w.step(t), |c.instrs|, |c2.instrs|);
  }

  lemma FetchAt(c: Builder, c': Builder, i: Instr, code: seq<Instr>)
    requires c'.instrs == c.instrs + [i] && c'.instrs <= code
    ensures |c.instrs| < |code| && code[|c.instrs|] == i
  {
    assert c'.instrs[|c.instrs|] == i;
  }

  /** What a load puts in its register. */
  lemma LoadStep(w: World, c: Builder, name: string, s: State)
    requires Ready(w, c, CompileLoad(w.m.scope, c, name).0, s)
    ensures w.step(s) == SetReg(s, c.nextReg, Read(w.abs(s.mem), name)) && c.nextReg < |s.regs|
  {
    var sc := w.m.scope;
    FetchAt(c, CompileLoad(sc, c, name).0, LoadInstr(sc, c.nextReg, name), w.m.code.instrs);
    StepIs(w, s);
    ReadIs(w, s.mem, name);
  }

  /** Reading a name is reading the slot it resolves to. */
  lemma ReadIs(w: World, mem: Mem, name: string)
    requires Sound(w) && MemOk(w.m.scope, mem)
    ensures Read(w.abs(mem), name) ==
      match LoadInstr(w.m.scope, 0, name)
      case LoadLocal(_, slot) => mem.locals[slot]
      case LoadGlobal(_, slot) => mem.globals[slot]
      case _ => Int(0)
  {
    AbsIs(w, mem);
  }

  lemma RunLoad(w: World, c: Builder, name: string, s: State) returns (t: State)
    requires Ready(w, c, CompileLoad(w.m.scope, c, name).0, s)
    ensures var (c', r) := CompileLoad(w.m.scope, c, name);
            ValueRuns(w, c, c', r, Some(Read(w.abs(s.mem), name)), s, 1, t)
  {
    t := w.step(s);
    LoadStep(w, c, name, s);
    One(w.step, s, |c.instrs|, |c.instrs| + 1);
  }

  lemma RunConst(w: World, c: Builder, v: Value, s: State) returns (t: State)
    requires Ready(w, c, EmitTo(c, LoadConst(c.nextReg, v)).0, s)
    ensures ValueRuns(w, c, EmitTo(c, LoadConst(c.nextReg, v)).0, c.nextReg, Some(v), s, 1, t)
  {
    var c' := EmitTo(c, LoadConst(c.nextReg, v)).0;
    FetchAt(c, c', LoadConst(c.nextReg, v), w.m.code.instrs);
    t := w.step(s);
    StepIs(w, s);
    One(w.step, s, |c.instrs|, |c'.instrs|);
  }

  lemma KeepReg(a: seq<Value>, b: seq<Value>, n: nat, r: Reg)
    requires SameBelow(a, b, n) && r < n
    ensures b[r] == a[r]
  {
    assert a[..n][r] == b[..n][r];
  }

  lemma SameTrans(a: seq<Value>, b: seq<Value>, c: seq<Value>, n: nat, k: nat)
    requires SameBelow(a, b, n) && SameBelow(b, c, k) && n <= k
    ensures SameBelow(a, c, n)
  {
    assert b[..k][..n] == b[..n] && c[..k][..n] == c[..n];
  }

  /** Two consecutive pieces of straight-line code. */
  lemma ValueThen(w: World, c: Builder, c1: Builder, c2: Builder, r1: Reg, v1: Value, r2: Reg, v2: Option<Value>,
                  s: State, n1: nat, t1: State, n2: nat, t2: State)
    requires ValueRuns(w, c, c1, r1, Some(v1), s, n1, t1) && ValueRuns(w, c1, c2, r2, v2, t1, n2, t2)
    requires |c.instrs| <= |c1.instrs| <= |c2.instrs| && c.nextReg <= c1.nextReg && r1 < c1.nextReg
    ensures ValueRuns(w, c, c2, r2, v2, s, n1 + n2, t2)
    ensures v2.Some? ==> r1 < |t2.regs| && t2.regs[r1] == v1
  {
    Widen(w.step, s, n1, t1, |c.instrs|, |c1.instrs|, |c.instrs|, |c2.instrs|);
    Widen(w.step, t1, n2, t2, |c1.instrs|, |c2.instrs|, |c.instrs|, |c2.instrs|);
    Chain(w.step, s, n1, t1, n2, t2, |c.instrs|, |c2.instrs|);
    if v2.Some? {
      SameTrans(s.regs, t1.regs, t2.regs, c.nextReg, c1.nextReg);
      KeepReg(t1.regs, t2.regs, c1.nextReg, r1);
    }
  }

  /** A trap in the first piece ends both. */
  lemma TrapThen(w: World, c: Builder, c1: Builder, c2: Builder, r1: Reg, r2: Reg, s: State, n1: nat, t1: State)
    requires ValueRuns(w, c, c1, r1, None, s, n1, t1) && |c1.instrs| <= |c2.instrs|
    ensures ValueRuns(w, c, c2, r2, None, s, n1, t1)
  {
    Widen(w.step, s, n1, t1, |c.instrs|, |c1.instrs|, |c.instrs|, |c2.instrs|);
  }

  /** A three-register instruction on two values already computed. */
  lemma RunBinary(w: World, c: Builder, op: BinaryOp, l: Reg, r: Reg, s: State) returns (t: State)
    requires Ready(w, c, EmitTo(c, Binary(OpcodeOf(op), c.nextReg, l, r)).0, s)
    requires l < |s.regs| && r < |s.regs|
    ensures ValueRuns(w, c, EmitTo(c, Binary(OpcodeOf(op), c.nextReg, l, r)).0, c.nextReg,
                      w.g.ops.bin(op, s.regs[l], s.regs[r]), s, 1, t)
  {
    var i := Binary(OpcodeOf(op), c.nextReg, l, r);
    var c' := EmitTo(c, i).0;
    FetchAt(c, c', i, w.m.code.instrs);
    t := w.step(s);
    StepIs(w, s);
    One(w.step, s, |c.instrs|, |c'.instrs|);
  }

  lemma RunUnary(w: World, c: Builder, op: UnaryOp, r: Reg, s: State) returns (t: State)
    requires Ready(w, c, EmitTo(c, Unary(UnaryOpcodeOf(op), c.nextReg, r)).0, s)
    requires r < |s.regs|
    ensures ValueRuns(w, c, EmitTo(c, Unary(UnaryOpcodeOf(op), c.nextReg, r)).0, c.nextReg,
                      w.g.ops.un(op, s.regs[r]), s, 1, t)
  {
    var i := Unary(UnaryOpcodeOf(op), c.nextReg, r);
    var c' := EmitTo(c, i).0;
    FetchAt(c, c', i, w.m.code.instrs);
    t := w.step(s);
    StepIs(w, s);
    One(w.step, s, |c.instrs|, |c'.instrs|);
  }

  /** Expressions: the emitted code computes the value in the environment the memory denotes. */
  lemma {:induction false} RunExpr(w: World, c: Builder, e: Expr, s: State) returns (n: nat, t: State)
    requires Ready(w, c, CompileExpr(w.m.scope, c, e).0, s)
    ensures var (c', r) := CompileExpr(w.m.scope, c, e);
            ValueRuns(w, c, c', r, Eval(w.g.ops, w.abs(s.mem), e), s, n, t)
    decreases e
  {
    var sc := w.m.scope;
    match e
    case Lit(v) => t := RunConst(w, c, v, s); n := 1;
    case Variable(x) => t := RunLoad(w, c, x, s); n := 1;
    case Anonymous => t := RunConst(w, c, Int(0), s); n := 1;
    case BinaryExpr(op, l, r) => n, t := RunBinaryExpr(w, c, e, s);
    case UnaryExpr(op, x) =>
      var (c1, src) := CompileExpr(sc, c, x);
      ExprGood(sc, c, x);
      var c2 := EmitTo(c1, Unary(UnaryOpcodeOf(op), c1.nextReg, src)).0;
      assert c1.instrs <= c2.instrs;
      n, t := RunExpr(w, c, x, s);
      var v := Eval(w.g.ops, w.abs(s.mem), x);
      if v.None? {
        TrapThen(w, c, c1, c2, src, c1.nextReg, s, n, t);
      } else {
        var t1 := t;
        t := RunUnary(w, c1, op, src, t1);
        ValueThen(w, c, c1, c2, src, v.value, c1.nextReg, w.g.ops.un(op, v.value), s, n, t1, 1, t);
        n := n + 1;
      }
    case Paren(x) => n, t := RunExpr(w, c, x, s);
  }

  lemma {:induction false} RunBinaryExpr(w: World, c: Builder, e: Expr, s: State) returns (n: nat, t: State)
    requires e.BinaryExpr? && Ready(w, c, CompileExpr(w.m.scope, c, e).0, s)
    ensures var (c', r) := CompileExpr(w.m.scope, c, e);
            ValueRuns(w, c, c', r, Eval(w.g.ops, w.abs(s.mem), e), s, n, t)
    decreases e, 0
  {
    var sc := w.m.scope;
    var env := w.abs(s.mem);
    var (c1, left) := CompileExpr(sc, c, e.left);
    var (c2, right) := CompileExpr(sc, c1, e.right);
    ExprGood(sc, c, e.left);
    ExprGood(sc, c1, e.right);
    var c3 := EmitTo(c2, Binary(OpcodeOf(e.op), c2.nextReg, left, right)).0;
    assert c1.instrs <= c2.instrs <= c3.instrs;
    var a := Eval(w.g.ops, env, e.left);
    var b := Eval(w.g.ops, env, e.right);
    var n1, t1 := RunExpr(w, c, e.left, s);
    if a.None? {
      n, t := n1, t1;
      TrapThen(w, c, c1, c3, left, c2.nextReg, s, n, t);
    } else {
      var n2, t2 := RunExpr(w, c1, e.right, t1);
      ValueThen(w, c, c1, c2, left, a.value, right, b, s, n1, t1, n2, t2);
      if b.None? {
        n, t := n1 + n2, t2;
        TrapThen(w, c, c2, c3, right, c2.nextReg, s, n, t);
      } else {
        t := RunBinary(w, c2, e.op, left, right, t2);
        n := n1 + n2 + 1;
        ValueThen(w, c, c2, c3, right, b.value, c2.nextReg, w.g.ops.bin(e.op, a.value, b.value), s, n1 + n2, t2, 1, t);
      }
    }
  }

  /** Two expressions, one after the other; a failure of either traps. */
  lemma RunPair(w: World, c: Builder, e1: Expr, e2: Expr, s: State) returns (n: nat, t: State)
    requires Ready(w, c, CompileExpr(w.m.scope, CompileExpr(w.m.scope, c, e1).0, e2).0, s)
    ensures var (c1, r1) := CompileExpr(w.m.scope, c, e1); var (c2, r2) := CompileExpr(w.m.scope, c1, e2);
            var a := Eval(w.g.ops, w.abs(s.mem), e1); var b := Eval(w.g.ops, w.abs(s.mem), e2);
            ValueRuns(w, c, c2, r2, if a.None? then None else b, s, n, t)
            && (a.Some? && b.Some? ==> r1 < |t.regs| && t.regs[r1] == a.value)
  {
    var (c1, r1) := CompileExpr(w.m.scope, c, e1);
    var (c2, r2) := CompileExpr(w.m.scope, c1, e2);
    ExprGood(w.m.scope, c, e1);
    ExprGood(w.m.scope, c1, e2);
    var a := Eval(w.g.ops, w.abs(s.mem), e1);
    n, t := RunExpr(w, c, e1, s);
    if a.None? {
      TrapThen(w, c, c1, c2, r1, r2, s, n, t);
    } else {
      var n2, t2 := RunExpr(w, c1, e2, t);
      ValueThen(w, c, c1, c2, r1, a.value, r2, Eval(w.g.ops, w.abs(s.mem), e2), s, n, t, n2, t2);
      n, t := n + n2, t2;
    }
  }

  /** Writing the first slot of a key changes that key and no other. */
  lemma ByNameUpdate<T>(slots: seq<VarSlot>, vals: seq<T>, key: string, v: T)
    requires |vals| == |slots| && FindSlot(slots, key).Some?
    ensures ByName(slots, vals[FindSlot(slots, key).value := v]) == ByName(slots, vals)[key := v]
  {
    var i := FindSlot(slots, key).value;
    var a := ByName(slots, vals[i := v]);
    var b := ByName(slots, vals)[key := v];
    forall k | k in Keys(slots) ensures a[k] == b[k] {
      var j := FindSlot(slots, k).value;
      assert k != key ==> j != i;
    }
  }

  /** A store that emits code runs it in one step; otherwise nothing happens. */
  ghost predicate StoreRuns(w: World, c: Builder, c': Builder, s: State, env: Env, n: nat, t: State) {
    && s.Running? && t.Running? && t.pc == |c'.instrs| && t.regs == s.regs
    && MemOk(w.m.scope, t.mem) && w.abs(t.mem) == env
    && Reaches(w.step, s, n, |c.instrs|, |c'.instrs|, t)
  }

  lemma AbsWriteLocal(w: World, mem: Mem, name: string, v: Value)
    requires Sound(w) && MemOk(w.m.scope, mem) && FindSlot(w.m.scope.locals, Key(name)).Some?
    ensures var slot := FindSlot(w.m.scope.locals, Key(name)).value;
            w.abs(mem.(locals := mem.locals[slot := w.m.alu.narrow(v, Width(w.m.scope.locals, slot))]))
            == WriteLocal(w.g.ops, w.g.widths, w.abs(mem), name, v)
  {
    var slots := w.m.scope.locals;
    var slot := FindSlot(slots, Key(name)).value;
    var x := w.m.alu.narrow(v, Width(slots, slot));
    AbsIs(w, mem);
    AbsIs(w, mem.(locals := mem.locals[slot := x]));
    ByNameUpdate(slots, mem.locals, Key(name), x);
  }

  lemma AbsWriteGlobal(w: World, mem: Mem, name: string, v: Value)
    requires Sound(w) && MemOk(w.m.scope, mem)
    requires FindSlot(w.m.scope.locals, Key(name)).None? && FindSlot(w.m.scope.globals, Key(name)).Some?
    ensures var slot := FindSlot(w.m.scope.globals, Key(name)).value;
            w.abs(mem.(globals := mem.globals[slot := w.m.alu.narrow(v, Width(w.m.scope.globals, slot))]))
            == Write(w.g.ops, w.g.widths, w.abs(mem), name, v)
  {
    var slots := w.m.scope.globals;
    var slot := FindSlot(slots, Key(name)).value;
    var x := w.m.alu.narrow(v, Width(slots, slot));
    AbsIs(w, mem);
    AbsIs(w, mem.(globals := mem.globals[slot := x]));
    ByNameUpdate(slots, mem.globals, Key(name), x);
  }

  lemma LocalIs(w: World, mem: Mem, name: string)
    requires Sound(w) && MemOk(w.m.scope, mem)
    ensures Key(name) in w.abs(mem).locals <==> FindSlot(w.m.scope.locals, Key(name)).Some?
    ensures Key(name) in w.abs(mem).globals <==> FindSlot(w.m.scope.globals, Key(name)).Some?
  {
    AbsIs(w, mem);
  }

  lemma StoreSlotLocal(w: World, c: Builder, c': Builder, name: string, src: Reg, s: State) returns (t: State)
    requires Ready(w, c, c', s) && src < |s.regs|
    requires FindSlot(w.m.scope.locals, Key(name)).Some?
    requires c'.instrs == c.instrs + [StoreLocal(FindSlot(w.m.scope.locals, Key(name)).value, src)]
    ensures StoreRuns(w, c, c', s, WriteLocal(w.g.ops, w.g.widths, w.abs(s.mem), name, s.regs[src]), 1, t)
  {
    var slot := FindSlot(w.m.scope.locals, Key(name)).value;
    FetchAt(c, c', StoreLocal(slot, src), w.m.code.instrs);
    t := w.step(s);
    StepIs(w, s);
    One(w.step, s, |c.instrs|, |c'.instrs|);
    AbsWriteLocal(w, s.mem, name, s.regs[src]);
  }

  lemma StoreSlotGlobal(w: World, c: Builder, c': Builder, name: string, src: Reg, s: State) returns (t: State)
    requires Ready(w, c, c', s) && src < |s.regs|
    requires FindSlot(w.m.scope.locals, Key(name)).None? && FindSlot(w.m.scope.globals, Key(name)).Some?
    requires c'.instrs == c.instrs + [StoreGlobal(FindSlot(w.m.scope.globals, Key(name)).value, src)]
    ensures StoreRuns(w, c, c', s, Write(w.g.ops, w.g.widths, w.abs(s.mem), name, s.regs[src]), 1, t)
  {
    var slot := FindSlot(w.m.scope.globals, Key(name)).value;
    FetchAt(c, c', StoreGlobal(slot, src), w.m.code.instrs);
    t := w.step(s);
    StepIs(w, s);
    One(w.step, s, |c.instrs|, |c'.instrs|);
    AbsWriteGlobal(w, s.mem, name, s.regs[src]);
  }

  lemma RunStore(w: World, c: Builder, name: string, src: Reg, range: Range, s: State) returns (n: nat, t: State)
    requires Ready(w, c, CompileStore(w.m.scope, c, name, src, range), s) && src < |s.regs|
    ensures StoreRuns(w, c, CompileStore(w.m.scope, c, name, src, range), s,
                      Write(w.g.ops, w.g.widths, w.abs(s.mem), name, s.regs[src]), n, t)
  {
    var sc := w.m.scope;
    var c' := CompileStore(sc, c, name, src, range);
    LocalIs(w, s.mem, name);
    if FindSlot(sc.locals, Key(name)).Some? {
      n := 1;
      t := StoreSlotLocal(w, c, c', name, src, s);
    } else if FindSlot(sc.globals, Key(name)).Some? {
      n := 1;
      t := StoreSlotGlobal(w, c, c', name, src, s);
    } else {
      n, t := 0, s;
    }
  }

  lemma RunStoreIfLocal(w: World, c: Builder, name: string, src: Reg, s: State) returns (n: nat, t: State)
    requires Ready(w, c, StoreIfLocal(w.m.scope, c, name, src), s) && src < |s.regs|
    ensures StoreRuns(w, c, StoreIfLocal(w.m.scope, c, name, src), s,
                      WriteLocal(w.g.ops, w.g.widths, w.abs(s.mem), name, s.regs[src]), n, t)
  {
    var sc := w.m.scope;
    LocalIs(w, s.mem, name);
    if FindSlot(sc.locals, Key(name)).Some? {
      n := 1;
      t := StoreSlotLocal(w, c, StoreIfLocal(sc, c, name, src), name, src, s);
    } else {
      n, t := 0, s;
    }
  }
}
