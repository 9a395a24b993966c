/** What the operators of the language mean, in numbers and truth values: in the interpreter
    on the machine's arithmetic, and in the compiled code
    (`compile.rs:1183-1226`, `vm.rs:1379-1470`). */
module Operators {
  import opened Names
  import opened Ir
  import opened IntWidths
  import opened Ast
  import opened StSemantics
  import opened Vm
  import opened Runs
  import opened CodeGen
  import opened CodeRuns
  import opened Pou
  import opened VmArith
  import opened Compiled

  /** The operands of a binary expression have these values. */
  predicate Operands(f: FloatUnit, env: Env, e: Expr, a: Value, b: Value) {
    e.BinaryExpr? && Eval(StOps(f), env, e.left) == Some(a) && Eval(StOps(f), env, e.right) == Some(b)
  }

  lemma BinaryValue(f: FloatUnit, env: Env, e: Expr, a: Value, b: Value)
    requires Operands(f, env, e, a, b)
    ensures Eval(StOps(f), env, e) == AluBin(f, OpcodeOf(e.op), a, b)
  {
    BinIsAlu(f, e.op, a, b);
  }

  // ---------------------------------------------------------------- comparisons

  predicate IsComparison(op: BinaryOp) { op.Eq? || op.Ne? || op.Lt? || op.Gt? || op.Le? || op.Ge? }

  predicate Holds(op: BinaryOp, x: int, y: int)
    requires IsComparison(op)
  {
    match op
    case Eq => x == y case Ne => x != y
    case Lt => x < y case Gt => x > y
    case Le => x <= y case Ge => x >= y
  }

  /** Neither operand hides the order behind the sign bit. */
  predicate Ordered(a: Value, b: Value) { Wide(a) && Wide(b) && !Shadows(a, b) && !Shadows(b, a) }

  /** a = b, a <> b, a < b, a > b, a <= b and a >= b are what they are of the numbers. */
  lemma ComparisonMeans(f: FloatUnit, env: Env, e: Expr, a: Value, b: Value)
    requires Operands(f, env, e, a, b) && IsComparison(e.op) && Ordered(a, b)
    ensures Eval(StOps(f), env, e) == Some(Bool(Holds(e.op, Number(a), Number(b))))
  {
    BinaryValue(f, env, e, a, b);
    OrderIsNumeric(f, a, b);
  }

  /** The signed 64-bit number with the same bits. */
  function Signed(v: Value): int
    requires IsInteger(v)
  {
    if Number(v) > MAX64 then Number(v) - 0x1_0000_0000_0000_0000 else Number(v)
  }

  lemma ComparisonIsSigned(f: FloatUnit, env: Env, e: Expr, a: Value, b: Value)
    requires Operands(f, env, e, a, b) && IsComparison(e.op) && Wide(a) && Wide(b)
    ensures Eval(StOps(f), env, e) == Some(Bool(Holds(e.op, Signed(a), Signed(b))))
  {
    BinaryValue(f, env, e, a, b);
    ViewOfWide(f, a);
    ViewOfWide(f, b);
  }

  /** The comparison l op r is what it is of the numbers. */
  predicate NumericAt(f: FloatUnit, env: Env, op: BinaryOp, l: Expr, r: Expr, a: Value, b: Value)
    requires IsComparison(op) && IsInteger(a) && IsInteger(b)
  {
    Eval(StOps(f), env, BinaryExpr(op, l, r)) == Some(Bool(Holds(op, Number(a), Number(b))))
  }

  /** All six comparisons are numeric for no other pair of integers: the condition is exact. */
  lemma ComparisonsMeanIff(f: FloatUnit, env: Env, l: Expr, r: Expr, a: Value, b: Value)
    requires Eval(StOps(f), env, l) == Some(a) && Eval(StOps(f), env, r) == Some(b) && Wide(a) && Wide(b)
    ensures (forall op :: IsComparison(op) ==> NumericAt(f, env, op, l, r, a, b)) <==> Ordered(a, b)
  {
    if Ordered(a, b) {
      forall op | IsComparison(op) ensures NumericAt(f, env, op, l, r, a, b) { ComparisonMeans(f, env, BinaryExpr(op, l, r), a, b); }
    } else {
      var op := SomeWrong(f, env, l, r, a, b);
      assert !NumericAt(f, env, op, l, r, a, b);
    }
  }

  lemma SomeWrong(f: FloatUnit, env: Env, l: Expr, r: Expr, a: Value, b: Value) returns (op: BinaryOp)
    requires Eval(StOps(f), env, l) == Some(a) && Eval(StOps(f), env, r) == Some(b) && Wide(a) && Wide(b) && !Ordered(a, b)
    ensures IsComparison(op) && !NumericAt(f, env, op, l, r, a, b)
  {
    op := if Signed(a) == Signed(b) then Eq else Lt;
    ComparisonIsSigned(f, env, BinaryExpr(op, l, r), a, b);
  }

  // ---------------------------------------------------------------- division

  function Magnitude(i: int): nat { if i < 0 then -i else i }

  /** q and m are quotient and remainder of x by y, rounded towards zero. */
  predicate Divided(x: int, y: int, q: int, m: int) {
    && x == y * q + m && Magnitude(m) < Magnitude(y)
    && (m != 0 ==> (m < 0 <==> x < 0))
  }

  /** Division fails for a divisor of 0 and for the one quotient outside 64 bits. */
  predicate Divides(x: int, y: int) { y != 0 && !(x == MIN64 && y == -1) }

  lemma TruncDivided(x: int, y: int) returns (q: int, m: int)
    requires Divides(x, y)
    ensures Divided(x, y, q, m) && TruncDiv(x, y) == Some(q) && TruncRem(x, y) == Some(m)
  {
    var d, k := Quotient(x, y);
    q, m := Signs(x, y, d, k);
  }

  lemma Quotient(x: int, y: int) returns (d: int, k: int)
    requires Divides(x, y)
    ensures Magnitude(x) == Magnitude(y) * d + k && 0 <= d && 0 <= k < Magnitude(y)
    ensures TruncDiv(x, y) == Some(if (x < 0) == (y < 0) then d else -d)
  {
    d, k := Magnitude(x) / Magnitude(y), Magnitude(x) % Magnitude(y);
    Euclid(Magnitude(x), Magnitude(y));
  }

  lemma Euclid(u: nat, w: nat)
    requires w > 0
    ensures u == w * (u / w) + u % w && 0 <= u % w < w
  {
  }

  lemma Signs(x: int, y: int, d: int, k: int) returns (q: int, m: int)
    requires Magnitude(x) == Magnitude(y) * d + k && 0 <= k < Magnitude(y)
    ensures q == (if (x < 0) == (y < 0) then d else -d) && Divided(x, y, q, m) && x - y * q == m
  {
    q, m := if (x < 0) == (y < 0) then d else -d, if x < 0 then -k else k;
    Negated(y, d);
  }

  lemma Negated(y: int, d: int)
    ensures (-y) * d == -(y * d) && y * (-d) == -(y * d) && (-y) * (-d) == y * d
  {
  }

  /** a / b and a MOD b: quotient and remainder rounded towards zero, or a failure. */
  lemma DivisionMeans(f: FloatUnit, env: Env, l: Expr, r: Expr, a: Value, b: Value) returns (q: int, m: int)
    requires Eval(StOps(f), env, l) == Some(a) && Eval(StOps(f), env, r) == Some(b) && Wide(a) && Wide(b)
    ensures var quotient, remainder := Eval(StOps(f), env, BinaryExpr(Div, l, r)), Eval(StOps(f), env, BinaryExpr(Mod, l, r));
      if Divides(Signed(a), Signed(b))
      then quotient == Some(Int(q)) && remainder == Some(Int(m)) && Divided(Signed(a), Signed(b), q, m)
      else quotient == None && remainder == None
  {
    BinaryValue(f, env, BinaryExpr(Div, l, r), a, b);
    BinaryValue(f, env, BinaryExpr(Mod, l, r), a, b);
    ViewOfWide(f, a);
    ViewOfWide(f, b);
    q, m := 0, 0;
    if Divides(Signed(a), Signed(b)) { q, m := TruncDivided(Signed(a), Signed(b)); }
  }

  // ---------------------------------------------------------------- truth values

  /** Values with a truth value of their own. */
  predicate IsTruth(v: Value) { v.Bool? || IsInteger(v) || v.Time? }

  predicate IsTrue(v: Value)
    requires IsTruth(v)
  {
    match v case Bool(b) => b case Time(ms) => ms != 0 case _ => Number(v) != 0
  }

  lemma TruthMeans(f: FloatUnit, v: Value)
    requires IsTruth(v)
    ensures Truth(StOps(f), Some(v)) == Some(IsTrue(v))
  {
  }

  /** AND, OR and XOR have their truth tables, and so has NOT. */
  lemma LogicMeans(f: FloatUnit, env: Env, l: Expr, r: Expr, a: Value, b: Value)
    requires Eval(StOps(f), env, l) == Some(a) && Eval(StOps(f), env, r) == Some(b) && IsTruth(a) && IsTruth(b)
    ensures Eval(StOps(f), env, BinaryExpr(And, l, r)) == Some(Bool(IsTrue(a) && IsTrue(b)))
    ensures Eval(StOps(f), env, BinaryExpr(Or, l, r)) == Some(Bool(IsTrue(a) || IsTrue(b)))
    ensures Eval(StOps(f), env, BinaryExpr(Xor, l, r)) == Some(Bool(IsTrue(a) != IsTrue(b)))
    ensures Eval(StOps(f), env, UnaryExpr(Not, l)) == Some(Bool(!IsTrue(a)))
  {
    BinaryValue(f, env, BinaryExpr(And, l, r), a, b);
    BinaryValue(f, env, BinaryExpr(Or, l, r), a, b);
    BinaryValue(f, env, BinaryExpr(Xor, l, r), a, b);
    UnIsAlu(f, Not, a);
  }

  // ---------------------------------------------------------------- REAL and TIME

  /** The floating-point number a REAL or an integer stands for. */
  function RealOf(f: FloatUnit, v: Value): nat
    requires v.Real? || IsInteger(v)
  {
    if v.Real? then v.bits else f.ofInt(Number(v))
  }

  /** The operands, one of them a REAL, the other a REAL or an integer. */
  predicate Mixed(a: Value, b: Value) { (a.Real? || IsInteger(a)) && (b.Real? || IsInteger(b)) && (a.Real? || b.Real?) }

  /** Arithmetic with a REAL is the operation of that name of the floating-point unit, on the
      other operand converted; division by an integer 0 fails all the same. */
  lemma RealMeans(f: FloatUnit, env: Env, l: Expr, r: Expr, a: Value, b: Value)
    requires Eval(StOps(f), env, l) == Some(a) && Eval(StOps(f), env, r) == Some(b) && Mixed(a, b)
    ensures Eval(StOps(f), env, BinaryExpr(Add, l, r)) == Some(Real(f.add(RealOf(f, a), RealOf(f, b))))
    ensures Eval(StOps(f), env, BinaryExpr(Sub, l, r)) == Some(Real(f.sub(RealOf(f, a), RealOf(f, b))))
    ensures Eval(StOps(f), env, BinaryExpr(Mul, l, r)) == Some(Real(f.mul(RealOf(f, a), RealOf(f, b))))
    ensures Eval(StOps(f), env, BinaryExpr(Power, l, r)) == Some(Real(f.pow(RealOf(f, a), RealOf(f, b))))
  {
    BinaryValue(f, env, BinaryExpr(Add, l, r), a, b);
    BinaryValue(f, env, BinaryExpr(Sub, l, r), a, b);
    BinaryValue(f, env, BinaryExpr(Mul, l, r), a, b);
    BinaryValue(f, env, BinaryExpr(Power, l, r), a, b);
  }

  lemma RealDivisionMeans(f: FloatUnit, env: Env, l: Expr, r: Expr, a: Value, b: Value)
    requires Eval(StOps(f), env, l) == Some(a) && Eval(StOps(f), env, r) == Some(b) && Mixed(a, b) && (IsInteger(b) ==> Wide(b))
    ensures Eval(StOps(f), env, BinaryExpr(Div, l, r)) ==
      if IsInteger(b) && Number(b) == 0 then None else Some(Real(f.div(RealOf(f, a), RealOf(f, b))))
    ensures a.Real? ==> Eval(StOps(f), env, UnaryExpr(Neg, l)) == Some(Real(f.neg(a.bits)))
  {
    BinaryValue(f, env, BinaryExpr(Div, l, r), a, b);
    if IsInteger(b) { ViewOfWide(f, b); }
    UnIsAlu(f, Neg, a);
  }

  /** The six comparisons with a REAL, from the unit's less-than and equality. */
  lemma RealOrderMeans(f: FloatUnit, env: Env, e: Expr, a: Value, b: Value)
    requires Operands(f, env, e, a, b) && Mixed(a, b) && IsComparison(e.op)
    ensures var x, y := RealOf(f, a), RealOf(f, b);
      Eval(StOps(f), env, e) == Some(Bool(
        match e.op
        case Eq => f.eq(x, y) case Ne => !f.eq(x, y)
        case Lt => f.lt(x, y) case Gt => f.lt(y, x)
        case Le => f.lt(x, y) || f.eq(x, y) case _ => f.lt(y, x) || f.eq(x, y)))
  {
    BinaryValue(f, env, e, a, b);
  }

  /** Variables start at zero: false, 0, no time. */
  lemma DefaultIsZero(f: FloatUnit, ty: VarType)
    requires IsTruth(Default(ty))
    ensures !IsTrue(Default(ty)) && Truth(StOps(f), Some(Default(ty))) == Some(false)
  {
  }

  /** Sum and difference of two TIMEs, in milliseconds, when they fit 64 bits. */
  lemma TimeMeans(f: FloatUnit, env: Env, l: Expr, r: Expr, x: int, y: int)
    requires Eval(StOps(f), env, l) == Some(Time(x)) && Eval(StOps(f), env, r) == Some(Time(y))
    ensures MIN64 <= x + y <= MAX64 ==> Eval(StOps(f), env, BinaryExpr(Add, l, r)) == Some(Time(x + y))
    ensures MIN64 <= x - y <= MAX64 ==> Eval(StOps(f), env, BinaryExpr(Sub, l, r)) == Some(Time(x - y))
  {
    BinaryValue(f, env, BinaryExpr(Add, l, r), Time(x), Time(y));
    BinaryValue(f, env, BinaryExpr(Sub, l, r), Time(x), Time(y));
    SignedFits(x + y, I64);
    SignedFits(x - y, I64);
  }

  lemma TimeOrderMeans(f: FloatUnit, env: Env, e: Expr, x: int, y: int)
    requires Operands(f, env, e, Time(x), Time(y)) && IsComparison(e.op)
    ensures Eval(StOps(f), env, e) == Some(Bool(Holds(e.op, x, y)))
  {
    BinaryValue(f, env, e, Time(x), Time(y));
  }

  // ---------------------------------------------------------------- statements

  /** The values of a selector: of its expression, or of the two ends of its interval. */
  predicate Bounds(f: FloatUnit, env: Env, sel: Selector, a: Value, b: Value) {
    if sel.Single? then Eval(StOps(f), env, sel.e) == Some(a)
    else Eval(StOps(f), env, sel.lo) == Some(a) && Eval(StOps(f), env, sel.hi) == Some(b)
  }

  lemma OrderOf(f: FloatUnit, op: BinaryOp, a: Value, b: Value)
    requires IsComparison(op) && Ordered(a, b)
    ensures StOps(f).bin(op, a, b) == Some(Bool(Holds(op, Number(a), Number(b))))
  {
    BinIsAlu(f, op, a, b);
    OrderIsNumeric(f, a, b);
  }

  /** The CASE subject is selected by an equal value, and by an interval that contains it. */
  lemma SelectorMeans(f: FloatUnit, env: Env, v: Value, sel: Selector, a: Value, b: Value)
    requires Bounds(f, env, sel, a, b) && Ordered(v, a) && (sel.Interval? ==> Ordered(v, b))
    ensures Selects(StOps(f), env, v, sel) ==
      Some(if sel.Single? then Number(v) == Number(a) else Number(a) <= Number(v) <= Number(b))
  {
    if sel.Single? {
      OrderOf(f, Eq, v, a);
      TruthMeans(f, Bool(Number(v) == Number(a)));
    } else {
      OrderOf(f, Ge, v, a);
      OrderOf(f, Le, v, b);
      var low, high := Bool(Number(v) >= Number(a)), Bool(Number(v) <= Number(b));
      BothMeans(f, low, high);
      TruthMeans(f, Bool(low.b && high.b));
    }
  }

  lemma BothMeans(f: FloatUnit, a: Value, b: Value)
    requires a.Bool? && b.Bool?
    ensures StOps(f).bin(And, a, b) == Some(Bool(a.b && b.b))
  {
    BinIsAlu(f, And, a, b);
  }

  /** IF and ELSIF: the first arm whose condition is true runs. */
  lemma {:induction false} FirstArmRuns(g: Lang, s: Stmt, i: nat, k: nat, env: Env, inLoop: bool, fuel: nat)
    requires s.If? && i <= k <= |s.arms|
    requires forall j :: i <= j < k ==> Truth(g.ops, Eval(g.ops, env, s.arms[j].cond)) == Some(false)
    requires k < |s.arms| ==> Truth(g.ops, Eval(g.ops, env, s.arms[k].cond)) == Some(true)
    ensures RunArms(g, s, i, env, inLoop, fuel) == Run(g, if k < |s.arms| then s.arms[k].body else s.els, env, inLoop, fuel)
    decreases k - i
  {
    if i < k { FirstArmRuns(g, s, i + 1, k, env, inLoop, fuel); }
  }

  lemma {:induction false} FirstSelects(ops: Ops, env: Env, v: Value, sels: seq<Selector>, k: nat)
    requires k <= |sels| && forall j :: 0 <= j < k ==> Selects(ops, env, v, sels[j]) == Some(false)
    requires k < |sels| ==> Selects(ops, env, v, sels[k]) == Some(true)
    ensures SelectsAny(ops, env, v, sels) == Some(k < |sels|)
    decreases sels
  {
    if k > 0 { FirstSelects(ops, env, v, sels[1..], k - 1); }
  }

  /** CASE: the first branch one of whose selectors takes the subject runs, else ELSE. */
  lemma {:induction false} FirstBranchRuns(g: Lang, s: Stmt, i: nat, k: nat, v: Value, env: Env, inLoop: bool, fuel: nat)
    requires s.Case? && i <= k <= |s.branches|
    requires forall j :: i <= j < k ==> SelectsAny(g.ops, env, v, s.branches[j].selectors) == Some(false)
    requires k < |s.branches| ==> SelectsAny(g.ops, env, v, s.branches[k].selectors) == Some(true)
    ensures RunBranches(g, s, i, v, env, inLoop, fuel) == Run(g, if k < |s.branches| then s.branches[k].body else s.els, env, inLoop, fuel)
    decreases k - i
  {
    if i < k { FirstBranchRuns(g, s, i + 1, k, v, env, inLoop, fuel); }
  }

  /** The body of the loop s left it by EXIT in e. */
  ghost predicate LeftBy(g: Lang, s: Stmt, e: Env)
    requires s.While? || s.Repeat? || s.For?
  {
    exists before, fuel: nat :: Run(g, s.body, before, true, fuel) == Exited(e)
  }

  /** A WHILE that ends, ends with its condition false, unless by EXIT; and it does nothing if
      the condition is false at the start. */
  lemma {:induction false} WhileEnds(g: Lang, s: Stmt, env: Env, fuel: nat)
    requires s.While? && RunWhile(g, s, env, fuel).Done?
    ensures var e := RunWhile(g, s, env, fuel).env;
      Truth(g.ops, Eval(g.ops, e, s.cond)) == Some(false) || LeftBy(g, s, e)
    ensures Truth(g.ops, Eval(g.ops, env, s.cond)) == Some(false) ==> RunWhile(g, s, env, fuel).env == env
    decreases fuel
  {
    if Truth(g.ops, Eval(g.ops, env, s.cond)) == Some(true) {
      var o := Run(g, s.body, env, true, fuel);
      if o.Done? { WhileEnds(g, s, o.env, fuel - 1); }
    }
  }

  /** A REPEAT that ends has run its body and ends with its condition true, unless by EXIT. */
  lemma {:induction false} RepeatEnds(g: Lang, s: Stmt, env: Env, fuel: nat)
    requires s.Repeat? && RunRepeat(g, s, env, fuel).Done?
    ensures var e := RunRepeat(g, s, env, fuel).env;
      Truth(g.ops, Eval(g.ops, e, s.cond)) == Some(true) || LeftBy(g, s, e)
    ensures var o := Run(g, s.body, env, true, fuel);
      o.Done? && Truth(g.ops, Eval(g.ops, o.env, s.cond)) == Some(true) ==> RunRepeat(g, s, env, fuel) == o
    decreases fuel
  {
    var o := Run(g, s.body, env, true, fuel);
    if o.Done? && Truth(g.ops, Eval(g.ops, o.env, s.cond)) == Some(false) { RepeatEnds(g, s, o.env, fuel - 1); }
  }

  /** A FOR that ends, ends with its variable above its bound, unless by EXIT. */
  lemma {:induction false} ForEnds(f: FloatUnit, g: Lang, s: Stmt, env: Env, fuel: nat, b: Value)
    requires g.ops == StOps(f) && s.For? && RunFor(g, s, env, fuel).Done?
    requires var e := RunFor(g, s, env, fuel).env; Eval(g.ops, e, s.to) == Some(b) && Ordered(Read(e, s.variable), b)
    ensures var e := RunFor(g, s, env, fuel).env; Number(Read(e, s.variable)) > Number(b) || LeftBy(g, s, e)
    decreases fuel
  {
    if Truth(g.ops, Bin(g.ops, Le, Some(Read(env, s.variable)), Eval(g.ops, env, s.to))) == Some(true) {
      var o := Run(g, s.body, env, true, fuel);
      if o.Done? {
        var v := Bin(g.ops, Add, Some(Read(o.env, s.variable)), StepOf(g, s, o.env)).value;
        ForEnds(f, g, s, WriteLocal(g.ops, g.widths, o.env, s.variable, v), fuel - 1, b);
      }
    } else {
      OrderOf(f, Le, Read(env, s.variable), b);
      TruthMeans(f, Bool(Number(Read(env, s.variable)) <= Number(b)));
    }
  }

  // ---------------------------------------------------------------- compiled code

  /** The compiled assignment of any expression to a local: its value, narrowed, in the slot,
      or a trap where it has none. */
  lemma AssignedValue(f: FloatUnit, p: PouDef, globals: seq<VarSlot>, s: State, st: Stmt) returns (n: nat)
    requires AtBody(p, globals, PlcMachine(f, p, globals), s) && p.body == [st] && st.Assign?
    requires FindSlot(Layout(p), Key(st.target)).Some?
    ensures var t := Steps(StepFn(PlcMachine(f, p, globals)), s, n); var i := FindSlot(Layout(p), Key(st.target)).value;
      match Eval(StOps(f), EnvOf(Scope(Layout(p), globals), s.mem), st.value)
      case None => t.Trapped?
      case Some(v) => t.Returned? && |t.mem.locals| == |Layout(p)| && t.mem.locals[i] == Narrow(v, Layout(p)[i].width)
  {
    var sc := Scope(Layout(p), globals);
    var g, env := LangOf(f, p, globals), EnvOf(sc, s.mem);
    VmImplementsOps(f);
    n := BodyRuns(p, globals, VmAlu(f), StOps(f), s, 0);
    LocalWidth(p, globals, st.target);
    OneStatement(g, st, env, 0);
    var t := Steps(StepFn(PlcMachine(f, p, globals)), s, n);
    if Eval(StOps(f), env, st.value).Some? {
      assert EnvOf(sc, t.mem).locals[Key(st.target)] == t.mem.locals[FindSlot(Layout(p), Key(st.target)).value];
    }
  }

  /** The compiled x := l op r with a comparison leaves the truth about the numbers in x. */
  lemma ComparisonStored(f: FloatUnit, p: PouDef, globals: seq<VarSlot>, s: State, st: Stmt, a: Value, b: Value) returns (n: nat)
    requires AtBody(p, globals, PlcMachine(f, p, globals), s) && p.body == [st] && st.Assign?
    requires FindSlot(Layout(p), Key(st.target)).Some?
    requires Operands(f, EnvOf(Scope(Layout(p), globals), s.mem), st.value, a, b) && IsComparison(st.value.op) && Ordered(a, b)
    ensures var t := Steps(StepFn(PlcMachine(f, p, globals)), s, n); var i := FindSlot(Layout(p), Key(st.target)).value;
      t.Returned? && |t.mem.locals| == |Layout(p)| && t.mem.locals[i] == Bool(Holds(st.value.op, Number(a), Number(b)))
  {
    n := AssignedValue(f, p, globals, s, st);
    ComparisonMeans(f, EnvOf(Scope(Layout(p), globals), s.mem), st.value, a, b);
  }

  /** The compiled x := l / r and x := l MOD r. */
  lemma DivisionStored(f: FloatUnit, p: PouDef, globals: seq<VarSlot>, s: State, st: Stmt, a: Value, b: Value)
    returns (n: nat, q: int, m: int)
    requires AtBody(p, globals, PlcMachine(f, p, globals), s) && p.body == [st] && st.Assign?
    requires FindSlot(Layout(p), Key(st.target)).Some?
    requires Operands(f, EnvOf(Scope(Layout(p), globals), s.mem), st.value, a, b) && Wide(a) && Wide(b)
    requires st.value.op.Div? || st.value.op.Mod?
    ensures var t := Steps(StepFn(PlcMachine(f, p, globals)), s, n); var i := FindSlot(Layout(p), Key(st.target)).value;
      if Divides(Signed(a), Signed(b)) then
        Divided(Signed(a), Signed(b), q, m) && t.Returned? && |t.mem.locals| == |Layout(p)|
        && t.mem.locals[i] == Narrow(Int(if st.value.op.Div? then q else m), Layout(p)[i].width)
      else t.Trapped?
  {
    n := AssignedValue(f, p, globals, s, st);
    q, m := DivisionMeans(f, EnvOf(Scope(Layout(p), globals), s.mem), st.value.left, st.value.right, a, b);
  }

  /** The compiled x := l AND r, OR, XOR. */
  lemma LogicStored(f: FloatUnit, p: PouDef, globals: seq<VarSlot>, s: State, st: Stmt, a: Value, b: Value) returns (n: nat)
    requires AtBody(p, globals, PlcMachine(f, p, globals), s) && p.body == [st] && st.Assign?
    requires FindSlot(Layout(p), Key(st.target)).Some?
    requires Operands(f, EnvOf(Scope(Layout(p), globals), s.mem), st.value, a, b) && IsTruth(a) && IsTruth(b)
    requires st.value.op.And? || st.value.op.Or? || st.value.op.Xor?
    ensures var t := Steps(StepFn(PlcMachine(f, p, globals)), s, n); var i := FindSlot(Layout(p), Key(st.target)).value;
      t.Returned? && |t.mem.locals| == |Layout(p)| && t.mem.locals[i] == Bool(
        match st.value.op case And => IsTrue(a) && IsTrue(b) case Or => IsTrue(a) || IsTrue(b) case _ => IsTrue(a) != IsTrue(b))
  {
    n := AssignedValue(f, p, globals, s, st);
    LogicMeans(f, EnvOf(Scope(Layout(p), globals), s.mem), st.value.left, st.value.right, a, b);
  }

  /** The compiled IF l op r THEN yes ELSE no END_IF ends as the arm the numbers select. */
  lemma ComparedArmRuns(f: FloatUnit, p: PouDef, globals: seq<VarSlot>, s: State, st: Stmt, a: Value, b: Value, fuel: nat) returns (n: nat)
    requires AtBody(p, globals, PlcMachine(f, p, globals), s) && p.body == [st] && st.If? && |st.arms| == 1
    requires var cond := st.arms[0].cond;
      Operands(f, EnvOf(Scope(Layout(p), globals), s.mem), cond, a, b) && IsComparison(cond.op) && Ordered(a, b)
    ensures var arm := if Holds(st.arms[0].cond.op, Number(a), Number(b)) then st.arms[0].body else st.els;
      var o := Run(LangOf(f, p, globals), arm, EnvOf(Scope(Layout(p), globals), s.mem), false, fuel);
      !o.OutOfFuel? ==> EndsAs(p, PlcMachine(f, p, globals), Steps(StepFn(PlcMachine(f, p, globals)), s, n), o)
  {
    var g, env := LangOf(f, p, globals), EnvOf(Scope(Layout(p), globals), s.mem);
    VmImplementsOps(f);
    n := BodyRuns(p, globals, VmAlu(f), StOps(f), s, fuel);
    OneStatement(g, st, env, fuel);
    ComparisonMeans(f, env, st.arms[0].cond, a, b);
    TruthMeans(f, Bool(Holds(st.arms[0].cond.op, Number(a), Number(b))));
    FirstArmRuns(g, st, 0, if Holds(st.arms[0].cond.op, Number(a), Number(b)) then 0 else 1, env, false, fuel);
  }
}
