/** The VM's operators on concrete values (`arith_op`, `cmp_op`), and what they come to on
    integers. Floating point is a parameter. */
module VmArith {
  import opened Names
  import opened Ir
  import opened IntWidths
  import opened Ast
  import opened StSemantics
  import opened Vm
  import opened CodeGen
  import opened CodeRuns

  /** Operations on f64 bit patterns; nothing is assumed of them. */
  datatype FloatUnit = FloatUnit(
    add: (nat, nat) -> nat, sub: (nat, nat) -> nat, mul: (nat, nat) -> nat, div: (nat, nat) -> nat,
    pow: (nat, nat) -> nat, neg: nat -> nat,
    eq: (nat, nat) -> bool, lt: (nat, nat) -> bool,
    isZero: nat -> bool, ofInt: int -> nat, toInt: nat -> int)

  function AsBool(f: FloatUnit, v: Value): bool {
    match v
    case Bool(b) => b
    case Int(i) => i != 0
    case UInt(u) => u != 0
    case Real(r) => !f.isZero(r)
    case Time(ms) => ms != 0
    case _ => false
  }

  function AsInt(f: FloatUnit, v: Value): int {
    match v
    case Int(i) => i
    case UInt(u) => Wrap64(u)
    case Bool(b) => if b then 1 else 0
    case Real(r) => f.toInt(r)
    case Time(ms) => ms
    case _ => 0
  }

  function AsReal(f: FloatUnit, v: Value): nat {
    match v
    case Real(r) => r
    case Int(i) => f.ofInt(i)
    case UInt(u) => f.ofInt(u)
    case Time(ms) => f.ofInt(ms)
    case _ => f.ofInt(0)
  }

  /** i64 division truncates toward zero; the two overflowing cases panic. */
  function TruncDiv(a: int, b: int): Option<int> {
    if b == 0 || (a == MIN64 && b == -1) then None
    else
      var q := (if a < 0 then -a else a) / (if b < 0 then -b else b);
      Some(if (a < 0) == (b < 0) then q else -q)
  }

  function TruncRem(a: int, b: int): Option<int> {
    match TruncDiv(a, b)
    case None => None
    case Some(q) => Some(a - b * q)
  }

  /** `arith_op`: Real wins over Time wins over integer. */
  function Arith(f: FloatUnit, l: Value, r: Value, i: Option<int>, x: nat): Option<Value> {
    if l.Real? || r.Real? then Some(Real(x))
    else if i.None? then None
    else if l.Time? || r.Time? then Some(Time(i.value))
    else Some(Int(i.value))
  }

  function DivValues(f: FloatUnit, l: Value, r: Value): Option<Value> {
    if (r.Int? || r.UInt?) && AsInt(f, r) == 0 then None
    else Arith(f, l, r, TruncDiv(AsInt(f, l), AsInt(f, r)), f.div(AsReal(f, l), AsReal(f, r)))
  }

  function ModValues(f: FloatUnit, l: Value, r: Value): Option<Value> {
    match TruncRem(AsInt(f, l), AsInt(f, r))
    case None => None
    case Some(i) => Some(Int(i))
  }

  /** `cmp_op` reduces a comparison to one of two integers or of two reals. References
      compare by identity, as 0 with 0 when equal and 1 with 0 when not. */
  datatype Compared = Ints(a: int, b: int) | Reals(x: nat, y: nat)

  function CompareBasis(f: FloatUnit, l: Value, r: Value): Compared {
    if l.Null? && r.Null? then Ints(0, 0)
    else if (l.Ref? && r.Null?) || (l.Null? && r.Ref?) then Ints(1, 0)
    else if l.Ref? && r.Ref? then (if l == r then Ints(0, 0) else Ints(1, 0))
    else if l.Real? || r.Real? then Reals(AsReal(f, l), AsReal(f, r))
    else Ints(AsInt(f, l), AsInt(f, r))
  }

  function Equal(f: FloatUnit, c: Compared): bool {
    match c case Ints(a, b) => a == b case Reals(x, y) => f.eq(x, y)
  }

  function Less(f: FloatUnit, c: Compared): bool {
    match c case Ints(a, b) => a < b case Reals(x, y) => f.lt(x, y)
  }

  function Swapped(c: Compared): Compared {
    match c case Ints(a, b) => Ints(b, a) case Reals(x, y) => Reals(y, x)
  }

  function OfBool(b: bool): Option<Value> { Some(Bool(b)) }

  function AluBin(f: FloatUnit, op: Opcode, l: Value, r: Value): Option<Value> {
    var a, b := AsInt(f, l), AsInt(f, r);
    var x, y := AsReal(f, l), AsReal(f, r);
    var c := CompareBasis(f, l, r);
    match op
    case OpAdd => Arith(f, l, r, Some(Wrap64(a + b)), f.add(x, y))
    case OpSub => Arith(f, l, r, Some(Wrap64(a - b)), f.sub(x, y))
    case OpMul => Arith(f, l, r, Some(Wrap64(a * b)), f.mul(x, y))
    case OpDiv => DivValues(f, l, r)
    case OpMod => ModValues(f, l, r)
    case OpPow => Some(Real(f.pow(x, y)))
    case OpAnd => OfBool(AsBool(f, l) && AsBool(f, r))
    case OpOr => OfBool(AsBool(f, l) || AsBool(f, r))
    case OpXor => OfBool(AsBool(f, l) != AsBool(f, r))
    case CmpEq => OfBool(Equal(f, c))
    case CmpNe => OfBool(!Equal(f, c))
    case CmpLt => OfBool(Less(f, c))
    case CmpGt => OfBool(Less(f, Swapped(c)))
    case CmpLe => OfBool(Less(f, c) || Equal(f, c))
    case CmpGe => OfBool(Less(f, Swapped(c)) || Equal(f, c))
  }

  /** `-i`: a release build wraps i64::MIN to itself. */
  function Negate(f: FloatUnit, v: Value): Option<Value> {
    match v
    case Real(r) => Some(Real(f.neg(r)))
    case _ => Some(Int(Wrap64(-AsInt(f, v))))
  }

  function AluUn(f: FloatUnit, op: UnaryOpcode, v: Value): Option<Value> {
    match op
    case OpNeg => Negate(f, v)
    case OpNot => OfBool(!AsBool(f, v))
  }

  function VmAlu(f: FloatUnit): Alu {
    Alu((op, l, r) => AluBin(f, op, l, r), (op, v) => AluUn(f, op, v), v => AsBool(f, v), (v, w) => Narrow(v, w))
  }

  /** The source operators mean what the instructions chosen for them compute. */
  function StOps(f: FloatUnit): Ops {
    Ops((op, l, r) => AluBin(f, OpcodeOf(op), l, r),
        (op, v) => AluUn(f, UnaryOpcodeOf(op), v),
        v => AsBool(f, v), (v, w) => Narrow(v, w))
  }

  lemma BinIsAlu(f: FloatUnit, op: BinaryOp, l: Value, r: Value)
    ensures Bin(StOps(f), op, Some(l), Some(r)) == AluBin(f, OpcodeOf(op), l, r)
  {
  }

  lemma UnIsAlu(f: FloatUnit, op: UnaryOp, v: Value)
    ensures StOps(f).un(op, v) == AluUn(f, UnaryOpcodeOf(op), v)
  {
  }

  lemma TruthOfBool(f: FloatUnit, b: bool)
    ensures Truth(StOps(f), Some(Bool(b))) == Some(b)
  {
  }

  lemma VmImplementsOps(f: FloatUnit)
    ensures Agrees(VmAlu(f), StOps(f))
  {
  }

  // ------------------------------------------------------ integers, exactly

  /** The 64-bit view of an integer operand is the integer itself, up to a multiple of 2^64. */
  lemma ViewIsCongruent(f: FloatUnit, v: Value)
    requires IsInteger(v)
    ensures Congruent(AsInt(f, v), Number(v))
  {
  }

  lemma WrapIsCongruent(i: int)
    ensures Congruent(Wrap64(i), i)
  {
  }

  lemma CongruentBy(i: int, j: int, k: int)
    requires i - j == k * 0x1_0000_0000_0000_0000
    ensures Congruent(i, j)
  {
  }

  function Turns(i: int, j: int): (k: int)
    requires Congruent(i, j)
    ensures i == j + k * 0x1_0000_0000_0000_0000
  {
    (i - j) / 0x1_0000_0000_0000_0000
  }

  predicate IsRingOp(op: BinaryOp) { op == Add || op == Sub || op == Mul }

  function Ring(op: BinaryOp, a: int, b: int): int
    requires IsRingOp(op)
  {
    match op case Add => a + b case Sub => a - b case Mul => a * b
  }

  lemma MulShift(a: int, b: int, j: int, k: int, m: int)
    ensures (a + j * m) * (b + k * m) - a * b == (a * k + j * b + j * k * m) * m
  {
    calc {
      (a + j * m) * (b + k * m);
      a * b + a * (k * m) + (j * m) * b + (j * m) * (k * m);
      a * b + (a * k) * m + (j * b) * m + (j * k * m) * m;
    }
  }

  lemma RingCongruent(op: BinaryOp, a: int, b: int, x: int, y: int)
    requires IsRingOp(op) && Congruent(a, x) && Congruent(b, y)
    ensures Congruent(Ring(op, a, b), Ring(op, x, y))
  {
    var j, k := Turns(a, x), Turns(b, y);
    match op
    case Add => CongruentBy(a + b, x + y, j + k);
    case Sub => CongruentBy(a - b, x - y, j - k);
    case Mul =>
      MulShift(x, y, j, k, 0x1_0000_0000_0000_0000);
      CongruentBy(a * b, x * y, x * k + j * y + j * k * 0x1_0000_0000_0000_0000);
  }

  /** An expression of +, -, * and negation over integer literals and variables. */
  predicate IsRing(env: Env, e: Expr) {
    match e
    case Lit(v) => IsInteger(v)
    case Variable(n) => IsInteger(Read(env, n))
    case Anonymous => true
    case BinaryExpr(op, l, r) => IsRingOp(op) && IsRing(env, l) && IsRing(env, r)
    case UnaryExpr(op, x) => op.Neg? && IsRing(env, x)
    case Paren(x) => IsRing(env, x)
  }

  /** Its value over the unbounded integers. */
  function Exact(env: Env, e: Expr): int
    requires IsRing(env, e)
  {
    match e
    case Lit(v) => Number(v)
    case Variable(n) => Number(Read(env, n))
    case Anonymous => 0
    case BinaryExpr(op, l, r) => Ring(op, Exact(env, l), Exact(env, r))
    case UnaryExpr(_, x) => -Exact(env, x)
    case Paren(x) => Exact(env, x)
  }

  lemma AluRing(f: FloatUnit, op: BinaryOp, l: Value, r: Value)
    requires IsRingOp(op) && IsInteger(l) && IsInteger(r)
    ensures AluBin(f, OpcodeOf(op), l, r) == Some(Int(Wrap64(Ring(op, AsInt(f, l), AsInt(f, r)))))
  {
  }

  lemma AluCompares(f: FloatUnit, l: Value, r: Value)
    requires IsInteger(l) && IsInteger(r)
    ensures AluBin(f, CmpLe, l, r) == Some(Bool(AsInt(f, l) <= AsInt(f, r)))
  {
  }

  lemma {:induction false} EvalCongruent(f: FloatUnit, env: Env, e: Expr)
    requires IsRing(env, e)
    ensures var v := Eval(StOps(f), env, e);
      v.Some? && IsInteger(v.value) && Congruent(Number(v.value), Exact(env, e))
    decreases e
  {
    match e
    case BinaryExpr(op, l, r) =>
      EvalCongruent(f, env, l);
      EvalCongruent(f, env, r);
      var a, b := Eval(StOps(f), env, l).value, Eval(StOps(f), env, r).value;
      AluRing(f, op, a, b);
      ViewsCongruent(f, a, Exact(env, l));
      ViewsCongruent(f, b, Exact(env, r));
      RingCongruent(op, AsInt(f, a), AsInt(f, b), Exact(env, l), Exact(env, r));
      WrapIsCongruent(Ring(op, AsInt(f, a), AsInt(f, b)));
      CongruentTrans(Wrap64(Ring(op, AsInt(f, a), AsInt(f, b))), Ring(op, AsInt(f, a), AsInt(f, b)), Exact(env, e));
    case UnaryExpr(_, x) =>
      EvalCongruent(f, env, x);
      var a := Eval(StOps(f), env, x).value;
      UnIsAlu(f, Neg, a);
      AluNegates(f, a);
      ViewsCongruent(f, a, Exact(env, x));
      CongruentBy(-AsInt(f, a), -Exact(env, x), -Turns(AsInt(f, a), Exact(env, x)));
      WrapIsCongruent(-AsInt(f, a));
      CongruentTrans(Wrap64(-AsInt(f, a)), -AsInt(f, a), -Exact(env, x));
    case Paren(x) => EvalCongruent(f, env, x);
    case _ =>
  }

  lemma AluNegates(f: FloatUnit, v: Value)
    requires IsInteger(v)
    ensures AluUn(f, OpNeg, v) == Some(Int(Wrap64(-AsInt(f, v))))
  {
  }

  lemma CongruentTrans(i: int, j: int, k: int)
    requires Congruent(i, j) && Congruent(j, k)
    ensures Congruent(i, k)
  {
    CongruentBy(i, k, Turns(i, j) + Turns(j, k));
  }

  lemma ViewsCongruent(f: FloatUnit, v: Value, i: int)
    requires IsInteger(v) && Congruent(Number(v), i)
    ensures Congruent(AsInt(f, v), i)
  {
    ViewIsCongruent(f, v);
    CongruentTrans(AsInt(f, v), Number(v), i);
  }

  /** Storing an expression of +, -, * and negation, of any size, into a variable of width w leaves the
      exact result modulo the width: no wrap of an intermediate 64-bit value shows, whether
      operands are signed, unsigned or mixed. */
  lemma AssignmentIsExact(f: FloatUnit, g: Lang, env: Env, s: Stmt, inLoop: bool, fuel: nat)
    requires g.ops == StOps(f) && s.Assign? && IsRing(env, s.value) && Key(s.target) in env.locals
    requires !WidthOf(g.widths.locals, Key(s.target)).NoWidth?
    ensures var o := RunStmt(g, s, env, inLoop, fuel);
      o.Done? && o.env == env.(locals := env.locals[Key(s.target) :=
        Fit(Exact(env, s.value), WidthOf(g.widths.locals, Key(s.target)))])
  {
    EvalCongruent(f, env, s.value);
    FitSame(Number(Eval(StOps(f), env, s.value).value), Exact(env, s.value), WidthOf(g.widths.locals, Key(s.target)));
  }

  /** Above the signed range, where the 64-bit view of an unsigned value is negative. */
  predicate Big(v: Value)
    requires IsInteger(v)
  {
    Number(v) > MAX64
  }

  predicate Wide(v: Value) { (v.Int? && MIN64 <= v.i <= MAX64) || (v.UInt? && v.u <= 2 * MAX64 + 1) }

  /** The six comparisons say what the integers say. */
  ghost predicate ComparesRight(f: FloatUnit, l: Value, r: Value)
    requires IsInteger(l) && IsInteger(r)
  {
    && AluBin(f, CmpEq, l, r) == Some(Bool(Number(l) == Number(r)))
    && AluBin(f, CmpNe, l, r) == Some(Bool(Number(l) != Number(r)))
    && AluBin(f, CmpLt, l, r) == Some(Bool(Number(l) < Number(r)))
    && AluBin(f, CmpGt, l, r) == Some(Bool(Number(l) > Number(r)))
    && AluBin(f, CmpLe, l, r) == Some(Bool(Number(l) <= Number(r)))
    && AluBin(f, CmpGe, l, r) == Some(Bool(Number(l) >= Number(r)))
  }

  /** A value above the signed range against one that is not. */
  predicate Shadows(big: Value, other: Value)
    requires IsInteger(big) && IsInteger(other)
  {
    Big(big) && !Big(other) && Number(big) - 0x1_0000_0000_0000_0000 <= Number(other)
  }

  /** Two 64-bit integers compare in numeric order exactly unless one lies above the signed
      range and the other is at least that value minus 2^64. */
  lemma OrderIsNumeric(f: FloatUnit, l: Value, r: Value)
    requires Wide(l) && Wide(r)
    ensures ComparesRight(f, l, r) <==> !Shadows(l, r) && !Shadows(r, l)
  {
    ViewOfWide(f, l);
    ViewOfWide(f, r);
  }

  lemma ViewOfWide(f: FloatUnit, v: Value)
    requires Wide(v)
    ensures AsInt(f, v) == if Big(v) then Number(v) - 0x1_0000_0000_0000_0000 else Number(v)
  {
  }

  /** An operand compares right with every non-negative signed value exactly when it is in the
      signed range itself: 2^63 is less than 0. */
  lemma SafeOperand(f: FloatUnit, v: Value)
    requires Wide(v)
    ensures (forall r {:trigger ComparesRight(f, v, r)} :: Wide(r) && !Big(r) && Number(r) >= 0 ==> ComparesRight(f, v, r)) <==> !Big(v)
  {
    forall r | Wide(r) && !Big(r) && !Big(v) ensures ComparesRight(f, v, r) { OrderIsNumeric(f, v, r); }
    if Big(v) {
      OrderIsNumeric(f, v, Int(0));
      assert !ComparesRight(f, v, Int(0));
    }
  }
}
