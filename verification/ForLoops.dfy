/** When FOR loops end. The variable wraps to its declared width at every store, and the test
    is `<=` only (`compile.rs:1015-1057`), so a loop up to the largest value never ends. */
module ForLoops {
  import opened Names
  import opened Ir
  import opened IntWidths
  import opened Ast
  import opened StSemantics
  import opened VmArith
  import opened Residues

  // ---------------------------------------------------------------- fuel

  /** More fuel changes nothing once a run has ended. */
  lemma {:induction false} MoreFuel(g: Lang, ss: seq<Stmt>, env: Env, inLoop: bool, fuel: nat, more: nat)
    requires fuel <= more && !Run(g, ss, env, inLoop, fuel).OutOfFuel?
    ensures Run(g, ss, env, inLoop, more) == Run(g, ss, env, inLoop, fuel)
    decreases fuel, ss, 0
  {
    if ss != [] {
      MoreFuelStmt(g, ss[0], env, inLoop, fuel, more);
      var o := RunStmt(g, ss[0], env, inLoop, fuel);
      if o.Done? { MoreFuel(g, ss[1..], o.env, inLoop, fuel, more); }
    }
  }

  lemma {:induction false} MoreFuelStmt(g: Lang, s: Stmt, env: Env, inLoop: bool, fuel: nat, more: nat)
    requires fuel <= more && !RunStmt(g, s, env, inLoop, fuel).OutOfFuel?
    ensures RunStmt(g, s, env, inLoop, more) == RunStmt(g, s, env, inLoop, fuel)
    decreases fuel, s, 2
  {
    match s
    case If(_, _, _) => MoreFuelArms(g, s, 0, env, inLoop, fuel, more);
    case Case(_, _, _, _) =>
      var v := Eval(g.ops, env, s.subject);
      if v.Some? { MoreFuelBranches(g, s, 0, v.value, env, inLoop, fuel, more); }
    case For(_, _, _, _, _, _) =>
      var v := Eval(g.ops, env, s.from);
      if v.Some? { MoreFuelFor(g, s, WriteLocal(g.ops, g.widths, env, s.variable, v.value), fuel, more); }
    case While(_, _, _) => MoreFuelWhile(g, s, env, fuel, more);
    case Repeat(_, _, _) => MoreFuelRepeat(g, s, env, fuel, more);
    case _ =>
  }

  lemma {:induction false} MoreFuelArms(g: Lang, s: Stmt, i: nat, env: Env, inLoop: bool, fuel: nat, more: nat)
    requires s.If? && i <= |s.arms| && fuel <= more && !RunArms(g, s, i, env, inLoop, fuel).OutOfFuel?
    ensures RunArms(g, s, i, env, inLoop, more) == RunArms(g, s, i, env, inLoop, fuel)
    decreases fuel, s, 1, |s.arms| - i
  {
    if i == |s.arms| {
      MoreFuel(g, s.els, env, inLoop, fuel, more);
    } else {
      match Truth(g.ops, Eval(g.ops, env, s.arms[i].cond))
      case None =>
      case Some(true) => MoreFuel(g, s.arms[i].body, env, inLoop, fuel, more);
      case Some(false) => MoreFuelArms(g, s, i + 1, env, inLoop, fuel, more);
    }
  }

  lemma {:induction false} MoreFuelBranches(g: Lang, s: Stmt, i: nat, v: Value, env: Env, inLoop: bool, fuel: nat, more: nat)
    requires s.Case? && i <= |s.branches| && fuel <= more && !RunBranches(g, s, i, v, env, inLoop, fuel).OutOfFuel?
    ensures RunBranches(g, s, i, v, env, inLoop, more) == RunBranches(g, s, i, v, env, inLoop, fuel)
    decreases fuel, s, 1, |s.branches| - i
  {
    if i == |s.branches| {
      MoreFuel(g, s.els, env, inLoop, fuel, more);
    } else {
      match SelectsAny(g.ops, env, v, s.branches[i].selectors)
      case None =>
      case Some(true) => MoreFuel(g, s.branches[i].body, env, inLoop, fuel, more);
      case Some(false) => MoreFuelBranches(g, s, i + 1, v, env, inLoop, fuel, more);
    }
  }

  lemma {:induction false} MoreFuelWhile(g: Lang, s: Stmt, env: Env, fuel: nat, more: nat)
    requires s.While? && fuel <= more && !RunWhile(g, s, env, fuel).OutOfFuel?
    ensures RunWhile(g, s, env, more) == RunWhile(g, s, env, fuel)
    decreases fuel, s, 0
  {
    if Truth(g.ops, Eval(g.ops, env, s.cond)) == Some(true) {
      MoreFuel(g, s.body, env, true, fuel, more);
      var o := Run(g, s.body, env, true, fuel);
      if o.Done? { MoreFuelWhile(g, s, o.env, fuel - 1, more - 1); }
    }
  }

  lemma {:induction false} MoreFuelRepeat(g: Lang, s: Stmt, env: Env, fuel: nat, more: nat)
    requires s.Repeat? && fuel <= more && !RunRepeat(g, s, env, fuel).OutOfFuel?
    ensures RunRepeat(g, s, env, more) == RunRepeat(g, s, env, fuel)
    decreases fuel, s, 0
  {
    MoreFuel(g, s.body, env, true, fuel, more);
    var o := Run(g, s.body, env, true, fuel);
    if o.Done? && Truth(g.ops, Eval(g.ops, o.env, s.cond)) == Some(false) {
      MoreFuelRepeat(g, s, o.env, fuel - 1, more - 1);
    }
  }

  lemma {:induction false} MoreFuelFor(g: Lang, s: Stmt, env: Env, fuel: nat, more: nat)
    requires s.For? && fuel <= more && !RunFor(g, s, env, fuel).OutOfFuel?
    ensures RunFor(g, s, env, more) == RunFor(g, s, env, fuel)
    decreases fuel, s, 0
  {
    if Truth(g.ops, Bin(g.ops, Le, Some(Read(env, s.variable)), Eval(g.ops, env, s.to))) == Some(true) {
      MoreFuel(g, s.body, env, true, fuel, more);
      var o := Run(g, s.body, env, true, fuel);
      if o.Done? {
        var v := Bin(g.ops, Add, Some(Read(o.env, s.variable)), StepOf(g, s, o.env));
        if v.Some? { MoreFuelFor(g, s, WriteLocal(g.ops, g.widths, o.env, s.variable, v.value), fuel - 1, more - 1); }
      }
    }
  }

  /** Two fuels under which a run ends give the same end. */
  lemma EndIsUnique(g: Lang, ss: seq<Stmt>, env: Env, inLoop: bool, a: nat, b: nat)
    requires !Run(g, ss, env, inLoop, a).OutOfFuel? && !Run(g, ss, env, inLoop, b).OutOfFuel?
    ensures Run(g, ss, env, inLoop, a) == Run(g, ss, env, inLoop, b)
  {
    if a <= b { MoreFuel(g, ss, env, inLoop, a, b); } else { MoreFuel(g, ss, env, inLoop, b, a); }
  }

  // ---------------------------------------------------------------- counting

  /** The values a variable of width w takes in the machine's 64-bit view. A ULINT is viewed
      as signed, so its largest view is that of LINT. */
  function Bottom(w: IntWidth): int {
    match w
    case I8 => -0x80 case I16 => -0x8000 case I32 => -0x8000_0000
    case U8 => 0 case U16 => 0 case U32 => 0
    case _ => MIN64
  }

  function Top(w: IntWidth): int {
    match w
    case I8 => 0x7F case I16 => 0x7FFF case I32 => 0x7FFF_FFFF
    case U8 => 0xFF case U16 => 0xFFFF case U32 => 0xFFFF_FFFF
    case _ => MAX64
  }

  /** How many values there are. */
  function Period(w: IntWidth): (m: nat)
    ensures m > 0 && m == Top(w) - Bottom(w) + 1
  {
    match w
    case I8 => 0x100 case U8 => 0x100
    case I16 => 0x1_0000 case U16 => 0x1_0000
    case I32 => 0x1_0000_0000 case U32 => 0x1_0000_0000
    case _ => 0x1_0000_0000_0000_0000
  }

  /** What is left of the integer i in a variable of width w. */
  function Settle(i: int, w: IntWidth): (a: int)
    ensures Bottom(w) <= a <= Top(w)
  {
    Bottom(w) + (i - Bottom(w)) % Period(w)
  }

  /** Counting by k meets the values that agree with the start modulo this. */
  function Grid(k: int, w: IntWidth): (g: nat)
    ensures g > 0
  {
    Gcd(k % Period(w), Period(w))
  }

  /** The largest value that counting from a by k meets: the largest of the width that agrees
      with a modulo the greatest common divisor of k and the number of values. */
  function Highest(a: int, k: int, w: IntWidth): int { Top(w) - (Top(w) - a) % Grid(k, w) }

  lemma SettleMoves(i: int, w: IntWidth) returns (q: int)
    ensures Settle(i, w) == i + q * Period(w)
  {
    var m := Period(w);
    q := -((i - Bottom(w)) / m);
    var d := (i - Bottom(w)) / m;
    assert i - Bottom(w) == d * m + (i - Bottom(w)) % m;
    assert q * m == -(d * m);
  }

  lemma SettleSame(i: int, q: int, w: IntWidth)
    ensures Settle(i + q * Period(w), w) == Settle(i, w)
  {
    ModPlus(i - Bottom(w), q, Period(w));
    assert i + q * Period(w) - Bottom(w) == (i - Bottom(w)) + q * Period(w);
  }

  lemma SettleInside(a: int, w: IntWidth)
    requires Bottom(w) <= a <= Top(w)
    ensures Settle(a, w) == a
  {
    ModIs(a - Bottom(w), Period(w), 0, a - Bottom(w));
  }

  /** Steps add up, whatever wraps on the way. */
  lemma SettleAdds(i: int, k: int, w: IntWidth)
    ensures Settle(Settle(i, w) + k, w) == Settle(i + k, w)
  {
    var q := SettleMoves(i, w);
    SettleSame(i + k, q, w);
    assert Settle(i, w) + k == (i + k) + q * Period(w);
  }

  /** The grid divides the number of values and the step. */
  lemma GridDivides(k: int, w: IntWidth)
    ensures Divides(Grid(k, w), Period(w)) && Divides(Grid(k, w), k)
  {
    var g, m := Grid(k, w), Period(w);
    GcdDivides(k % m, m);
    DividesMore(g, k % m, m, k / m);
    DividesMore(g, k % m, (k / m) * m, 1);
    assert k == k % m + (k / m) * m;
  }

  lemma SameResidue(g: int, k: int, m: int, q: int, x: int, y: int)
    requires g > 0 && Divides(g, k) && Divides(g, m) && x - y == k + q * m
    ensures x % g == y % g
  {
    DividesMore(g, k, m, q);
    DividesMore(g, k, q * m, 1);
    ResidueSame(x, y, g);
  }

  /** A step stays on the grid, and so below the same highest value. */
  lemma StepOnGrid(a: int, k: int, w: IntWidth)
    ensures Highest(Settle(a + k, w), k, w) == Highest(a, k, w)
  {
    var q := SettleMoves(a + k, w);
    GridDivides(k, w);
    SameResidue(Grid(k, w), k, Period(w), q, Top(w) - a, Top(w) - Settle(a + k, w));
  }

  lemma SettledOnGrid(a: int, k: int, w: IntWidth)
    ensures Highest(Settle(a, w), k, w) == Highest(a, k, w)
  {
    var q := SettleMoves(a, w);
    GridDivides(k, w);
    SameResidue(Grid(k, w), 0, Period(w), q, Top(w) - a, Top(w) - Settle(a, w));
  }

  lemma HighestBounds(a: int, k: int, w: IntWidth)
    requires Bottom(w) <= a <= Top(w)
    ensures a <= Highest(a, k, w) <= Top(w)
  {
    ResidueBelow(Top(w) - a, Grid(k, w));
  }

  /** The value that n steps of size k lead to. */
  function Met(a: int, k: int, w: IntWidth, n: nat): int
    decreases n
  {
    if n == 0 then a else Met(Settle(a + k, w), k, w, n - 1)
  }

  lemma {:induction false} MetIs(a: int, k: int, w: IntWidth, n: nat)
    requires Bottom(w) <= a <= Top(w)
    ensures Met(a, k, w, n) == Settle(a + n * k, w)
    decreases n
  {
    if n == 0 {
      SettleInside(a, w);
    } else {
      MetIs(Settle(a + k, w), k, w, n - 1);
      SettleAdds(a + k, (n - 1) * k, w);
      OneMore(a, k, n);
    }
  }

  lemma OneMore(a: int, k: int, n: int)
    ensures a + k + (n - 1) * k == a + n * k
  {
  }

  /** The highest value is met. */
  lemma HighestIsMet(a: int, k: int, w: IntWidth) returns (n: nat)
    requires Bottom(w) <= a <= Top(w)
    ensures Met(a, k, w, n) == Highest(a, k, w)
  {
    var high := Highest(a, k, w);
    WholePart(Top(w) - a, Grid(k, w));
    assert high - a == (Top(w) - a) - (Top(w) - a) % Grid(k, w);
    var t;
    n, t := WalkReaches(k, Period(w), high - a);
    MetIs(a, k, w, n);
    SettleSame(high, t, w);
    HighestBounds(a, k, w);
    SettleInside(high, w);
  }

  lemma StepOneIsTop(a: int, w: IntWidth)
    ensures Highest(a, 1, w) == Top(w)
  {
    ModIs(1, Period(w), 0, 1);
    assert Gcd(1, Period(w)) == Gcd(Period(w), 1) == Gcd(1, Period(w) % 1) == 1;
  }

  // ---------------------------------------------------------------- loops

  /** The local variable x has width w and its 64-bit view is a. */
  predicate Counter(f: FloatUnit, g: Lang, env: Env, x: string, w: IntWidth, a: int) {
    var k := Key(x);
    && k in env.locals && IsInteger(env.locals[k]) && InRange(env.locals[k], w)
    && WidthOf(g.widths.locals, k) == w && AsInt(f, env.locals[k]) == a && Bottom(w) <= a <= Top(w)
  }

  predicate ViewIs(f: FloatUnit, v: Option<Value>, i: int) { v.Some? && IsInteger(v.value) && AsInt(f, v.value) == i }

  predicate BoundIs(f: FloatUnit, g: Lang, s: Stmt, env: Env, b: int)
    requires s.For?
  {
    ViewIs(f, Eval(g.ops, env, s.to), b)
  }

  function Stepped(g: Lang, s: Stmt, env: Env, next: int): Env
    requires s.For?
  {
    WriteLocal(g.ops, g.widths, env, s.variable, Int(Wrap64(next)))
  }

  /** With that much fuel the body ends, leaves the variable at a and the step at k, and the
      next pass starts in an environment with `ok`. */
  ghost predicate BodyKeeps(f: FloatUnit, g: Lang, s: Stmt, w: IntWidth, k: int, ok: Env -> bool, env: Env, a: int, fuel: nat)
    requires s.For?
  {
    var o := Run(g, s.body, env, true, fuel);
    o.Done? && Counter(f, g, o.env, s.variable, w, a) && ViewIs(f, StepOf(g, s, o.env), k) && ok(Stepped(g, s, o.env, a + k))
  }

  /** In every environment with `ok` the bound is b, and the body ends normally without
      changing the variable, after which the step is k. */
  ghost predicate Steady(f: FloatUnit, g: Lang, s: Stmt, w: IntWidth, b: int, k: int, ok: Env -> bool)
    requires s.For?
  {
    forall env, a {:trigger Counter(f, g, env, s.variable, w, a)} :: ok(env) && Counter(f, g, env, s.variable, w, a) ==>
      BoundIs(f, g, s, env, b) && exists fuel: nat :: BodyKeeps(f, g, s, w, k, ok, env, a, fuel)
  }

  lemma StepCounts(f: FloatUnit, g: Lang, s: Stmt, env: Env, w: IntWidth, a: int, next: int)
    requires g.ops == StOps(f) && s.For? && Counter(f, g, env, s.variable, w, a)
    ensures Counter(f, g, Stepped(g, s, env, next), s.variable, w, Settle(next, w))
  {
    NarrowFits(Int(Wrap64(next)), w);
    NarrowSettles(f, next, w);
  }

  lemma NarrowSettles(f: FloatUnit, i: int, w: IntWidth)
    ensures var v := Narrow(Int(Wrap64(i)), w); IsInteger(v) && AsInt(f, v) == Settle(i, w)
  {
    if !w.NoWidth? {
      NarrowIsFit(i, w);
      FitView(f, i, w);
    }
  }

  lemma NarrowIsFit(i: int, w: IntWidth)
    requires !w.NoWidth?
    ensures Narrow(Int(Wrap64(i)), w) == Fit(i, w)
  {
    WrapIsCongruent(i);
    FitSame(Wrap64(i), i, w);
  }

  lemma FitView(f: FloatUnit, i: int, w: IntWidth)
    requires !w.NoWidth?
    ensures AsInt(f, Fit(i, w)) == Settle(i, w)
  {
    if w == U64 {
      ViewOfUnsigned(i);
    } else {
      FitSettles(i, w);
      if Fit(i, w).UInt? { SmallView(Fit(i, w).u); }
    }
  }

  lemma SmallView(u: nat)
    requires u <= MAX64
    ensures Wrap64(u) == u
  {
  }

  lemma FitSettles(i: int, w: IntWidth)
    requires !w.NoWidth? && w != U64
    ensures var v := Fit(i, w); Number(v) == Settle(i, w) && (v.UInt? ==> v.u <= MAX64)
  {
    match w case I8 => case U8 => case I16 => case U16 => case I32 => case U32 => case I64 =>
  }

  lemma ViewOfUnsigned(i: int)
    ensures Wrap64(WrapUnsigned(i, U64)) == Settle(i, U64)
  {
    WholeUnsigned(i);
    Whole64(i + 0x8000_0000_0000_0000, -(i / 0x1_0000_0000_0000_0000));
  }

  lemma WholeUnsigned(i: int)
    ensures WrapUnsigned(i, U64) == i + -(i / 0x1_0000_0000_0000_0000) * 0x1_0000_0000_0000_0000
  {
  }

  /** The test and the increment of a pass. */
  lemma TestIs(f: FloatUnit, g: Lang, s: Stmt, env: Env, w: IntWidth, a: int, b: int)
    requires g.ops == StOps(f) && s.For? && Counter(f, g, env, s.variable, w, a) && BoundIs(f, g, s, env, b)
    ensures Truth(g.ops, Bin(g.ops, Le, Some(Read(env, s.variable)), Eval(g.ops, env, s.to))) == Some(a <= b)
  {
    var v, to := env.locals[Key(s.variable)], Eval(g.ops, env, s.to).value;
    BinIsAlu(f, Le, v, to);
    AluCompares(f, v, to);
    TruthOfBool(f, a <= b);
  }

  lemma AddIs(f: FloatUnit, g: Lang, s: Stmt, env: Env, w: IntWidth, a: int, k: int)
    requires g.ops == StOps(f) && s.For? && ViewIs(f, StepOf(g, s, env), k) && Counter(f, g, env, s.variable, w, a)
    ensures Bin(g.ops, Add, Some(Read(env, s.variable)), StepOf(g, s, env)) == Some(Int(Wrap64(a + k)))
  {
    var v, inc := env.locals[Key(s.variable)], StepOf(g, s, env).value;
    BinIsAlu(f, Add, v, inc);
    AluRing(f, Add, v, inc);
  }

  /** What the loop does from env is, under every fuel, what it does from e with one less,
      as far as fuel below k shows at all. */
  ghost predicate Passes(g: Lang, s: Stmt, env: Env, enough: nat, e: Env)
    requires s.For?
  {
    forall fuel: nat {:trigger RunFor(g, s, env, fuel)} :: fuel > 0 ==>
      (fuel < enough && RunFor(g, s, env, fuel).OutOfFuel?) || RunFor(g, s, env, fuel) == RunFor(g, s, e, fuel - 1)
  }

  /** One pass of a loop that is not over. */
  lemma OnePass(f: FloatUnit, g: Lang, s: Stmt, w: IntWidth, b: int, k: int, ok: Env -> bool, env: Env, a: int)
    returns (enough: nat, e: Env)
    requires g.ops == StOps(f) && s.For? && Steady(f, g, s, w, b, k, ok)
    requires ok(env) && Counter(f, g, env, s.variable, w, a) && a <= b
    ensures ok(e) && Counter(f, g, e, s.variable, w, Settle(a + k, w)) && Passes(g, s, env, enough, e)
  {
    enough := SteadyAt(f, g, s, w, b, k, ok, env, a);
    e := PassFrom(f, g, s, w, b, k, ok, env, a, enough);
  }

  lemma PassFrom(f: FloatUnit, g: Lang, s: Stmt, w: IntWidth, b: int, k: int, ok: Env -> bool, env: Env, a: int, enough: nat)
    returns (e: Env)
    requires g.ops == StOps(f) && s.For? && BoundIs(f, g, s, env, b) && BodyKeeps(f, g, s, w, k, ok, env, a, enough)
    requires Counter(f, g, env, s.variable, w, a) && a <= b
    ensures ok(e) && Counter(f, g, e, s.variable, w, Settle(a + k, w)) && Passes(g, s, env, enough, e)
  {
    var after := Run(g, s.body, env, true, enough).env;
    TestIs(f, g, s, env, w, a, b);
    e := StepFrom(f, g, s, w, k, after, a);
    PassesOn(g, s, env, after, Int(Wrap64(a + k)), enough);
  }

  lemma StepFrom(f: FloatUnit, g: Lang, s: Stmt, w: IntWidth, k: int, after: Env, a: int) returns (e: Env)
    requires g.ops == StOps(f) && s.For? && Counter(f, g, after, s.variable, w, a) && ViewIs(f, StepOf(g, s, after), k)
    ensures e == Stepped(g, s, after, a + k) == WriteLocal(g.ops, g.widths, after, s.variable, Int(Wrap64(a + k)))
    ensures Counter(f, g, e, s.variable, w, Settle(a + k, w))
    ensures Bin(g.ops, Add, Some(Read(after, s.variable)), StepOf(g, s, after)) == Some(Int(Wrap64(a + k)))
  {
    e := Stepped(g, s, after, a + k);
    StepCounts(f, g, s, after, w, a, a + k);
    AddIs(f, g, s, after, w, a, k);
  }

  lemma SteadyAt(f: FloatUnit, g: Lang, s: Stmt, w: IntWidth, b: int, k: int, ok: Env -> bool, env: Env, a: int) returns (enough: nat)
    requires s.For? && Steady(f, g, s, w, b, k, ok) && ok(env) && Counter(f, g, env, s.variable, w, a)
    ensures BoundIs(f, g, s, env, b) && BodyKeeps(f, g, s, w, k, ok, env, a, enough)
  {
    enough :| BodyKeeps(f, g, s, w, k, ok, env, a, enough);
  }

  lemma PassesOn(g: Lang, s: Stmt, env: Env, after: Env, v: Value, enough: nat)
    requires s.For? && Run(g, s.body, env, true, enough) == Done(after)
    requires Truth(g.ops, Bin(g.ops, Le, Some(Read(env, s.variable)), Eval(g.ops, env, s.to))) == Some(true)
    requires Bin(g.ops, Add, Some(Read(after, s.variable)), StepOf(g, s, after)) == Some(v)
    ensures Passes(g, s, env, enough, WriteLocal(g.ops, g.widths, after, s.variable, v))
  {
    var e := WriteLocal(g.ops, g.widths, after, s.variable, v);
    forall fuel: nat | fuel > 0
      ensures (fuel < enough && RunFor(g, s, env, fuel).OutOfFuel?) || RunFor(g, s, env, fuel) == RunFor(g, s, e, fuel - 1)
    {
      if fuel >= enough { MoreFuel(g, s.body, env, true, enough, fuel); }
      if !Run(g, s.body, env, true, fuel).OutOfFuel? { EndIsUnique(g, s.body, env, true, fuel, enough); }
    }
  }

  lemma {:induction false} PassOn(g: Lang, s: Stmt, env: Env, enough: nat, e: Env, rest: nat) returns (fuel: nat)
    requires s.For? && Passes(g, s, env, enough, e) && RunFor(g, s, e, rest).Done?
    ensures RunFor(g, s, env, fuel).Done?
  {
    fuel := if enough <= rest then rest + 1 else enough + 1;
    MoreFuelFor(g, s, e, rest, fuel - 1);
    PassOnIn(g, s, env, enough, e, fuel);
  }

  lemma PassOnIn(g: Lang, s: Stmt, env: Env, enough: nat, e: Env, fuel: nat)
    requires s.For? && Passes(g, s, env, enough, e) && fuel > 0 && fuel >= enough && RunFor(g, s, e, fuel - 1).Done?
    ensures RunFor(g, s, env, fuel).Done?
  {
  }

  lemma PassOnRuns(g: Lang, s: Stmt, env: Env, enough: nat, e: Env, fuel: nat)
    requires s.For? && Passes(g, s, env, enough, e) && fuel > 0 && RunFor(g, s, e, fuel - 1).OutOfFuel?
    ensures RunFor(g, s, env, fuel).OutOfFuel?
  {
  }

  lemma LastPass(f: FloatUnit, g: Lang, s: Stmt, w: IntWidth, b: int, env: Env, a: int)
    requires g.ops == StOps(f) && s.For? && BoundIs(f, g, s, env, b)
    requires Counter(f, g, env, s.variable, w, a) && a > b
    ensures RunFor(g, s, env, 1) == Done(env)
  {
    TestIs(f, g, s, env, w, a, b);
  }

  lemma {:induction false} LoopRuns(f: FloatUnit, g: Lang, s: Stmt, w: IntWidth, b: int, k: int, ok: Env -> bool, env: Env, a: int, fuel: nat)
    requires g.ops == StOps(f) && s.For? && Steady(f, g, s, w, b, k, ok)
    requires ok(env) && Counter(f, g, env, s.variable, w, a) && b >= Highest(a, k, w)
    ensures RunFor(g, s, env, fuel).OutOfFuel?
    decreases fuel
  {
    if fuel > 0 {
      HighestBounds(a, k, w);
      var enough, e := OnePass(f, g, s, w, b, k, ok, env, a);
      StepOnGrid(a, k, w);
      LoopRuns(f, g, s, w, b, k, ok, e, Settle(a + k, w), fuel - 1);
      PassOnRuns(g, s, env, enough, e, fuel);
    }
  }

  /** A loop whose counter is past the bound after some number of steps ends. */
  lemma {:induction false} LoopStops(f: FloatUnit, g: Lang, s: Stmt, w: IntWidth, b: int, k: int, ok: Env -> bool, env: Env, a: int, n: nat)
    returns (fuel: nat)
    requires g.ops == StOps(f) && s.For? && Steady(f, g, s, w, b, k, ok)
    requires ok(env) && Counter(f, g, env, s.variable, w, a) && Met(a, k, w, n) > b
    ensures RunFor(g, s, env, fuel).Done?
    decreases n
  {
    if a > b {
      var _ := SteadyAt(f, g, s, w, b, k, ok, env, a);
      LastPass(f, g, s, w, b, env, a);
      fuel := 1;
    } else {
      var enough, e := OnePass(f, g, s, w, b, k, ok, env, a);
      var rest := LoopStops(f, g, s, w, b, k, ok, e, Settle(a + k, w), n - 1);
      fuel := PassOn(g, s, env, enough, e, rest);
    }
  }

  /** A FOR over a local integer, whose body ends normally, leaves the variable alone and moves
      neither the bound b nor the step k, ends if and only if the bound is below the largest
      value that counting by k meets, and then normally. With step 1 that is the largest value
      of the width; with step 0 it is the start. */
  lemma CountingLoopEnds(f: FloatUnit, g: Lang, s: Stmt, w: IntWidth, b: int, k: int, ok: Env -> bool, env: Env, a: int)
    requires g.ops == StOps(f) && s.For? && Steady(f, g, s, w, b, k, ok)
    requires ok(env) && Counter(f, g, env, s.variable, w, a)
    ensures (exists fuel :: !RunFor(g, s, env, fuel).OutOfFuel?) <==> b < Highest(a, k, w)
    ensures b < Highest(a, k, w) ==> exists fuel :: RunFor(g, s, env, fuel).Done?
  {
    if b < Highest(a, k, w) {
      var n := HighestIsMet(a, k, w);
      var fuel := LoopStops(f, g, s, w, b, k, ok, env, a, n);
      assert RunFor(g, s, env, fuel).Done?;
    } else {
      forall fuel: nat ensures RunFor(g, s, env, fuel).OutOfFuel? { LoopRuns(f, g, s, w, b, k, ok, env, a, fuel); }
    }
  }

  /** An integer literal, or one behind a minus sign. */
  predicate IsLiteral(e: Expr, i: int) {
    e == Lit(Int(i)) || (-MAX64 <= i <= MAX64 && e == UnaryExpr(Neg, Lit(Int(-i))))
  }

  lemma LiteralValue(f: FloatUnit, env: Env, e: Expr, i: int)
    requires IsLiteral(e, i)
    ensures Eval(StOps(f), env, e) == Some(Int(i))
  {
    if e.UnaryExpr? {
      UnIsAlu(f, Neg, Int(-i));
      AluNegates(f, Int(-i));
      assert Eval(StOps(f), env, e.operand) == Some(Int(-i));
      assert Eval(StOps(f), env, e) == StOps(f).un(Neg, Int(-i));
      SignedFits(i, I64);
    }
  }

  /** FOR x := start TO b BY k DO END_FOR. */
  predicate EmptyLoop(s: Stmt, start: int, b: int, k: int) {
    && s.For? && s.body == [] && IsLiteral(s.from, start) && IsLiteral(s.to, b)
    && (if s.step.None? then k == 1 else IsLiteral(s.step.value, k))
  }

  lemma EmptyIsSteady(f: FloatUnit, g: Lang, s: Stmt, w: IntWidth, start: int, b: int, k: int, ok: Env -> bool)
    requires g.ops == StOps(f) && EmptyLoop(s, start, b, k) && forall e :: ok(e)
    ensures Steady(f, g, s, w, b, k, ok)
  {
    forall env, a | Counter(f, g, env, s.variable, w, a)
      ensures BoundIs(f, g, s, env, b) && exists fuel: nat :: BodyKeeps(f, g, s, w, k, ok, env, a, fuel)
    {
      LiteralValue(f, env, s.to, b);
      if s.step.Some? { LiteralValue(f, env, s.step.value, k); }
      assert BodyKeeps(f, g, s, w, k, ok, env, a, 0);
    }
  }

  /** The whole statement with an empty body and literals for start, bound and step. */
  lemma EmptyLoopEnds(f: FloatUnit, g: Lang, s: Stmt, env: Env, start: int, b: int, k: int)
    requires g.ops == StOps(f) && EmptyLoop(s, start, b, k)
    requires Key(s.variable) in env.locals && MIN64 <= start <= MAX64
    ensures (exists fuel :: !RunStmt(g, s, env, false, fuel).OutOfFuel?)
            <==> b < Highest(start, k, WidthOf(g.widths.locals, Key(s.variable)))
  {
    var w := WidthOf(g.widths.locals, Key(s.variable));
    var e := WriteLocal(g.ops, g.widths, env, s.variable, Int(start));
    var ok := (any: Env) => true;
    StartCounts(f, g, s, env, start);
    SettledOnGrid(start, k, w);
    EmptyIsSteady(f, g, s, w, start, b, k, ok);
    CountingLoopEnds(f, g, s, w, b, k, ok, e, Settle(start, w));
    LiteralValue(f, env, s.from, start);
    forall fuel: nat ensures RunStmt(g, s, env, false, fuel) == RunFor(g, s, e, fuel) { }
    if b < Highest(start, k, w) {
      var fuel :| RunFor(g, s, e, fuel).Done?;
      assert !RunStmt(g, s, env, false, fuel).OutOfFuel?;
    } else {
      forall fuel: nat ensures RunStmt(g, s, env, false, fuel).OutOfFuel? { assert RunFor(g, s, e, fuel).OutOfFuel?; }
    }
  }

  lemma StartCounts(f: FloatUnit, g: Lang, s: Stmt, env: Env, start: int)
    requires g.ops == StOps(f) && s.For? && Key(s.variable) in env.locals && MIN64 <= start <= MAX64
    ensures var w := WidthOf(g.widths.locals, Key(s.variable));
      Counter(f, g, WriteLocal(g.ops, g.widths, env, s.variable, Int(start)), s.variable, w, Settle(start, w))
  {
    var w := WidthOf(g.widths.locals, Key(s.variable));
    SignedFits(start, I64);
    NarrowFits(Int(start), w);
    NarrowSettles(f, start, w);
  }

  /** FOR x := 0 TO 126 BY 2 over a SINT never ends, although 126 is below 127. */
  lemma EvenStepsRun(f: FloatUnit, g: Lang, s: Stmt, env: Env)
    requires g.ops == StOps(f) && EmptyLoop(s, 0, 126, 2)
    requires Key(s.variable) in env.locals && WidthOf(g.widths.locals, Key(s.variable)) == I8
    ensures forall fuel :: RunStmt(g, s, env, false, fuel).OutOfFuel?
  {
    assert Gcd(2, 0x100) == Gcd(0x100, 2) == Gcd(2, 0) == 2;
    EmptyLoopEnds(f, g, s, env, 0, 126, 2);
  }

  /** The hypothesis about the body matters: FOR x := 0 TO 5 DO x := 0 END_FOR never ends. */
  lemma {:induction false} ResetLoopRuns(f: FloatUnit, g: Lang, s: Stmt, env: Env, fuel: nat)
    requires g.ops == StOps(f) && s.For? && s.step.None? && s.to == Lit(Int(5))
    requires |s.body| == 1 && s.body[0].Assign? && s.body[0].target == s.variable && s.body[0].value == Lit(Int(0))
    requires Key(s.variable) in env.locals && WidthOf(g.widths.locals, Key(s.variable)) == I8
    requires env.locals[Key(s.variable)] == Int(0) || env.locals[Key(s.variable)] == Int(1)
    ensures RunFor(g, s, env, fuel).OutOfFuel?
    decreases fuel
  {
    if fuel > 0 {
      var k := Key(s.variable);
      var one := env.(locals := env.locals[k := Int(1)]);
      ResetTest(f, g, s, env);
      ResetStep(f, g, s, env);
      ResetBody(f, g, s, env, fuel);
      ResetLoopRuns(f, g, s, one, fuel - 1);
    }
  }

  lemma ResetBody(f: FloatUnit, g: Lang, s: Stmt, env: Env, fuel: nat)
    requires g.ops == StOps(f) && s.For?
    requires |s.body| == 1 && s.body[0].Assign? && s.body[0].target == s.variable && s.body[0].value == Lit(Int(0))
    requires Key(s.variable) in env.locals && WidthOf(g.widths.locals, Key(s.variable)) == I8
    ensures Run(g, s.body, env, true, fuel) == Done(env.(locals := env.locals[Key(s.variable) := Int(0)]))
  {
    var zero := env.(locals := env.locals[Key(s.variable) := Int(0)]);
    assert RunStmt(g, s.body[0], env, true, fuel) == Done(zero);
    assert Run(g, s.body[1..], zero, true, fuel) == Done(zero);
  }

  lemma ResetTest(f: FloatUnit, g: Lang, s: Stmt, env: Env)
    requires g.ops == StOps(f) && s.For? && s.step.None? && s.to == Lit(Int(5))
    requires Key(s.variable) in env.locals && WidthOf(g.widths.locals, Key(s.variable)) == I8
    requires env.locals[Key(s.variable)] == Int(0) || env.locals[Key(s.variable)] == Int(1)
    ensures Truth(g.ops, Bin(g.ops, Le, Some(Read(env, s.variable)), Eval(g.ops, env, s.to))) == Some(true)
  {
    var a := env.locals[Key(s.variable)].i;
    assert Counter(f, g, env, s.variable, I8, a) && BoundIs(f, g, s, env, 5);
    TestIs(f, g, s, env, I8, a, 5);
  }

  lemma ResetStep(f: FloatUnit, g: Lang, s: Stmt, env: Env)
    requires g.ops == StOps(f) && s.For? && s.step.None?
    requires Key(s.variable) in env.locals && WidthOf(g.widths.locals, Key(s.variable)) == I8
    ensures var zero := env.(locals := env.locals[Key(s.variable) := Int(0)]);
      Bin(g.ops, Add, Some(Read(zero, s.variable)), StepOf(g, s, zero)) == Some(Int(1))
      && WriteLocal(g.ops, g.widths, zero, s.variable, Int(1)) == env.(locals := env.locals[Key(s.variable) := Int(1)])
  {
    var k := Key(s.variable);
    var zero := env.(locals := env.locals[k := Int(0)]);
    assert Counter(f, g, zero, s.variable, I8, 0);
    AddIs(f, g, s, zero, I8, 0, 1);
    assert zero.locals[k := Int(1)] == env.locals[k := Int(1)];
  }

  // ---------------------------------------------------------------- variables that are not local

  /** The variable of a FOR is stored only when it is local. Over any other name an empty loop
      never moves: it ends if and only if its test is not true at entry or its increment fails. */
  lemma UnstoredLoopEnds(g: Lang, s: Stmt, env: Env)
    requires s.For? && s.body == [] && Key(s.variable) !in env.locals
    ensures (exists fuel :: !RunFor(g, s, env, fuel).OutOfFuel?) <==>
      Truth(g.ops, Bin(g.ops, Le, Some(Read(env, s.variable)), Eval(g.ops, env, s.to))) != Some(true)
      || Bin(g.ops, Add, Some(Read(env, s.variable)), StepOf(g, s, env)).None?
  {
    if Truth(g.ops, Bin(g.ops, Le, Some(Read(env, s.variable)), Eval(g.ops, env, s.to))) == Some(true)
       && Bin(g.ops, Add, Some(Read(env, s.variable)), StepOf(g, s, env)).Some? {
      forall fuel: nat ensures RunFor(g, s, env, fuel).OutOfFuel? { UnstoredLoopRuns(g, s, env, fuel); }
    } else {
      assert Run(g, s.body, env, true, 1) == Done(env);
      assert !RunFor(g, s, env, 1).OutOfFuel?;
    }
  }

  lemma {:induction false} UnstoredLoopRuns(g: Lang, s: Stmt, env: Env, fuel: nat)
    requires s.For? && s.body == [] && Key(s.variable) !in env.locals
    requires Truth(g.ops, Bin(g.ops, Le, Some(Read(env, s.variable)), Eval(g.ops, env, s.to))) == Some(true)
    requires Bin(g.ops, Add, Some(Read(env, s.variable)), StepOf(g, s, env)).Some?
    ensures RunFor(g, s, env, fuel).OutOfFuel?
    decreases fuel
  {
    if fuel > 0 {
      assert Run(g, s.body, env, true, fuel) == Done(env);
      UnstoredLoopRuns(g, s, env, fuel - 1);
    }
  }
}
