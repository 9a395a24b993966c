/** REF_TO variables across an online change. A reference is a scope and a slot number, and it
    stays one when the slots move (`vm.rs:1911-1975`). */
module ChangeRefs {
  import opened Names
  import opened Ir
  import opened OnlineChange
  import opened ChangeRuns

  /** The scope of a reference that a program at the bottom of the call stack makes to its own
      variables, and that of references to globals. */
  const OWN_FRAME: nat := 2
  const GLOBAL_SCOPE: nat := 0

  function At(values: seq<Value>, k: nat, absent: Value): Value { if k < |values| then values[k] else absent }

  /** The variables of program p as it finds them when it runs. */
  function OwnValues(s: VmState, p: string): seq<Value> {
    var f := FindFunction(s.program, p);
    if f.Some? && f.value in s.retained then s.retained[f.value] else []
  }

  /** What dereferencing variable r of program p gives when p runs at the bottom of the call
      stack. Scope 1 is an older code for globals; there are no other frames. */
  function Behind(s: VmState, p: string, r: string): Option<Value> {
    match LocalValue(s, p, r)
    case Some(Ref(scope, k)) =>
      if scope == OWN_FRAME then Some(At(OwnValues(s, p), k, Int(0)))
      else if scope < OWN_FRAME then Some(At(s.globals, k, Void))
      else Some(Int(0))
    case Some(_) => Some(Int(0))
    case None => None
  }

  // ---------------------------------------------------------------- one slot

  /** A value that is not the default of its type. */
  function Other(ty: VarType): (v: Value)
    ensures v != Int(0) && v != Void && (forall other: VarType :: v != Default(other)) && forall k :: v != Ref(OWN_FRAME, k)
  {
    match ty
    case BoolT => Bool(true) case IntT => Int(1) case UIntT => UInt(1) case RealT => Real(1)
    case StringT => Str("x") case TimeT => Time(1) case _ => Ref(1, 0)
  }

  function Mark(slots: seq<VarSlot>, i: nat, v: Value, k: nat): Value
    requires k < |slots|
  {
    if k == i then v else Other(slots[k].ty)
  }

  /** Only slot k differs from its default, and slot i, which holds v. */
  function Marking(slots: seq<VarSlot>, i: nat, v: Value, k: nat): (values: seq<Value>)
    requires k < |slots|
    ensures |values| == |slots| && values[k] == Mark(slots, i, v, k) && (i < |slots| ==> values[i] == v)
    ensures forall q :: 0 <= q < |slots| && q != k && q != i ==> values[q] == Default(slots[q].ty)
  {
    var d := Defaults(slots)[k := Other(slots[k].ty)];
    if i < |slots| then d[i := v] else d
  }

  lemma SlotKept(values: seq<Value>, before: seq<VarSlot>, after: seq<VarSlot>, k: nat, absent: Value)
    requires |values| == |before| && k < |before| && Distinct(SlotNames(before))
    requires FindSlot(after, Key(before[k].name)) == Some(k) && after[k].ty == before[k].ty
    ensures At(MigrateLocals(values, before, after), k, absent) == values[k]
  {
    FindsSlot(before, k);
    assert Key(after[k].name) == Key(before[k].name);
  }

  lemma OtherSource(before: seq<VarSlot>, after: seq<VarSlot>, k: nat)
    requires k < |before| && k < |after| && Distinct(SlotNames(after)) && FindSlot(after, Key(before[k].name)) != Some(k)
    ensures FindSlot(before, Key(after[k].name)) != Some(k)
  {
    FindsSlot(after, k);
  }

  /** If the variable of slot k moved, what is in slot k afterwards is not its value. */
  lemma SlotLost(before: seq<VarSlot>, after: seq<VarSlot>, i: nat, v: Value, k: nat, absent: Value)
    requires k < |before| && Distinct(SlotNames(after)) && FindSlot(after, Key(before[k].name)) != Some(k)
    requires v != Other(before[k].ty) && (k == i ==> v.Ref?) && (absent == Int(0) || absent == Void)
    ensures At(MigrateLocals(Marking(before, i, v, k), before, after), k, absent) != Mark(before, i, v, k)
  {
    if k < |after| {
      OtherSource(before, after, k);
      var q := FindSlot(before, Key(after[k].name));
      var values := Marking(before, i, v, k);
      assert MigrateSlot(values, before, after[k]) == Default(after[k].ty) || (q.Some? && MigrateSlot(values, before, after[k]) == values[q.value]);
    }
  }

  // ---------------------------------------------------------------- references

  /** Local i of function f, a program or function block, is the reference variable r of p. */
  predicate IsRef(m: Module, p: string, r: string, f: nat, i: nat) {
    PlaceOf(m, p, r) == Some((f, i)) && m.functions[f].locals[i].ty.RefT? && KeepsState(m.functions[f].kind)
  }

  /** The slots of the POU after the change. */
  function SlotsAfter(n: Module, p: string): seq<VarSlot> {
    var g := FindFunction(n, p);
    if g.None? then [] else n.functions[g.value].locals
  }

  /** The reference itself is carried over, and with it the slot number. */
  lemma RefStays(s: VmState, n: Module, p: string, r: string, f: nat, i: nat)
    requires Shaped(s) && DistinctNames(n) && Compatible(s.program, n) && IsRef(s.program, p, r, f, i) && f in s.retained
    ensures LocalValue(Migrated(s, n), p, r) == LocalValue(s, p, r) == Some(s.retained[f][i])
  {
    RefHeld(s, p, r, f, i);
    RetainedLocalKept(s, n, p, r);
  }

  lemma RefHeld(s: VmState, p: string, r: string, f: nat, i: nat)
    requires Shaped(s) && IsRef(s.program, p, r, f, i) && f in s.retained
    ensures LocalValue(s, p, r) == Some(s.retained[f][i]) && Retains(s.program, p)
  {
  }

  lemma OwnValuesMove(s: VmState, n: Module, p: string, f: nat, i: nat)
    requires Shaped(s) && DistinctNames(n) && Compatible(s.program, n) && FindFunction(s.program, p) == Some(f)
    requires KeepsState(s.program.functions[f].kind) && f in s.retained && i < |s.retained[f]|
    ensures OwnValues(Migrated(s, n), p) == MigrateLocals(s.retained[f], s.program.functions[f].locals, SlotsAfter(n, p))
  {
    LocalMoves(s, n, f, i);
    assert SameName(s.program.functions[f].name, p);
  }

  /** What lies behind a reference after the change: whatever migration puts in that slot. */
  lemma BehindAfter(s: VmState, n: Module, p: string, r: string, f: nat, i: nat, scope: nat, k: nat)
    requires Refers(s, s.program, f, i, scope, k) && DistinctNames(n) && Compatible(s.program, n) && IsRef(s.program, p, r, f, i)
    ensures scope == OWN_FRAME ==>
      && Behind(s, p, r) == Some(At(s.retained[f], k, Int(0)))
      && Behind(Migrated(s, n), p, r) == Some(At(MigrateLocals(s.retained[f], s.program.functions[f].locals, SlotsAfter(n, p)), k, Int(0)))
    ensures scope == GLOBAL_SCOPE ==>
      && Behind(s, p, r) == Some(At(s.globals, k, Void))
      && Behind(Migrated(s, n), p, r) == Some(At(MigrateLocals(s.globals, s.program.globals, n.globals), k, Void))
  {
    RefStays(s, n, p, r, f, i);
    OwnValuesMove(s, n, p, f, i);
    BehindRef(s, p, r, scope, k);
    BehindRef(Migrated(s, n), p, r, scope, k);
    assert OwnValues(s, p) == s.retained[f];
  }

  lemma BehindRef(s: VmState, p: string, r: string, scope: nat, k: nat)
    requires LocalValue(s, p, r) == Some(Ref(scope, k))
    ensures scope == OWN_FRAME ==> Behind(s, p, r) == Some(At(OwnValues(s, p), k, Int(0)))
    ensures scope == GLOBAL_SCOPE ==> Behind(s, p, r) == Some(At(s.globals, k, Void))
  {
  }

  /** Slots of one name have one type. */
  lemma SameTarget(m: Module, n: Module, p: string, f: nat, k: nat)
    requires DistinctNames(m) && DistinctNames(n) && Compatible(m, n) && FindFunction(m, p) == Some(f) && k < |m.functions[f].locals|
    requires KeepsState(m.functions[f].kind) && FindSlot(SlotsAfter(n, p), Key(m.functions[f].locals[k].name)) == Some(k)
    ensures SlotsAfter(n, p)[k].ty == m.functions[f].locals[k].ty
  {
    CompatibleKeepsLocals(m, n, f, k);
  }

  lemma SameGlobal(m: Module, n: Module, k: nat)
    requires DistinctNames(m) && GlobalsOk(m.globals, n.globals) && k < |m.globals|
    requires FindSlot(n.globals, Key(m.globals[k].name)) == Some(k)
    ensures n.globals[k].ty == m.globals[k].ty
  {
    FindsSlot(m.globals, k);
    assert FindSlot(m.globals, Key(n.globals[k].name)) == Some(k);
  }

  /** A state of m, at a scan, in which r refers to slot k of that scope. */
  ghost predicate Refers(s: VmState, m: Module, f: nat, i: nat, scope: nat, k: nat) {
    && Shaped(s) && s.program == m && f in s.retained && i < |s.retained[f]| && s.retained[f][i] == Ref(scope, k)
  }

  /** The change keeps what r leads to, whenever r refers to slot k of that scope. */
  ghost predicate Follows(m: Module, n: Module, p: string, r: string, f: nat, i: nat, scope: nat, k: nat) {
    forall s {:trigger Refers(s, m, f, i, scope, k)} :: Refers(s, m, f, i, scope, k) ==> Behind(Migrated(s, n), p, r) == Behind(s, p, r)
  }

  /** A reference to a variable of its own program still leads to that variable, in every state,
      if and only if the variable keeps its slot. */
  lemma LocalRefKeptIff(m: Module, n: Module, p: string, r: string, f: nat, i: nat, k: nat)
    requires DistinctNames(m) && DistinctNames(n) && Compatible(m, n) && IsRef(m, p, r, f, i)
    requires k < |m.functions[f].locals|
    ensures Follows(m, n, p, r, f, i, OWN_FRAME, k) <==> FindSlot(SlotsAfter(n, p), Key(m.functions[f].locals[k].name)) == Some(k)
  {
    var before := m.functions[f].locals;
    if FindSlot(SlotsAfter(n, p), Key(before[k].name)) == Some(k) {
      SameTarget(m, n, p, f, k);
      forall s | Refers(s, m, f, i, OWN_FRAME, k) ensures Behind(Migrated(s, n), p, r) == Behind(s, p, r) {
        BehindAfter(s, n, p, r, f, i, OWN_FRAME, k);
        SlotKept(s.retained[f], before, SlotsAfter(n, p), k, Int(0));
      }
    } else {
      LocalRefAstray(m, n, p, r, f, i, k);
    }
  }

  /** A state in which the reference leads to a value that is in no other slot. */
  function LocalMark(m: Module, f: nat, i: nat, k: nat): (t: VmState)
    requires f < |m.functions| && k < |m.functions[f].locals| && i < |m.functions[f].locals|
    ensures DistinctNames(m) ==> Refers(t, m, f, i, OWN_FRAME, k)
    ensures f in t.retained && t.retained[f] == Marking(m.functions[f].locals, i, Ref(OWN_FRAME, k), k)
  {
    VmState(m, Defaults(m.globals), map[f := Marking(m.functions[f].locals, i, Ref(OWN_FRAME, k), k)], map[])
  }

  function GlobalMark(m: Module, f: nat, i: nat, k: nat): (t: VmState)
    requires f < |m.functions| && k < |m.globals| && i < |m.functions[f].locals|
    ensures DistinctNames(m) ==> Refers(t, m, f, i, GLOBAL_SCOPE, k)
    ensures t.globals == Marking(m.globals, |m.globals|, Void, k)
  {
    VmState(m, Marking(m.globals, |m.globals|, Void, k), map[f := Defaults(m.functions[f].locals)[i := Ref(GLOBAL_SCOPE, k)]], map[])
  }

  lemma LocalRefAstray(m: Module, n: Module, p: string, r: string, f: nat, i: nat, k: nat)
    requires DistinctNames(m) && DistinctNames(n) && Compatible(m, n) && IsRef(m, p, r, f, i)
    requires k < |m.functions[f].locals|
    requires FindSlot(SlotsAfter(n, p), Key(m.functions[f].locals[k].name)) != Some(k)
    ensures !Follows(m, n, p, r, f, i, OWN_FRAME, k)
  {
    var t := LocalMark(m, f, i, k);
    BehindAfter(t, n, p, r, f, i, OWN_FRAME, k);
    DistinctAfter(n, p);
    SlotLost(m.functions[f].locals, SlotsAfter(n, p), i, Ref(OWN_FRAME, k), k, Int(0));
    assert Behind(Migrated(t, n), p, r) != Behind(t, p, r);
  }

  lemma DistinctAfter(n: Module, p: string)
    requires DistinctNames(n)
    ensures Distinct(SlotNames(SlotsAfter(n, p)))
  {
  }

  /** A reference to a global likewise. */
  lemma GlobalRefKeptIff(m: Module, n: Module, p: string, r: string, f: nat, i: nat, k: nat)
    requires DistinctNames(m) && DistinctNames(n) && Compatible(m, n) && IsRef(m, p, r, f, i)
    requires k < |m.globals|
    ensures Follows(m, n, p, r, f, i, GLOBAL_SCOPE, k) <==> FindSlot(n.globals, Key(m.globals[k].name)) == Some(k)
  {
    if FindSlot(n.globals, Key(m.globals[k].name)) == Some(k) {
      SameGlobal(m, n, k);
      forall s | Refers(s, m, f, i, GLOBAL_SCOPE, k) ensures Behind(Migrated(s, n), p, r) == Behind(s, p, r) {
        BehindAfter(s, n, p, r, f, i, GLOBAL_SCOPE, k);
        SlotKept(s.globals, m.globals, n.globals, k, Void);
      }
    } else {
      GlobalRefAstray(m, n, p, r, f, i, k);
    }
  }

  lemma GlobalRefAstray(m: Module, n: Module, p: string, r: string, f: nat, i: nat, k: nat)
    requires DistinctNames(m) && DistinctNames(n) && Compatible(m, n) && IsRef(m, p, r, f, i)
    requires k < |m.globals| && FindSlot(n.globals, Key(m.globals[k].name)) != Some(k)
    ensures !Follows(m, n, p, r, f, i, GLOBAL_SCOPE, k)
  {
    var t := GlobalMark(m, f, i, k);
    BehindAfter(t, n, p, r, f, i, GLOBAL_SCOPE, k);
    SlotLost(m.globals, n.globals, |m.globals|, Void, k, Void);
    assert Behind(Migrated(t, n), p, r) != Behind(t, p, r);
  }

  function WithProgram(name: string, slots: seq<VarSlot>): Module { Module([Function(name, ProgramPou, slots, 1)], [], []) }

  lemma NamesBehind(before: seq<VarSlot>, b: VarSlot)
    requires Distinct(SlotNames([b] + before))
    ensures Distinct(SlotNames(before)) && forall i :: 0 <= i < |before| ==> !SameName(before[i].name, b.name)
  {
    forall i, j | 0 <= i < j < |before| ensures Key(SlotNames(before)[i]) != Key(SlotNames(before)[j]) { Apart([b] + before, i + 1, j + 1); }
    forall i | 0 <= i < |before| ensures !SameName(before[i].name, b.name) { Apart([b] + before, 0, i + 1); }
  }

  lemma Apart(slots: seq<VarSlot>, i: nat, j: nat)
    requires Distinct(SlotNames(slots)) && i < j < |slots|
    ensures !SameName(slots[i].name, slots[j].name)
  {
    assert Key(SlotNames(slots)[i]) != Key(SlotNames(slots)[j]);
  }

  lemma InsertionOk(f: Function, g: Function, b: VarSlot)
    requires g.locals == [b] + f.locals && forall i :: 0 <= i < |f.locals| ==> !SameName(f.locals[i].name, b.name)
    ensures FunctionOk(f, g)
  {
    forall i | 0 <= i < |f.locals| ensures HasMatch(g.locals, f.locals[i]) { assert Matches(g.locals[i + 1], f.locals[i]); }
    forall j | 0 <= j < |g.locals| && HasName(f.locals, g.locals[j]) ensures HasMatch(f.locals, g.locals[j]) {
      if j > 0 { assert Matches(f.locals[j - 1], g.locals[j]); }
    }
  }

  lemma ProgramNames(name: string, slots: seq<VarSlot>)
    requires Distinct(SlotNames(slots))
    ensures DistinctNames(WithProgram(name, slots)) && FindFunction(WithProgram(name, slots), name) == Some(0)
  {
    FindsItself(WithProgram(name, slots), 0);
  }

  lemma InsertionAccepted(name: string, before: seq<VarSlot>, b: VarSlot)
    requires Distinct(SlotNames([b] + before))
    ensures DistinctNames(WithProgram(name, before)) && DistinctNames(WithProgram(name, [b] + before))
    ensures Compatible(WithProgram(name, before), WithProgram(name, [b] + before))
  {
    NamesBehind(before, b);
    ProgramNames(name, before);
    ProgramNames(name, [b] + before);
    InsertionOk(Function(name, ProgramPou, before, 1), Function(name, ProgramPou, [b] + before, 1), b);
  }

  /** An accepted change that inserts a variable before the target: R led to A, then leads to B. */
  lemma InsertionMovesTarget(name: string, a: VarSlot, b: VarSlot, r: VarSlot)
    requires Distinct(SlotNames([b] + [a, r])) && r.ty.RefT?
    ensures var m, n := WithProgram(name, [a, r]), WithProgram(name, [b] + [a, r]);
      DistinctNames(m) && DistinctNames(n) && Compatible(m, n) && !Follows(m, n, name, r.name, 0, 1, OWN_FRAME, 0)
  {
    var before, after := [a, r], [b] + [a, r];
    InsertionAccepted(name, before, b);
    NamesBehind(before, b);
    ProgramNames(name, before);
    ProgramNames(name, after);
    FindsSlot(before, 1);
    FindsSlot(after, 1);
    LocalRefKeptIff(WithProgram(name, before), WithProgram(name, after), name, r.name, 0, 1, 0);
  }
}
