/** Online change: compatibility analysis, migration by name and the module swap
    (`st-engine/src/online_change.rs`, `engine.rs:362-390`, `vm.rs:245-249, 457-467`). */
module OnlineChange {
  import opened Names
  import opened Ir

  /** Of a function the analysis looks at its name, kind, locals and instruction count. */
  datatype Function = Function(name: string, kind: PouKind, locals: seq<VarSlot>, codeSize: nat)

  /** Of an array type the first lower bound and the number of cells matter. */
  datatype TypeDef = StructDef(fields: seq<VarSlot>) | ArrayDef(low: int, cells: nat) | EnumDef

  datatype Module = Module(functions: seq<Function>, globals: seq<VarSlot>, types: seq<TypeDef>)

  /** Retained locals by function index. The fields of instances and structures and the cells
      of arrays by (function index, slot) of the variable that holds them; in the retained
      locals such a variable has a placeholder only. */
  datatype VmState = VmState(program: Module, globals: seq<Value>, retained: map<nat, seq<Value>>, instances: map<(nat, nat), seq<Value>>)

  datatype ChangeKind = CodeOnly | VarsAdded | LayoutChanged | New | Removed

  datatype FunctionChange = FunctionChange(name: string, kind: ChangeKind)

  datatype Reason = LocalChangedType(func: string, name: string) | IncompatibleLayout(func: string) | FunctionRemoved(func: string) | GlobalChangedType(name: string)

  datatype Entry = Local(func: string, name: string) | Global(name: string)

  /** What the analysis tells the operator about variables. */
  datatype Report = Report(kept: seq<Entry>, added: seq<Entry>, gone: seq<Entry>)

  datatype Analysis = Analysis(compatible: bool, changes: seq<FunctionChange>, reasons: seq<Reason>, report: Report)

  function Plus(a: Report, b: Report): Report { Report(a.kept + b.kept, a.added + b.added, a.gone + b.gone) }

  const NOTHING: Report := Report([], [], [])

  function FunctionNames(m: Module): (names: seq<string>)
    ensures |names| == |m.functions| && forall i :: 0 <= i < |names| ==> names[i] == m.functions[i].name
  {
    seq(|m.functions|, i requires 0 <= i < |m.functions| => m.functions[i].name)
  }

  /** `find_function`: the first function of that name, ASCII case ignored. */
  function FindFunction(m: Module, name: string): (r: Option<nat>)
    ensures r.Some? ==> r.value < |m.functions| && SameName(m.functions[r.value].name, name)
    ensures r.None? ==> forall i :: 0 <= i < |m.functions| ==> !SameName(m.functions[i].name, name)
  {
    FindKey(FunctionNames(m), Key(name))
  }

  /** POUs, globals and the locals of each POU have different names. */
  ghost predicate DistinctNames(m: Module) {
    && Distinct(FunctionNames(m)) && Distinct(SlotNames(m.globals))
    && forall f :: 0 <= f < |m.functions| ==> Distinct(SlotNames(m.functions[f].locals))
  }

  lemma FindsItself(m: Module, i: nat)
    requires i < |m.functions| && Distinct(FunctionNames(m))
    ensures FindFunction(m, m.functions[i].name) == Some(i)
  {
    var r := FindFunction(m, m.functions[i].name);
    assert FunctionNames(m)[i] == m.functions[i].name;
    assert FunctionNames(m)[r.value] == m.functions[r.value].name;
  }

  lemma FindsSlot(slots: seq<VarSlot>, i: nat)
    requires i < |slots| && Distinct(SlotNames(slots))
    ensures FindSlot(slots, Key(slots[i].name)) == Some(i)
  {
    var r := FindSlot(slots, Key(slots[i].name));
    assert SlotNames(slots)[i] == slots[i].name && SlotNames(slots)[r.value] == slots[r.value].name;
  }

  // ---------------------------------------------------------------- analysis

  predicate Matches(a: VarSlot, b: VarSlot) { SameName(a.name, b.name) && a.ty == b.ty }

  predicate HasMatch(slots: seq<VarSlot>, s: VarSlot) { exists i :: 0 <= i < |slots| && Matches(slots[i], s) }
  predicate HasName(slots: seq<VarSlot>, s: VarSlot) { exists i :: 0 <= i < |slots| && SameName(slots[i].name, s.name) }

  /** The old slots are a prefix of the new ones. */
  predicate SamePrefix(oldSlots: seq<VarSlot>, newSlots: seq<VarSlot>) {
    |oldSlots| <= |newSlots| && forall i :: 0 <= i < |oldSlots| ==> Matches(oldSlots[i], newSlots[i])
  }

  predicate AllPreserved(oldSlots: seq<VarSlot>, newSlots: seq<VarSlot>) {
    forall i :: 0 <= i < |oldSlots| ==> HasMatch(newSlots, oldSlots[i])
  }

  function CompareFunctions(f: Function, g: Function): ChangeKind {
    if !SamePrefix(f.locals, g.locals) then
      if AllPreserved(f.locals, g.locals) && |g.locals| > |f.locals| then VarsAdded else LayoutChanged
    else if f.codeSize != g.codeSize then CodeOnly
    else if |g.locals| > |f.locals| then VarsAdded
    else CodeOnly
  }

  predicate KeepsState(k: PouKind) { k.ProgramPou? || k.FunctionBlockPou? }

  /** Names of the slots that satisfy p, in order. */
  function NamesWhere(slots: seq<VarSlot>, p: VarSlot -> bool): seq<string> {
    if slots == [] then [] else
    var before := NamesWhere(slots[..|slots| - 1], p);
    if p(slots[|slots| - 1]) then before + [slots[|slots| - 1].name] else before
  }

  lemma {:induction false} InNamesWhere(slots: seq<VarSlot>, p: VarSlot -> bool)
    ensures NamesWhere(slots, p) == [] <==> forall i :: 0 <= i < |slots| ==> !p(slots[i])
    decreases slots
  {
    if slots != [] { InNamesWhere(slots[..|slots| - 1], p); }
  }

  function Locals(func: string, names: seq<string>): seq<Entry> { seq(|names|, i requires 0 <= i < |names| => Local(func, names[i])) }
  function Globals(names: seq<string>): seq<Entry> { seq(|names|, i requires 0 <= i < |names| => Global(names[i])) }

  /** Sorts the new slots by what happened to their variable. */
  method TrackSlots(oldSlots: seq<VarSlot>, newSlots: seq<VarSlot>) returns (kept: seq<string>, retyped: seq<string>, newNames: seq<string>)
    ensures kept == NamesWhere(newSlots, s => HasMatch(oldSlots, s))
    ensures retyped == NamesWhere(newSlots, s => !HasMatch(oldSlots, s) && HasName(oldSlots, s))
    ensures newNames == NamesWhere(newSlots, s => !HasName(oldSlots, s))
  {
    kept, retyped, newNames := [], [], [];
    for i := 0 to |newSlots|
      invariant kept == NamesWhere(newSlots[..i], s => HasMatch(oldSlots, s))
      invariant retyped == NamesWhere(newSlots[..i], s => !HasMatch(oldSlots, s) && HasName(oldSlots, s))
      invariant newNames == NamesWhere(newSlots[..i], s => !HasName(oldSlots, s))
    {
      assert newSlots[..i + 1][..i] == newSlots[..i];
      MatchHasName(oldSlots, newSlots[i]);
      if HasMatch(oldSlots, newSlots[i]) {
        kept := kept + [newSlots[i].name];
      } else if HasName(oldSlots, newSlots[i]) {
        retyped := retyped + [newSlots[i].name];
      } else {
        newNames := newNames + [newSlots[i].name];
      }
    }
    assert newSlots[..|newSlots|] == newSlots;
  }

  lemma MatchHasName(slots: seq<VarSlot>, s: VarSlot)
    ensures HasMatch(slots, s) ==> HasName(slots, s)
  {
  }

  method TrackRemoved(oldSlots: seq<VarSlot>, newSlots: seq<VarSlot>) returns (gone: seq<string>)
    ensures gone == NamesWhere(oldSlots, s => !HasName(newSlots, s))
  {
    gone := [];
    for i := 0 to |oldSlots|
      invariant gone == NamesWhere(oldSlots[..i], s => !HasName(newSlots, s))
    {
      assert oldSlots[..i + 1][..i] == oldSlots[..i];
      if !HasName(newSlots, oldSlots[i]) { gone := gone + [oldSlots[i].name]; }
    }
    assert oldSlots[..|oldSlots|] == oldSlots;
  }

  /** A pair of versions of one function that a running program survives. */
  predicate FunctionOk(f: Function, g: Function) {
    && !CompareFunctions(f, g).LayoutChanged?
    && (KeepsState(g.kind) ==> forall i :: 0 <= i < |g.locals| && HasName(f.locals, g.locals[i]) ==> HasMatch(f.locals, g.locals[i]))
  }

  predicate NewFunctionOk(m: Module, g: Function) {
    var r := FindFunction(m, g.name);
    r.Some? ==> FunctionOk(m.functions[r.value], g)
  }

  predicate GlobalsOk(oldSlots: seq<VarSlot>, newSlots: seq<VarSlot>) {
    forall i :: 0 <= i < |newSlots| ==>
      var r := FindSlot(oldSlots, Key(newSlots[i].name));
      r.Some? ==> oldSlots[r.value].ty == newSlots[i].ty
  }

  /** When a change is compatible, without the bookkeeping. */
  predicate Compatible(m: Module, n: Module) {
    && (forall g :: 0 <= g < |n.functions| ==> NewFunctionOk(m, n.functions[g]))
    && (forall f :: 0 <= f < |m.functions| ==> FindFunction(n, m.functions[f].name).Some?)
    && GlobalsOk(m.globals, n.globals)
  }

  function KindOf(m: Module, g: Function): ChangeKind {
    var r := FindFunction(m, g.name);
    if r.Some? then CompareFunctions(m.functions[r.value], g) else New
  }

  function FunctionReport(m: Module, g: Function): Report {
    var r := FindFunction(m, g.name);
    if r.None? || !KeepsState(g.kind) then NOTHING else
    var f := m.functions[r.value];
    Report(Locals(g.name, NamesWhere(g.locals, s => HasMatch(f.locals, s))),
           Locals(g.name, NamesWhere(g.locals, s => !HasName(f.locals, s))),
           Locals(f.name, NamesWhere(f.locals, s => !HasName(g.locals, s))))
  }

  function ReportUpTo(m: Module, n: Module, k: nat): Report
    requires k <= |n.functions|
  {
    if k == 0 then NOTHING else Plus(ReportUpTo(m, n, k - 1), FunctionReport(m, n.functions[k - 1]))
  }

  predicate GlobalMatch(oldSlots: seq<VarSlot>, s: VarSlot) {
    var r := FindSlot(oldSlots, Key(s.name));
    r.Some? && oldSlots[r.value].ty == s.ty
  }

  function GlobalReport(m: Module, n: Module): Report {
    Report(Globals(NamesWhere(n.globals, s => GlobalMatch(m.globals, s))),
           Globals(NamesWhere(n.globals, (s: VarSlot) => FindSlot(m.globals, Key(s.name)).None?)),
           Globals(NamesWhere(m.globals, s => !HasName(n.globals, s))))
  }

  method AnalyzeFunction(f: Function, g: Function) returns (reasons: seq<Reason>, report: Report)
    ensures reasons == [] <==> FunctionOk(f, g)
    ensures report == if !KeepsState(g.kind) then NOTHING else
      Report(Locals(g.name, NamesWhere(g.locals, s => HasMatch(f.locals, s))),
             Locals(g.name, NamesWhere(g.locals, s => !HasName(f.locals, s))),
             Locals(f.name, NamesWhere(f.locals, s => !HasName(g.locals, s))))
  {
    reasons, report := [], NOTHING;
    if KeepsState(g.kind) {
      var k, r, a := TrackSlots(f.locals, g.locals);
      InNamesWhere(g.locals, s => !HasMatch(f.locals, s) && HasName(f.locals, s));
      reasons := seq(|r|, i requires 0 <= i < |r| => LocalChangedType(g.name, r[i]));
      var d := TrackRemoved(f.locals, g.locals);
      report := Report(Locals(g.name, k), Locals(g.name, a), Locals(f.name, d));
      assert reasons == [] <==> r == [];
    }
    if CompareFunctions(f, g).LayoutChanged? { reasons := reasons + [IncompatibleLayout(g.name)]; }
  }

  method CheckGlobalsCompat(m: Module, n: Module) returns (reasons: seq<Reason>, report: Report)
    ensures reasons == [] <==> GlobalsOk(m.globals, n.globals)
    ensures report == GlobalReport(m, n)
  {
    reasons := [];
    var kept: seq<string>, added: seq<string> := [], [];
    for i := 0 to |n.globals|
      invariant reasons == [] <==> GlobalsOk(m.globals, n.globals[..i])
      invariant kept == NamesWhere(n.globals[..i], s => GlobalMatch(m.globals, s))
      invariant added == NamesWhere(n.globals[..i], (s: VarSlot) => FindSlot(m.globals, Key(s.name)).None?)
    {
      var s := n.globals[i];
      assert n.globals[..i + 1] == n.globals[..i] + [s];
      GlobalsOkSnoc(m.globals, n.globals[..i], s);
      NamesWhereSnoc(n.globals[..i], s, s => GlobalMatch(m.globals, s));
      NamesWhereSnoc(n.globals[..i], s, (s: VarSlot) => FindSlot(m.globals, Key(s.name)).None?);
      var r := FindSlot(m.globals, Key(s.name));
      if r.Some? {
        if m.globals[r.value].ty != s.ty {
          reasons := reasons + [GlobalChangedType(s.name)];
        } else {
          kept := kept + [s.name];
        }
      } else {
        added := added + [s.name];
      }
    }
    assert n.globals[..|n.globals|] == n.globals;
    var d := TrackRemoved(m.globals, n.globals);
    report := Report(Globals(kept), Globals(added), Globals(d));
  }

  lemma NamesWhereSnoc(slots: seq<VarSlot>, s: VarSlot, p: VarSlot -> bool)
    ensures NamesWhere(slots + [s], p) == NamesWhere(slots, p) + (if p(s) then [s.name] else [])
  {
    assert (slots + [s])[..|slots|] == slots;
  }

  lemma GlobalsOkSnoc(oldSlots: seq<VarSlot>, newSlots: seq<VarSlot>, s: VarSlot)
    ensures GlobalsOk(oldSlots, newSlots + [s]) <==> GlobalsOk(oldSlots, newSlots) && (FindSlot(oldSlots, Key(s.name)).Some? ==> GlobalMatch(oldSlots, s))
  {
    var all := newSlots + [s];
    assert all[|newSlots|] == s;
    assert forall i :: 0 <= i < |newSlots| ==> all[i] == newSlots[i];
  }

  method AnalyzeOne(m: Module, g: Function) returns (change: FunctionChange, reasons: seq<Reason>, report: Report)
    ensures change == FunctionChange(g.name, KindOf(m, g))
    ensures reasons == [] <==> NewFunctionOk(m, g)
    ensures report == FunctionReport(m, g)
  {
    reasons, report := [], NOTHING;
    var f := FindFunction(m, g.name);
    if f.Some? { reasons, report := AnalyzeFunction(m.functions[f.value], g); }
    change := FunctionChange(g.name, KindOf(m, g));
  }

  predicate AllOk(m: Module, n: Module, k: nat)
    requires k <= |n.functions|
  {
    k == 0 || (AllOk(m, n, k - 1) && NewFunctionOk(m, n.functions[k - 1]))
  }

  lemma {:induction false} AllOkMeans(m: Module, n: Module, k: nat)
    requires k <= |n.functions|
    ensures AllOk(m, n, k) <==> forall g :: 0 <= g < k ==> NewFunctionOk(m, n.functions[g])
  {
    if k > 0 {
      AllOkMeans(m, n, k - 1);
      if AllOk(m, n, k) {
        forall g | 0 <= g < k ensures NewFunctionOk(m, n.functions[g]) { if g == k - 1 {} }
      }
    }
  }

  function ChangesUpTo(m: Module, n: Module, k: nat): (c: seq<FunctionChange>)
    requires k <= |n.functions|
    ensures |c| == k && forall g :: 0 <= g < k ==> c[g] == FunctionChange(n.functions[g].name, KindOf(m, n.functions[g]))
  {
    seq(k, g requires 0 <= g < k => FunctionChange(n.functions[g].name, KindOf(m, n.functions[g])))
  }

  method AnalyzeNew(m: Module, n: Module) returns (changes: seq<FunctionChange>, reasons: seq<Reason>, report: Report)
    ensures changes == ChangesUpTo(m, n, |n.functions|)
    ensures reasons == [] <==> AllOk(m, n, |n.functions|)
    ensures report == ReportUpTo(m, n, |n.functions|)
  {
    changes, reasons, report := [], [], NOTHING;
    for g := 0 to |n.functions|
      invariant changes == ChangesUpTo(m, n, g) && report == ReportUpTo(m, n, g)
      invariant reasons == [] <==> AllOk(m, n, g)
    {
      var c, r, t := AnalyzeOne(m, n.functions[g]);
      changes, reasons, report := changes + [c], reasons + r, Plus(report, t);
    }
  }

  method AnalyzeRemoved(m: Module, n: Module) returns (changes: seq<FunctionChange>, reasons: seq<Reason>)
    ensures forall c :: 0 <= c < |changes| ==> changes[c].kind.Removed? && FindFunction(n, changes[c].name).None?
    ensures reasons == [] <==> forall f :: 0 <= f < |m.functions| ==> FindFunction(n, m.functions[f].name).Some?
  {
    changes, reasons := [], [];
    for f := 0 to |m.functions|
      invariant forall c :: 0 <= c < |changes| ==> changes[c].kind.Removed? && FindFunction(n, changes[c].name).None?
      invariant reasons == [] <==> forall k :: 0 <= k < f ==> FindFunction(n, m.functions[k].name).Some?
    {
      if FindFunction(n, m.functions[f].name).None? {
        changes := changes + [FunctionChange(m.functions[f].name, Removed)];
        reasons := reasons + [FunctionRemoved(m.functions[f].name)];
      }
    }
  }

  method AnalyzeChange(m: Module, n: Module) returns (a: Analysis)
    ensures a.compatible <==> Compatible(m, n)
    ensures a.compatible <==> a.reasons == []
    ensures |a.changes| >= |n.functions|
    ensures forall g :: 0 <= g < |n.functions| ==> a.changes[g] == FunctionChange(n.functions[g].name, KindOf(m, n.functions[g]))
    ensures forall c :: |n.functions| <= c < |a.changes| ==> FindFunction(n, a.changes[c].name).None?
    ensures a.report == Plus(ReportUpTo(m, n, |n.functions|), GlobalReport(m, n))
  {
    var changes, reasons, report := AnalyzeNew(m, n);
    var removed, missing := AnalyzeRemoved(m, n);
    var globals, globalReport := CheckGlobalsCompat(m, n);
    AllOkMeans(m, n, |n.functions|);
    reasons := reasons + missing + globals;
    a := Analysis(reasons == [], changes + removed, reasons, Plus(report, globalReport));
  }

  /** "Compatible" means no local is lost: every local of every old function has a slot of
      the same name and type in the new version. */
  lemma CompatibleKeepsLocals(m: Module, n: Module, f: nat, i: nat)
    requires Compatible(m, n) && DistinctNames(m) && DistinctNames(n)
    requires f < |m.functions| && i < |m.functions[f].locals|
    ensures var s := m.functions[f].locals[i];
      var g := FindFunction(n, m.functions[f].name);
      g.Some? && (var j := FindSlot(n.functions[g.value].locals, Key(s.name));
                  j.Some? && n.functions[g.value].locals[j.value].ty == s.ty)
  {
    var s := m.functions[f].locals[i];
    var g := FindFunction(n, m.functions[f].name).value;
    SameFunction(m, n, f, g);
    var slots := n.functions[g].locals;
    assert FunctionOk(m.functions[f], n.functions[g]) by { assert NewFunctionOk(m, n.functions[g]); }
    assert HasMatch(slots, s) by {
      if SamePrefix(m.functions[f].locals, slots) { assert Matches(s, slots[i]); }
    }
    var j :| 0 <= j < |slots| && Matches(slots[j], s);
    FindsSlot(slots, j);
  }

  lemma SameFunction(m: Module, n: Module, f: nat, g: nat)
    requires f < |m.functions| && Distinct(FunctionNames(m)) && FindFunction(n, m.functions[f].name) == Some(g)
    ensures FindFunction(m, n.functions[g].name) == Some(f)
  {
    FindsItself(m, f);
  }

  // ---------------------------------------------------------------- migration

  function MigrateSlot(values: seq<Value>, oldSlots: seq<VarSlot>, s: VarSlot): Value {
    var r := FindSlot(oldSlots, Key(s.name));
    if r.Some? && oldSlots[r.value].ty == s.ty && r.value < |values| then values[r.value] else Default(s.ty)
  }

  function MigrateLocals(values: seq<Value>, oldSlots: seq<VarSlot>, newSlots: seq<VarSlot>): (r: seq<Value>)
    ensures |r| == |newSlots| && forall i :: 0 <= i < |newSlots| ==> r[i] == MigrateSlot(values, oldSlots, newSlots[i])
  {
    seq(|newSlots|, i requires 0 <= i < |newSlots| => MigrateSlot(values, oldSlots, newSlots[i]))
  }

  /** The function of the old module whose retained locals move to new function g. */
  function Source(s: VmState, n: Module, g: nat): Option<nat>
    requires g < |n.functions|
  {
    var f := FindFunction(s.program, n.functions[g].name);
    if f.Some? && KeepsState(s.program.functions[f.value].kind) && f.value in s.retained then f else None
  }

  function MigratedAt(s: VmState, n: Module, g: nat): seq<Value>
    requires g < |n.functions| && Source(s, n, g).Some?
  {
    var f := Source(s, n, g).value;
    MigrateLocals(s.retained[f], s.program.functions[f].locals, n.functions[g].locals)
  }

  function MigratedRetained(s: VmState, n: Module, upTo: nat): map<nat, seq<Value>>
    requires upTo <= |n.functions|
  {
    map g | 0 <= g < upTo && Source(s, n, g).Some? :: MigratedAt(s, n, g)
  }

  lemma MigratedSnoc(s: VmState, n: Module, c: nat)
    requires c < |n.functions|
    ensures MigratedRetained(s, n, c + 1) ==
      if Source(s, n, c).Some? then MigratedRetained(s, n, c)[c := MigratedAt(s, n, c)] else MigratedRetained(s, n, c)
  {
  }

  /** The accepted change; instance state stays under its old keys. */
  function Migrated(s: VmState, n: Module): VmState {
    VmState(n, MigrateLocals(s.globals, s.program.globals, n.globals), MigratedRetained(s, n, |n.functions|), s.instances)
  }

  function Changed(s: VmState, n: Module): VmState { if Compatible(s.program, n) then Migrated(s, n) else s }

  class Vm {
    var program: Module
    var globals: seq<Value>
    var retained: map<nat, seq<Value>>
    var instances: map<(nat, nat), seq<Value>>

    ghost function State(): VmState
      reads this
    {
      VmState(program, globals, retained, instances)
    }

    constructor (m: Module)
      ensures State() == VmState(m, Defaults(m.globals), map[], map[])
    {
      program, globals, retained, instances := m, Defaults(m.globals), map[], map[];
    }

    function GetRetainedLocals(name: string): Option<seq<Value>>
      reads this
    {
      var f := FindFunction(program, name);
      if f.Some? && f.value in retained then Some(retained[f.value]) else None
    }

    function GetGlobal(name: string): Option<Value>
      reads this
    {
      var i := FindSlot(program.globals, Key(name));
      if i.Some? && i.value < |globals| then Some(globals[i.value]) else None
    }

    method SwapModule(n: Module, locals: map<nat, seq<Value>>, values: seq<Value>)
      modifies this`program, this`globals, this`retained
      ensures State() == VmState(n, values, locals, old(instances))
    {
      program, globals, retained := n, values, locals;
    }

    /** The migrated locals for one entry of the change list, if there are any. */
    method LocalsFor(n: Module, name: string) returns (g: Option<nat>, values: seq<Value>)
      ensures g.Some? <==> FindFunction(n, name).Some? && Source(State(), n, FindFunction(n, name).value).Some?
      ensures g.Some? ==> g == FindFunction(n, name) && values == MigratedAt(State(), n, g.value)
    {
      values := [];
      var f := FindFunction(program, name);
      g := FindFunction(n, name);
      if f.None? || g.None? { return None, []; }
      assert FindFunction(program, n.functions[g.value].name) == f;
      var oldFunction := program.functions[f.value];
      if !oldFunction.kind.ProgramPou? && !oldFunction.kind.FunctionBlockPou? { return None, []; }
      var current := GetRetainedLocals(name);
      if current.None? { return None, []; }
      values := MigrateLocals(current.value, oldFunction.locals, n.functions[g.value].locals);
    }

    method CollectLocals(n: Module, a: Analysis) returns (migrated: map<nat, seq<Value>>)
      requires DistinctNames(n) && |a.changes| >= |n.functions|
      requires forall g :: 0 <= g < |n.functions| ==> a.changes[g].name == n.functions[g].name
      requires forall c :: |n.functions| <= c < |a.changes| ==> FindFunction(n, a.changes[c].name).None?
      ensures migrated == MigratedRetained(State(), n, |n.functions|)
    {
      migrated := map[];
      for c := 0 to |a.changes|
        invariant migrated == MigratedRetained(State(), n, if c < |n.functions| then c else |n.functions|)
      {
        var g, values := LocalsFor(n, a.changes[c].name);
        if c < |n.functions| {
          FindsItself(n, c);
          MigratedSnoc(State(), n, c);
        }
        if g.Some? { migrated := migrated[g.value := values]; }
      }
    }

    method CollectGlobals() returns (values: seq<Value>)
      requires Distinct(SlotNames(program.globals)) && |globals| == |program.globals|
      ensures values == globals
    {
      values := [];
      for i := 0 to |program.globals|
        invariant values == globals[..i]
      {
        FindsSlot(program.globals, i);
        var v := GetGlobal(program.globals[i].name);
        values := values + [if v.Some? then v.value else Void];
      }
    }

    method ApplyOnlineChange(n: Module, a: Analysis) returns (ok: bool)
      requires DistinctNames(program) && DistinctNames(n) && |globals| == |program.globals|
      requires a.compatible <==> Compatible(program, n)
      requires |a.changes| >= |n.functions|
      requires forall g :: 0 <= g < |n.functions| ==> a.changes[g].name == n.functions[g].name
      requires forall c :: |n.functions| <= c < |a.changes| ==> FindFunction(n, a.changes[c].name).None?
      modifies this`program, this`globals, this`retained
      ensures ok <==> Compatible(old(program), n)
      ensures State() == Changed(old(State()), n)
    {
      if !a.compatible { return false; }
      var migrated := CollectLocals(n, a);
      var oldGlobals := CollectGlobals();
      SwapModule(n, migrated, MigrateLocals(oldGlobals, program.globals, n.globals));
      ok := true;
    }

    /** The engine's entry point: analyse, then apply or leave the machine as it is. */
    method OnlineChangeModule(n: Module) returns (ok: bool)
      requires DistinctNames(program) && DistinctNames(n) && |globals| == |program.globals|
      modifies this`program, this`globals, this`retained
      ensures ok <==> Compatible(old(program), n)
      ensures State() == Changed(old(State()), n)
    {
      var a := AnalyzeChange(program, n);
      if !a.compatible { return false; }
      ok := ApplyOnlineChange(n, a);
    }
  }

  function Defaults(slots: seq<VarSlot>): (r: seq<Value>)
    ensures |r| == |slots| && forall i :: 0 <= i < |slots| ==> r[i] == Default(slots[i].ty)
  {
    seq(|slots|, i requires 0 <= i < |slots| => Default(slots[i].ty))
  }

  // ---------------------------------------------------------------- the report

  lemma FunctionLosesNothing(m: Module, g: Function)
    requires NewFunctionOk(m, g)
    ensures FunctionReport(m, g).gone == []
  {
    var r := FindFunction(m, g.name);
    if r.Some? && KeepsState(g.kind) {
      var slots := m.functions[r.value].locals;
      forall i | 0 <= i < |slots| ensures HasName(g.locals, slots[i]) {
        if SamePrefix(slots, g.locals) { assert Matches(slots[i], g.locals[i]); }
        else { MatchHasName(g.locals, slots[i]); }
      }
      InNamesWhere(slots, s => !HasName(g.locals, s));
    }
  }

  lemma {:induction false} NothingGone(m: Module, n: Module, k: nat)
    requires k <= |n.functions| && AllOk(m, n, k)
    ensures ReportUpTo(m, n, k).gone == []
    decreases k
  {
    if k > 0 {
      NothingGone(m, n, k - 1);
      FunctionLosesNothing(m, n.functions[k - 1]);
    }
  }

  /** A compatible change drops no local, and the report never says it does. */
  lemma NoLocalGone(m: Module, n: Module)
    requires Compatible(m, n)
    ensures ReportUpTo(m, n, |n.functions|).gone == []
  {
    AllOkMeans(m, n, |n.functions|);
    NothingGone(m, n, |n.functions|);
  }
}
