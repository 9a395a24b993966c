/** What online changes do to the values of variables, one change at a time and over whole
    runs (`st-engine/src/online_change.rs`, `vm.rs:450-467, 1800-1870, 2066-2080`). */
module ChangeRuns {
  import opened Names
  import opened Ir
  import opened IntWidths
  import opened OnlineChange

  // ---------------------------------------------------------------- variables by name

  /** Function index and slot of variable x of POU p. */
  function PlaceOf(m: Module, p: string, x: string): (r: Option<(nat, nat)>)
    ensures r.Some? ==> r.value.0 < |m.functions| && r.value.1 < |m.functions[r.value.0].locals|
  {
    var f := FindFunction(m, p);
    if f.None? then None else
    var i := FindSlot(m.functions[f.value].locals, Key(x));
    if i.None? then None else Some((f.value, i.value))
  }

  /** The value of a local that lies in its own slot. */
  function LocalValue(s: VmState, p: string, x: string): Option<Value> {
    var at := PlaceOf(s.program, p, x);
    if at.None? then None else
    var (f, i) := at.value;
    if IsComposite(s.program.functions[f].locals[i].ty) || f !in s.retained || i >= |s.retained[f]| then None
    else Some(s.retained[f][i])
  }

  /** A part of a composite variable: a field of an instance or structure, or a cell of an array. */
  datatype Part = Field(name: string) | Element(index: int)

  /** Where a type keeps a part. */
  function CellOf(m: Module, ty: VarType, part: Part): Option<nat> {
    match part
    case Field(y) =>
      if (ty.FbInstanceT? || ty.ClassInstanceT?) && ty.index < |m.functions| then FindSlot(m.functions[ty.index].locals, Key(y))
      else if ty.StructT? && ty.index < |m.types| && m.types[ty.index].StructDef? then FindSlot(m.types[ty.index].fields, Key(y))
      else None
    case Element(i) =>
      if ty.ArrayT? && ty.index < |m.types| && m.types[ty.index].ArrayDef?
         && m.types[ty.index].low <= i < m.types[ty.index].low + m.types[ty.index].cells
      then Some(i - m.types[ty.index].low)
      else None
  }

  /** Function index, slot and cell of a part of variable x of program p. */
  function PartPlace(m: Module, p: string, x: string, part: Part): Option<((nat, nat), nat)> {
    var at := PlaceOf(m, p, x);
    if at.None? then None else
    var cell := CellOf(m, m.functions[at.value.0].locals[at.value.1].ty, part);
    if cell.None? then None else Some((at.value, cell.value))
  }

  /** A cell that was never written reads as 0. */
  function CellValue(s: VmState, at: (nat, nat), cell: nat): Value {
    if at in s.instances && cell < |s.instances[at]| then s.instances[at][cell] else Int(0)
  }

  function PartValue(s: VmState, p: string, x: string, part: Part): Option<Value> {
    var at := PartPlace(s.program, p, x, part);
    if at.None? then None else Some(CellValue(s, at.value.0, at.value.1))
  }

  function GlobalValue(s: VmState, x: string): Option<Value> {
    var i := FindSlot(s.program.globals, Key(x));
    if i.Some? && i.value < |s.globals| then Some(s.globals[i.value]) else None
  }

  /** Names are unique, and there are as many values as slots. */
  ghost predicate Shaped(s: VmState) {
    && DistinctNames(s.program) && |s.globals| == |s.program.globals|
    && forall f :: f in s.retained ==> f < |s.program.functions| && |s.retained[f]| == |s.program.functions[f].locals|
  }

  // ---------------------------------------------------------------- one accepted change

  /** The POU of that name retains its locals. */
  predicate Retains(m: Module, p: string) {
    var f := FindFunction(m, p);
    f.Some? && KeepsState(m.functions[f.value].kind)
  }

  lemma MigratedShaped(s: VmState, n: Module)
    requires Shaped(s) && DistinctNames(n)
    ensures Shaped(Migrated(s, n))
  {
  }

  /** Where the i-th local of old function f goes. */
  lemma LocalMoves(s: VmState, n: Module, f: nat, i: nat)
    requires Shaped(s) && DistinctNames(n) && Compatible(s.program, n)
    requires f in s.retained && i < |s.retained[f]| && KeepsState(s.program.functions[f].kind)
    ensures var g := FindFunction(n, s.program.functions[f].name);
      && g.Some? && Source(s, n, g.value) == Some(f)
      && var j := FindSlot(n.functions[g.value].locals, Key(s.program.functions[f].locals[i].name));
         j.Some? && MigratedAt(s, n, g.value)[j.value] == s.retained[f][i]
         && n.functions[g.value].locals[j.value].ty == s.program.functions[f].locals[i].ty
  {
    var locals := s.program.functions[f].locals;
    CompatibleKeepsLocals(s.program, n, f, i);
    var g := FindFunction(n, s.program.functions[f].name).value;
    SameFunction(s.program, n, f, g);
    var j := FindSlot(n.functions[g].locals, Key(locals[i].name)).value;
    FindsSlot(locals, i);
    assert MigrateSlot(s.retained[f], locals, n.functions[g].locals[j]) == s.retained[f][i];
  }

  lemma PlaceBySameName(m: Module, p: string, x: string, q: string, y: string)
    requires SameName(p, q) && SameName(x, y)
    ensures PlaceOf(m, p, x) == PlaceOf(m, q, y)
  {
  }

  lemma MigratedAtPlace(s: VmState, n: Module, g: nat, j: nat, p: string, x: string)
    requires PlaceOf(n, p, x) == Some((g, j)) && Source(s, n, g).Some? && !IsComposite(n.functions[g].locals[j].ty)
    ensures LocalValue(Migrated(s, n), p, x) == Some(MigratedAt(s, n, g)[j])
  {
  }

  lemma RetainedLocalKept(s: VmState, n: Module, p: string, x: string)
    requires Shaped(s) && DistinctNames(n) && Compatible(s.program, n)
    requires LocalValue(s, p, x).Some? && Retains(s.program, p)
    ensures LocalValue(Migrated(s, n), p, x) == LocalValue(s, p, x)
  {
    var (f, i) := PlaceOf(s.program, p, x).value;
    var (fName, iName) := (s.program.functions[f].name, s.program.functions[f].locals[i].name);
    LocalMoves(s, n, f, i);
    var (g, j) := PlaceOf(n, fName, iName).value;
    PlaceBySameName(n, fName, iName, p, x);
    MigratedAtPlace(s, n, g, j, p, x);
  }

  lemma UnretainedLocalLost(s: VmState, n: Module, p: string, x: string)
    requires !Retains(s.program, p)
    ensures LocalValue(Migrated(s, n), p, x) == None
  {
    var g := FindFunction(n, p);
    if g.Some? { assert FindFunction(s.program, n.functions[g.value].name) == FindFunction(s.program, p); }
  }

  /** An accepted change keeps the value of a local, wherever its slot moved, if and only if
      its POU was a PROGRAM or FUNCTION_BLOCK before the change; the new kind does not matter. */
  lemma ChangeKeepsLocal(s: VmState, n: Module, p: string, x: string)
    requires Shaped(s) && DistinctNames(n) && Compatible(s.program, n) && LocalValue(s, p, x).Some?
    ensures LocalValue(Migrated(s, n), p, x) == LocalValue(s, p, x) <==> Retains(s.program, p)
  {
    if Retains(s.program, p) { RetainedLocalKept(s, n, p, x); } else { UnretainedLocalLost(s, n, p, x); }
  }

  /** An accepted change keeps a global if and only if the new module still declares it. */
  lemma ChangeKeepsGlobal(s: VmState, n: Module, x: string)
    requires Shaped(s) && DistinctNames(n) && Compatible(s.program, n) && GlobalValue(s, x).Some?
    ensures GlobalValue(Migrated(s, n), x) == GlobalValue(s, x) <==> FindSlot(n.globals, Key(x)).Some?
  {
    var j := FindSlot(n.globals, Key(x));
    if j.Some? {
      assert FindSlot(s.program.globals, Key(n.globals[j.value].name)) == FindSlot(s.program.globals, Key(x));
    }
  }

  /** New variables start at the default of their type. */
  lemma ChangeDefaultsNewGlobal(s: VmState, n: Module, x: string)
    requires Shaped(s) && Compatible(s.program, n) && FindSlot(s.program.globals, Key(x)).None?
    ensures GlobalValue(Migrated(s, n), x) ==
      var j := FindSlot(n.globals, Key(x)); if j.Some? then Some(Default(n.globals[j.value].ty)) else None
  {
    var j := FindSlot(n.globals, Key(x));
    if j.Some? { assert FindSlot(s.program.globals, Key(n.globals[j.value].name)).None?; }
  }

  /** A state of m in which one cell holds 1. */
  function Marked(m: Module, at: (nat, nat), cell: nat): VmState {
    VmState(m, Defaults(m.globals), map[], map[at := seq(cell + 1, k => if k == cell then Int(1) else Int(0))])
  }

  /** Composite variables are not migrated. A part of one keeps its value in every state if and
      only if nothing on the way to it moved: the index of its POU, the slot of the variable and
      the cell of the part in the type's layout. */
  lemma PartKeptIffUnmoved(m: Module, n: Module, p: string, x: string, part: Part)
    requires DistinctNames(m) && Compatible(m, n) && PartPlace(m, p, x, part).Some?
    ensures (forall s {:trigger Migrated(s, n)} :: Shaped(s) && s.program == m ==>
               PartValue(Migrated(s, n), p, x, part) == PartValue(s, p, x, part))
            <==> PartPlace(n, p, x, part) == PartPlace(m, p, x, part)
  {
    var (at, cell) := PartPlace(m, p, x, part).value;
    if PartPlace(n, p, x, part) != PartPlace(m, p, x, part) {
      MarkedHere(m, p, x, part, at, cell);
      MarkedElsewhere(m, n, p, x, part, at, cell);
    } else {
      forall s | Shaped(s) && s.program == m ensures PartValue(Migrated(s, n), p, x, part) == PartValue(s, p, x, part) { }
    }
  }

  lemma MarkedHere(m: Module, p: string, x: string, part: Part, at: (nat, nat), cell: nat)
    requires DistinctNames(m) && PartPlace(m, p, x, part) == Some((at, cell))
    ensures Shaped(Marked(m, at, cell)) && Marked(m, at, cell).program == m
    ensures PartValue(Marked(m, at, cell), p, x, part) == Some(Int(1))
  {
  }

  lemma MarkedElsewhere(m: Module, n: Module, p: string, x: string, part: Part, at: (nat, nat), cell: nat)
    requires PartPlace(n, p, x, part) != Some((at, cell))
    ensures PartValue(Migrated(Marked(m, at, cell), n), p, x, part) != Some(Int(1))
  {
  }

  // ---------------------------------------------------------------- runs

  /** What a running controller does between two looks at its variables. `WriteInstance` is
      whatever a scan leaves in the data of a composite variable. */
  datatype Event =
    | FirstScan(program: string)
    | WriteLocal(program: string, name: string, value: Value)
    | WriteGlobal(name: string, value: Value)
    | WriteInstance(program: string, name: string, values: seq<Value>)
    | Change(next: Module)

  function Step(s: VmState, e: Event): VmState {
    match e
    case FirstScan(p) =>
      var f := FindFunction(s.program, p);
      if f.Some? && s.program.functions[f.value].kind.ProgramPou? && f.value !in s.retained
      then s.(retained := s.retained[f.value := Defaults(s.program.functions[f.value].locals)])
      else s
    case WriteLocal(p, x, v) =>
      var at := PlaceOf(s.program, p, x);
      if at.None? then s else
      var (f, i) := at.value;
      if f in s.retained && i < |s.retained[f]|
      then s.(retained := s.retained[f := s.retained[f][i := Narrow(v, s.program.functions[f].locals[i].width)]])
      else s
    case WriteGlobal(x, v) =>
      var i := FindSlot(s.program.globals, Key(x));
      if i.Some? && i.value < |s.globals|
      then s.(globals := s.globals[i.value := Narrow(v, s.program.globals[i.value].width)]) else s
    case WriteInstance(p, x, values) =>
      var at := PlaceOf(s.program, p, x);
      if at.None? then s else s.(instances := s.instances[at.value := values])
    case Change(n) => Changed(s, n)
  }

  function Run(s: VmState, events: seq<Event>): VmState
    decreases events
  {
    if events == [] then s else Run(Step(s, events[0]), events[1..])
  }

  datatype Variable = LocalVar(program: string, name: string) | GlobalVar(name: string) | PartVar(program: string, name: string, part: Part)

  function ValueOf(s: VmState, v: Variable): Option<Value> {
    match v
    case LocalVar(p, x) => LocalValue(s, p, x)
    case GlobalVar(x) => GlobalValue(s, x)
    case PartVar(p, x, part) => PartValue(s, p, x, part)
  }

  predicate Writes(e: Event, v: Variable) {
    match v
    case LocalVar(p, x) => e.WriteLocal? && SameName(e.program, p) && SameName(e.name, x)
    case GlobalVar(x) => e.WriteGlobal? && SameName(e.name, x)
    case PartVar(p, x, _) => e.WriteInstance? && SameName(e.program, p) && SameName(e.name, x)
  }

  /** The condition on the old and the new module under which a change carries v over. */
  predicate Carries(m: Module, n: Module, v: Variable) {
    match v
    case LocalVar(p, _) => Retains(m, p)
    case GlobalVar(x) => FindSlot(n.globals, Key(x)).Some?
    case PartVar(p, x, part) => PartPlace(n, p, x, part) == PartPlace(m, p, x, part)
  }

  predicate Accepted(s: VmState, e: Event) { e.Change? && Compatible(s.program, e.next) }

  /** Every accepted module has unique names. */
  ghost predicate NamesOk(s: VmState, events: seq<Event>)
    decreases events
  {
    events == [] ||
    ((Accepted(s, events[0]) ==> DistinctNames(events[0].next)) && NamesOk(Step(s, events[0]), events[1..]))
  }

  /** Every accepted change of the run carries v over. */
  predicate Carried(s: VmState, events: seq<Event>, v: Variable)
    decreases events
  {
    events == [] ||
    ((Accepted(s, events[0]) ==> Carries(s.program, events[0].next, v)) && Carried(Step(s, events[0]), events[1..], v))
  }

  lemma StepKeepsShape(s: VmState, e: Event)
    requires Shaped(s) && (Accepted(s, e) ==> DistinctNames(e.next))
    ensures Shaped(Step(s, e))
  {
    if Accepted(s, e) { MigratedShaped(s, e.next); }
  }

  lemma ChangeKeeps(s: VmState, n: Module, v: Variable)
    requires Shaped(s) && DistinctNames(n) && Compatible(s.program, n) && ValueOf(s, v).Some?
    ensures Carries(s.program, n, v) ==> ValueOf(Migrated(s, n), v) == ValueOf(s, v)
    ensures !Carries(s.program, n, v) && !v.PartVar? ==> ValueOf(Migrated(s, n), v) != ValueOf(s, v)
  {
    match v
    case LocalVar(p, x) => ChangeKeepsLocal(s, n, p, x);
    case GlobalVar(x) => ChangeKeepsGlobal(s, n, x);
    case PartVar(p, x, part) =>
  }

  lemma WriteLocalMisses(s: VmState, e: Event, v: Variable)
    requires e.WriteLocal? && !Writes(e, v)
    ensures ValueOf(Step(s, e), v) == ValueOf(s, v)
  {
    if v.LocalVar? {
      var at, to := PlaceOf(s.program, v.program, v.name), PlaceOf(s.program, e.program, e.name);
      if at.Some? && to.Some? { assert at != to; }
    }
  }

  lemma WriteInstanceMisses(s: VmState, e: Event, v: Variable)
    requires e.WriteInstance? && !Writes(e, v)
    ensures ValueOf(Step(s, e), v) == ValueOf(s, v)
  {
    if v.PartVar? {
      var at, to := PlaceOf(s.program, v.program, v.name), PlaceOf(s.program, e.program, e.name);
      if at.Some? && to.Some? { assert at != to; }
    }
  }

  lemma WriteGlobalMisses(s: VmState, e: Event, v: Variable)
    requires e.WriteGlobal? && !Writes(e, v)
    ensures ValueOf(Step(s, e), v) == ValueOf(s, v)
  {
  }

  lemma FirstScanMisses(s: VmState, e: Event, v: Variable)
    requires e.FirstScan? && ValueOf(s, v).Some?
    ensures ValueOf(Step(s, e), v) == ValueOf(s, v)
  {
  }

  lemma StepKeeps(s: VmState, e: Event, v: Variable)
    requires Shaped(s) && (Accepted(s, e) ==> DistinctNames(e.next)) && ValueOf(s, v).Some? && !Writes(e, v)
    ensures (Accepted(s, e) ==> Carries(s.program, e.next, v)) ==> ValueOf(Step(s, e), v) == ValueOf(s, v)
    ensures !v.PartVar? && Accepted(s, e) && !Carries(s.program, e.next, v) ==> ValueOf(Step(s, e), v) != ValueOf(s, v)
  {
    match e
    case FirstScan(_) => FirstScanMisses(s, e, v);
    case WriteLocal(_, _, _) => WriteLocalMisses(s, e, v);
    case WriteGlobal(_, _) => WriteGlobalMisses(s, e, v);
    case WriteInstance(_, _, _) => WriteInstanceMisses(s, e, v);
    case Change(n) => if Accepted(s, e) { ChangeKeeps(s, n, v); }
  }

  /** A variable that nothing writes keeps its value through every run whose accepted changes
      carry it over. */
  lemma {:induction false} Survives(s: VmState, events: seq<Event>, v: Variable)
    requires Shaped(s) && NamesOk(s, events) && ValueOf(s, v).Some? && Carried(s, events, v)
    requires forall k :: 0 <= k < |events| ==> !Writes(events[k], v)
    ensures ValueOf(Run(s, events), v) == ValueOf(s, v)
    ensures Shaped(Run(s, events))
    decreases events
  {
    if events != [] {
      StepKeepsShape(s, events[0]);
      StepKeeps(s, events[0], v);
      Survives(Step(s, events[0]), events[1..], v);
    }
  }

  lemma {:induction false} PrefixesOk(s: VmState, events: seq<Event>, v: Variable, k: nat)
    requires k <= |events|
    ensures NamesOk(s, events) ==> NamesOk(s, events[..k])
    ensures Carried(s, events, v) ==> Carried(s, events[..k], v)
    decreases events
  {
    if k > 0 {
      assert events[..k][1..] == events[1..][..k - 1];
      PrefixesOk(Step(s, events[0]), events[1..], v, k - 1);
    }
  }

  lemma RunFirst(s: VmState, events: seq<Event>, k: nat)
    requires 0 < k <= |events|
    ensures Run(s, events[..k]) == Run(Step(s, events[0]), events[1..][..k - 1])
  {
    assert events[..k][1..] == events[1..][..k - 1];
  }

  lemma StillLost(s: VmState, events: seq<Event>, v: Variable)
    requires Shaped(s) && NamesOk(s, events) && ValueOf(s, v).Some? && !Carried(s, events, v) && !v.PartVar?
    requires !Writes(events[0], v) && ValueOf(Step(s, events[0]), v) == ValueOf(s, v)
    ensures var t := Step(s, events[0]); Shaped(t) && NamesOk(t, events[1..]) && !Carried(t, events[1..], v)
  {
    StepKeepsShape(s, events[0]);
    StepKeeps(s, events[0], v);
  }

  /** When some accepted change does not carry a local or a global over, its value differs
      from the initial one after some prefix of the run. */
  lemma {:induction false} LostOnTheWay(s: VmState, events: seq<Event>, v: Variable) returns (k: nat)
    requires Shaped(s) && NamesOk(s, events) && ValueOf(s, v).Some? && !Carried(s, events, v) && !v.PartVar?
    requires forall k :: 0 <= k < |events| ==> !Writes(events[k], v)
    ensures k <= |events| && ValueOf(Run(s, events[..k]), v) != ValueOf(s, v)
    decreases events
  {
    var t := Step(s, events[0]);
    if ValueOf(t, v) != ValueOf(s, v) {
      k := 1;
      RunFirst(s, events, 1);
      assert events[1..][..0] == [];
    } else {
      StillLost(s, events, v);
      var rest := LostOnTheWay(t, events[1..], v);
      k := rest + 1;
      RunFirst(s, events, k);
    }
  }

  ghost predicate KeepsThroughout(s: VmState, events: seq<Event>, v: Variable) {
    forall k: nat :: k <= |events| ==> ValueOf(Run(s, events[..k]), v) == ValueOf(s, v)
  }

  lemma SurvivesIff(s: VmState, events: seq<Event>, v: Variable)
    requires Shaped(s) && NamesOk(s, events) && ValueOf(s, v).Some? && !v.PartVar?
    requires forall k :: 0 <= k < |events| ==> !Writes(events[k], v)
    ensures KeepsThroughout(s, events, v) <==> Carried(s, events, v)
  {
    if Carried(s, events, v) {
      forall k: nat | k <= |events| ensures ValueOf(Run(s, events[..k]), v) == ValueOf(s, v) {
        PrefixesOk(s, events, v, k);
        Survives(s, events[..k], v);
      }
    } else {
      var k := LostOnTheWay(s, events, v);
    }
  }

  /** No accepted change loses a variable: a local that nothing writes keeps its value at every
      point of a run of scans, writes to others and changes if and only if its POU is a PROGRAM
      or FUNCTION_BLOCK whenever a change is accepted. */
  lemma LocalSurvives(s: VmState, events: seq<Event>, p: string, x: string)
    requires Shaped(s) && NamesOk(s, events) && LocalValue(s, p, x).Some?
    requires forall k :: 0 <= k < |events| ==> !Writes(events[k], LocalVar(p, x))
    ensures KeepsThroughout(s, events, LocalVar(p, x)) <==> Carried(s, events, LocalVar(p, x))
  {
    SurvivesIff(s, events, LocalVar(p, x));
  }

  /** The same for a global; the condition is that every accepted module declares it. */
  lemma GlobalSurvives(s: VmState, events: seq<Event>, x: string)
    requires Shaped(s) && NamesOk(s, events) && GlobalValue(s, x).Some?
    requires forall k :: 0 <= k < |events| ==> !Writes(events[k], GlobalVar(x))
    ensures KeepsThroughout(s, events, GlobalVar(x)) <==> Carried(s, events, GlobalVar(x))
  {
    SurvivesIff(s, events, GlobalVar(x));
  }

  /** And for a field or array cell, while no accepted change moves it. */
  lemma PartSurvives(s: VmState, events: seq<Event>, p: string, x: string, part: Part)
    requires Shaped(s) && NamesOk(s, events) && PartValue(s, p, x, part).Some?
    requires forall k :: 0 <= k < |events| ==> !Writes(events[k], PartVar(p, x, part))
    requires Carried(s, events, PartVar(p, x, part))
    ensures KeepsThroughout(s, events, PartVar(p, x, part))
  {
    var v := PartVar(p, x, part);
    forall k: nat | k <= |events| ensures ValueOf(Run(s, events[..k]), v) == ValueOf(s, v) {
      PrefixesOk(s, events, v, k);
      Survives(s, events[..k], v);
    }
  }

  lemma WrittenLocal(s: VmState, p: string, x: string, value: Value)
    requires LocalValue(s, p, x).Some?
    ensures LocalValue(Step(s, WriteLocal(p, x, value)), p, x) ==
      var (f, i) := PlaceOf(s.program, p, x).value; Some(Narrow(value, s.program.functions[f].locals[i].width))
  {
  }

  /** What a run leaves in a local is what was last written to it, as its width holds it. */
  lemma LastWriteWins(s: VmState, p: string, x: string, value: Value, after: seq<Event>)
    requires Shaped(s) && LocalValue(s, p, x).Some?
    requires var t := Step(s, WriteLocal(p, x, value)); NamesOk(t, after) && Carried(t, after, LocalVar(p, x))
    requires forall k :: 0 <= k < |after| ==> !Writes(after[k], LocalVar(p, x))
    ensures LocalValue(Run(Step(s, WriteLocal(p, x, value)), after), p, x) ==
      var (f, i) := PlaceOf(s.program, p, x).value; Some(Narrow(value, s.program.functions[f].locals[i].width))
  {
    StepKeepsShape(s, WriteLocal(p, x, value));
    WrittenLocal(s, p, x, value);
    Survives(Step(s, WriteLocal(p, x, value)), after, LocalVar(p, x));
  }

  // ---------------------------------------------------------------- failing inputs

  function Slot(name: string, width: IntWidth): VarSlot { VarSlot(name, IntT, false, false, width) }
  function OnePou(kind: PouKind, slot: VarSlot): Module { Module([Function("P", kind, [slot], 1)], [], []) }

  lemma OnePouDistinct(kind: PouKind, slot: VarSlot)
    ensures DistinctNames(OnePou(kind, slot))
    ensures FindFunction(OnePou(kind, slot), "P") == Some(0)
    ensures FindSlot(OnePou(kind, slot).functions[0].locals, Key(slot.name)) == Some(0)
  {
    FindsItself(OnePou(kind, slot), 0);
    FindsSlot([slot], 0);
  }

  lemma OnePouCompatible(a: PouKind, b: PouKind, s: VarSlot, t: VarSlot)
    requires Matches(s, t)
    ensures Compatible(OnePou(a, s), OnePou(b, t))
  {
    OnePouDistinct(a, s);
    OnePouDistinct(b, t);
    assert Matches(t, s);
  }

  /** Turning an INT that holds 300 into a SINT is accepted and leaves 300 in the eight-bit slot. */
  lemma WidthIsNotCompared(x: string)
    ensures var m, n := OnePou(ProgramPou, Slot(x, I16)), OnePou(ProgramPou, Slot(x, I8));
      Compatible(m, n)
      && LocalValue(Migrated(VmState(m, [], map[0 := [Int(300)]], map[]), n), "P", x) == Some(Int(300))
  {
    var m, n := OnePou(ProgramPou, Slot(x, I16)), OnePou(ProgramPou, Slot(x, I8));
    OnePouCompatible(ProgramPou, ProgramPou, Slot(x, I16), Slot(x, I8));
    OnePouDistinct(ProgramPou, Slot(x, I16));
    OnePouDistinct(ProgramPou, Slot(x, I8));
    ChangeKeepsLocal(VmState(m, [], map[0 := [Int(300)]], map[]), n, "P", x);
  }

  /** A program turned into a function and back loses its locals although both changes are
      accepted: the second one finds a POU that retains nothing. */
  lemma ChangedKindLosesState(x: string)
    ensures var m, n := OnePou(ProgramPou, Slot(x, I16)), OnePou(FunctionPou, Slot(x, I16));
      var s := VmState(m, [], map[0 := [Int(7)]], map[]);
      Compatible(m, n) && Compatible(n, m) && LocalValue(s, "P", x) == Some(Int(7))
      && LocalValue(Migrated(s, n), "P", x) == Some(Int(7)) && LocalValue(Migrated(Migrated(s, n), m), "P", x) == None
  {
    var m, n := OnePou(ProgramPou, Slot(x, I16)), OnePou(FunctionPou, Slot(x, I16));
    var s := VmState(m, [], map[0 := [Int(7)]], map[]);
    OnePouCompatible(ProgramPou, FunctionPou, Slot(x, I16), Slot(x, I16));
    OnePouCompatible(FunctionPou, ProgramPou, Slot(x, I16), Slot(x, I16));
    OnePouDistinct(ProgramPou, Slot(x, I16));
    OnePouDistinct(FunctionPou, Slot(x, I16));
    ChangeKeepsLocal(s, n, "P", x);
    UnretainedLocalLost(Migrated(s, n), m, "P", x);
  }

  /** A program with an instance of F. */
  function WithBlock(fields: seq<VarSlot>): Module {
    Module([Function("P", ProgramPou, [VarSlot("X", FbInstanceT(1), false, false, NoWidth)], 1),
            Function("F", FunctionBlockPou, fields, 1)], [], [])
  }

  lemma WithBlockNames(fields: seq<VarSlot>)
    ensures FindFunction(WithBlock(fields), "P") == Some(0) && FindFunction(WithBlock(fields), "F") == Some(1)
    ensures PlaceOf(WithBlock(fields), "P", "X") == Some((0, 0))
    ensures Distinct(SlotNames(fields)) ==> DistinctNames(WithBlock(fields))
  {
    var m := WithBlock(fields);
    assert Key("P")[0] == 'P' && Key("F")[0] == 'F';
    assert FunctionNames(m)[0] == "P" && FunctionNames(m)[1] == "F";
    assert Distinct(FunctionNames(m));
    FindsItself(m, 0);
    FindsItself(m, 1);
    FindsSlot(m.functions[0].locals, 0);
  }

  lemma FieldAt(fields: seq<VarSlot>, k: nat, instances: map<(nat, nat), seq<Value>>)
    requires k < |fields| && Distinct(SlotNames(fields))
    ensures PartValue(VmState(WithBlock(fields), [], map[], instances), "P", "X", Field(fields[k].name)) ==
      Some(CellValue(VmState(WithBlock(fields), [], map[], instances), (0, 0), k))
  {
    WithBlockNames(fields);
    FindsSlot(fields, k);
  }

  /** The new field B in front of A is accepted as an added variable. The instance keeps its key
      and its data, so B reads the 7 that was in A and A reads nothing. */
  lemma NewFieldTakesOver()
    ensures var a, b := Slot("A", I16), Slot("B", I16);
      var m, n := WithBlock([a]), WithBlock([b, a]);
      var s := VmState(m, [], map[], map[(0, 0) := [Int(7)]]);
      && Compatible(m, n) && PartValue(s, "P", "X", Field("A")) == Some(Int(7))
      && PartValue(Migrated(s, n), "P", "X", Field("A")) == Some(Int(0))
      && PartValue(Migrated(s, n), "P", "X", Field("B")) == Some(Int(7))
  {
    var a, b := Slot("A", I16), Slot("B", I16);
    var s := VmState(WithBlock([a]), [], map[], map[(0, 0) := [Int(7)]]);
    assert Key("A")[0] == 'A' && Key("B")[0] == 'B';
    assert Distinct(SlotNames([b, a]));
    assert Migrated(s, WithBlock([b, a])) == VmState(WithBlock([b, a]), [], map[], s.instances);
    FieldAt([a], 0, s.instances);
    FieldAt([b, a], 0, s.instances);
    FieldAt([b, a], 1, s.instances);
    BlockGrows(a, b);
  }

  lemma BlockGrows(a: VarSlot, b: VarSlot)
    requires !SameName(a.name, b.name)
    ensures Compatible(WithBlock([a]), WithBlock([b, a]))
  {
    var m, n := WithBlock([a]), WithBlock([b, a]);
    WithBlockNames([a]);
    WithBlockNames([b, a]);
    assert n.functions[1].locals == [b, a] && m.functions[1].locals == [a];
    assert Matches([b, a][1], a) && Matches([a][0], a);
    assert !SamePrefix([a], [b, a]) by { assert !Matches([a][0], [b, a][0]); }
    assert AllPreserved([a], [b, a]);
    assert FunctionOk(m.functions[1], n.functions[1]);
    assert SamePrefix(m.functions[0].locals, n.functions[0].locals);
    assert NewFunctionOk(m, n.functions[0]) && NewFunctionOk(m, n.functions[1]);
  }
}
