/** RETAIN and PERSISTENT variables across restarts (`st-engine/src/retain_store.rs`). */
module Retain {
  import opened Names
  import opened Ir
  import opened OnlineChange

  datatype Entry = Entry(value: Value, retain: bool, persistent: bool)

  type Entries = map<string, Entry>

  /** Globals by name, locals by program and name, instance fields by program, instance and
      field name. */
  datatype Snapshot = Snapshot(globals: Entries, programs: map<string, Entries>, instances: map<string, map<string, Entries>>)

  /** A warm restart restores RETAIN entries, a cold one PERSISTENT entries; inside an
      instance every field counts. */
  datatype Filter = Warm | Cold | Every

  predicate Picks(f: Filter, e: Entry) {
    match f
    case Warm => e.retain
    case Cold => e.persistent
    case Every => true
  }

  predicate IsCompatible(v: Value, ty: VarType) {
    (v.Bool? && ty.BoolT?) || (v.Int? && ty.IntT?) || (v.UInt? && ty.UIntT?)
    || (v.Real? && ty.RealT?) || (v.Str? && ty.StringT?) || (v.Time? && ty.TimeT?)
  }

  predicate IsScalar(ty: VarType) { ty.BoolT? || ty.IntT? || ty.UIntT? || ty.RealT? || ty.StringT? || ty.TimeT? }

  /** The same kind of value. */
  predicate SameKind(v: Value, w: Value) {
    match v
    case Bool(_) => w.Bool? case Int(_) => w.Int? case UInt(_) => w.UInt? case Real(_) => w.Real?
    case Str(_) => w.Str? case Time(_) => w.Time? case Ref(_, _) => w.Ref? case Null => w.Null? case Void => w.Void?
  }

  /** Compatible with a type are the values of the kind of its default, for BOOL, the integers,
      REAL, STRING and TIME; with any other type no value is. */
  lemma CompatibleIff(v: Value, ty: VarType)
    ensures IsCompatible(v, ty) <==> SameKind(v, Default(ty)) && !IsComposite(ty) && ty != RefT
  {
  }

  predicate Flagged(s: VarSlot) { s.retain || s.persistent }

  function ValueOr(values: seq<Value>, i: nat, other: Value): Value { if i < |values| then values[i] else other }

  /** The slots of the instance a variable of this type holds. */
  function FieldsOf(m: Module, ty: VarType): Option<seq<VarSlot>> {
    match ty
    case StructT(i) => if i < |m.types| && m.types[i].StructDef? then Some(m.types[i].fields) else None
    case FbInstanceT(i) => if i < |m.functions| then Some(m.functions[i].locals) else None
    case _ => None
  }

  /** Exact names: the snapshot's lookups do not fold case. */
  function IndexOf(slots: seq<VarSlot>, name: string): (r: Option<nat>)
    ensures r.Some? ==> r.value < |slots| && slots[r.value].name == name && forall j :: 0 <= j < r.value ==> slots[j].name != name
    ensures r.None? ==> forall j :: 0 <= j < |slots| ==> slots[j].name != name
  {
    if slots == [] then None
    else if slots[0].name == name then Some(0)
    else
      var r := IndexOf(slots[1..], name);
      assert forall j :: 1 <= j < |slots| ==> slots[j] == slots[1..][j - 1];
      if r.Some? then Some(r.value + 1) else None
  }

  ghost predicate Unique(slots: seq<VarSlot>) {
    forall i, j :: 0 <= i < j < |slots| ==> slots[i].name != slots[j].name
  }

  ghost predicate ExactNames(m: Module) {
    && Unique(m.globals)
    && (forall f :: 0 <= f < |m.functions| ==> Unique(m.functions[f].locals))
    && (forall t :: 0 <= t < |m.types| && m.types[t].StructDef? ==> Unique(m.types[t].fields))
    && forall f, g :: 0 <= f < g < |m.functions| ==> m.functions[f].name != m.functions[g].name
  }

  function Lookup<K, V>(m: map<K, V>, k: K): Option<V> { if k in m then Some(m[k]) else None }

  // ---------------------------------------------------------------- capture

  /** Which slots a section of the snapshot takes: flagged globals of any type, flagged
      locals that are no composites, and the plain fields of a flagged instance. */
  datatype Section = GlobalSection | LocalSection | FieldSection

  predicate Takes(k: Section, s: VarSlot) {
    match k
    case GlobalSection => Flagged(s)
    case LocalSection => Flagged(s) && !IsComposite(s.ty)
    case FieldSection => !IsComposite(s.ty)
  }

  /** Fields inherit the flags of the variable that holds the instance. */
  function EntryFor(k: Section, s: VarSlot, v: Value, holder: VarSlot): Entry {
    if k.FieldSection? then Entry(v, holder.retain, holder.persistent) else Entry(v, s.retain, s.persistent)
  }

  function Captured(k: Section, slots: seq<VarSlot>, values: seq<Value>, holder: VarSlot, n: nat): Entries
    requires n <= |slots|
  {
    if n == 0 then map[] else
    var before := Captured(k, slots, values, holder, n - 1);
    var slot := slots[n - 1];
    if Takes(k, slot)
    then before[slot.name := EntryFor(k, slot, ValueOr(values, n - 1, if k.FieldSection? then Default(slot.ty) else Void), holder)]
    else before
  }

  method CaptureSlots(k: Section, slots: seq<VarSlot>, values: seq<Value>, holder: VarSlot) returns (e: Entries)
    ensures e == Captured(k, slots, values, holder, |slots|)
  {
    e := map[];
    for i := 0 to |slots|
      invariant e == Captured(k, slots, values, holder, i)
    {
      if !Takes(k, slots[i]) { continue; }
      var v := if i < |values| then values[i] else if k.FieldSection? then Default(slots[i].ty) else Void;
      e := e[slots[i].name := EntryFor(k, slots[i], v, holder)];
    }
  }

  lemma {:induction false} CapturedAt(k: Section, slots: seq<VarSlot>, values: seq<Value>, holder: VarSlot, n: nat, i: nat)
    requires i < n <= |slots| && Unique(slots)
    ensures var e := Captured(k, slots, values, holder, n);
      (slots[i].name in e <==> Takes(k, slots[i]))
      && (Takes(k, slots[i]) ==>
            e[slots[i].name] == EntryFor(k, slots[i], ValueOr(values, i, if k.FieldSection? then Default(slots[i].ty) else Void), holder))
    decreases n
  {
    if i < n - 1 {
      CapturedAt(k, slots, values, holder, n - 1, i);
    } else {
      CapturedOnly(k, slots, values, holder, i, slots[i].name);
    }
  }

  lemma {:induction false} CapturedOnly(k: Section, slots: seq<VarSlot>, values: seq<Value>, holder: VarSlot, n: nat, name: string)
    requires n <= |slots|
    ensures name in Captured(k, slots, values, holder, n) ==> exists i :: 0 <= i < n && slots[i].name == name && Takes(k, slots[i])
    decreases n
  {
    if n > 0 { CapturedOnly(k, slots, values, holder, n - 1, name); }
  }

  /** Function f is a program whose locals are retained. */
  predicate Saved(s: VmState, f: nat) { f in s.retained && f < |s.program.functions| && s.program.functions[f].kind.ProgramPou? }

  const NO_HOLDER: VarSlot := VarSlot("", BoolT, false, false, NoWidth)

  function LocalEntries(s: VmState, f: nat): Entries
    requires Saved(s, f)
  {
    var slots := s.program.functions[f].locals;
    Captured(LocalSection, slots, s.retained[f], NO_HOLDER, |slots|)
  }

  /** The fields of the instance in slot j of program f; empty when it is none or unflagged. */
  function FieldEntries(s: VmState, f: nat, j: nat): Entries
    requires Saved(s, f) && j < |s.program.functions[f].locals|
  {
    var slot := s.program.functions[f].locals[j];
    var fields := FieldsOf(s.program, slot.ty);
    if !Flagged(slot) || fields.None? then map[] else
    Captured(FieldSection, fields.value, if (f, j) in s.instances then s.instances[(f, j)] else [], slot, |fields.value|)
  }

  function InstanceEntries(s: VmState, f: nat, n: nat): map<string, Entries>
    requires Saved(s, f) && n <= |s.program.functions[f].locals|
  {
    if n == 0 then map[] else
    var before := InstanceEntries(s, f, n - 1);
    if FieldEntries(s, f, n - 1) == map[] then before
    else before[s.program.functions[f].locals[n - 1].name := FieldEntries(s, f, n - 1)]
  }

  function AllInstances(s: VmState, f: nat): map<string, Entries>
    requires Saved(s, f)
  {
    InstanceEntries(s, f, |s.program.functions[f].locals|)
  }

  /** Program f is in the snapshot with all it has to save, and only if it has anything. */
  ghost predicate Recorded(s: VmState, f: nat, programs: map<string, Entries>, instances: map<string, map<string, Entries>>)
    requires Saved(s, f)
  {
    var name := s.program.functions[f].name;
    && Lookup(programs, name) == (if LocalEntries(s, f) == map[] then None else Some(LocalEntries(s, f)))
    && Lookup(instances, name) == (if AllInstances(s, f) == map[] then None else Some(AllInstances(s, f)))
  }

  ghost predicate NamesSaved(s: VmState, name: string) { exists f: nat :: Saved(s, f) && s.program.functions[f].name == name }

  /** What a captured snapshot of `s` holds, whatever the order in which the machine's maps
      were walked. */
  ghost predicate IsSnapshotOf(s: VmState, snap: Snapshot) {
    && snap.globals == Captured(GlobalSection, s.program.globals, s.globals, NO_HOLDER, |s.program.globals|)
    && (forall f: nat :: Saved(s, f) ==> Recorded(s, f, snap.programs, snap.instances))
    && (forall name :: name in snap.programs || name in snap.instances ==> NamesSaved(s, name))
  }

  lemma SameLookups(s: VmState, a: Snapshot, b: Snapshot, name: string)
    requires IsSnapshotOf(s, a) && IsSnapshotOf(s, b)
    ensures Lookup(a.programs, name) == Lookup(b.programs, name) && Lookup(a.instances, name) == Lookup(b.instances, name)
  {
    if NamesSaved(s, name) {
      var f: nat :| Saved(s, f) && s.program.functions[f].name == name;
      assert Recorded(s, f, a.programs, a.instances) && Recorded(s, f, b.programs, b.instances);
    }
  }

  lemma SameMaps<V>(a: map<string, V>, b: map<string, V>)
    requires forall name :: Lookup(a, name) == Lookup(b, name)
    ensures a == b
  {
    forall name ensures name in a <==> name in b { assert Lookup(a, name) == Lookup(b, name); }
    forall name | name in a ensures a[name] == b[name] { assert Lookup(a, name) == Lookup(b, name); }
  }

  /** Snapshots of one state are equal: map iteration order leaves no trace. */
  lemma SnapshotIsDetermined(s: VmState, a: Snapshot, b: Snapshot)
    requires IsSnapshotOf(s, a) && IsSnapshotOf(s, b)
    ensures a == b
  {
    forall name ensures Lookup(a.programs, name) == Lookup(b.programs, name) { SameLookups(s, a, b, name); }
    forall name ensures Lookup(a.instances, name) == Lookup(b.instances, name) { SameLookups(s, a, b, name); }
    SameMaps(a.programs, b.programs);
    SameMaps(a.instances, b.instances);
  }

  method CaptureInstances(vm: Vm, f: nat) returns (r: map<string, Entries>)
    requires Saved(vm.State(), f)
    ensures r == AllInstances(vm.State(), f)
  {
    r := map[];
    var slots := vm.program.functions[f].locals;
    for j := 0 to |slots|
      invariant r == InstanceEntries(vm.State(), f, j)
    {
      var fields := FieldsOf(vm.program, slots[j].ty);
      if !Flagged(slots[j]) || fields.None? { continue; }
      var state := if (f, j) in vm.instances then vm.instances[(f, j)] else [];
      var e := CaptureSlots(FieldSection, fields.value, state, slots[j]);
      if e != map[] { r := r[slots[j].name := e]; }
    }
  }

  method CaptureProgram(vm: Vm, f: nat, programs: map<string, Entries>, instances: map<string, map<string, Entries>>)
    returns (p: map<string, Entries>, q: map<string, map<string, Entries>>)
    requires Saved(vm.State(), f)
    requires vm.program.functions[f].name !in programs && vm.program.functions[f].name !in instances
    ensures Recorded(vm.State(), f, p, q)
    ensures forall name :: name != vm.program.functions[f].name ==>
      Lookup(p, name) == Lookup(programs, name) && Lookup(q, name) == Lookup(instances, name)
  {
    p, q := programs, instances;
    var locals := CaptureSlots(LocalSection, vm.program.functions[f].locals, vm.retained[f], NO_HOLDER);
    var fields := CaptureInstances(vm, f);
    var name := vm.program.functions[f].name;
    if locals != map[] { p := p[name := locals]; }
    if fields != map[] { q := q[name := fields]; }
  }

  /** Some of the programs have been recorded, the rest left no trace yet. */
  ghost predicate PartlyRecorded(s: VmState, todo: set<nat>, programs: map<string, Entries>, instances: map<string, map<string, Entries>>) {
    && (forall f: nat :: Saved(s, f) && f !in todo ==> Recorded(s, f, programs, instances))
    && (forall f: nat :: Saved(s, f) && f in todo ==>
          s.program.functions[f].name !in programs && s.program.functions[f].name !in instances)
    && (forall name :: name in programs || name in instances ==> NamesSaved(s, name))
  }

  lemma RecordOne(s: VmState, todo: set<nat>, f: nat, p: map<string, Entries>, q: map<string, map<string, Entries>>,
                  p': map<string, Entries>, q': map<string, map<string, Entries>>)
    requires ExactNames(s.program) && Saved(s, f) && f in todo && PartlyRecorded(s, todo, p, q) && Recorded(s, f, p', q')
    requires forall name :: name != s.program.functions[f].name ==> Lookup(p', name) == Lookup(p, name) && Lookup(q', name) == Lookup(q, name)
    ensures PartlyRecorded(s, todo - {f}, p', q')
  {
    forall g: nat | Saved(s, g) && g !in todo - {f} ensures Recorded(s, g, p', q') {
      if g != f { assert s.program.functions[g].name != s.program.functions[f].name; }
    }
    forall g: nat | Saved(s, g) && g in todo - {f}
      ensures s.program.functions[g].name !in p' && s.program.functions[g].name !in q'
    {
      var name := s.program.functions[g].name;
      assert name != s.program.functions[f].name;
      assert Lookup(p', name) == Lookup(p, name) && Lookup(q', name) == Lookup(q, name);
    }
    forall name | name in p' || name in q' ensures NamesSaved(s, name) {
      if name != s.program.functions[f].name {
        assert Lookup(p', name) == Lookup(p, name) && Lookup(q', name) == Lookup(q, name);
      }
    }
  }

  method CaptureSnapshot(vm: Vm) returns (snap: Snapshot)
    requires ExactNames(vm.program) && forall f :: f in vm.retained ==> f < |vm.program.functions|
    ensures IsSnapshotOf(vm.State(), snap)
  {
    var globals := CaptureSlots(GlobalSection, vm.program.globals, vm.globals, NO_HOLDER);
    var programs: map<string, Entries> := map[];
    var instances: map<string, map<string, Entries>> := map[];
    var todo := vm.retained.Keys;
    while todo != {}
      invariant todo <= vm.retained.Keys && PartlyRecorded(vm.State(), todo, programs, instances)
    {
      var f :| f in todo;
      if vm.program.functions[f].kind.ProgramPou? {
        var p, q := CaptureProgram(vm, f, programs, instances);
        RecordOne(vm.State(), todo, f, programs, instances, p, q);
        programs, instances := p, q;
      } else {
        assert !Saved(vm.State(), f);
      }
      todo := todo - {f};
    }
    snap := Snapshot(globals, programs, instances);
  }

  // ---------------------------------------------------------------- restore

  /** Slot i takes its value from the entry of its name. */
  predicate TakesEntry(slots: seq<VarSlot>, i: nat, e: Entries, filter: Filter)
    requires i < |slots|
  {
    && slots[i].name in e && Picks(filter, e[slots[i].name]) && IsCompatible(e[slots[i].name].value, slots[i].ty)
    && IndexOf(slots, slots[i].name) == Some(i)
  }

  function Overlay(slots: seq<VarSlot>, start: seq<Value>, e: Entries, filter: Filter): (r: seq<Value>)
    requires |start| == |slots|
    ensures |r| == |slots|
    ensures forall i :: 0 <= i < |slots| ==> r[i] == if TakesEntry(slots, i, e, filter) then e[slots[i].name].value else start[i]
  {
    seq(|slots|, i requires 0 <= i < |slots| => if TakesEntry(slots, i, e, filter) then e[slots[i].name].value else start[i])
  }

  /** Names whose entry should be restored but cannot be. */
  function Skipped(slots: seq<VarSlot>, e: Entries, filter: Filter): set<string> {
    set name | name in e && Picks(filter, e[name])
      && (IndexOf(slots, name).None? || !IsCompatible(e[name].value, slots[IndexOf(slots, name).value].ty))
  }

  /** What one more entry adds. */
  lemma OverlayOneMore(slots: seq<VarSlot>, start: seq<Value>, e: Entries, filter: Filter, name: string, x: Entry)
    requires |start| == |slots| && name !in e
    ensures var i := IndexOf(slots, name);
      var r := Overlay(slots, start, e, filter);
      Overlay(slots, start, e[name := x], filter)
      == if i.Some? && Picks(filter, x) && IsCompatible(x.value, slots[i.value].ty) then r[i.value := x.value] else r
  {
  }

  lemma SkippedOneMore(slots: seq<VarSlot>, e: Entries, filter: Filter, name: string, x: Entry)
    requires name !in e
    ensures var i := IndexOf(slots, name);
      Skipped(slots, e[name := x], filter)
      == if Picks(filter, x) && (i.None? || !IsCompatible(x.value, slots[i.value].ty))
         then Skipped(slots, e, filter) + {name} else Skipped(slots, e, filter)
  {
  }

  /** The loop over one section, in whatever order the map yields its names. */
  method ApplyEntries(slots: seq<VarSlot>, start: seq<Value>, e: Entries, filter: Filter) returns (r: seq<Value>, skipped: set<string>)
    requires |start| == |slots|
    ensures r == Overlay(slots, start, e, filter)
    ensures skipped == Skipped(slots, e, filter)
  {
    r, skipped := start, {};
    var todo := e.Keys;
    while todo != {}
      invariant todo <= e.Keys
      invariant r == Overlay(slots, start, Minus(e, todo), filter)
      invariant skipped == Skipped(slots, Minus(e, todo), filter)
    {
      var name :| name in todo;
      OverlayOneMore(slots, start, Minus(e, todo), filter, name, e[name]);
      SkippedOneMore(slots, Minus(e, todo), filter, name, e[name]);
      MinusOne(e, todo, name);
      todo := todo - {name};
      if Picks(filter, e[name]) {
        var i := IndexOf(slots, name);
        if i.Some? && IsCompatible(e[name].value, slots[i.value].ty) {
          r := r[i.value := e[name].value];
        } else {
          skipped := skipped + {name};
        }
      }
    }
    assert Minus(e, {}) == e;
  }

  /** Existing values, or the defaults where there are none. */
  function Existing(slots: seq<VarSlot>, current: Option<seq<Value>>): (r: seq<Value>)
    ensures |r| == |slots|
    ensures forall i :: 0 <= i < |slots| ==>
      r[i] == if current.Some? && i < |current.value| then current.value[i] else Default(slots[i].ty)
  {
    seq(|slots|, i requires 0 <= i < |slots| => if current.Some? && i < |current.value| then current.value[i] else Default(slots[i].ty))
  }

  /** Program f gets its locals set from the snapshot. */
  predicate RestoresProgram(m: Module, programs: map<string, Entries>, f: nat) {
    f < |m.functions| && m.functions[f].kind.ProgramPou? && m.functions[f].name in programs
  }

  /** The locals of program f afterwards, if it has any. */
  function LocalsAfter(s: VmState, programs: map<string, Entries>, filter: Filter, f: nat): Option<seq<Value>> {
    if !RestoresProgram(s.program, programs, f) then Lookup(s.retained, f) else
    var p := s.program.functions[f];
    Some(Overlay(p.locals, Existing(p.locals, Lookup(s.retained, f)), programs[p.name], filter))
  }

  ghost predicate LocalsRestored(s: VmState, programs: map<string, Entries>, filter: Filter, retained: map<nat, seq<Value>>) {
    forall f: nat :: Lookup(retained, f) == LocalsAfter(s, programs, filter, f)
  }

  /** The flag test on one field speaks for the instance. */
  predicate Dominated(fields: Entries, filter: Filter) { exists name :: name in fields && Picks(filter, fields[name]) }

  ghost predicate Uniform(fields: Entries) {
    forall a, b :: a in fields && b in fields ==> fields[a].retain == fields[b].retain && fields[a].persistent == fields[b].persistent
  }

  predicate RestoresInstance(m: Module, all: map<string, map<string, Entries>>, filter: Filter, f: nat, j: nat) {
    && f < |m.functions| && m.functions[f].kind.ProgramPou? && m.functions[f].name in all
    && j < |m.functions[f].locals|
    && var slot := m.functions[f].locals[j];
       var inst := all[m.functions[f].name];
       slot.name in inst && Dominated(inst[slot.name], filter)
       && IndexOf(m.functions[f].locals, slot.name) == Some(j) && FieldsOf(m, slot.ty).Some?
  }

  function RestoredFields(s: VmState, all: map<string, map<string, Entries>>, filter: Filter, f: nat, j: nat): seq<Value>
    requires RestoresInstance(s.program, all, filter, f, j)
  {
    var slot := s.program.functions[f].locals[j];
    var fields := FieldsOf(s.program, slot.ty).value;
    Overlay(fields, Existing(fields, Lookup(s.instances, (f, j))), all[s.program.functions[f].name][slot.name], Every)
  }

  /** Instances is the state after restoring `all` into s. */
  ghost predicate InstancesRestored(s: VmState, all: map<string, map<string, Entries>>, filter: Filter, instances: map<(nat, nat), seq<Value>>) {
    forall f: nat, j: nat ::
      if RestoresInstance(s.program, all, filter, f, j)
      then (f, j) in instances && instances[(f, j)] == RestoredFields(s, all, filter, f, j)
      else Lookup(instances, (f, j)) == Lookup(s.instances, (f, j))
  }

  ghost predicate Restored(s: VmState, snap: Snapshot, filter: Filter, t: VmState)
    requires |s.globals| == |s.program.globals|
  {
    && t.program == s.program
    && t.globals == Overlay(s.program.globals, s.globals, snap.globals, filter)
    && LocalsRestored(s, snap.programs, filter, t.retained)
    && InstancesRestored(s, snap.instances, filter, t.instances)
  }

  function FindProgram(m: Module, name: string, i: nat): (r: Option<nat>)
    requires i <= |m.functions|
    ensures r.Some? ==> i <= r.value < |m.functions| && m.functions[r.value].kind.ProgramPou? && m.functions[r.value].name == name
    ensures r.None? ==> forall f :: i <= f < |m.functions| && m.functions[f].kind.ProgramPou? ==> m.functions[f].name != name
    decreases |m.functions| - i
  {
    if i == |m.functions| then None
    else if m.functions[i].kind.ProgramPou? && m.functions[i].name == name then Some(i)
    else FindProgram(m, name, i + 1)
  }

  function Minus<V>(m: map<string, V>, todo: set<string>): map<string, V> { map name | name in m && name !in todo :: m[name] }

  lemma RestoresAlso(m: Module, programs: map<string, Entries>, name: string, e: Entries, g: nat)
    requires ExactNames(m) && name !in programs
    ensures RestoresProgram(m, programs[name := e], g) <==> RestoresProgram(m, programs, g) || FindProgram(m, name, 0) == Some(g)
    ensures RestoresProgram(m, programs, g) ==> FindProgram(m, name, 0) != Some(g)
  {
    if RestoresProgram(m, programs[name := e], g) && m.functions[g].name == name {
      var f := FindProgram(m, name, 0);
      assert f.Some? && f.value == g;
    }
  }

  lemma LocalsOneMore(s: VmState, t: VmState, programs: map<string, Entries>, filter: Filter, name: string, e: Entries)
    requires ExactNames(s.program) && t.program == s.program && name !in programs && LocalsRestored(s, programs, filter, t.retained)
    ensures LocalsRestored(s, programs[name := e], filter, AfterProgram(t, name, e, filter))
  {
    var after := AfterProgram(t, name, e, filter);
    forall f: nat ensures Lookup(after, f) == LocalsAfter(s, programs[name := e], filter, f) {
      RestoresAlso(s.program, programs, name, e, f);
      assert Lookup(t.retained, f) == LocalsAfter(s, programs, filter, f);
    }
  }

  function AfterProgram(s: VmState, name: string, e: Entries, filter: Filter): map<nat, seq<Value>> {
    var f := FindProgram(s.program, name, 0);
    if f.None? then s.retained else
    var slots := s.program.functions[f.value].locals;
    s.retained[f.value := Overlay(slots, Existing(slots, Lookup(s.retained, f.value)), e, filter)]
  }

  /** One program of the snapshot; a program the module no longer has is passed over. */
  method RestoreProgram(vm: Vm, name: string, e: Entries, filter: Filter) returns (skipped: set<string>)
    modifies vm`retained
    ensures vm.retained == AfterProgram(old(vm.State()), name, e, filter)
    ensures var f := FindProgram(vm.program, name, 0);
      skipped == if f.None? then {} else Skipped(vm.program.functions[f.value].locals, e, filter)
  {
    var f := FindProgram(vm.program, name, 0);
    if f.None? { return {}; }
    var slots := vm.program.functions[f.value].locals;
    var locals, bad := ApplyEntries(slots, Existing(slots, Lookup(vm.retained, f.value)), e, filter);
    vm.retained := vm.retained[f.value := locals];
    skipped := bad;
  }

  method RestoreLocals(vm: Vm, programs: map<string, Entries>, filter: Filter) returns (skipped: set<(string, string)>)
    requires ExactNames(vm.program)
    modifies vm`retained
    ensures LocalsRestored(old(vm.State()), programs, filter, vm.retained)
  {
    skipped := {};
    var todo := programs.Keys;
    ghost var s := vm.State();
    assert Minus(programs, todo) == map[];
    while todo != {}
      invariant todo <= programs.Keys
      invariant LocalsRestored(s, Minus(programs, todo), filter, vm.retained)
    {
      var name :| name in todo;
      LocalsOneMore(s, vm.State(), Minus(programs, todo), filter, name, programs[name]);
      MinusOne(programs, todo, name);
      var bad := RestoreProgram(vm, name, programs[name], filter);
      skipped := skipped + set b | b in bad :: (name, b);
      todo := todo - {name};
    }
    assert Minus(programs, {}) == programs;
  }

  lemma MinusOne<V>(m: map<string, V>, todo: set<string>, name: string)
    requires name in m && name in todo
    ensures Minus(m, todo - {name}) == Minus(m, todo)[name := m[name]]
  {
  }

  // ---------------------------------------------------------------- instances

  /** One instance. Whether it is restored at all hangs on the flags of whichever field the
      map yields first. */
  method RestoreInstance(vm: Vm, f: nat, name: string, fields: Entries, filter: Filter) returns (skipped: set<string>)
    requires f < |vm.program.functions|
    modifies vm`instances
    ensures Uniform(fields) ==> vm.instances == AfterInstance(old(vm.State()), f, name, fields, filter)
  {
    skipped := {};
    if fields == map[] { return; }
    var first :| first in fields;
    if !Picks(filter, fields[first]) { return; }
    var slots := vm.program.functions[f].locals;
    var j := IndexOf(slots, name);
    if j.None? { return {name}; }
    var layout := FieldsOf(vm.program, slots[j.value].ty);
    if layout.None? { return {name}; }
    var state, bad := ApplyEntries(layout.value, Existing(layout.value, Lookup(vm.instances, (f, j.value))), fields, Every);
    vm.instances := vm.instances[(f, j.value) := state];
    skipped := bad;
  }

  function AfterInstance(s: VmState, f: nat, name: string, fields: Entries, filter: Filter): map<(nat, nat), seq<Value>>
    requires f < |s.program.functions|
  {
    var slots := s.program.functions[f].locals;
    var j := IndexOf(slots, name);
    if !Dominated(fields, filter) || j.None? then s.instances else
    var layout := FieldsOf(s.program, slots[j.value].ty);
    if layout.None? then s.instances else
    s.instances[(f, j.value) := Overlay(layout.value, Existing(layout.value, Lookup(s.instances, (f, j.value))), fields, Every)]
  }

  type Nested = map<string, map<string, Entries>>

  ghost predicate UniformAll(all: Nested) {
    forall p, x :: p in all && x in all[p] ==> Uniform(all[p][x])
  }

  lemma RestoresOneMore(m: Module, all: Nested, filter: Filter, p: string, x: string, e: Entries, f: nat, j: nat)
    requires ExactNames(m) && p in all && x !in all[p] && FindProgram(m, p, 0).Some?
    ensures var more := all[p := all[p][x := e]];
      var g := FindProgram(m, p, 0).value;
      var k := IndexOf(m.functions[g].locals, x);
      RestoresInstance(m, more, filter, f, j) <==>
        RestoresInstance(m, all, filter, f, j)
        || (f == g && k == Some(j) && Dominated(e, filter) && FieldsOf(m, m.functions[g].locals[j].ty).Some?)
  {
    var g := FindProgram(m, p, 0).value;
  }

  lemma InstanceOneMore(s: VmState, t: VmState, all: Nested, filter: Filter, p: string, x: string, e: Entries)
    requires ExactNames(s.program) && t.program == s.program && p in all && x !in all[p] && FindProgram(s.program, p, 0).Some?
    requires InstancesRestored(s, all, filter, t.instances)
    ensures InstancesRestored(s, all[p := all[p][x := e]], filter,
                              AfterInstance(t, FindProgram(s.program, p, 0).value, x, e, filter))
  {
    var more := all[p := all[p][x := e]];
    var g := FindProgram(s.program, p, 0).value;
    var after := AfterInstance(t, g, x, e, filter);
    forall f: nat, j: nat
      ensures if RestoresInstance(s.program, more, filter, f, j)
              then (f, j) in after && after[(f, j)] == RestoredFields(s, more, filter, f, j)
              else Lookup(after, (f, j)) == Lookup(s.instances, (f, j))
    {
      RestoresOneMore(s.program, all, filter, p, x, e, f, j);
      InstanceAt(s, t, all, filter, p, x, e, f, j);
    }
  }

  lemma InstanceAt(s: VmState, t: VmState, all: Nested, filter: Filter, p: string, x: string, e: Entries, f: nat, j: nat)
    requires ExactNames(s.program) && t.program == s.program && p in all && x !in all[p] && FindProgram(s.program, p, 0).Some?
    requires InstancesRestored(s, all, filter, t.instances)
    ensures var more := all[p := all[p][x := e]];
      var after := AfterInstance(t, FindProgram(s.program, p, 0).value, x, e, filter);
      if RestoresInstance(s.program, more, filter, f, j)
      then (f, j) in after && after[(f, j)] == RestoredFields(s, more, filter, f, j)
      else Lookup(after, (f, j)) == Lookup(s.instances, (f, j))
  {
    var g := FindProgram(s.program, p, 0).value;
    var k := IndexOf(s.program.functions[g].locals, x);
    RestoresOneMore(s.program, all, filter, p, x, e, f, j);
    assert Lookup(t.instances, (f, j)) == Lookup(s.instances, (f, j)) || RestoresInstance(s.program, all, filter, f, j);
    if f == g && k == Some(j) {
      assert !RestoresInstance(s.program, all, filter, f, j);
    }
  }

  method RestoreInstancesOf(vm: Vm, p: string, all: Nested, ghost done: Nested, filter: Filter, ghost s: VmState) returns (skipped: set<(string, string)>)
    requires ExactNames(vm.program) && vm.program == s.program && p in all && p !in done
    requires UniformAll(all) ==> InstancesRestored(s, done, filter, vm.instances)
    requires FindProgram(vm.program, p, 0).Some?
    modifies vm`instances
    ensures UniformAll(all) ==> InstancesRestored(s, done[p := all[p]], filter, vm.instances)
  {
    skipped := {};
    var f := FindProgram(vm.program, p, 0).value;
    var todo := all[p].Keys;
    if UniformAll(all) { EmptyProgram(s, done, filter, p, vm.instances); }
    assert Minus(all[p], todo) == map[];
    while todo != {}
      invariant todo <= all[p].Keys
      invariant UniformAll(all) ==> InstancesRestored(s, done[p := Minus(all[p], todo)], filter, vm.instances)
    {
      var x :| x in todo;
      ghost var part := done[p := Minus(all[p], todo)];
      MinusOne(all[p], todo, x);
      assert part[p := part[p][x := all[p][x]]] == done[p := Minus(all[p], todo - {x})];
      if UniformAll(all) { InstanceOneMore(s, vm.State(), part, filter, p, x, all[p][x]); }
      var bad := RestoreInstance(vm, f, x, all[p][x], filter);
      skipped := skipped + set b | b in bad :: (x, b);
      todo := todo - {x};
    }
    assert Minus(all[p], {}) == all[p];
  }

  lemma EmptyProgram(s: VmState, done: Nested, filter: Filter, p: string, instances: map<(nat, nat), seq<Value>>)
    requires p !in done && InstancesRestored(s, done, filter, instances)
    ensures InstancesRestored(s, done[p := map[]], filter, instances)
  {
    forall f: nat, j: nat
      ensures RestoresInstance(s.program, done[p := map[]], filter, f, j) <==> RestoresInstance(s.program, done, filter, f, j) { }
  }

  lemma UnknownProgram(s: VmState, done: Nested, filter: Filter, p: string, inst: map<string, Entries>, instances: map<(nat, nat), seq<Value>>)
    requires p !in done && FindProgram(s.program, p, 0).None? && InstancesRestored(s, done, filter, instances)
    ensures InstancesRestored(s, done[p := inst], filter, instances)
  {
    forall f: nat, j: nat
      ensures RestoresInstance(s.program, done[p := inst], filter, f, j) <==> RestoresInstance(s.program, done, filter, f, j) { }
  }

  method RestoreInstances(vm: Vm, all: Nested, filter: Filter) returns (skipped: set<(string, string)>)
    requires ExactNames(vm.program)
    modifies vm`instances
    ensures UniformAll(all) ==> InstancesRestored(old(vm.State()), all, filter, vm.instances)
  {
    skipped := {};
    var todo := all.Keys;
    ghost var s := vm.State();
    assert Minus(all, todo) == map[];
    while todo != {}
      invariant todo <= all.Keys
      invariant UniformAll(all) ==> InstancesRestored(s, Minus(all, todo), filter, vm.instances)
    {
      var p :| p in todo;
      MinusOne(all, todo, p);
      if FindProgram(vm.program, p, 0).Some? {
        var bad := RestoreInstancesOf(vm, p, all, Minus(all, todo), filter, s);
        skipped := skipped + bad;
      } else if UniformAll(all) {
        UnknownProgram(s, Minus(all, todo), filter, p, all[p], vm.instances);
      }
      todo := todo - {p};
    }
    assert Minus(all, {}) == all;
  }

  /** The whole restore. For a snapshot whose instances carry one set of flags each, as every
      captured one does, the result does not depend on the order of any map walk. */
  method RestoreSnapshot(vm: Vm, snap: Snapshot, warm: bool) returns (skipped: set<(string, string)>)
    requires ExactNames(vm.program) && |vm.globals| == |vm.program.globals|
    modifies vm`globals, vm`retained, vm`instances
    ensures UniformAll(snap.instances) ==> Restored(old(vm.State()), snap, if warm then Warm else Cold, vm.State())
    ensures vm.globals == Overlay(vm.program.globals, old(vm.globals), snap.globals, if warm then Warm else Cold)
    ensures LocalsRestored(old(vm.State()), snap.programs, if warm then Warm else Cold, vm.retained)
  {
    var filter := if warm then Warm else Cold;
    var globals, bad := ApplyEntries(vm.program.globals, vm.globals, snap.globals, filter);
    vm.globals := globals;
    skipped := set b | b in bad :: ("", b);
    ghost var s := vm.State();
    var more := RestoreLocals(vm, snap.programs, filter);
    ghost var t := vm.State();
    var rest := RestoreInstances(vm, snap.instances, filter);
    skipped := skipped + more + rest;
  }

  // ---------------------------------------------------------------- round trip

  lemma {:induction false} UniformFields(k: Section, slots: seq<VarSlot>, values: seq<Value>, holder: VarSlot, n: nat)
    requires n <= |slots| && k.FieldSection?
    ensures forall x :: x in Captured(k, slots, values, holder, n) ==>
      var e := Captured(k, slots, values, holder, n)[x]; e.retain == holder.retain && e.persistent == holder.persistent
    decreases n
  {
    if n > 0 { UniformFields(k, slots, values, holder, n - 1); }
  }

  lemma FieldEntriesCarryFlags(s: VmState, f: nat, j: nat)
    requires Saved(s, f) && j < |s.program.functions[f].locals|
    ensures var slot := s.program.functions[f].locals[j];
      forall x :: x in FieldEntries(s, f, j) ==>
        FieldEntries(s, f, j)[x].retain == slot.retain && FieldEntries(s, f, j)[x].persistent == slot.persistent
  {
    var slot := s.program.functions[f].locals[j];
    var fields := FieldsOf(s.program, slot.ty);
    if Flagged(slot) && fields.Some? {
      UniformFields(FieldSection, fields.value, if (f, j) in s.instances then s.instances[(f, j)] else [], slot, |fields.value|);
    }
  }

  lemma {:induction false} InstanceEntriesAre(s: VmState, f: nat, n: nat, x: string)
    requires Saved(s, f) && n <= |s.program.functions[f].locals| && x in InstanceEntries(s, f, n)
    ensures exists j :: 0 <= j < n && s.program.functions[f].locals[j].name == x && InstanceEntries(s, f, n)[x] == FieldEntries(s, f, j)
    decreases n
  {
    if n > 0 {
      if FieldEntries(s, f, n - 1) != map[] && s.program.functions[f].locals[n - 1].name == x {
      } else {
        InstanceEntriesAre(s, f, n - 1, x);
      }
    }
  }

  lemma {:induction false} InstanceEntryAt(s: VmState, f: nat, n: nat, j: nat)
    requires Saved(s, f) && j < n <= |s.program.functions[f].locals| && Unique(s.program.functions[f].locals)
    ensures Lookup(InstanceEntries(s, f, n), s.program.functions[f].locals[j].name)
            == if FieldEntries(s, f, j) == map[] then None else Some(FieldEntries(s, f, j))
    decreases n
  {
    var name := s.program.functions[f].locals[j].name;
    if j < n - 1 {
      InstanceEntryAt(s, f, n - 1, j);
    } else if name in InstanceEntries(s, f, n - 1) {
      InstanceEntriesAre(s, f, n - 1, name);
    }
  }

  /** In a captured snapshot the flags of one field are those of every field of its instance,
      so the first-field test is the per-field test. */
  lemma CapturedIsUniform(s: VmState, snap: Snapshot)
    requires IsSnapshotOf(s, snap)
    ensures UniformAll(snap.instances)
  {
    forall p, x | p in snap.instances && x in snap.instances[p] ensures Uniform(snap.instances[p][x]) {
      assert NamesSaved(s, p);
      var f: nat :| Saved(s, f) && s.program.functions[f].name == p;
      assert Recorded(s, f, snap.programs, snap.instances);
      assert Lookup(snap.instances, p) == Some(AllInstances(s, f));
      InstanceEntriesAre(s, f, |s.program.functions[f].locals|, x);
      var j :| 0 <= j < |s.program.functions[f].locals| && AllInstances(s, f)[x] == FieldEntries(s, f, j);
      FieldEntriesCarryFlags(s, f, j);
    }
  }

  lemma FindsIndex(slots: seq<VarSlot>, i: nat)
    requires i < |slots| && Unique(slots)
    ensures IndexOf(slots, slots[i].name) == Some(i)
  {
    var r := IndexOf(slots, slots[i].name);
    assert r.Some?;
  }

  predicate Restarts(slot: VarSlot, warm: bool) { if warm then slot.retain else slot.persistent }

  function FilterOf(warm: bool): Filter { if warm then Warm else Cold }

  /** A global is saved, with its value and flags, if and only if it is RETAIN or PERSISTENT. */
  lemma GlobalSavedIff(s: VmState, snap: Snapshot, i: nat)
    requires ExactNames(s.program) && IsSnapshotOf(s, snap) && i < |s.globals| == |s.program.globals|
    ensures var slot := s.program.globals[i];
      Lookup(snap.globals, slot.name)
      == if slot.retain || slot.persistent then Some(Entry(s.globals[i], slot.retain, slot.persistent)) else None
  {
    CapturedAt(GlobalSection, s.program.globals, s.globals, NO_HOLDER, |s.program.globals|, i);
  }

  /** So is a local of a program that has run, unless it is composite. */
  lemma LocalSavedIff(s: VmState, snap: Snapshot, f: nat, i: nat)
    requires ExactNames(s.program) && IsSnapshotOf(s, snap) && Saved(s, f)
    requires i < |s.retained[f]| == |s.program.functions[f].locals|
    ensures var slot := s.program.functions[f].locals[i]; var name := s.program.functions[f].name;
      (if name in snap.programs then Lookup(snap.programs[name], slot.name) else None)
      == if (slot.retain || slot.persistent) && !IsComposite(slot.ty)
         then Some(Entry(s.retained[f][i], slot.retain, slot.persistent)) else None
  {
    var slots := s.program.functions[f].locals;
    assert Recorded(s, f, snap.programs, snap.instances);
    CapturedAt(LocalSection, slots, s.retained[f], NO_HOLDER, |slots|, i);
    assert Lookup(snap.programs, s.program.functions[f].name) == if LocalEntries(s, f) == map[] then None else Some(LocalEntries(s, f));
  }

  /** Globals: a flagged scalar gets its captured value, everything else keeps the value it
      has in the restarted machine. */
  lemma GlobalRoundTrip(s: VmState, snap: Snapshot, t: VmState, u: VmState, warm: bool, i: nat)
    requires ExactNames(s.program) && t.program == s.program
    requires |s.globals| == |t.globals| == |s.program.globals| && i < |s.globals|
    requires IsSnapshotOf(s, snap) && Restored(t, snap, FilterOf(warm), u)
    requires IsScalar(s.program.globals[i].ty) ==> IsCompatible(s.globals[i], s.program.globals[i].ty)
    ensures u.globals[i] ==
      if Restarts(s.program.globals[i], warm) && IsScalar(s.program.globals[i].ty) then s.globals[i] else t.globals[i]
  {
    CapturedAt(GlobalSection, s.program.globals, s.globals, NO_HOLDER, |s.program.globals|, i);
    FindsIndex(s.program.globals, i);
  }

  /** Program locals: a flagged scalar gets its captured value; the others keep the restarted
      machine's value or, in a program that has not run yet, the default of their type. */
  lemma {:induction false} LocalRoundTrip(s: VmState, snap: Snapshot, t: VmState, u: VmState, warm: bool, f: nat, i: nat)
    requires ExactNames(s.program) && t.program == s.program && |t.globals| == |t.program.globals|
    requires IsSnapshotOf(s, snap) && Restored(t, snap, FilterOf(warm), u)
    requires Saved(s, f) && |s.retained[f]| == |s.program.functions[f].locals| && i < |s.retained[f]|
    requires s.program.functions[f].name in snap.programs
    requires var slot := s.program.functions[f].locals[i]; IsScalar(slot.ty) ==> IsCompatible(s.retained[f][i], slot.ty)
    ensures f in u.retained && |u.retained[f]| == |s.retained[f]|
    ensures var slot := s.program.functions[f].locals[i];
      u.retained[f][i] ==
        if Restarts(slot, warm) && IsScalar(slot.ty) then s.retained[f][i]
        else Existing(s.program.functions[f].locals, Lookup(t.retained, f))[i]
  {
    var slots := s.program.functions[f].locals;
    assert Recorded(s, f, snap.programs, snap.instances);
    assert Lookup(snap.programs, s.program.functions[f].name) == Some(LocalEntries(s, f));
    CapturedAt(LocalSection, slots, s.retained[f], NO_HOLDER, |slots|, i);
    FindsIndex(slots, i);
    assert Lookup(u.retained, f) == LocalsAfter(t, snap.programs, FilterOf(warm), f);
  }

  /** A program that has run is in the snapshot if and only if it has a flagged local that is
      no composite. */
  lemma FlaggedLocalIsSaved(s: VmState, snap: Snapshot, f: nat)
    requires ExactNames(s.program) && IsSnapshotOf(s, snap) && Saved(s, f)
    ensures s.program.functions[f].name in snap.programs <==>
      exists i :: 0 <= i < |s.program.functions[f].locals| && Takes(LocalSection, s.program.functions[f].locals[i])
  {
    var slots := s.program.functions[f].locals;
    assert Recorded(s, f, snap.programs, snap.instances);
    if i :| 0 <= i < |slots| && Takes(LocalSection, slots[i]) {
      CapturedAt(LocalSection, slots, s.retained[f], NO_HOLDER, |slots|, i);
    }
    if name :| name in LocalEntries(s, f) {
      CapturedOnly(LocalSection, slots, s.retained[f], NO_HOLDER, |slots|, name);
    }
    assert Lookup(snap.programs, s.program.functions[f].name) == if LocalEntries(s, f) == map[] then None else Some(LocalEntries(s, f));
  }

  /** Instance fields: a plain field of a flagged instance gets its captured value. */
  lemma FieldRoundTrip(s: VmState, snap: Snapshot, t: VmState, u: VmState, warm: bool, f: nat, j: nat, k: nat)
    requires ExactNames(s.program) && t.program == s.program && |t.globals| == |t.program.globals|
    requires IsSnapshotOf(s, snap) && Restored(t, snap, FilterOf(warm), u)
    requires Saved(s, f) && j < |s.program.functions[f].locals|
    requires var slot := s.program.functions[f].locals[j];
      Restarts(slot, warm) && FieldsOf(s.program, slot.ty).Some? && k < |FieldsOf(s.program, slot.ty).value|
    requires var field := FieldsOf(s.program, s.program.functions[f].locals[j].ty).value[k];
      IsScalar(field.ty) && IsCompatible(FieldValue(s, f, j, k, field), field.ty)
    ensures (f, j) in u.instances && k < |u.instances[(f, j)]|
    ensures u.instances[(f, j)][k] == FieldValue(s, f, j, k, FieldsOf(s.program, s.program.functions[f].locals[j].ty).value[k])
  {
    var slots := s.program.functions[f].locals;
    var fields := FieldsOf(s.program, slots[j].ty).value;
    FieldIsTaken(s, f, j, k);
    FindsIndex(slots, j);
    InstanceIsRestored(s, snap, warm, f, j, fields[k].name);
    assert RestoresInstance(t.program, snap.instances, FilterOf(warm), f, j);
  }

  lemma FieldIsTaken(s: VmState, f: nat, j: nat, k: nat)
    requires ExactNames(s.program) && Saved(s, f) && j < |s.program.functions[f].locals|
    requires var slot := s.program.functions[f].locals[j];
      Flagged(slot) && FieldsOf(s.program, slot.ty).Some? && k < |FieldsOf(s.program, slot.ty).value|
    requires var field := FieldsOf(s.program, s.program.functions[f].locals[j].ty).value[k];
      IsScalar(field.ty) && IsCompatible(FieldValue(s, f, j, k, field), field.ty)
    ensures var fields := FieldsOf(s.program, s.program.functions[f].locals[j].ty).value;
      TakesEntry(fields, k, FieldEntries(s, f, j), Every)
      && FieldEntries(s, f, j)[fields[k].name].value == FieldValue(s, f, j, k, fields[k])
  {
    var slot := s.program.functions[f].locals[j];
    var fields := FieldsOf(s.program, slot.ty).value;
    FieldNamesUnique(s.program, slot.ty);
    CapturedAt(FieldSection, fields, if (f, j) in s.instances then s.instances[(f, j)] else [], slot, |fields|, k);
    FindsIndex(fields, k);
  }

  function FieldValue(s: VmState, f: nat, j: nat, k: nat, field: VarSlot): Value {
    ValueOr(if (f, j) in s.instances then s.instances[(f, j)] else [], k, Default(field.ty))
  }

  lemma FieldNamesUnique(m: Module, ty: VarType)
    requires ExactNames(m) && FieldsOf(m, ty).Some?
    ensures Unique(FieldsOf(m, ty).value)
  {
  }

  lemma InstanceIsRestored(s: VmState, snap: Snapshot, warm: bool, f: nat, j: nat, name: string)
    requires ExactNames(s.program) && IsSnapshotOf(s, snap) && Saved(s, f) && j < |s.program.functions[f].locals|
    requires Restarts(s.program.functions[f].locals[j], warm) && name in FieldEntries(s, f, j)
    ensures var slot := s.program.functions[f].locals[j];
      && s.program.functions[f].name in snap.instances && slot.name in snap.instances[s.program.functions[f].name]
      && snap.instances[s.program.functions[f].name][slot.name] == FieldEntries(s, f, j)
      && Dominated(FieldEntries(s, f, j), FilterOf(warm))
  {
    var slots := s.program.functions[f].locals;
    InstanceEntryAt(s, f, |slots|, j);
    FieldEntriesCarryFlags(s, f, j);
    assert Recorded(s, f, snap.programs, snap.instances);
    assert slots[j].name in AllInstances(s, f);
    assert Lookup(snap.instances, s.program.functions[f].name) == Some(AllInstances(s, f));
    assert Picks(FilterOf(warm), FieldEntries(s, f, j)[name]);
  }
}
