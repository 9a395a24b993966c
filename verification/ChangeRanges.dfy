/** Integer ranges across an online change: the analysis compares types, not declared widths. */
module ChangeRanges {
  import opened Names
  import opened Ir
  import opened IntWidths
  import opened OnlineChange
  import opened ChangeRuns

  /** Every stored integer fits the declared width of its slot. */
  predicate AllFit(slots: seq<VarSlot>, values: seq<Value>) {
    forall i :: 0 <= i < |slots| && i < |values| ==> InRange(values[i], slots[i].width)
  }

  function Widths(slots: seq<VarSlot>): (ws: seq<IntWidth>)
    ensures |ws| == |slots| && forall c :: 0 <= c < |ws| ==> ws[c] == slots[c].width
  {
    seq(|slots|, c requires 0 <= c < |slots| => slots[c].width)
  }

  /** The widths of the cells that hold the data of a composite variable. */
  function LayoutWidths(m: Module, ty: VarType): seq<IntWidth> {
    if (ty.FbInstanceT? || ty.ClassInstanceT?) && ty.index < |m.functions| then Widths(m.functions[ty.index].locals)
    else if ty.StructT? && ty.index < |m.types| && m.types[ty.index].StructDef? then Widths(m.types[ty.index].fields)
    else if ty.ArrayT? && ty.index < |m.types| && m.types[ty.index].ArrayDef? then seq(m.types[ty.index].cells, _ => NoWidth)
    else []
  }

  function CellWidths(m: Module, at: (nat, nat)): seq<IntWidth> {
    if at.0 < |m.functions| && at.1 < |m.functions[at.0].locals| then LayoutWidths(m, m.functions[at.0].locals[at.1].ty) else []
  }

  predicate CellsFit(widths: seq<IntWidth>, cells: seq<Value>) {
    forall c :: 0 <= c < |cells| && c < |widths| ==> InRange(cells[c], widths[c])
  }

  /** Globals, retained locals and the cells of composite variables. */
  ghost predicate StateFits(s: VmState) {
    && AllFit(s.program.globals, s.globals)
    && (forall at :: at in s.instances ==> CellsFit(CellWidths(s.program, at), s.instances[at]))
    && forall f :: f in s.retained && f < |s.program.functions| ==> AllFit(s.program.functions[f].locals, s.retained[f])
  }

  /** Default values fit, as they do when type and width of a slot come from one declaration. */
  ghost predicate DefaultsFit(m: Module) {
    && AllFit(m.globals, Defaults(m.globals))
    && forall f :: 0 <= f < |m.functions| ==> AllFit(m.functions[f].locals, Defaults(m.functions[f].locals))
  }

  /** Every value of width a is one of width b. */
  predicate Wider(a: IntWidth, b: IntWidth) {
    b.NoWidth? || (!a.NoWidth? && IsSigned(a) == IsSigned(b) && Half(a) <= Half(b))
  }

  /** A value of width a that is none of width b. */
  function Odd(a: IntWidth, b: IntWidth): (v: Value)
    requires !Wider(a, b)
    ensures InRange(v, a) && !InRange(v, b)
  {
    if a.NoWidth? then if IsSigned(b) then UInt(0) else Int(0)
    else if IsSigned(a) then Int(-Half(a))
    else UInt(2 * Half(a) - 1)
  }

  /** Every new slot is at least as wide as the old slot whose value it takes over. */
  predicate SlotsWiden(before: seq<VarSlot>, after: seq<VarSlot>) {
    forall j :: 0 <= j < |after| ==>
      var r := FindSlot(before, Key(after[j].name));
      r.Some? ==> Wider(before[r.value].width, after[j].width)
  }

  predicate FunctionWidens(m: Module, g: Function) {
    var f := FindFunction(m, g.name);
    f.Some? && KeepsState(m.functions[f.value].kind) ==> SlotsWiden(m.functions[f.value].locals, g.locals)
  }

  /** No data behind the last cell of a variable, nor where no variable is: earlier changes
      left none behind. */
  ghost predicate Tidy(s: VmState) {
    forall at :: at in s.instances ==> |s.instances[at]| <= |CellWidths(s.program, at)|
  }

  /** A cell is not migrated: the new field at its place is at least as wide as the old one. A
      place without an old cell may hold anything, unless the state is tidy. */
  predicate CellWidens(before: seq<IntWidth>, after: seq<IntWidth>, c: nat, tidy: bool)
    requires c < |after|
  {
    if c < |before| then Wider(before[c], after[c]) else tidy || after[c].NoWidth?
  }

  predicate PlaceWidens(m: Module, n: Module, at: (nat, nat), tidy: bool) {
    forall c :: 0 <= c < |CellWidths(n, at)| ==> CellWidens(CellWidths(m, at), CellWidths(n, at), c, tidy)
  }

  predicate CellsWiden(m: Module, n: Module, tidy: bool) {
    forall g, j :: 0 <= g < |n.functions| && 0 <= j < |n.functions[g].locals| ==> PlaceWidens(m, n, (g, j), tidy)
  }

  predicate WidthsKept(m: Module, n: Module, tidy: bool) {
    && SlotsWiden(m.globals, n.globals)
    && (forall g :: 0 <= g < |n.functions| ==> FunctionWidens(m, n.functions[g]))
    && CellsWiden(m, n, tidy)
  }

  lemma EveryPlaceWidens(m: Module, n: Module, at: (nat, nat), tidy: bool)
    requires CellsWiden(m, n, tidy)
    ensures PlaceWidens(m, n, at, tidy)
  {
    if at.0 < |n.functions| && at.1 < |n.functions[at.0].locals| { assert PlaceWidens(m, n, (at.0, at.1), tidy); }
  }

  lemma CellsStayFitting(m: Module, n: Module, at: (nat, nat), cells: seq<Value>, tidy: bool)
    requires PlaceWidens(m, n, at, tidy) && CellsFit(CellWidths(m, at), cells) && (tidy ==> |cells| <= |CellWidths(m, at)|)
    ensures CellsFit(CellWidths(n, at), cells)
  {
    forall c | 0 <= c < |cells| && c < |CellWidths(n, at)| ensures InRange(cells[c], CellWidths(n, at)[c]) {
      assert CellWidens(CellWidths(m, at), CellWidths(n, at), c, tidy);
      if c < |CellWidths(m, at)| { WiderHolds(cells[c], CellWidths(m, at)[c], CellWidths(n, at)[c]); } else { FitsNoWidth(cells[c]); }
    }
  }

  lemma FitsNoWidth(v: Value)
    ensures InRange(v, NoWidth)
  {
  }

  /** A value of every width. */
  function Least(w: IntWidth): (v: Value)
    ensures InRange(v, w)
  {
    if w.NoWidth? || IsSigned(w) then Int(0) else UInt(0)
  }

  /** Cells that fit before the change and not after it. */
  lemma OddCells(m: Module, n: Module, at: (nat, nat), c: nat, tidy: bool) returns (cells: seq<Value>)
    requires c < |CellWidths(n, at)| && !CellWidens(CellWidths(m, at), CellWidths(n, at), c, tidy)
    ensures CellsFit(CellWidths(m, at), cells) && !CellsFit(CellWidths(n, at), cells) && (tidy ==> |cells| <= |CellWidths(m, at)|)
  {
    var before, after := CellWidths(m, at), CellWidths(n, at);
    var odd := Odd(if c < |before| then before[c] else NoWidth, after[c]);
    cells := seq(c + 1, i requires 0 <= i <= c => if i == c then odd else if i < |before| then Least(before[i]) else Void);
    assert !InRange(cells[c], after[c]);
  }

  lemma CellWidthNeeded(m: Module, n: Module, at: (nat, nat), tidy: bool) returns (s: VmState)
    requires DistinctNames(m) && DefaultsFit(m) && !PlaceWidens(m, n, at, tidy)
    ensures Considered(m, s, tidy) && !StateFits(Migrated(s, n))
  {
    var c :| 0 <= c < |CellWidths(n, at)| && !CellWidens(CellWidths(m, at), CellWidths(n, at), c, tidy);
    var cells := OddCells(m, n, at, c, tidy);
    s := VmState(m, Defaults(m.globals), map[], map[at := cells]);
    assert at in Migrated(s, n).instances && Migrated(s, n).instances[at] == cells;
  }

  /** The states of m a change may find. */
  ghost predicate Considered(m: Module, s: VmState, tidy: bool) {
    Shaped(s) && s.program == m && StateFits(s) && (tidy ==> Tidy(s))
  }

  lemma MigratedFit(values: seq<Value>, before: seq<VarSlot>, after: seq<VarSlot>)
    requires AllFit(before, values) && SlotsWiden(before, after) && AllFit(after, Defaults(after))
    ensures AllFit(after, MigrateLocals(values, before, after))
  {
    forall j | 0 <= j < |after| ensures InRange(MigrateLocals(values, before, after)[j], after[j].width) {
      assert InRange(Defaults(after)[j], after[j].width);
      var r := FindSlot(before, Key(after[j].name));
      if r.Some? && r.value < |values| {
        assert InRange(values[r.value], before[r.value].width);
        WiderHolds(values[r.value], before[r.value].width, after[j].width);
      }
    }
  }

  lemma WiderHolds(v: Value, a: IntWidth, b: IntWidth)
    requires InRange(v, a) && Wider(a, b)
    ensures InRange(v, b)
  {
  }

  /** A value that migration would carry out of range. */
  lemma OddValue(before: seq<VarSlot>, after: seq<VarSlot>, j: nat) returns (values: seq<Value>)
    requires j < |after| && AllFit(before, Defaults(before))
    requires var r := FindSlot(before, Key(after[j].name));
      r.Some? && before[r.value].ty == after[j].ty && !Wider(before[r.value].width, after[j].width)
    ensures |values| == |before| && AllFit(before, values) && !AllFit(after, MigrateLocals(values, before, after))
  {
    var r := FindSlot(before, Key(after[j].name)).value;
    values := Defaults(before)[r := Odd(before[r].width, after[j].width)];
    forall i | 0 <= i < |before| ensures InRange(values[i], before[i].width) {
      assert InRange(Defaults(before)[i], before[i].width);
    }
    assert MigrateLocals(values, before, after)[j] == values[r];
  }

  /** Slots of the same name have the same type after a compatible change. */
  lemma MatchedSameType(m: Module, n: Module, g: nat, j: nat)
    requires Compatible(m, n) && DistinctNames(m) && DistinctNames(n) && g < |n.functions| && j < |n.functions[g].locals|
    ensures var f := FindFunction(m, n.functions[g].name);
      f.Some? ==> var r := FindSlot(m.functions[f.value].locals, Key(n.functions[g].locals[j].name));
                  r.Some? ==> m.functions[f.value].locals[r.value].ty == n.functions[g].locals[j].ty
  {
    var f := FindFunction(m, n.functions[g].name);
    if f.Some? {
      var r := FindSlot(m.functions[f.value].locals, Key(n.functions[g].locals[j].name));
      if r.Some? {
        CompatibleKeepsLocals(m, n, f.value, r.value);
        FindsItself(n, g);
        FindsSlot(n.functions[g].locals, j);
      }
    }
  }

  lemma WidthsKeptSuffices(s: VmState, n: Module, tidy: bool)
    requires Considered(s.program, s, tidy) && DefaultsFit(n) && WidthsKept(s.program, n, tidy)
    ensures StateFits(Migrated(s, n))
  {
    forall at | at in s.instances ensures CellsFit(CellWidths(n, at), s.instances[at]) {
      EveryPlaceWidens(s.program, n, at, tidy);
      CellsStayFitting(s.program, n, at, s.instances[at], tidy);
    }
    MigratedFit(s.globals, s.program.globals, n.globals);
    forall g | g in Migrated(s, n).retained ensures AllFit(n.functions[g].locals, Migrated(s, n).retained[g]) {
      var f := Source(s, n, g).value;
      assert FunctionWidens(s.program, n.functions[g]);
      MigratedFit(s.retained[f], s.program.functions[f].locals, n.functions[g].locals);
    }
  }

  lemma NarrowSlot(before: seq<VarSlot>, after: seq<VarSlot>) returns (j: nat)
    requires !SlotsWiden(before, after)
    ensures j < |after| && var r := FindSlot(before, Key(after[j].name)); r.Some? && !Wider(before[r.value].width, after[j].width)
  {
    j :| 0 <= j < |after| && var r := FindSlot(before, Key(after[j].name)); r.Some? && !Wider(before[r.value].width, after[j].width);
  }

  lemma GlobalWidthNeeded(m: Module, n: Module, tidy: bool) returns (s: VmState)
    requires GlobalsOk(m.globals, n.globals) && DistinctNames(m) && DefaultsFit(m) && !SlotsWiden(m.globals, n.globals)
    ensures Considered(m, s, tidy) && !StateFits(Migrated(s, n))
  {
    var j := NarrowSlot(m.globals, n.globals);
    var values := OddValue(m.globals, n.globals, j);
    s := VmState(m, values, map[], map[]);
  }

  lemma LocalWidthNeeded(m: Module, n: Module, g: nat, tidy: bool) returns (s: VmState)
    requires Compatible(m, n) && DistinctNames(m) && DistinctNames(n) && DefaultsFit(m)
    requires g < |n.functions| && !FunctionWidens(m, n.functions[g])
    ensures Considered(m, s, tidy) && !StateFits(Migrated(s, n))
  {
    var f := FindFunction(m, n.functions[g].name).value;
    var before, after := m.functions[f].locals, n.functions[g].locals;
    var j := NarrowSlot(before, after);
    MatchedSameType(m, n, g, j);
    var values := OddValue(before, after, j);
    s := VmState(m, Defaults(m.globals), map[f := values], map[]);
    LeavesRange(s, n, g, f);
  }

  lemma LeavesRange(s: VmState, n: Module, g: nat, f: nat)
    requires g < |n.functions| && f in s.retained && FindFunction(s.program, n.functions[g].name) == Some(f)
    requires f < |s.program.functions| && KeepsState(s.program.functions[f].kind)
    requires !AllFit(n.functions[g].locals, MigrateLocals(s.retained[f], s.program.functions[f].locals, n.functions[g].locals))
    ensures !StateFits(Migrated(s, n))
  {
    assert Source(s, n, g) == Some(f);
    assert g in Migrated(s, n).retained;
  }

  /** Where widths are not kept, some state of m within its ranges leaves those of n. */
  lemma WidthsNeeded(m: Module, n: Module, tidy: bool) returns (s: VmState)
    requires Compatible(m, n) && DistinctNames(m) && DistinctNames(n) && DefaultsFit(m) && !WidthsKept(m, n, tidy)
    ensures Considered(m, s, tidy) && !StateFits(Migrated(s, n))
  {
    if !SlotsWiden(m.globals, n.globals) {
      s := GlobalWidthNeeded(m, n, tidy);
    } else if !CellsWiden(m, n, tidy) {
      var at := NarrowPlace(m, n, tidy);
      s := CellWidthNeeded(m, n, at, tidy);
    } else {
      var g :| 0 <= g < |n.functions| && !FunctionWidens(m, n.functions[g]);
      s := LocalWidthNeeded(m, n, g, tidy);
    }
  }

  lemma NarrowPlace(m: Module, n: Module, tidy: bool) returns (at: (nat, nat))
    requires !CellsWiden(m, n, tidy)
    ensures !PlaceWidens(m, n, at, tidy)
  {
    var g, j :| 0 <= g < |n.functions| && 0 <= j < |n.functions[g].locals| && !PlaceWidens(m, n, (g, j), tidy);
    at := (g, j);
  }

  /** The analysis does not look at integer widths. Every state within its ranges migrates to
      one within the new ranges if and only if each slot is at least as wide as the one whose
      value it takes, by name, and each cell of a composite variable as the one at its place.
      Over all states, a place that had no cell may hold what an earlier change left behind;
      over tidy ones it is empty. */
  lemma RangesKeptIff(m: Module, n: Module, tidy: bool)
    requires Compatible(m, n) && DistinctNames(m) && DistinctNames(n) && DefaultsFit(m) && DefaultsFit(n)
    ensures (forall s {:trigger Migrated(s, n)} :: Considered(m, s, tidy) ==> StateFits(Migrated(s, n))) <==> WidthsKept(m, n, tidy)
  {
    if WidthsKept(m, n, tidy) {
      forall s | Considered(m, s, tidy) ensures StateFits(Migrated(s, n)) { WidthsKeptSuffices(s, n, tidy); }
    } else {
      var s := WidthsNeeded(m, n, tidy);
    }
  }

  /** The new SINT field B in front of the INT field A is accepted, and B reads A's 300. */
  lemma NewFieldOutOfRange()
    ensures var a, b := Slot("A", I16), Slot("B", I8);
      var m, n := WithBlock([a]), WithBlock([b, a]);
      var s := VmState(m, [], map[], map[(0, 0) := [Int(300)]]);
      && Compatible(m, n) && Considered(m, s, true) && !StateFits(Migrated(s, n)) && !WidthsKept(m, n, true)
      && PartValue(Migrated(s, n), "P", "X", Field("B")) == Some(Int(300))
  {
    var a, b := Slot("A", I16), Slot("B", I8);
    assert Key("A")[0] == 'A' && Key("B")[0] == 'B';
    OneCellConsidered(a, Int(300));
    OneCellMigrates(a, b, Int(300));
    BlockGrows(a, b);
    NotWidened(a, b);
  }

  lemma OneCellConsidered(a: VarSlot, v: Value)
    requires InRange(v, a.width)
    ensures Considered(WithBlock([a]), VmState(WithBlock([a]), [], map[], map[(0, 0) := [v]]), true)
  {
    assert Distinct(SlotNames([a]));
    WithBlockNames([a]);
    BlockCells([a]);
    OneCellFits([a], v);
  }

  lemma OneCellMigrates(a: VarSlot, b: VarSlot, v: Value)
    requires !SameName(a.name, b.name)
    ensures var t := Migrated(VmState(WithBlock([a]), [], map[], map[(0, 0) := [v]]), WithBlock([b, a]));
      PartValue(t, "P", "X", Field(b.name)) == Some(v) && (StateFits(t) <==> InRange(v, b.width))
  {
    var instances := map[(0, 0) := [v]];
    assert Distinct(SlotNames([b, a]));
    assert Migrated(VmState(WithBlock([a]), [], map[], instances), WithBlock([b, a])) == VmState(WithBlock([b, a]), [], map[], instances);
    FieldAt([b, a], 0, instances);
    OneCellFits([b, a], v);
  }

  lemma BlockCells(fields: seq<VarSlot>)
    ensures CellWidths(WithBlock(fields), (0, 0)) == Widths(fields)
  {
  }

  lemma NotWidened(a: VarSlot, b: VarSlot)
    requires a.width == I16 && b.width == I8
    ensures !WidthsKept(WithBlock([a]), WithBlock([b, a]), true)
  {
    var m, n := WithBlock([a]), WithBlock([b, a]);
    BlockCells([a]);
    BlockCells([b, a]);
    assert !CellWidens(CellWidths(m, (0, 0)), CellWidths(n, (0, 0)), 0, true);
    assert 0 < |n.functions[0].locals| && !PlaceWidens(m, n, (0, 0), true);
  }

  /** A state with one cell in the instance fits if and only if that cell does. */
  lemma OneCellFits(fields: seq<VarSlot>, v: Value)
    requires fields != []
    ensures StateFits(VmState(WithBlock(fields), [], map[], map[(0, 0) := [v]])) <==> InRange(v, fields[0].width)
  {
    BlockCells(fields);
    var s := VmState(WithBlock(fields), [], map[], map[(0, 0) := [v]]);
    assert CellsFit(CellWidths(s.program, (0, 0)), s.instances[(0, 0)]) <==> InRange(v, fields[0].width);
  }
}
