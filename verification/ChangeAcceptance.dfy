/** Which online changes are accepted, by names and types alone
    (`st-engine/src/online_change.rs:50-200`). */
module ChangeAcceptance {
  import opened Names
  import opened Ir
  import opened OnlineChange

  predicate SameVariable(a: VarSlot, b: VarSlot) { SameName(a.name, b.name) && a.ty == b.ty }

  predicate Has(slots: seq<VarSlot>, s: VarSlot) { exists j :: 0 <= j < |slots| && SameVariable(s, slots[j]) }

  /** Every variable of the old version is in the new one, with its type. */
  predicate NoneLost(before: seq<VarSlot>, after: seq<VarSlot>) { forall i :: 0 <= i < |before| ==> Has(after, before[i]) }

  /** They come first, in the old order. */
  predicate InFront(before: seq<VarSlot>, after: seq<VarSlot>) {
    |before| <= |after| && forall i :: 0 <= i < |before| ==> SameVariable(before[i], after[i])
  }

  /** No variable that both versions have changes its type. */
  predicate NoneRetyped(before: seq<VarSlot>, after: seq<VarSlot>) {
    forall i, j :: 0 <= i < |before| && 0 <= j < |after| && SameName(before[i].name, after[j].name) ==> before[i].ty == after[j].ty
  }

  /** Two versions of one POU: nothing is lost; the order may change only if variables are
      added; in a PROGRAM or FUNCTION_BLOCK no variable changes its type. */
  predicate VersionsAccepted(f: Function, g: Function) {
    && NoneLost(f.locals, g.locals)
    && (InFront(f.locals, g.locals) || |g.locals| > |f.locals|)
    && (g.kind == ProgramPou || g.kind == FunctionBlockPou ==> NoneRetyped(f.locals, g.locals))
  }

  // ---------------------------------------------------------------- one POU

  lemma MatchIsSame(slots: seq<VarSlot>, s: VarSlot)
    ensures HasMatch(slots, s) <==> Has(slots, s)
  {
    if HasMatch(slots, s) {
      var i :| 0 <= i < |slots| && Matches(slots[i], s);
      assert SameVariable(s, slots[i]);
    }
    if j :| 0 <= j < |slots| && SameVariable(s, slots[j]) { assert Matches(slots[j], s); }
  }

  lemma PreservedIsNoneLost(before: seq<VarSlot>, after: seq<VarSlot>)
    ensures AllPreserved(before, after) <==> NoneLost(before, after)
  {
    forall i | 0 <= i < |before| ensures HasMatch(after, before[i]) <==> Has(after, before[i]) { MatchIsSame(after, before[i]); }
  }

  lemma PrefixIsInFront(before: seq<VarSlot>, after: seq<VarSlot>)
    ensures SamePrefix(before, after) <==> InFront(before, after)
    ensures InFront(before, after) ==> NoneLost(before, after)
  {
    if InFront(before, after) {
      forall i | 0 <= i < |before| ensures Has(after, before[i]) { assert SameVariable(before[i], after[i]); }
    }
  }

  /** What each verdict about a POU means. The instruction count only tells CodeOnly from
      VarsAdded: variables added behind the old ones in a POU whose code changed count as a
      change of code. */
  lemma VerdictMeans(f: Function, g: Function)
    ensures CompareFunctions(f, g) == LayoutChanged <==>
      !NoneLost(f.locals, g.locals) || (!InFront(f.locals, g.locals) && |g.locals| <= |f.locals|)
    ensures CompareFunctions(f, g) == CodeOnly <==>
      InFront(f.locals, g.locals) && (|g.locals| == |f.locals| || g.codeSize != f.codeSize)
    ensures CompareFunctions(f, g) == VarsAdded <==>
      NoneLost(f.locals, g.locals) && |g.locals| > |f.locals| && (!InFront(f.locals, g.locals) || g.codeSize == f.codeSize)
  {
    PreservedIsNoneLost(f.locals, g.locals);
    PrefixIsInFront(f.locals, g.locals);
  }

  lemma RetypedIs(before: seq<VarSlot>, after: seq<VarSlot>)
    requires Distinct(SlotNames(before))
    ensures NoneRetyped(before, after) <==> forall j :: 0 <= j < |after| && HasName(before, after[j]) ==> HasMatch(before, after[j])
  {
    if NoneRetyped(before, after) {
      forall j | 0 <= j < |after| && HasName(before, after[j]) ensures HasMatch(before, after[j]) {
        var i :| 0 <= i < |before| && SameName(before[i].name, after[j].name);
        assert Matches(before[i], after[j]);
      }
    }
    if forall j :: 0 <= j < |after| && HasName(before, after[j]) ==> HasMatch(before, after[j]) {
      forall i, j | 0 <= i < |before| && 0 <= j < |after| && SameName(before[i].name, after[j].name) ensures before[i].ty == after[j].ty {
        assert HasName(before, after[j]);
        var k :| 0 <= k < |before| && Matches(before[k], after[j]);
        assert SlotNames(before)[i] == before[i].name && SlotNames(before)[k] == before[k].name;
      }
    }
  }

  lemma FunctionOkIff(f: Function, g: Function)
    requires Distinct(SlotNames(f.locals))
    ensures FunctionOk(f, g) <==> VersionsAccepted(f, g)
  {
    VerdictMeans(f, g);
    RetypedIs(f.locals, g.locals);
  }

  // ---------------------------------------------------------------- the module

  lemma FoundIff(m: Module, name: string, f: nat)
    requires Distinct(FunctionNames(m)) && f < |m.functions| && SameName(m.functions[f].name, name)
    ensures FindFunction(m, name) == Some(f)
  {
    FindsItself(m, f);
  }

  lemma GlobalsOkIff(before: seq<VarSlot>, after: seq<VarSlot>)
    requires Distinct(SlotNames(before))
    ensures GlobalsOk(before, after) <==> NoneRetyped(before, after)
  {
    forall i, j | 0 <= i < |before| && 0 <= j < |after| && SameName(before[i].name, after[j].name)
      ensures FindSlot(before, Key(after[j].name)) == Some(i)
    {
      FindsSlot(before, i);
    }
  }

  predicate HasPou(n: Module, name: string) { exists g :: 0 <= g < |n.functions| && SameName(name, n.functions[g].name) }

  /** Every POU of the old module is in the new one. */
  predicate NoPouLost(m: Module, n: Module) { forall f :: 0 <= f < |m.functions| ==> HasPou(n, m.functions[f].name) }

  predicate PousAccepted(m: Module, n: Module) {
    forall f, g :: 0 <= f < |m.functions| && 0 <= g < |n.functions| && SameName(m.functions[f].name, n.functions[g].name)
      ==> VersionsAccepted(m.functions[f], n.functions[g])
  }

  lemma NewFunctionsOkIff(m: Module, n: Module)
    requires DistinctNames(m)
    ensures (forall g :: 0 <= g < |n.functions| ==> NewFunctionOk(m, n.functions[g])) <==> PousAccepted(m, n)
  {
    if forall g :: 0 <= g < |n.functions| ==> NewFunctionOk(m, n.functions[g]) {
      forall f, g | 0 <= f < |m.functions| && 0 <= g < |n.functions| && SameName(m.functions[f].name, n.functions[g].name)
        ensures VersionsAccepted(m.functions[f], n.functions[g])
      {
        FoundIff(m, n.functions[g].name, f);
        assert NewFunctionOk(m, n.functions[g]);
        FunctionOkIff(m.functions[f], n.functions[g]);
      }
    }
    if PousAccepted(m, n) {
      forall g | 0 <= g < |n.functions| ensures NewFunctionOk(m, n.functions[g]) {
        var r := FindFunction(m, n.functions[g].name);
        if r.Some? { FunctionOkIff(m.functions[r.value], n.functions[g]); }
      }
    }
  }

  lemma NoPouLostIff(m: Module, n: Module)
    ensures (forall f :: 0 <= f < |m.functions| ==> FindFunction(n, m.functions[f].name).Some?) <==> NoPouLost(m, n)
  {
    forall f | 0 <= f < |m.functions|
      ensures FindFunction(n, m.functions[f].name).Some? <==> HasPou(n, m.functions[f].name)
    {
      var r := FindFunction(n, m.functions[f].name);
      if r.Some? { assert SameName(m.functions[f].name, n.functions[r.value].name); }
    }
  }

  /** A change is accepted if and only if no POU is lost, all versions of POUs are acceptable
      and no global changes its type. The code itself never matters. */
  lemma AcceptedIff(m: Module, n: Module)
    requires DistinctNames(m)
    ensures Compatible(m, n) <==> NoPouLost(m, n) && PousAccepted(m, n) && NoneRetyped(m.globals, n.globals)
  {
    NoPouLostIff(m, n);
    NewFunctionsOkIff(m, n);
    GlobalsOkIff(m.globals, n.globals);
  }

  /** The same POUs, variables and globals with other code. */
  predicate CodeEdit(m: Module, n: Module) {
    && |n.functions| == |m.functions| && n.globals == m.globals
    && forall f :: 0 <= f < |m.functions| ==> n.functions[f] == m.functions[f].(codeSize := n.functions[f].codeSize)
  }

  /** A plain edit of the code is always accepted, and every POU is reported as changed in its
      code only. */
  lemma CodeEditAccepted(m: Module, n: Module)
    requires DistinctNames(m) && CodeEdit(m, n)
    ensures Compatible(m, n)
    ensures forall f :: 0 <= f < |m.functions| ==> KindOf(m, n.functions[f]) == CodeOnly
  {
    forall f, g | 0 <= f < |m.functions| && 0 <= g < |n.functions| && SameName(m.functions[f].name, n.functions[g].name)
      ensures f == g && VersionsAccepted(m.functions[f], n.functions[g])
    {
      FoundIff(m, n.functions[g].name, f);
      FoundIff(m, n.functions[g].name, g);
      SameSlots(m.functions[f].locals);
    }
    forall f | 0 <= f < |m.functions| ensures KindOf(m, n.functions[f]) == CodeOnly {
      FoundIff(m, n.functions[f].name, f);
      SameSlots(m.functions[f].locals);
      VerdictMeans(m.functions[f], n.functions[f]);
    }
    SameSlots(m.globals);
    forall f | 0 <= f < |m.functions| ensures SameName(m.functions[f].name, n.functions[f].name) { }
    AcceptedIff(m, n);
  }

  lemma SameSlots(slots: seq<VarSlot>)
    ensures InFront(slots, slots) && NoneLost(slots, slots)
    ensures Distinct(SlotNames(slots)) ==> NoneRetyped(slots, slots)
  {
    PrefixIsInFront(slots, slots);
    if Distinct(SlotNames(slots)) {
      forall i, j | 0 <= i < |slots| && 0 <= j < |slots| && SameName(slots[i].name, slots[j].name) ensures slots[i].ty == slots[j].ty {
        SameIndex(slots, i, j);
      }
    }
  }

  lemma SameIndex(slots: seq<VarSlot>, i: nat, j: nat)
    requires i < |slots| && j < |slots| && Distinct(SlotNames(slots)) && SameName(slots[i].name, slots[j].name)
    ensures i == j
  {
    FindsSlot(slots, i);
    FindsSlot(slots, j);
  }

  // ---------------------------------------------------------------- the report

  lemma {:induction false} InNames(slots: seq<VarSlot>, p: VarSlot -> bool, i: nat)
    requires i < |slots| && Distinct(SlotNames(slots))
    ensures slots[i].name in NamesWhere(slots, p) <==> p(slots[i])
    decreases slots
  {
    var last, rest := |slots| - 1, slots[..|slots| - 1];
    assert SlotNames(slots)[last] == slots[last].name;
    assert forall k :: 0 <= k < last ==> SlotNames(slots)[k] == rest[k].name == SlotNames(rest)[k];
    if i < last {
      InNames(rest, p, i);
      assert slots[i].name != slots[last].name;
    } else {
      NotInNames(rest, p, slots[last].name);
    }
  }

  lemma {:induction false} NotInNames(slots: seq<VarSlot>, p: VarSlot -> bool, name: string)
    requires forall k :: 0 <= k < |slots| ==> slots[k].name != name
    ensures name !in NamesWhere(slots, p)
    decreases slots
  {
    if slots != [] { NotInNames(slots[..|slots| - 1], p, name); }
  }

  lemma InLocals(func: string, names: seq<string>, x: string)
    ensures Local(func, x) in Locals(func, names) <==> x in names
  {
    if x in names {
      var i :| 0 <= i < |names| && names[i] == x;
      assert Locals(func, names)[i] == Local(func, x);
    }
  }

  predicate HasNameOf(slots: seq<VarSlot>, s: VarSlot) { exists j :: 0 <= j < |slots| && SameName(slots[j].name, s.name) }

  /** What the report says about a PROGRAM or FUNCTION_BLOCK that both versions have: kept are
      the new variables that were there with their type, added those whose name was not there,
      gone the old ones whose name is not there any more. */
  lemma ReportMeans(m: Module, f: nat, g: Function)
    requires DistinctNames(m) && f < |m.functions| && SameName(m.functions[f].name, g.name) && Distinct(SlotNames(g.locals))
    requires g.kind == ProgramPou || g.kind == FunctionBlockPou
    ensures forall i :: 0 <= i < |g.locals| ==>
      (Local(g.name, g.locals[i].name) in FunctionReport(m, g).kept <==> Has(m.functions[f].locals, g.locals[i]))
    ensures forall i :: 0 <= i < |g.locals| ==>
      (Local(g.name, g.locals[i].name) in FunctionReport(m, g).added <==> !HasNameOf(m.functions[f].locals, g.locals[i]))
    ensures forall i :: 0 <= i < |m.functions[f].locals| ==>
      (Local(m.functions[f].name, m.functions[f].locals[i].name) in FunctionReport(m, g).gone
       <==> !HasNameOf(g.locals, m.functions[f].locals[i]))
  {
    var before, after := m.functions[f].locals, g.locals;
    FoundIff(m, g.name, f);
    forall i | 0 <= i < |after| ensures Local(g.name, after[i].name) in FunctionReport(m, g).kept <==> Has(before, after[i]) {
      InNames(after, s => HasMatch(before, s), i);
      InLocals(g.name, NamesWhere(after, s => HasMatch(before, s)), after[i].name);
      MatchIsSame(before, after[i]);
    }
    forall i | 0 <= i < |after| ensures Local(g.name, after[i].name) in FunctionReport(m, g).added <==> !HasNameOf(before, after[i]) {
      InNames(after, s => !HasName(before, s), i);
      InLocals(g.name, NamesWhere(after, s => !HasName(before, s)), after[i].name);
    }
    forall i | 0 <= i < |before|
      ensures Local(m.functions[f].name, before[i].name) in FunctionReport(m, g).gone <==> !HasNameOf(after, before[i])
    {
      InNames(before, s => !HasName(after, s), i);
      InLocals(m.functions[f].name, NamesWhere(before, s => !HasName(after, s)), before[i].name);
    }
  }
}
