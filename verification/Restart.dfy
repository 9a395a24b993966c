/** The first scan after a restart: `run` starts a PROGRAM with retained locals behind its
    initialisation code (`vm.rs:135-165`), and restoring a snapshot makes them retained. */
module Restart {
  import opened Names
  import opened Ir
  import opened Ast
  import opened StSemantics
  import opened Vm
  import opened Runs
  import opened CodeRuns
  import opened Pou
  import opened Initializers
  import OnlineChange
  import Retain

  type Plc = OnlineChange.VmState

  /** Function f of the module is the compiled program p, and values are as many as slots. */
  ghost predicate Holds(u: Plc, f: nat, p: PouDef) {
    && f < |u.program.functions| && u.program.functions[f].kind.ProgramPou? && u.program.functions[f].locals == Layout(p)
    && |u.globals| == |u.program.globals|
    && (f in u.retained ==> |u.retained[f]| == |Layout(p)|)
  }

  /** The frame that is pushed for a scan. */
  function FrameOf(u: Plc, f: nat, p: PouDef, regs: seq<Value>): State {
    if f in u.retained then Running(|BodyStart(p, u.program.globals).instrs|, regs, Mem(u.retained[f], u.globals))
    else Running(0, regs, Mem(OnlineChange.Defaults(Layout(p)), u.globals))
  }

  /** Every local at the value its declaration gives it. */
  function InitialLocals(ops: Ops, u: Plc, p: PouDef): Option<seq<Value>>
    requires |u.globals| == |u.program.globals|
  {
    var mem := Mem(OnlineChange.Defaults(Layout(p)), u.globals);
    match InitMem(ops, Slots(p.registered), u.program.globals, mem, p.decls)
    case None => None
    case Some(m) => Some(m.locals)
  }

  /** The locals with which the body of the next scan starts. */
  function BodyLocals(ops: Ops, u: Plc, f: nat, p: PouDef): Option<seq<Value>>
    requires |u.globals| == |u.program.globals|
  {
    if f in u.retained then Some(u.retained[f]) else InitialLocals(ops, u, p)
  }

  /** The machine reaches the body with exactly these locals, or fails in an initialiser. */
  lemma ScanReachesBody(u: Plc, f: nat, p: PouDef, alu: Alu, ops: Ops, regs: seq<Value>) returns (n: nat, t: State)
    requires Agrees(alu, ops) && Holds(u, f, p) && CompilePou(p, u.program.globals).nextReg <= |regs|
    ensures t == Steps(StepFn(MachineOf(p, u.program.globals, alu)), FrameOf(u, f, p, regs), n)
    ensures match BodyLocals(ops, u, f, p)
            case None => t.Trapped?
            case Some(locals) =>
              t.Running? && t.mem == Mem(locals, u.globals) && AtBody(p, u.program.globals, MachineOf(p, u.program.globals, alu), t)
  {
    if f in u.retained {
      n, t := 0, FrameOf(u, f, p, regs);
    } else {
      n, t := ReachesBody(p, u.program.globals, alu, ops, FrameOf(u, f, p, regs));
    }
  }

  /** After restoring a snapshot into a machine whose program has not run yet, a local that is
      not restored starts the first scan at its declared initial value if and only if that is
      the default of its type, or the program has no local the snapshot saves: with one, the
      program counts as running and its initialisation code is skipped. */
  lemma UnflaggedStartsInitialIff(s: Plc, snap: Retain.Snapshot, t: Plc, u: Plc, warm: bool, f: nat, i: nat, p: PouDef, ops: Ops)
    requires Retain.ExactNames(s.program) && t.program == s.program && |t.globals| == |t.program.globals|
    requires Retain.IsSnapshotOf(s, snap) && Retain.Restored(t, snap, Retain.FilterOf(warm), u)
    requires Retain.Saved(s, f) && Holds(s, f, p) && i < |Layout(p)| && f !in t.retained
    requires !Retain.Restarts(Layout(p)[i], warm) && (Retain.IsScalar(Layout(p)[i].ty) ==> Retain.IsCompatible(s.retained[f][i], Layout(p)[i].ty))
    requires |u.globals| == |u.program.globals| && InitialLocals(ops, u, p).Some?
    ensures BodyLocals(ops, u, f, p).Some? && |BodyLocals(ops, u, f, p).value| == |Layout(p)| == |InitialLocals(ops, u, p).value|
    ensures BodyLocals(ops, u, f, p).value[i] == InitialLocals(ops, u, p).value[i] <==>
      Default(Layout(p)[i].ty) == InitialLocals(ops, u, p).value[i]
      || !exists j :: 0 <= j < |Layout(p)| && Retain.Takes(Retain.LocalSection, Layout(p)[j])
  {
    Retain.FlaggedLocalIsSaved(s, snap, f);
    if s.program.functions[f].name in snap.programs {
      Retain.LocalRoundTrip(s, snap, t, u, warm, f, i);
    } else {
      assert Retain.Lookup(u.retained, f) == Retain.LocalsAfter(t, snap.programs, Retain.FilterOf(warm), f);
    }
  }

  /** A : INT retained, and B : INT := 5. */
  function RetainedBesideInitialised(): PouDef {
    PouDef([], [VarDecl(VarSlot("A", IntT, true, false, I16), None),
                VarDecl(VarSlot("B", IntT, false, false, I16), Some(Lit(Int(5))))], None, [])
  }

  lemma DeclaredFive(ops: Ops, u: Plc)
    requires |u.globals| == |u.program.globals| && ops.narrow(Int(5), I16) == Int(5)
    ensures |Layout(RetainedBesideInitialised())| == 2
    ensures InitialLocals(ops, u, RetainedBesideInitialised()) == Some([Int(0), Int(5)])
  {
    var p := RetainedBesideInitialised();
    var mem := Mem(OnlineChange.Defaults(Layout(p)), u.globals);
    var b := p.decls[1].slot;
    assert p.decls[1..] == [p.decls[1]] && p.decls[1..][1..] == [];
    assert InitMem(ops, [p.decls[0].slot, b], u.program.globals, mem.(locals := mem.locals[1 := Int(5)]), []).Some?;
    assert [p.decls[0].slot] + [b] == [p.decls[0].slot, b];
    assert Slots(p.registered) + [p.decls[0].slot] == [p.decls[0].slot];
    assert mem.locals[1 := Int(5)] == [Int(0), Int(5)];
  }

  /** After the restart B is 0 when the body of the first scan begins, not 5. */
  lemma InitialiserSkipped(s: Plc, snap: Retain.Snapshot, t: Plc, u: Plc, f: nat, ops: Ops)
    requires Retain.ExactNames(s.program) && t.program == s.program && |t.globals| == |t.program.globals| == |u.globals|
    requires Retain.IsSnapshotOf(s, snap) && Retain.Restored(t, snap, Retain.FilterOf(true), u)
    requires Retain.Saved(s, f) && Holds(s, f, RetainedBesideInitialised()) && f !in t.retained
    requires |s.retained[f]| == 2 && s.retained[f][1].Int? && ops.narrow(Int(5), I16) == Int(5)
    ensures BodyLocals(ops, u, f, RetainedBesideInitialised()).Some? && |BodyLocals(ops, u, f, RetainedBesideInitialised()).value| == 2
    ensures BodyLocals(ops, u, f, RetainedBesideInitialised()).value[1] == Int(0)
    ensures InitialLocals(ops, u, RetainedBesideInitialised()) == Some([Int(0), Int(5)])
  {
    var p := RetainedBesideInitialised();
    DeclaredFive(ops, u);
    assert Retain.Takes(Retain.LocalSection, Layout(p)[0]);
    Retain.FlaggedLocalIsSaved(s, snap, f);
    Retain.LocalRoundTrip(s, snap, t, u, true, f, 1);
  }
}
