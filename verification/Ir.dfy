/** The register IR of `st-ir`: values, variable slots and instructions. */
module Ir {
  import opened Names

  datatype IntWidth = NoWidth | I8 | U8 | I16 | U16 | I32 | U32 | I64 | U64

  datatype VarType =
    | BoolT | IntT | UIntT | RealT | StringT | TimeT
    | FbInstanceT(index: nat) | ClassInstanceT(index: nat)
    | StructT(index: nat) | ArrayT(index: nat) | RefT

  /** A variable whose data lies outside its own slot. */
  predicate IsComposite(ty: VarType) { ty.FbInstanceT? || ty.ClassInstanceT? || ty.StructT? || ty.ArrayT? }

  /** A runtime value. `Real` carries the bit pattern of an f64; no arithmetic
      on the pattern is assumed. */
  datatype Value =
    | Bool(b: bool) | Int(i: int) | UInt(u: nat) | Real(bits: nat)
    | Str(s: string) | Time(ms: int) | Ref(scope: nat, slot: nat) | Null | Void

  function Default(ty: VarType): Value {
    match ty
    case BoolT => Bool(false)
    case IntT => Int(0)
    case UIntT => UInt(0)
    case RealT => Real(0)
    case StringT => Str("")
    case TimeT => Time(0)
    case RefT => Null
    case _ => Void
  }

  datatype PouKind = FunctionPou | FunctionBlockPou | ProgramPou | ClassPou | MethodPou

  /** A variable slot of a memory layout. */
  datatype VarSlot = VarSlot(name: string, ty: VarType, retain: bool, persistent: bool, width: IntWidth)

  function SlotNames(slots: seq<VarSlot>): (names: seq<string>)
    ensures |names| == |slots|
    ensures forall i :: 0 <= i < |slots| ==> names[i] == slots[i].name
  {
    seq(|slots|, i requires 0 <= i < |slots| => slots[i].name)
  }

  /** `MemoryLayout::find_slot`: the first slot with the key. */
  function FindSlot(slots: seq<VarSlot>, key: string): (r: Option<nat>)
    ensures r.Some? ==> r.value < |slots| && Key(slots[r.value].name) == key
    ensures r.Some? ==> forall j :: 0 <= j < r.value ==> Key(slots[j].name) != key
    ensures r.None? ==> forall j :: 0 <= j < |slots| ==> Key(slots[j].name) != key
  {
    var names := SlotNames(slots);
    var r := FindKey(names, key);
    assert forall j :: 0 <= j < |slots| ==> names[j] == slots[j].name;
    r
  }

  /** The keys declared by a layout. */
  function Keys(slots: seq<VarSlot>): (ks: set<string>)
    ensures forall k :: k in ks <==> FindSlot(slots, k).Some?
  {
    var ks := set s | s in slots :: Key(s.name);
    assert forall k :: k in ks ==> FindSlot(slots, k).Some?;
    assert forall k :: FindSlot(slots, k).Some? ==> slots[FindSlot(slots, k).value] in slots;
    ks
  }

  type Reg = nat
  type Label = nat

  datatype Opcode =
    | OpAdd | OpSub | OpMul | OpDiv | OpMod | OpPow
    | OpAnd | OpOr | OpXor
    | CmpEq | CmpNe | CmpLt | CmpGt | CmpLe | CmpGe

  datatype UnaryOpcode = OpNeg | OpNot

  /** The instructions the modelled statements and expressions compile to. The
      fifteen three-register instructions are `Binary` with their opcode. */
  datatype Instr =
    | LoadConst(dst: Reg, value: Value)
    | LoadLocal(dst: Reg, slot: nat)
    | StoreLocal(slot: nat, src: Reg)
    | LoadGlobal(dst: Reg, slot: nat)
    | StoreGlobal(slot: nat, src: Reg)
    | Binary(op: Opcode, dst: Reg, left: Reg, right: Reg)
    | Unary(uop: UnaryOpcode, dst: Reg, src: Reg)
    | Jump(goal: Label)
    | JumpIf(src: Reg, goal: Label)
    | JumpIfNot(src: Reg, goal: Label)
    | Ret(src: Reg)
    | RetVoid

  /** `usize::MAX`: a label that has been allocated but not placed. */
  const UNPLACED: nat := 0xFFFF_FFFF_FFFF_FFFF

  /** Instructions and label table of a compiled body. */
  datatype Code = Code(instrs: seq<Instr>, labels: seq<nat>)

  /** The layouts a body is compiled against. */
  datatype Scope = Scope(locals: seq<VarSlot>, globals: seq<VarSlot>)
}
