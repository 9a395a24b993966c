/** The fetch-decode-execute loop of `st-engine/src/vm.rs` for one frame. */
module Vm {
  import opened Names
  import opened Ir

  /** The arithmetic of the VM; `None` is an error or a panic of the operation. */
  datatype Alu = Alu(
    bin: (Opcode, Value, Value) -> Option<Value>,
    un: (UnaryOpcode, Value) -> Option<Value>,
    truthy: Value -> bool,
    narrow: (Value, IntWidth) -> Value)

  datatype Mem = Mem(locals: seq<Value>, globals: seq<Value>)

  datatype State =
    | Running(pc: nat, regs: seq<Value>, mem: Mem)
    | Returned(value: Value, mem: Mem)
    | Trapped(mem: Mem)          // VmError, or a Rust panic of an operation
    | BadCode(mem: Mem)          // register, slot or label out of range

  /** What stays fixed while a body runs. */
  datatype Machine = Machine(alu: Alu, scope: Scope, code: Code)

  function SetReg(s: State, dst: Reg, v: Value): State
    requires s.Running?
  {
    if dst < |s.regs| then Running(s.pc + 1, s.regs[dst := v], s.mem) else BadCode(s.mem)
  }

  function JumpTo(m: Machine, s: State, l: Label): State
    requires s.Running?
  {
    if l < |m.code.labels| then s.(pc := m.code.labels[l]) else BadCode(s.mem)
  }

  function Width(slots: seq<VarSlot>, slot: nat): IntWidth {
    if slot < |slots| then slots[slot].width else NoWidth
  }

  /** One instruction. A stopped state stays as it is. */
  function Step(m: Machine, s: State): State {
    if !s.Running? then s
    else if s.pc >= |m.code.instrs| then Returned(Void, s.mem)
    else
      match m.code.instrs[s.pc]
      case LoadConst(dst, v) => SetReg(s, dst, v)
      case LoadLocal(dst, slot) =>
        if slot < |s.mem.locals| then SetReg(s, dst, s.mem.locals[slot]) else BadCode(s.mem)
      case StoreLocal(slot, src) =>
        if slot < |s.mem.locals| && src < |s.regs| then
          Running(s.pc + 1, s.regs, s.mem.(locals := s.mem.locals[slot :=
            m.alu.narrow(s.regs[src], Width(m.scope.locals, slot))]))
        else BadCode(s.mem)
      case LoadGlobal(dst, slot) =>
        if slot < |s.mem.globals| then SetReg(s, dst, s.mem.globals[slot]) else BadCode(s.mem)
      case StoreGlobal(slot, src) =>
        if slot < |s.mem.globals| && src < |s.regs| then
          Running(s.pc + 1, s.regs, s.mem.(globals := s.mem.globals[slot :=
            m.alu.narrow(s.regs[src], Width(m.scope.globals, slot))]))
        else BadCode(s.mem)
      case Binary(op, dst, l, r) =>
        if l < |s.regs| && r < |s.regs| then
          match m.alu.bin(op, s.regs[l], s.regs[r])
          case None => Trapped(s.mem)
          case Some(v) => SetReg(s, dst, v)
        else BadCode(s.mem)
      case Unary(op, dst, src) =>
        if src < |s.regs| then
          match m.alu.un(op, s.regs[src])
          case None => Trapped(s.mem)
          case Some(v) => SetReg(s, dst, v)
        else BadCode(s.mem)
      case Jump(l) => JumpTo(m, s, l)
      case JumpIf(src, l) =>
        if src >= |s.regs| then BadCode(s.mem)
        else if m.alu.truthy(s.regs[src]) then JumpTo(m, s, l) else s.(pc := s.pc + 1)
      case JumpIfNot(src, l) =>
        if src >= |s.regs| then BadCode(s.mem)
        else if !m.alu.truthy(s.regs[src]) then JumpTo(m, s, l) else s.(pc := s.pc + 1)
      case Ret(src) =>
        if src < |s.regs| then Returned(s.regs[src], s.mem) else BadCode(s.mem)
      case RetVoid => Returned(Void, s.mem)
  }
}
