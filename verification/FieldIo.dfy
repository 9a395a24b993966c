/** A device profile field by field: which cells its values come from and go to
    (`st-comm-modbus/src/device_fb.rs:322-575`). */
module FieldIo {
  import opened Names
  import opened Profile
  import opened Batching

  // ---------------------------------------------------------------- the register list

  /** A field of a direction that is looked at, with a register. */
  predicate Kept<I>(f: Field<I>, keep: Direction -> bool) { keep(f.direction) && f.register.Some? }

  lemma {:induction false} CutAndCount(address: nat, j: nat)
    ensures (address % 0x10000 + j) % 0x10000 == (address + j) % 0x10000
  {
    var q, r := address / 0x10000, address % 0x10000;
    assert address + j == (r + j) + q * 0x10000;
    Whole(r + j, q);
  }

  lemma {:induction false} Whole(x: int, q: int)
    ensures (x + q * 0x10000) % 0x10000 == x % 0x10000
  {
  }

  /** Value j of a kept field lies behind the registers of the fields before it: at the field's
      offset plus j in the values, at its address plus j, in 16 bits, on the device. */
  lemma {:induction false} RegisterAt<I>(fields: seq<Field<I>>, keep: Direction -> bool, n: nat, i: nat, j: nat)
    requires i < n <= |fields| && Kept(fields[i], keep) && j < Width(fields[i])
    ensures var k, m := |Expand(fields, keep, i)| + j, fields[i].register.value;
      && k < |Expand(fields, keep, n)|
      && Expand(fields, keep, n)[k] == Reg(Offset(fields, i) + j, (m.address + j) % 0x10000, m.kind, m.info)
    decreases n
  {
    if i < n - 1 {
      RegisterAt(fields, keep, n - 1, i, j);
    } else {
      CutAndCount(fields[i].register.value.address, j);
      assert ExpandField(fields, i, Width(fields[i]))[j] == RegOf(fields, i, j);
    }
  }

  /** Every register of the list is such a value. */
  lemma {:induction false} FieldOfRegister<I>(fields: seq<Field<I>>, keep: Direction -> bool, n: nat, k: nat) returns (i: nat, j: nat)
    requires n <= |fields| && k < |Expand(fields, keep, n)|
    ensures i < n && Kept(fields[i], keep) && j < Width(fields[i]) && k == |Expand(fields, keep, i)| + j
    decreases n
  {
    if k < |Expand(fields, keep, n - 1)| {
      i, j := FieldOfRegister(fields, keep, n - 1, k);
    } else {
      i, j := n - 1, k - |Expand(fields, keep, n - 1)|;
    }
  }

  /** No two fields share a place among the values. */
  lemma {:induction false} OffsetsApart<I>(fields: seq<Field<I>>, i: nat, j: nat, i': nat, j': nat)
    requires i < |fields| && j < Width(fields[i]) && i' < |fields| && j' < Width(fields[i'])
    requires Offset(fields, i) + j == Offset(fields, i') + j'
    ensures i == i' && j == j'
  {
    if i < i' { OffsetNext(fields, i, i'); } else if i' < i { OffsetNext(fields, i', i); }
  }

  lemma {:induction false} OffsetNext<I>(fields: seq<Field<I>>, i: nat, i': nat)
    requires i < i' <= |fields|
    ensures Offset(fields, i) + Width(fields[i]) <= Offset(fields, i')
  {
    assert Offset(fields, i + 1) == Offset(fields, i) + Width(fields[i]);
    OffsetGrows(fields, i + 1, i');
  }

  lemma {:induction false} ExpandGrows<I>(fields: seq<Field<I>>, keep: Direction -> bool, i: nat, n: nat)
    requires i < n <= |fields|
    ensures |Expand(fields, keep, i)| + (if Kept(fields[i], keep) then Width(fields[i]) else 0) <= |Expand(fields, keep, n)|
    decreases n
  {
    if i < n - 1 { ExpandGrows(fields, keep, i, n - 1); }
  }

  // ---------------------------------------------------------------- runs and fields

  /** Consecutive registers of one kind from s on, as those of a field are. */
  predicate Block<I(!new)>(regs: seq<Reg<I>>, s: nat, w: nat) {
    s + w <= |regs| && forall k :: s <= k < s + w ==> regs[k].kind == regs[s].kind && regs[k].address == (regs[s].address + (k - s)) % 0x10000
  }

  lemma {:induction false} AddressesAdd(a: nat, i: nat, j: nat)
    ensures ((a + i) % 0x10000 + j) % 0x10000 == (a + (i + j)) % 0x10000
  {
    CutAndCount(a + i, j);
  }

  /** A run that reaches into a block takes all of it. */
  lemma {:induction false} BlockNotSplit<I(!new)>(regs: seq<Reg<I>>, i: nat, s: nat, w: nat)
    requires Block(regs, s, w) && (forall k :: 0 <= k < |regs| ==> regs[k].address < 0x10000)
    requires i <= s < |regs| && s < RunEnd(regs, i, i + 1)
    ensures s + w <= RunEnd(regs, i, i + 1)
  {
    var e := RunEnd(regs, i, i + 1);
    if e < s + w {
      RunIsMaximal(regs, i, i + 1);
      RunMembers(regs, i, i + 1, s);
      AddressesAdd(regs[i].address, s - i, e - s);
    }
  }

  lemma {:induction false} FieldIsBlock<I(!new)>(fields: seq<Field<I>>, keep: Direction -> bool, i: nat)
    requires i < |fields| && Kept(fields[i], keep)
    ensures Block(Expand(fields, keep, |fields|), |Expand(fields, keep, i)|, Width(fields[i]))
  {
    var regs, s := Expand(fields, keep, |fields|), |Expand(fields, keep, i)|;
    RegisterAt(fields, keep, |fields|, i, 0);
    ExpandGrows(fields, keep, i, |fields|);
    forall k | s <= k < s + Width(fields[i])
      ensures regs[k].kind == regs[s].kind && regs[k].address == (regs[s].address + (k - s)) % 0x10000
    {
      RegisterAt(fields, keep, |fields|, i, k - s);
      CutAndCount(fields[i].register.value.address, k - s);
    }
  }

  /** The registers of one field are never split between two transactions. */
  lemma {:induction false} FieldNotSplit<I(!new)>(fields: seq<Field<I>>, keep: Direction -> bool, i: nat, from: nat)
    requires i < |fields| && Kept(fields[i], keep)
    requires from <= |Expand(fields, keep, i)| < |Expand(fields, keep, |fields|)|
    requires |Expand(fields, keep, i)| < RunEnd(Expand(fields, keep, |fields|), from, from + 1)
    ensures |Expand(fields, keep, i)| + Width(fields[i]) <= RunEnd(Expand(fields, keep, |fields|), from, from + 1)
  {
    FieldIsBlock(fields, keep, i);
    AddressesFit(fields, keep, |fields|);
    BlockNotSplit(Expand(fields, keep, |fields|), from, |Expand(fields, keep, i)|, Width(fields[i]));
  }

  // ---------------------------------------------------------------- reading

  /** The field is read, and from a device. */
  predicate IsRead<I>(f: Field<I>) {
    (f.direction.Input? || f.direction.Inout?) && f.register.Some? && !f.register.value.kind.Virtual?
  }

  /** A fault-free input pass, field by field: value j of every field that is read is loaded
      from the cell of the field's kind j addresses behind its own; all others stay. */
  lemma {:induction false} InputFields<I(!new), V(!new)>(d: Device, c: Conversions<I, V>, fields: seq<Field<I>>, values: seq<V>, i: nat, j: nat)
    requires Sensible(d) && |values| == Offset(fields, |fields|) && RunsAnswered(d.readStatus, Readable, InputRegs(fields), 0)
    requires i < |fields| && j < Width(fields[i])
    ensures Fitting(InputRegs(fields), values) && Offset(fields, i) + j < |values|
    ensures var after := BatchRead(d, c, InputRegs(fields), 0, Pass(values, ERR_OK)).values;
      if IsRead(fields[i]) then
        var m := fields[i].register.value; var cell := (m.kind, (m.address + j) % 0x10000);
        cell in d.cells && after[Offset(fields, i) + j] == c.load(m.kind, m.info, d.cells[cell])
      else after[Offset(fields, i) + j] == values[Offset(fields, i) + j]
  {
    var regs := InputRegs(fields);
    InputPass(d, c, fields, values);
    OffsetNext(fields, i, |fields|);
    if IsRead(fields[i]) {
      RegisterAt(fields, dir => Reads(dir), |fields|, i, j);
      assert Readable(regs[|Expand(fields, dir => Reads(dir), i)| + j].kind);
    } else {
      forall k | 0 <= k < |regs| && Readable(regs[k].kind) ensures regs[k].ioIdx != Offset(fields, i) + j {
        ReadElsewhere(fields, k, i, j);
      }
    }
  }

  lemma {:induction false} ReadElsewhere<I>(fields: seq<Field<I>>, k: nat, i: nat, j: nat)
    requires k < |InputRegs(fields)| && Readable(InputRegs(fields)[k].kind)
    requires i < |fields| && j < Width(fields[i]) && !IsRead(fields[i])
    ensures InputRegs(fields)[k].ioIdx != Offset(fields, i) + j
  {
    var i', j' := FieldOfRegister(fields, dir => Reads(dir), |fields|, k);
    RegisterAt(fields, dir => Reads(dir), |fields|, i', j');
    if Offset(fields, i') + j' == Offset(fields, i) + j { OffsetsApart(fields, i', j', i, j); }
  }

  // ---------------------------------------------------------------- writing

  predicate IsWritten<I>(f: Field<I>) {
    (f.direction.Output? || f.direction.Inout?) && f.register.Some?
    && (f.register.value.kind.Coil? || f.register.value.kind.HoldingRegister?)
  }

  /** Value j of field i goes to this cell of the device. */
  predicate GoesTo<I>(fields: seq<Field<I>>, i: nat, j: nat, cell: Cell) {
    i < |fields| && j < Width(fields[i]) && IsWritten(fields[i])
    && cell == (fields[i].register.value.kind, (fields[i].register.value.address + j) % 0x10000)
  }

  lemma {:induction false} WrittenSingly<I(!new)>(d: Device, regs: seq<Reg<I>>, i: nat, k: nat)
    requires Sensible(d) && i <= k < |regs| && RunsAnswered(d.writeStatus, Writable, regs, i)
    requires Writable(regs[k].kind) && forall j :: 0 <= j < |regs| ==> regs[j].address < 0x10000
    ensures d.writeStatus(regs[k].kind, regs[k].address, 1) == ERR_OK
    decreases |regs| - i
  {
    if !Writable(regs[i].kind) {
      WrittenSingly(d, regs, i + 1, k);
    } else {
      var end := RunEnd(regs, i, i + 1);
      if k < end {
        RunAddresses(regs, i, end);
        assert regs[k].address == regs[i].address + (k - i);
      } else {
        WrittenSingly(d, regs, end, k);
      }
    }
  }

  /** What single writes leave in a cell is what the last register that names it sends. */
  lemma {:induction false} LastWriteStays<I(!new), V(!new)>(d: Device, c: Conversions<I, V>, regs: seq<Reg<I>>, i: nat, k: nat, values: seq<V>, s: WritePass)
    requires Sensible(d) && i <= k < |regs| && Fitting(regs, values) && Writable(regs[k].kind)
    requires d.writeStatus(regs[k].kind, regs[k].address, 1) == ERR_OK
    requires forall l :: k < l < |regs| && Writable(regs[l].kind) ==> (regs[l].kind, regs[l].address) != (regs[k].kind, regs[k].address)
    ensures var after := SingleWrite(d, c, regs, i, values, s).cells; var cell := (regs[k].kind, regs[k].address);
      cell in after && after[cell] == Raw(c, regs, k, values)
    decreases |regs| - i
  {
    if !Writable(regs[i].kind) {
      LastWriteStays(d, c, regs, i + 1, k, values, s);
    } else {
      var sent := [Raw(c, regs, i, values)];
      var next := Transact(d, s, regs[i].kind, regs[i].address, sent);
      if i < k {
        LastWriteStays(d, c, regs, i + 1, k, values, next);
      } else {
        assert WriteCells(s.cells, regs[k].kind, regs[k].address, sent, 0) == s.cells;
        SingleWriteElsewhere(d, c, regs, k + 1, values, next, (regs[k].kind, regs[k].address));
      }
    }
  }

  /** A fault-free output pass, field by field: value j of a field that is written ends in the
      cell of the field's kind j addresses behind its own, unless a later value goes there. */
  lemma {:induction false} OutputFields<I(!new), V(!new)>(d: Device, c: Conversions<I, V>, fields: seq<Field<I>>, values: seq<V>, i: nat, j: nat, cell: Cell)
    requires Sensible(d) && |values| == Offset(fields, |fields|) && RunsAnswered(d.writeStatus, Writable, OutputRegs(fields), 0)
    requires GoesTo(fields, i, j, cell)
    requires forall i', j' :: GoesTo(fields, i', j', cell) ==> Offset(fields, i') + j' <= Offset(fields, i) + j
    ensures Fitting(OutputRegs(fields), values) && Offset(fields, i) + j < |values|
    ensures var after := BatchWrite(d, c, OutputRegs(fields), 0, values, WritePass(d.cells, ERR_OK)).cells;
      cell in after && after[cell] == c.store(fields[i].register.value.kind, fields[i].register.value.info, values[Offset(fields, i) + j])
  {
    var regs := OutputRegs(fields);
    var k := |Expand(fields, dir => Writes(dir), i)| + j;
    OutputRegsFit(fields, values);
    OffsetNext(fields, i, |fields|);
    RegisterAt(fields, dir => Writes(dir), |fields|, i, j);
    forall l | k < l < |regs| && Writable(regs[l].kind) ensures (regs[l].kind, regs[l].address) != cell {
      WrittenLater(fields, l, k, i, j, cell);
    }
    WrittenSingly(d, regs, 0, k);
    BatchWriteIsSingleWrite(d, c, regs, 0, values, WritePass(d.cells, ERR_OK));
    LastWriteStays(d, c, regs, 0, k, values, WritePass(d.cells, ERR_OK));
  }

  lemma {:induction false} WrittenLater<I>(fields: seq<Field<I>>, l: nat, k: nat, i: nat, j: nat, cell: Cell)
    requires GoesTo(fields, i, j, cell) && k == |Expand(fields, dir => Writes(dir), i)| + j
    requires forall i', j' :: GoesTo(fields, i', j', cell) ==> Offset(fields, i') + j' <= Offset(fields, i) + j
    requires k < l < |OutputRegs(fields)| && Writable(OutputRegs(fields)[l].kind)
    ensures (OutputRegs(fields)[l].kind, OutputRegs(fields)[l].address) != cell
  {
    var regs := OutputRegs(fields);
    var i', j' := FieldOfRegister(fields, dir => Writes(dir), |fields|, l);
    RegisterAt(fields, dir => Writes(dir), |fields|, i', j');
    RegisterAt(fields, dir => Writes(dir), |fields|, i, j);
    IndicesIncrease(fields, dir => Writes(dir), |fields|);
    assert regs[k].ioIdx < regs[l].ioIdx;
    assert !GoesTo(fields, i', j', cell);
  }
}
