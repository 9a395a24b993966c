/** Device profiles: the expanded register list of a Modbus device and the memory layout of
    its function block (`st-comm-modbus/src/device_fb.rs`, `st-comm-api/src/native_fb.rs`). */
module Profile {
  import opened Names

  datatype Kind = Coil | DiscreteInput | HoldingRegister | InputRegister | Virtual

  datatype Direction = Input | Output | Inout

  /** `info` holds the data type and scaling, which only the value conversions look at. */
  datatype Mapping<I> = Mapping(address: nat, kind: Kind, info: I)

  datatype Field<I> = Field(name: string, direction: Direction, register: Option<Mapping<I>>, count: nat)

  datatype Reg<I> = Reg(ioIdx: nat, address: nat, kind: Kind, info: I)

  function Width<I>(f: Field<I>): (w: nat)
    ensures w >= 1
  {
    if f.count > 1 then f.count else 1
  }

  /** Values taken by the first n fields: where field n starts. */
  function Offset<I>(fields: seq<Field<I>>, n: nat): nat
    requires n <= |fields|
  {
    if n == 0 then 0 else Offset(fields, n - 1) + Width(fields[n - 1])
  }

  method ComputeFieldOffsets<I>(fields: seq<Field<I>>) returns (offsets: seq<nat>)
    ensures |offsets| == |fields| && forall i :: 0 <= i < |fields| ==> offsets[i] == Offset(fields, i)
  {
    offsets := [];
    var offset := 0;
    for i := 0 to |fields|
      invariant offset == Offset(fields, i)
      invariant |offsets| == i && forall k :: 0 <= k < i ==> offsets[k] == Offset(fields, k)
    {
      offsets := offsets + [offset];
      offset := offset + Width(fields[i]);
    }
  }

  predicate Reads(d: Direction) { d.Input? || d.Inout? }
  predicate Writes(d: Direction) { d.Output? || d.Inout? }

  /** Register j of field i; addresses are computed in 16 bits. */
  function RegOf<I>(fields: seq<Field<I>>, i: nat, j: nat): Reg<I>
    requires i < |fields| && fields[i].register.Some?
  {
    var m := fields[i].register.value;
    Reg(Offset(fields, i) + j, (m.address % 0x10000 + j) % 0x10000, m.kind, m.info)
  }

  function ExpandField<I>(fields: seq<Field<I>>, i: nat, n: nat): (r: seq<Reg<I>>)
    requires i < |fields| && fields[i].register.Some?
    ensures |r| == n && forall j :: 0 <= j < n ==> r[j] == RegOf(fields, i, j)
  {
    seq(n, j requires 0 <= j < n => RegOf(fields, i, j))
  }

  function Expand<I>(fields: seq<Field<I>>, keep: Direction -> bool, n: nat): seq<Reg<I>>
    requires n <= |fields|
    decreases n
  {
    if n == 0 then [] else
    var before := Expand(fields, keep, n - 1);
    if keep(fields[n - 1].direction) && fields[n - 1].register.Some?
    then before + ExpandField(fields, n - 1, Width(fields[n - 1]))
    else before
  }

  method ExpandRegisters<I>(fields: seq<Field<I>>, keep: Direction -> bool) returns (regs: seq<Reg<I>>)
    ensures regs == Expand(fields, keep, |fields|)
  {
    var offsets := ComputeFieldOffsets(fields);
    regs := [];
    for i := 0 to |fields|
      invariant regs == Expand(fields, keep, i)
    {
      var f := fields[i];
      if !keep(f.direction) { continue; }
      if f.register.None? { continue; }
      var m := f.register.value;
      ghost var before := regs;
      for j := 0 to Width(f)
        invariant regs == before + ExpandField(fields, i, j)
      {
        regs := regs + [Reg(offsets[i] + j, (m.address % 0x10000 + j) % 0x10000, m.kind, m.info)];
        assert ExpandField(fields, i, j + 1) == ExpandField(fields, i, j) + [RegOf(fields, i, j)];
      }
    }
  }

  predicate Increasing<I>(regs: seq<Reg<I>>) {
    forall a, b :: 0 <= a < b < |regs| ==> regs[a].ioIdx < regs[b].ioIdx
  }

  /** No value index is used twice, and all of them lie inside the expanded value list. */
  lemma {:induction false} IndicesIncrease<I>(fields: seq<Field<I>>, keep: Direction -> bool, n: nat)
    requires n <= |fields|
    ensures Increasing(Expand(fields, keep, n))
    ensures forall r :: r in Expand(fields, keep, n) ==> r.ioIdx < Offset(fields, n)
    decreases n
  {
    if n > 0 { IndicesIncrease(fields, keep, n - 1); }
  }

  lemma {:induction false} OffsetGrows<I>(fields: seq<Field<I>>, i: nat, j: nat)
    requires i <= j <= |fields|
    ensures Offset(fields, i) + (j - i) <= Offset(fields, j)
    decreases j
  {
    if i < j { OffsetGrows(fields, i, j - 1); }
  }

  /** Exactly the kept fields with a register appear, each with all its registers. */
  lemma {:induction false} ExpandHasAll<I>(fields: seq<Field<I>>, keep: Direction -> bool, n: nat, r: Reg<I>)
    requires n <= |fields|
    ensures r in Expand(fields, keep, n) <==>
      exists i, j :: 0 <= i < n && 0 <= j < Width(fields[i]) && keep(fields[i].direction)
        && fields[i].register.Some? && r == RegOf(fields, i, j)
    decreases n
  {
    if n > 0 {
      ExpandHasAll(fields, keep, n - 1, r);
      if keep(fields[n - 1].direction) && fields[n - 1].register.Some? {
        var last := ExpandField(fields, n - 1, Width(fields[n - 1]));
        if r in last {
          var j :| 0 <= j < |last| && last[j] == r;
          assert r == RegOf(fields, n - 1, j);
        }
        var i := n - 1;
        forall j | 0 <= j < Width(fields[i]) ensures RegOf(fields, i, j) in last {
          assert last[j] == RegOf(fields, i, j);
        }
      }
    }
  }

  // ---------------------------------------------------------------- memory layout

  /** One declared field of the function block; arrays carry their bounds. */
  datatype LayoutField = LayoutField(name: string, dims: Option<seq<(int, int)>>)

  datatype Slot = Slot(name: string, offset: nat, size: nat)

  function Product(dims: seq<(int, int)>): nat {
    if dims == [] then 1 else
    var n := dims[0].1 - dims[0].0 + 1;
    (if n >= 0 then n else 0) * Product(dims[1..])
  }

  function SizeOf(f: LayoutField): nat { if f.dims.Some? then Product(f.dims.value) else 1 }

  function ExpandedFieldCount(layout: seq<LayoutField>): nat {
    if layout == [] then 0 else SizeOf(layout[0]) + ExpandedFieldCount(layout[1..])
  }

  lemma {:induction false} CountSnoc(layout: seq<LayoutField>, f: LayoutField)
    ensures ExpandedFieldCount(layout + [f]) == ExpandedFieldCount(layout) + SizeOf(f)
    decreases layout
  {
    if layout != [] {
      assert (layout + [f])[1..] == layout[1..] + [f];
      CountSnoc(layout[1..], f);
    } else {
      assert (layout + [f])[1..] == [];
    }
  }

  /** Slots lie one after the other from 0 to `total`, without gap or overlap. */
  predicate Tiles(slots: seq<Slot>, total: nat) {
    && (slots == [] ==> total == 0)
    && (slots != [] ==> slots[0].offset == 0 && slots[|slots| - 1].offset + slots[|slots| - 1].size == total)
    && forall k :: 0 <= k < |slots| - 1 ==> slots[k + 1].offset == slots[k].offset + slots[k].size
  }

  lemma TilesSnoc(slots: seq<Slot>, total: nat, s: Slot)
    requires Tiles(slots, total) && s.offset == total
    ensures Tiles(slots + [s], total + s.size)
  {
  }

  method LayoutToMemoryLayout(layout: seq<LayoutField>) returns (slots: seq<Slot>)
    ensures |slots| == |layout| && Tiles(slots, ExpandedFieldCount(layout))
    ensures forall k :: 0 <= k < |layout| ==>
      slots[k] == Slot(layout[k].name, ExpandedFieldCount(layout[..k]), SizeOf(layout[k]))
  {
    slots := [];
    var offset := 0;
    for i := 0 to |layout|
      invariant |slots| == i && offset == ExpandedFieldCount(layout[..i]) && Tiles(slots, offset)
      invariant forall k :: 0 <= k < i ==>
        slots[k] == Slot(layout[k].name, ExpandedFieldCount(layout[..k]), SizeOf(layout[k]))
    {
      assert layout[..i + 1] == layout[..i] + [layout[i]];
      CountSnoc(layout[..i], layout[i]);
      TilesSnoc(slots, offset, Slot(layout[i].name, offset, SizeOf(layout[i])));
      slots := slots + [Slot(layout[i].name, offset, SizeOf(layout[i]))];
      offset := offset + SizeOf(layout[i]);
    }
    assert layout[..|layout|] == layout;
  }

  const PROFILE_FIELD_OFFSET: nat := 10

  function Scalar(name: string): LayoutField { LayoutField(name, None) }

  function FixedFields(): (f: seq<LayoutField>)
    ensures |f| == 10 && forall k :: 0 <= k < 10 ==> f[k].dims.None?
  {
    [Scalar("link"), Scalar("slave_id"), Scalar("refresh_rate"), Scalar("timeout"), Scalar("preamble"),
     Scalar("connected"), Scalar("error_code"), Scalar("errors_count"), Scalar("io_cycles"), Scalar("last_response_ms")]
  }

  function ProfileField<I>(f: Field<I>): LayoutField {
    LayoutField(f.name, if f.count > 1 then Some([(0, f.count - 1)]) else None)
  }

  function RtuLayout<I>(fields: seq<Field<I>>): (r: seq<LayoutField>)
    ensures |r| == 10 + |fields|
  {
    FixedFields() + seq(|fields|, i requires 0 <= i < |fields| => ProfileField(fields[i]))
  }

  lemma ProfileFieldSize<I>(f: Field<I>)
    ensures SizeOf(ProfileField(f)) == Width(f)
  {
    if f.count > 1 {
      var dims: seq<(int, int)> := [(0, f.count - 1)];
      assert dims[1..] == [];
      assert Product(dims) == f.count * Product([]);
    }
  }

  lemma {:induction false} ScalarCount(fields: seq<LayoutField>)
    requires forall k :: 0 <= k < |fields| ==> fields[k].dims.None?
    ensures ExpandedFieldCount(fields) == |fields|
    decreases fields
  {
    if fields != [] { ScalarCount(fields[1..]); }
  }

  /** The memory layout and the index arithmetic of `execute` agree: profile field i starts
      at 10 plus its computed offset. */
  lemma {:induction false} ProfileFieldStarts<I>(fields: seq<Field<I>>, i: nat)
    requires i <= |fields|
    ensures ExpandedFieldCount(RtuLayout(fields)[..PROFILE_FIELD_OFFSET + i]) == PROFILE_FIELD_OFFSET + Offset(fields, i)
    decreases i
  {
    var layout := RtuLayout(fields);
    if i == 0 {
      assert layout[..PROFILE_FIELD_OFFSET] == FixedFields();
      ScalarCount(FixedFields());
    } else {
      ProfileFieldStarts(fields, i - 1);
      var before := layout[..PROFILE_FIELD_OFFSET + (i - 1)];
      assert layout[..PROFILE_FIELD_OFFSET + i] == before + [ProfileField(fields[i - 1])];
      CountSnoc(before, ProfileField(fields[i - 1]));
      ProfileFieldSize(fields[i - 1]);
    }
  }
}
