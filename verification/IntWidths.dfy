/** Declared integer widths and the wrap at every store (`narrow_value`). */
module IntWidths {
  import opened Ir

  const MIN64: int := -0x8000_0000_0000_0000
  const MAX64: int := 0x7FFF_FFFF_FFFF_FFFF

  /** Half the number of values of an integer width. */
  function Half(w: IntWidth): int {
    match w
    case I8 => 0x80 case U8 => 0x80
    case I16 => 0x8000 case U16 => 0x8000
    case I32 => 0x8000_0000 case U32 => 0x8000_0000
    case _ => 0x8000_0000_0000_0000
  }

  /** The ranges of SINT to LINT, and of USINT to ULINT. */
  lemma IntegerRanges(i: int, u: nat)
    ensures InRange(Int(i), I8) <==> -128 <= i <= 127
    ensures InRange(Int(i), I16) <==> -32_768 <= i <= 32_767
    ensures InRange(Int(i), I32) <==> -2_147_483_648 <= i <= 2_147_483_647
    ensures InRange(Int(i), I64) <==> -9_223_372_036_854_775_808 <= i <= 9_223_372_036_854_775_807
    ensures InRange(UInt(u), U8) <==> u <= 255
    ensures InRange(UInt(u), U16) <==> u <= 65_535
    ensures InRange(UInt(u), U32) <==> u <= 4_294_967_295
    ensures InRange(UInt(u), U64) <==> u <= 18_446_744_073_709_551_615
  {
  }

  /** Two's complement wrap, signed and unsigned. */
  function WrapSigned(i: int, w: IntWidth): int {
    match w
    case I8 => (i + 0x80) % 0x100 - 0x80
    case I16 => (i + 0x8000) % 0x1_0000 - 0x8000
    case I32 => (i + 0x8000_0000) % 0x1_0000_0000 - 0x8000_0000
    case _ => (i + 0x8000_0000_0000_0000) % 0x1_0000_0000_0000_0000 - 0x8000_0000_0000_0000
  }

  function WrapUnsigned(i: int, w: IntWidth): nat {
    match w
    case U8 => i % 0x100
    case U16 => i % 0x1_0000
    case U32 => i % 0x1_0000_0000
    case _ => i % 0x1_0000_0000_0000_0000
  }

  function Wrap64(i: int): int { WrapSigned(i, I64) }

  predicate IsSigned(w: IntWidth) { w == I8 || w == I16 || w == I32 || w == I64 }

  /** `narrow_value`: two's complement wrap at every store. */
  function Narrow(v: Value, w: IntWidth): Value {
    if w.NoWidth? then v
    else
      match v
      case Int(i) => if IsSigned(w) then Int(WrapSigned(i, w)) else UInt(WrapUnsigned(i, w))
      case UInt(u) => if IsSigned(w) then Int(WrapSigned(u, w)) else UInt(WrapUnsigned(u, w))
      case other => other
  }

  predicate InRange(v: Value, w: IntWidth) {
    match v
    case Int(i) => w.NoWidth? || (IsSigned(w) && -Half(w) <= i < Half(w))
    case UInt(u) => w.NoWidth? || (!IsSigned(w) && u < 2 * Half(w))
    case _ => true
  }

  lemma SignedFits(i: int, w: IntWidth)
    requires IsSigned(w)
    ensures -Half(w) <= WrapSigned(i, w) < Half(w)
    ensures -Half(w) <= i < Half(w) ==> WrapSigned(i, w) == i
  {
    match w case I8 => case I16 => case I32 => case I64 =>
  }

  lemma UnsignedFits(i: int, w: IntWidth)
    requires !IsSigned(w) && !w.NoWidth?
    ensures 0 <= WrapUnsigned(i, w) < 2 * Half(w)
    ensures 0 <= i < 2 * Half(w) ==> WrapUnsigned(i, w) == i
  {
    match w case U8 => case U16 => case U32 => case U64 =>
  }

  /** A stored integer has the signedness and range of its slot, and storing a value that
      fits changes nothing. */
  lemma NarrowFits(v: Value, w: IntWidth)
    ensures InRange(Narrow(v, w), w)
    ensures InRange(v, w) ==> Narrow(v, w) == v
  {
    if (v.Int? || v.UInt?) && !w.NoWidth? {
      var i := if v.Int? then v.i else v.u;
      if IsSigned(w) { SignedFits(i, w); } else { UnsignedFits(i, w); }
    }
  }

  predicate IsInteger(v: Value) { v.Int? || v.UInt? }

  function Number(v: Value): int
    requires IsInteger(v)
  {
    if v.Int? then v.i else v.u
  }

  /** The value of width w that stands for the integer i. */
  function Fit(i: int, w: IntWidth): Value
    requires !w.NoWidth?
  {
    if IsSigned(w) then Int(WrapSigned(i, w)) else UInt(WrapUnsigned(i, w))
  }

  predicate Congruent(i: int, j: int) { (i - j) % 0x1_0000_0000_0000_0000 == 0 }

  lemma Whole8(x: int, t: int) ensures (x + t * 0x100) % 0x100 == x % 0x100 { }
  lemma Whole16(x: int, t: int) ensures (x + t * 0x1_0000) % 0x1_0000 == x % 0x1_0000 { }
  lemma Whole32(x: int, t: int) ensures (x + t * 0x1_0000_0000) % 0x1_0000_0000 == x % 0x1_0000_0000 { }
  lemma Whole64(x: int, t: int) ensures (x + t * 0x1_0000_0000_0000_0000) % 0x1_0000_0000_0000_0000 == x % 0x1_0000_0000_0000_0000 { }

  /** What a slot keeps of an integer depends on its residue modulo 2^64 only. */
  lemma FitSame(i: int, j: int, w: IntWidth)
    requires Congruent(i, j) && !w.NoWidth?
    ensures Fit(i, w) == Fit(j, w)
  {
    var k := (i - j) / 0x1_0000_0000_0000_0000;
    var half := if IsSigned(w) then Half(w) else 0;
    match w
    case I8 => Whole8(j + half, k * 0x100_0000_0000_0000);
    case U8 => Whole8(j, k * 0x100_0000_0000_0000);
    case I16 => Whole16(j + half, k * 0x1_0000_0000_0000);
    case U16 => Whole16(j, k * 0x1_0000_0000_0000);
    case I32 => Whole32(j + half, k * 0x1_0000_0000);
    case U32 => Whole32(j, k * 0x1_0000_0000);
    case I64 => Whole64(j + half, k);
    case U64 => Whole64(j, k);
  }
}
