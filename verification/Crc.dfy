/** Modbus CRC-16 (`st-comm-modbus/src/crc.rs`; MODBUS over Serial Line V1.02, 6.2.2). */
module Crc {
  import opened Bytes
  import Lfsr

  const POLY: bv16 := 0xA001
  const SEED: bv16 := 0xFFFF

  /** One shift of the register. */
  function Shift(c: bv16): bv16 {
    if c & 1 != 0 then (c >> 1) ^ POLY else c >> 1
  }

  function Shifts(c: bv16, n: nat): bv16
    decreases n
  {
    if n == 0 then c else Shifts(Shift(c), n - 1)
  }

  function Update(c: bv16, b: byte): bv16 { Shifts(c ^ (b as bv16), 8) }

  /** The register after `data`, from register c. */
  function Register(c: bv16, data: seq<byte>): bv16
    decreases data
  {
    if data == [] then c else Register(Update(c, data[0]), data[1..])
  }

  function Low(c: bv16): byte { (c & 0xFF) as byte }
  function High(c: bv16): byte { (c >> 8) as byte }

  method Crc16(data: seq<byte>) returns (lo: byte, hi: byte)
    ensures lo == Low(Register(SEED, data)) && hi == High(Register(SEED, data))
  {
    var crc: bv16 := 0xFFFF;
    assert data[0..] == data;
    for i := 0 to |data|
      invariant Register(crc, data[i..]) == Register(SEED, data)
    {
      ghost var before := crc;
      crc := crc ^ (data[i] as bv16);
      for k := 0 to 8
        invariant Shifts(crc, 8 - k) == Update(before, data[i])
      {
        if crc & 1 != 0 {
          crc := (crc >> 1) ^ 0xA001;
        } else {
          crc := crc >> 1;
        }
      }
      assert data[i..][0] == data[i] && data[i..][1..] == data[i + 1..];
    }
    lo, hi := (crc & 0xFF) as byte, (crc >> 8) as byte;
  }

  predicate Accepts(frame: seq<byte>) {
    && |frame| >= 3
    && var c := Register(SEED, frame[..|frame| - 2]);
       frame[|frame| - 2] == Low(c) && frame[|frame| - 1] == High(c)
  }

  method VerifyCrc(frame: seq<byte>) returns (ok: bool)
    ensures ok == Accepts(frame)
  {
    if |frame| < 3 { return false; }
    var lo, hi := Crc16(frame[..|frame| - 2]);
    ok := frame[|frame| - 2] == lo && frame[|frame| - 1] == hi;
  }

  // ---------------------------------------------------------------- bits on the wire

  /** The bits of a frame in transmission order, least significant bit of each byte first. */
  function Bits(data: seq<byte>): (r: seq<bool>)
    ensures |r| == 8 * |data|
  {
    if data == [] then [] else ByteBits(data[0]) + Bits(data[1..])
  }

  /** All ones in the k lowest bits. */
  const MASKS: seq<bv16> :=
    [0, 0x1, 0x3, 0x7, 0xF, 0x1F, 0x3F, 0x7F, 0xFF, 0x1FF, 0x3FF, 0x7FF, 0xFFF, 0x1FFF, 0x3FFF, 0x7FFF, 0xFFFF]

  predicate Within(w: bv16, m: bv16) { w & !m == 0 }

  predicate Fits(w: bv16, k: nat) { k <= 16 && Within(w, MASKS[k]) }

  function Unshift(c: bv16): bv16 {
    if c & 0x8000 != 0 then ((c ^ POLY) << 1) | 1 else c << 1
  }

  function Bit(b: bool): bv16 { if b then 1 else 0 }

  function Xor(x: bv16, y: bv16): bv16 { x ^ y }
  function Up(w: bv16): bv16 { w << 1 }

  /** The CRC register as a shift register. */
  function Reg(): Lfsr.Algebra<bv16> {
    Lfsr.Algebra(c => Shift(c), c => Unshift(c), (x, y) => Xor(x, y), 0, w => Up(w), b => Bit(b), (w, k) => Fits(w, k))
  }

  lemma LinearOddOdd(a: bv16, b: bv16)
    requires a & 1 != 0 && b & 1 != 0
    ensures Shift(Xor(a, b)) == Xor(Shift(a), Shift(b))
  {
  }

  lemma LinearOddEven(a: bv16, b: bv16)
    requires a & 1 != 0 && b & 1 == 0
    ensures Shift(Xor(a, b)) == Xor(Shift(a), Shift(b))
    ensures Shift(Xor(b, a)) == Xor(Shift(b), Shift(a))
  {
  }

  lemma LinearEvenEven(a: bv16, b: bv16)
    requires a & 1 == 0 && b & 1 == 0
    ensures Shift(Xor(a, b)) == Xor(Shift(a), Shift(b))
  {
  }

  lemma ShiftLinear(a: bv16, b: bv16)
    ensures Shift(Xor(a, b)) == Xor(Shift(a), Shift(b))
  {
    if a & 1 != 0 {
      if b & 1 != 0 { LinearOddOdd(a, b); } else { LinearOddEven(a, b); }
    } else {
      if b & 1 != 0 { LinearOddEven(b, a); } else { LinearEvenEven(a, b); }
    }
  }

  lemma ShiftInverse(a: bv16)
    ensures Unshift(Shift(a)) == a
  {
  }

  lemma XorLaws(x: bv16, z: bv16)
    ensures Xor(x, 0) == x && Xor(x, x) == 0 && Xor(Xor(x, z), z) == x && Xor(z, Xor(z, x)) == x
  {
  }

  predicate Pushed(m: bv16, n: bv16) { n == Up(m) | 1 && m & 0x8000 == 0 }

  lemma MasksPush(k: nat)
    requires k < 16
    ensures Pushed(MASKS[k], MASKS[k + 1])
  {
  }

  lemma WithinUp(w: bv16, m: bv16, n: bv16, b: bool)
    requires Within(w, m) && Pushed(m, n)
    ensures Within(Xor(Up(w), Bit(b)), n)
    ensures w & 0x8000 == 0
  {
    if b { WithinUpOne(w, m, n); }
  }

  lemma WithinUpOne(w: bv16, m: bv16, n: bv16)
    requires Within(w, m) && Pushed(m, n)
    ensures Within(Xor(Up(w), 1), n)
  {
  }

  lemma FitsPush(w: bv16, k: nat, b: bool)
    requires Fits(w, k) && k < 16
    ensures Fits(Xor(Up(w), Bit(b)), k + 1)
  {
    MasksPush(k);
    WithinUp(w, MASKS[k], MASKS[k + 1], b);
  }

  lemma FitsTop(w: bv16, k: nat)
    requires Fits(w, k) && k < 16
    ensures w & 0x8000 == 0
  {
    MasksPush(k);
    WithinUp(w, MASKS[k], MASKS[k + 1], false);
  }

  lemma BitIsLow(b: bool)
    ensures Bit(b) & !1 == 0
  {
  }

  lemma ShiftUp(c: bv16, w: bv16, b: bool)
    requires w & 0x8000 == 0
    ensures Shift(Xor(c, Xor(Up(w), Bit(b)))) == Xor(Shift(Xor(c, Bit(b))), w)
  {
    XorUp(c, w, Bit(b));
    ShiftLinear(Xor(c, Bit(b)), Up(w));
    ShiftDown(w);
  }

  lemma XorUp(c: bv16, w: bv16, b: bv16)
    ensures Xor(c, Xor(Up(w), b)) == Xor(Xor(c, b), Up(w))
  {
  }

  lemma ShiftDown(w: bv16)
    requires w & 0x8000 == 0
    ensures Shift(Up(w)) == w
  {
  }

  /** A pushed bit can be read back. */
  lemma UpDown(w: bv16, b: bv16)
    requires w & 0x8000 == 0 && b & !1 == 0
    ensures Xor(Up(w), b) >> 1 == w && Xor(Up(w), b) & 1 == b
  {
  }

  lemma UpInjective(w: bv16, v: bv16, b: bool, d: bool)
    requires w & 0x8000 == 0 && v & 0x8000 == 0 && Xor(Up(w), Bit(b)) == Xor(Up(v), Bit(d))
    ensures w == v && b == d
  {
    BitIsLow(b);
    BitIsLow(d);
    UpDown(w, Bit(b));
    UpDown(v, Bit(d));
  }

  lemma XorAssoc(x: bv16, y: bv16, z: bv16)
    ensures Xor(Xor(x, y), z) == Xor(x, Xor(y, z))
  {
  }

  lemma LinearHolds()
    ensures Lfsr.Linear(Reg())
  {
    forall x, y ensures Shift(Xor(x, y)) == Xor(Shift(x), Shift(y)) { ShiftLinear(x, y); }
  }

  lemma InvertibleHolds()
    ensures Lfsr.Invertible(Reg())
  {
    forall x ensures Unshift(Shift(x)) == x { ShiftInverse(x); }
  }

  lemma CancelsHolds()
    ensures Lfsr.Cancels(Reg())
  {
    forall x ensures Xor(x, 0) == x && Xor(x, x) == 0 { XorLaws(x, 0); }
    forall x, z ensures Xor(Xor(x, z), z) == x && Xor(z, Xor(z, x)) == x { XorLaws(x, z); }
  }

  lemma MixesHolds()
    ensures Lfsr.Mixes(Reg())
  {
    forall x, y, z ensures Xor(Xor(x, y), z) == Xor(x, Xor(y, z)) { XorAssoc(x, y, z); }
    forall x, y ensures Xor(x, y) == Xor(y, x) { }
    forall b, e ensures Xor(Bit(b), Bit(e)) == Bit(b != e) { }
    Lfsr.MixesFromGroup(Reg());
  }

  lemma ShiftPush(c: bv16, w: bv16, k: nat, b: bool)
    requires Fits(w, k) && k < 16
    ensures Shift(Xor(c, Xor(Up(w), Bit(b)))) == Xor(Shift(Xor(c, Bit(b))), w)
  {
    FitsTop(w, k);
    ShiftUp(c, w, b);
  }

  lemma Unpush(w: bv16, v: bv16, k: nat, b: bool, d: bool)
    requires Fits(w, k) && Fits(v, k) && k < 16 && Xor(Up(w), Bit(b)) == Xor(Up(v), Bit(d))
    ensures w == v && b == d
  {
    FitsTop(w, k);
    FitsTop(v, k);
    UpInjective(w, v, b, d);
  }

  lemma PushesHolds()
    ensures Lfsr.Pushes(Reg())
  {
    forall w, k: nat, b | Fits(w, k) && k < 16 ensures Fits(Xor(Up(w), Bit(b)), k + 1) { FitsPush(w, k, b); }
    forall c, w, k: nat, b | Fits(w, k) && k < 16 ensures Shift(Xor(c, Xor(Up(w), Bit(b)))) == Xor(Shift(Xor(c, Bit(b))), w) {
      ShiftPush(c, w, k, b);
    }
    forall w, v, k: nat, b, d | Fits(w, k) && Fits(v, k) && k < 16 && Xor(Up(w), Bit(b)) == Xor(Up(v), Bit(d))
      ensures w == v && b == d
    {
      Unpush(w, v, k, b, d);
    }
  }
}
