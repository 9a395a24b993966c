/** Modbus RTU frames (`st-comm-modbus/src/frame.rs`). */
module RtuFrame {
  import opened Bytes
  import opened Crc
  import CrcDetection

  datatype Result<T> = Ok(value: T) | Err(error: ReadError)

  datatype ReadError = TooShort | CrcMismatch | Exception(slave: byte, fc: byte, code: byte) | Truncated(expected: nat, got: int)

  function BigEndian(w: bv16): seq<byte> { [High(w), Low(w)] }
  function Join(hi: byte, lo: byte): bv16 { ((hi as bv16) << 8) | (lo as bv16) }

  /** The frame with its checksum, low byte first. */
  function Sealed(data: seq<byte>): (f: seq<byte>)
    ensures |f| == |data| + 2 && f[..|data|] == data
  {
    data + [Low(Register(SEED, data)), High(Register(SEED, data))]
  }

  method Seal(data: seq<byte>) returns (frame: seq<byte>)
    ensures frame == Sealed(data)
  {
    var lo, hi := Crc16(data);
    frame := data + [lo] + [hi];
  }

  lemma SealedIsAccepted(data: seq<byte>)
    requires data != []
    ensures Accepts(Sealed(data))
  {
    CrcDetection.ChecksumCompletes(data, Low(Register(SEED, data)), High(Register(SEED, data)));
  }

  lemma JoinBytes(w: bv16)
    ensures Join(High(w), Low(w)) == w
  {
  }

  method BuildReadRequest(slave: byte, fc: byte, start: bv16, count: bv16) returns (frame: seq<byte>)
    ensures frame == Sealed([slave, fc] + BigEndian(start) + BigEndian(count))
  {
    frame := [slave];
    frame := frame + [fc];
    frame := frame + [(start >> 8) as byte];
    frame := frame + [(start & 0xFF) as byte];
    frame := frame + [(count >> 8) as byte];
    frame := frame + [(count & 0xFF) as byte];
    assert frame == [slave, fc] + BigEndian(start) + BigEndian(count);
    frame := Seal(frame);
  }

  /** A coil as a single write carries it. */
  function CoilWord(on: bool): bv16 { if on then 0xFF00 else 0 }

  function WriteSingleBody(slave: byte, fc: byte, address: bv16, value: bv16): (d: seq<byte>)
    ensures |d| == 6
  {
    [slave, fc] + BigEndian(address) + BigEndian(value)
  }

  lemma RequestFields(slave: byte, fc: byte, first: bv16, second: bv16)
    ensures var f := Sealed([slave, fc] + BigEndian(first) + BigEndian(second));
      && |f| == 8 && Accepts(f) && f[1] == fc && f[2] == High(first) && f[3] == Low(first)
      && f[4] == High(second) && f[5] == Low(second)
  {
    var d := [slave, fc] + BigEndian(first) + BigEndian(second);
    SealedIsAccepted(d);
    assert forall k :: 0 <= k < 6 ==> Sealed(d)[k] == d[k];
  }

  method BuildWriteSingleCoil(slave: byte, address: bv16, on: bool) returns (frame: seq<byte>)
    ensures frame == Sealed(WriteSingleBody(slave, 5, address, CoilWord(on)))
  {
    var value := if on then 0xFF00 else 0;
    frame := [slave, 5, (address >> 8) as byte, (address & 0xFF) as byte, (value >> 8) as byte, (value & 0xFF) as byte];
    assert frame == WriteSingleBody(slave, 5, address, value);
    frame := Seal(frame);
  }

  method BuildWriteSingleRegister(slave: byte, address: bv16, value: bv16) returns (frame: seq<byte>)
    ensures frame == Sealed(WriteSingleBody(slave, 6, address, value))
  {
    frame := [slave, 6, (address >> 8) as byte, (address & 0xFF) as byte, (value >> 8) as byte, (value & 0xFF) as byte];
    assert frame == WriteSingleBody(slave, 6, address, value);
    frame := Seal(frame);
  }

  // ---------------------------------------------------------------- coils

  function Place(bit: nat): byte
    requires bit < 8
  {
    [1, 2, 4, 8, 16, 32, 64, 128][bit]
  }

  function CoilAt(coils: seq<bool>, k: nat): bool { k < |coils| && coils[k] }

  /** Eight coils from position `at`, missing ones off. */
  function Octet(coils: seq<bool>, at: nat): (o: seq<bool>)
    ensures |o| == 8 && forall j :: 0 <= j < 8 ==> o[j] == CoilAt(coils, at + j)
  {
    seq(8, j requires 0 <= j < 8 => CoilAt(coils, at + j))
  }

  /** They fill the byte from its lowest bit. */
  function PackByte(coils: seq<bool>, at: nat): byte { ByteOf(Octet(coils, at)) }

  function PackFrom(coils: seq<bool>, at: nat, bytes: nat): (r: seq<byte>)
    ensures |r| == bytes
    decreases bytes
  {
    if bytes == 0 then [] else [PackByte(coils, at)] + PackFrom(coils, at + 8, bytes - 1)
  }

  lemma {:induction false} PackAppend(coils: seq<bool>, at: nat, bytes: nat)
    ensures PackFrom(coils, at, bytes + 1) == PackFrom(coils, at, bytes) + [PackByte(coils, at + 8 * bytes)]
    decreases bytes
  {
    if bytes > 0 {
      PackAppend(coils, at + 8, bytes - 1);
    }
  }

  /** The byte count as the frame carries it, in eight bits. */
  function CoilBytes(n: nat): (r: nat)
    ensures n <= 2040 ==> n <= 8 * r
    ensures n > 2040 ==> 8 * r < n
  {
    ((n + 7) / 8) % 0x100
  }

  method PackOne(coils: seq<bool>, at: nat) returns (b: byte)
    ensures b == PackByte(coils, at)
  {
    b := 0;
    for bit := 0 to 8
      invariant forall j :: 0 <= j < 8 ==> (Has(b, Place(j)) <==> j < bit && CoilAt(coils, at + j))
    {
      var idx := at + bit;
      if idx < |coils| && coils[idx] {
        forall j | 0 <= j < 8 ensures Has(b | Place(bit), Place(j)) <==> j == bit || Has(b, Place(j)) { SetBit(b, bit, j); }
        b := b | Place(bit);
      }
    }
    PackedBits(b, coils, at);
  }

  lemma SetBit(b: byte, bit: nat, j: nat)
    requires bit < 8 && j < 8
    ensures Has(b | Place(bit), Place(j)) <==> j == bit || Has(b, Place(j))
  {
  }

  lemma PackedBits(b: byte, coils: seq<bool>, at: nat)
    requires forall j :: 0 <= j < 8 ==> (Has(b, Place(j)) <==> CoilAt(coils, at + j))
    ensures b == PackByte(coils, at)
  {
    ByteOfBits(Octet(coils, at));
    forall j | 0 <= j < 8 ensures ByteBits(b)[j] == Octet(coils, at)[j] { OctetPlaces(b, j); }
    assert ByteBits(b) == Octet(coils, at);
    CrcDetection.ByteBitsInjective(b, PackByte(coils, at));
  }

  /** The seven bytes before the data of a multiple write; the count is cut to 16 bits. */
  function WriteHeader(slave: byte, fc: byte, start: bv16, count: nat, size: byte): (h: seq<byte>)
    ensures |h| == 7 && h[4] == U8(count / 0x100) && h[5] == U8(count) && h[6] == size
  {
    [slave, fc, High(start), Low(start), U8(count / 0x100), U8(count), size]
  }

  function WriteCoilsBody(slave: byte, start: bv16, coils: seq<bool>): (d: seq<byte>) {
    WriteHeader(slave, 0x0F, start, |coils|, U8((|coils| + 7) / 8)) + PackFrom(coils, 0, CoilBytes(|coils|))
  }

  method BuildWriteMultipleCoils(slave: byte, start: bv16, coils: seq<bool>) returns (frame: seq<byte>)
    ensures frame == Sealed(WriteCoilsBody(slave, start, coils))
  {
    var count := |coils| % 0x10000;
    var byteCount := U8((|coils| + 7) / 8);
    SizeOfU8((|coils| + 7) / 8);
    frame := [slave, 0x0F, (start >> 8) as byte, (start & 0xFF) as byte, U8(count / 0x100), U8(count)];
    frame := frame + [byteCount];
    CountBytes(|coils|);
    assert frame == WriteHeader(slave, 0x0F, start, |coils|, byteCount);
    frame := AppendPacked(frame, coils, Size(byteCount));
    frame := Seal(frame);
  }

  lemma ModDiv(n: nat)
    ensures n % 0x10000 / 0x100 % 0x100 == n / 0x100 % 0x100 && n % 0x10000 % 0x100 == n % 0x100
  {
    var q, r := n / 0x10000, n % 0x10000;
    assert n / 0x100 == 0x100 * q + r / 0x100;
    assert n % 0x100 == r % 0x100;
  }

  lemma CountBytes(n: nat)
    ensures U8(n % 0x10000 / 0x100) == U8(n / 0x100) && U8(n % 0x10000) == U8(n)
  {
    ModDiv(n);
  }

  method AppendPacked(header: seq<byte>, coils: seq<bool>, byteCount: nat) returns (frame: seq<byte>)
    ensures frame == header + PackFrom(coils, 0, byteCount)
  {
    frame := header;
    for chunk := 0 to byteCount
      invariant frame == header + PackFrom(coils, 0, chunk)
    {
      var b := PackOne(coils, chunk * 8);
      PackAppend(coils, 0, chunk);
      frame := frame + [b];
    }
  }

  /** The first `count` bits of the data, fewer when it is too short. */
  function Coils(data: seq<byte>, count: nat): seq<bool> { CutTo(Bits(data), count) }

  method ExtractCoils(data: seq<byte>, count: nat) returns (result: seq<bool>)
    ensures result == Coils(data, count)
  {
    result := [];
    for i := 0 to |data|
      invariant result == CutTo(Bits(data[..i]), count)
    {
      BitsSnoc(data[..i], data[i]);
      assert data[..i + 1] == data[..i] + [data[i]];
      ghost var before := Bits(data[..i]);
      forall bit | 0 <= bit < 8 ensures ByteBits(data[i])[bit] == Has(data[i], Place(bit)) { OctetPlaces(data[i], bit); }
      result := AppendBits(result, data[i], count, ByteBits(data[i]));
      CutTwice(before, ByteBits(data[i]), count);
    }
    assert data[..|data|] == data;
  }

  method AppendBits(bits: seq<bool>, b: byte, count: nat, ghost octet: seq<bool>) returns (result: seq<bool>)
    requires |bits| <= count && |octet| == 8 && forall bit :: 0 <= bit < 8 ==> octet[bit] == Has(b, Place(bit))
    ensures result == CutTo(bits + octet, count)
  {
    result := bits;
    var bit := 0;
    while bit < 8
      invariant 0 <= bit <= 8 && |result| <= count
      invariant result == bits + octet[..bit]
      decreases 8 - bit
    {
      if |result| >= count { break; }
      assert octet[..bit + 1] == octet[..bit] + [octet[bit]];
      result := result + [Has(b, Place(bit))];
      bit := bit + 1;
    }
    assert result == (bits + octet)[..|bits| + bit];
  }

  lemma OctetPlaces(b: byte, bit: nat)
    requires bit < 8
    ensures ByteBits(b)[bit] == Has(b, Place(bit))
  {
  }

  function CutTo(s: seq<bool>, n: nat): seq<bool> { if n <= |s| then s[..n] else s }

  lemma CutTwice(s: seq<bool>, t: seq<bool>, n: nat)
    ensures CutTo(CutTo(s, n) + t, n) == CutTo(s + t, n)
  {
  }

  lemma BitsSnoc(x: seq<byte>, b: byte)
    ensures Bits(x + [b]) == Bits(x) + ByteBits(b)
  {
    BitsAppend(x, [b]);
    assert Bits([b]) == ByteBits(b) + Bits([]) == ByteBits(b);
  }

  lemma {:induction false} BitsAppend(x: seq<byte>, y: seq<byte>)
    ensures Bits(x + y) == Bits(x) + Bits(y)
    decreases x
  {
    if x == [] {
      assert x + y == y;
    } else {
      assert (x + y)[1..] == x[1..] + y;
      BitsAppend(x[1..], y);
    }
  }

  lemma {:induction false} BitsAt(data: seq<byte>, i: nat, j: nat)
    requires i < |data| && j < 8
    ensures Bits(data)[8 * i + j] == ByteBits(data[i])[j]
    decreases data
  {
    if i > 0 {
      BitsAt(data[1..], i - 1, j);
      assert Bits(data)[8 * i + j] == Bits(data[1..])[8 * (i - 1) + j];
    }
  }

  lemma {:induction false} PackAt(coils: seq<bool>, at: nat, bytes: nat, i: nat)
    requires i < bytes
    ensures PackFrom(coils, at, bytes)[i] == PackByte(coils, at + 8 * i)
    decreases bytes
  {
    var rest := PackFrom(coils, at + 8, bytes - 1);
    assert PackFrom(coils, at, bytes) == [PackByte(coils, at)] + rest;
    if i > 0 {
      PackAt(coils, at + 8, bytes - 1, i - 1);
      assert PackFrom(coils, at, bytes)[i] == rest[i - 1];
    }
  }

  lemma PackByteBit(coils: seq<bool>, at: nat, j: nat)
    requires j < 8
    ensures ByteBits(PackByte(coils, at))[j] == CoilAt(coils, at + j)
  {
    ByteOfBits(Octet(coils, at));
  }

  lemma PackBits(coils: seq<bool>, bytes: nat, k: nat)
    requires k < 8 * bytes
    ensures Bits(PackFrom(coils, 0, bytes))[k] == CoilAt(coils, k)
  {
    var i, j := k / 8, k % 8;
    BitsAt(PackFrom(coils, 0, bytes), i, j);
    PackAt(coils, 0, bytes, i);
    PackByteBit(coils, 8 * i, j);
  }

  /** The data bytes a frame announces. */
  function DataOf(frame: seq<byte>): seq<byte>
    requires |frame| >= 7
  {
    if 7 + Size(frame[6]) <= |frame| then frame[7..7 + Size(frame[6])] else frame[7..]
  }

  function CountOf(frame: seq<byte>): nat
    requires |frame| >= 7
  {
    0x100 * Size(frame[4]) + Size(frame[5])
  }

  lemma Layout<T>(header: seq<T>, payload: seq<T>, a: T, b: T)
    ensures var f := header + payload + [a, b];
      && (forall k :: 0 <= k < |header| ==> f[k] == header[k])
      && f[|header|..|header| + |payload|] == payload
      && |f| == |header| + |payload| + 2
      && f[|header|..] == payload + [a, b]
  {
  }

  lemma HeaderCount(high: byte, low: byte, count: nat)
    requires high == U8(count / 0x100) && low == U8(count)
    ensures 0x100 * Size(high) + Size(low) == count % 0x10000
  {
    SizeOfU8(count / 0x100);
    SizeOfU8(count);
    CountOfDigits(count);
  }

  lemma CountOfDigits(n: nat)
    ensures 0x100 * (n / 0x100 % 0x100) + n % 0x100 == n % 0x10000
  {
    var q, r := n / 0x10000, n % 0x10000;
    assert n / 0x100 == 0x100 * q + r / 0x100;
  }

  lemma CutAfter<T>(f: seq<T>, payload: seq<T>, at: nat, n: nat)
    requires at + |payload| <= |f| && f[at..at + |payload|] == payload && n <= |payload|
    ensures f[at..at + n] == payload[..n]
  {
    assert f[at..at + n] == f[at..at + |payload|][..n];
  }

  lemma SealedHeader(h: seq<byte>, payload: seq<byte>)
    requires |h| == 7
    ensures var f := Sealed(h + payload);
      |f| == |payload| + 9 && f[4] == h[4] && f[5] == h[5] && f[6] == h[6] && f[7..7 + |payload|] == payload
  {
    Layout(h, payload, Low(Register(SEED, h + payload)), High(Register(SEED, h + payload)));
  }

  /** What a receiver reads in a sealed multiple write whose size byte says n. */
  lemma WriteFields(slave: byte, fc: byte, start: bv16, count: nat, size: byte, payload: seq<byte>)
    requires Size(size) <= |payload|
    ensures var f := Sealed(WriteHeader(slave, fc, start, count, size) + payload);
      |f| >= 7 && DataOf(f) == payload[..Size(size)] && CountOf(f) == count % 0x10000
  {
    var h := WriteHeader(slave, fc, start, count, size);
    SealedHeader(h, payload);
    HeaderCount(h[4], h[5], count);
    CutAfter(Sealed(h + payload), payload, 7, Size(size));
  }

  lemma PackedCoils(coils: seq<bool>, count: nat)
    requires count == |coils| % 0x10000
    ensures Coils(PackFrom(coils, 0, CoilBytes(|coils|)), count) == coils <==> |coils| <= 2040
  {
    PackedIff(coils, CoilBytes(|coils|), count);
  }

  /** Reading the announced number of coils back out of a write frame gives the written list
      exactly when there are at most 2040: beyond that the byte count wraps. */
  lemma CoilRoundTrip(slave: byte, start: bv16, coils: seq<bool>)
    ensures var f := Sealed(WriteCoilsBody(slave, start, coils));
      |f| >= 7 && (Coils(DataOf(f), CountOf(f)) == coils <==> |coils| <= 2040)
  {
    var n := CoilBytes(|coils|);
    var payload := PackFrom(coils, 0, n);
    SizeOfU8((|coils| + 7) / 8);
    WriteFields(slave, 0x0F, start, |coils|, U8((|coils| + 7) / 8), payload);
    assert payload[..n] == payload;
    PackedCoils(coils, |coils| % 0x10000);
  }

  lemma PackedIff(coils: seq<bool>, n: nat, count: nat)
    requires |coils| <= 2040 ==> |coils| <= 8 * n && count == |coils|
    requires |coils| > 2040 ==> 8 * n < |coils|
    ensures Coils(PackFrom(coils, 0, n), count) == coils <==> |coils| <= 2040
  {
    if |coils| <= 2040 { AllPacked(coils, n); } else { TooFewBits(PackFrom(coils, 0, n), count, coils); }
  }

  lemma TooFewBits(data: seq<byte>, count: nat, coils: seq<bool>)
    requires 8 * |data| < |coils|
    ensures Coils(data, count) != coils
  {
    assert |Coils(data, count)| <= |Bits(data)| < |coils|;
  }

  lemma AllPacked(coils: seq<bool>, n: nat)
    requires |coils| <= 8 * n
    ensures CutTo(Bits(PackFrom(coils, 0, n)), |coils|) == coils
  {
    var bits := Bits(PackFrom(coils, 0, n));
    forall k | 0 <= k < |coils| ensures bits[k] == coils[k] { PackBits(coils, n, k); }
    PrefixOf(bits, coils);
  }

  lemma PrefixOf(s: seq<bool>, t: seq<bool>)
    requires |t| <= |s| && forall k :: 0 <= k < |t| ==> s[k] == t[k]
    ensures CutTo(s, |t|) == t
  {
  }

  /** 2041 coils need a 256th byte of data, which the size byte cannot count. */
  lemma TooManyCoils(slave: byte, start: bv16)
    ensures var coils := seq(2041, _ => true);
      var f := Sealed(WriteCoilsBody(slave, start, coils));
      |f| >= 7 && CountOf(f) == 2041 && DataOf(f) == [] && Coils(DataOf(f), CountOf(f)) == []
  {
    var coils := seq(2041, _ => true);
    SizeOfU8(256);
    WriteFields(slave, 0x0F, start, 2041, U8(256), PackFrom(coils, 0, 0));
  }

  // ---------------------------------------------------------------- registers

  function RegisterBytes(values: seq<bv16>): (r: seq<byte>)
    ensures |r| == 2 * |values|
  {
    if values == [] then [] else BigEndian(values[0]) + RegisterBytes(values[1..])
  }

  lemma {:induction false} RegisterBytesAppend(values: seq<bv16>, v: bv16)
    ensures RegisterBytes(values + [v]) == RegisterBytes(values) + BigEndian(v)
    decreases values
  {
    if values == [] {
      assert RegisterBytes([v]) == BigEndian(v) + RegisterBytes([]);
    } else {
      assert (values + [v])[1..] == values[1..] + [v];
      RegisterBytesAppend(values[1..], v);
    }
  }

  function WriteRegistersBody(slave: byte, start: bv16, values: seq<bv16>): (d: seq<byte>) {
    WriteHeader(slave, 0x10, start, |values|, U8(2 * |values|)) + RegisterBytes(values)
  }

  method BuildWriteMultipleRegisters(slave: byte, start: bv16, values: seq<bv16>) returns (frame: seq<byte>)
    ensures frame == Sealed(WriteRegistersBody(slave, start, values))
  {
    var count := |values| % 0x10000;
    var byteCount := U8(2 * |values|);
    frame := [slave, 0x10, (start >> 8) as byte, (start & 0xFF) as byte, U8(count / 0x100), U8(count)];
    frame := frame + [byteCount];
    CountBytes(|values|);
    assert frame == WriteHeader(slave, 0x10, start, |values|, byteCount);
    frame := AppendRegisters(frame, values);
    frame := Seal(frame);
  }

  method AppendRegisters(header: seq<byte>, values: seq<bv16>) returns (frame: seq<byte>)
    ensures frame == header + RegisterBytes(values)
  {
    frame := header;
    for i := 0 to |values|
      invariant frame == header + RegisterBytes(values[..i])
    {
      assert values[..i + 1] == values[..i] + [values[i]];
      RegisterBytesAppend(values[..i], values[i]);
      frame := frame + [High(values[i])];
      frame := frame + [Low(values[i])];
    }
    assert values[..|values|] == values;
  }

  /** Pairs of bytes, high byte first; an odd last byte is dropped. */
  function ExtractRegisters(data: seq<byte>): (r: seq<bv16>)
    ensures |r| == |data| / 2
  {
    if |data| < 2 then [] else [Join(data[0], data[1])] + ExtractRegisters(data[2..])
  }

  lemma {:induction false} ExtractInverts(values: seq<bv16>)
    ensures ExtractRegisters(RegisterBytes(values)) == values
    decreases values
  {
    if values != [] {
      var d := RegisterBytes(values);
      JoinBytes(values[0]);
      assert d[2..] == RegisterBytes(values[1..]);
      ExtractInverts(values[1..]);
    }
  }

  lemma ExtractIff(values: seq<bv16>, n: nat)
    requires n <= 2 * |values| && (|values| <= 127 ==> n == 2 * |values|) && (|values| > 127 ==> n / 2 < |values|)
    ensures ExtractRegisters(RegisterBytes(values)[..n]) == values <==> |values| <= 127
  {
    if |values| <= 127 {
      assert RegisterBytes(values)[..n] == RegisterBytes(values);
      ExtractInverts(values);
    } else {
      TooFewBytes(RegisterBytes(values)[..n], values);
    }
  }

  lemma TooFewBytes(data: seq<byte>, values: seq<bv16>)
    requires |data| / 2 < |values|
    ensures ExtractRegisters(data) != values
  {
    assert |ExtractRegisters(data)| < |values|;
  }

  lemma ExtractCut(values: seq<bv16>, n: nat)
    requires n == 2 * |values| % 0x100
    ensures ExtractRegisters(RegisterBytes(values)[..n]) == values <==> |values| <= 127
  {
    ExtractIff(values, n);
  }

  /** The registers a write frame announces are the written ones exactly when there are at
      most 127: from 128 on the byte count wraps. */
  lemma RegisterRoundTrip(slave: byte, start: bv16, values: seq<bv16>)
    ensures var f := Sealed(WriteRegistersBody(slave, start, values));
      |f| >= 7 && (ExtractRegisters(DataOf(f)) == values <==> |values| <= 127)
  {
    SizeOfU8(2 * |values|);
    WriteFields(slave, 0x10, start, |values|, U8(2 * |values|), RegisterBytes(values));
    ExtractCut(values, 2 * |values| % 0x100);
  }

  /** 128 registers announce no data at all. */
  lemma TooManyRegisters(slave: byte, start: bv16)
    ensures var values := seq(128, _ => 1 as bv16);
      var f := Sealed(WriteRegistersBody(slave, start, values));
      |f| >= 7 && CountOf(f) == 128 && DataOf(f) == [] && ExtractRegisters(DataOf(f)) == []
  {
    var values := seq(128, _ => 1 as bv16);
    SizeOfU8(256);
    WriteFields(slave, 0x10, start, 128, U8(256), RegisterBytes(values));
  }

  // ---------------------------------------------------------------- what a write frame says

  /** The first six bytes of a multiple write: address and count. */
  lemma WriteHead(slave: byte, fc: byte, start: bv16, count: nat, size: byte, payload: seq<byte>)
    ensures var f := Sealed(WriteHeader(slave, fc, start, count, size) + payload);
      |f| >= 9 && f[1] == fc && f[2] == High(start) && f[3] == Low(start) && Accepts(f)
  {
    var h := WriteHeader(slave, fc, start, count, size);
    Layout(h, payload, Low(Register(SEED, h + payload)), High(Register(SEED, h + payload)));
    SealedIsAccepted(h + payload);
  }

  lemma SmallCount(high: nat, low: nat, count: nat)
    requires count < 0x10000 && high == count / 0x100 % 0x100 && low == count % 0x100
    ensures 0x100 * high + low == count
  {
  }

  lemma FieldsOf(f: seq<byte>, payload: seq<byte>, count: nat, n: nat)
    requires |f| == |payload| + 9 && f[7..7 + |payload|] == payload && Size(f[6]) == n <= |payload|
    requires 0x100 * Size(f[4]) + Size(f[5]) == count
    ensures CountOf(f) == count && |DataOf(f)| == n
  {
  }

  lemma WrittenFields(slave: byte, fc: byte, start: bv16, count: nat, size: byte, payload: seq<byte>, n: nat)
    requires count < 0x10000 && Size(size) == n <= |payload|
    ensures var f := Sealed(WriteHeader(slave, fc, start, count, size) + payload);
      |f| >= 9 && CountOf(f) == count && |DataOf(f)| == n
  {
    var h := WriteHeader(slave, fc, start, count, size);
    SealedHeader(h, payload);
    SizeOfU8(count / 0x100);
    SizeOfU8(count);
    SmallCount(Size(h[4]), Size(h[5]), count);
    var f := Sealed(h + payload);
    assert f[4] == h[4] && f[5] == h[5] && f[6] == size;
    FieldsOf(f, payload, count, n);
  }

  lemma WrittenRegisterFields(slave: byte, start: bv16, values: seq<bv16>)
    requires |values| < 0x10000
    ensures var f := Sealed(WriteRegistersBody(slave, start, values));
      |f| >= 9 && CountOf(f) == |values| && |DataOf(f)| == 2 * |values| % 0x100
  {
    SizeOfU8(2 * |values|);
    WrittenFields(slave, 0x10, start, |values|, U8(2 * |values|), RegisterBytes(values), 2 * |values| % 0x100);
  }

  lemma WrittenRegisters(slave: byte, start: bv16, values: seq<bv16>)
    requires |values| < 0x10000
    ensures var f := Sealed(WriteRegistersBody(slave, start, values));
      && |f| >= 9 && CountOf(f) == |values|
      && if |values| <= 127 then ExtractRegisters(DataOf(f)) == values else |ExtractRegisters(DataOf(f))| < |values|
  {
    WrittenRegisterFields(slave, start, values);
    if |values| <= 127 { RegisterRoundTrip(slave, start, values); }
  }

  lemma WrittenCoilFields(slave: byte, start: bv16, coils: seq<bool>)
    requires |coils| < 0x10000
    ensures var f := Sealed(WriteCoilsBody(slave, start, coils));
      |f| >= 9 && CountOf(f) == |coils| && |DataOf(f)| == CoilBytes(|coils|)
  {
    SizeOfU8((|coils| + 7) / 8);
    WrittenFields(slave, 0x0F, start, |coils|, U8((|coils| + 7) / 8), PackFrom(coils, 0, CoilBytes(|coils|)), CoilBytes(|coils|));
  }

  lemma WrittenCoils(slave: byte, start: bv16, coils: seq<bool>)
    requires |coils| < 0x10000
    ensures var f := Sealed(WriteCoilsBody(slave, start, coils));
      && |f| >= 9 && CountOf(f) == |coils|
      && if |coils| <= 2040 then Coils(DataOf(f), CountOf(f)) == coils else |Coils(DataOf(f), CountOf(f))| < |coils|
  {
    WrittenCoilFields(slave, start, coils);
    if |coils| <= 2040 { CoilRoundTrip(slave, start, coils); } else { FewBits(DataOf(Sealed(WriteCoilsBody(slave, start, coils))), |coils|); }
  }

  lemma FewBits(data: seq<byte>, count: nat)
    requires 8 * |data| < count
    ensures |Coils(data, count)| < count
  {
    assert |Bits(data)| == 8 * |data|;
  }

  // ---------------------------------------------------------------- replies

  function ParseReadResponse(frame: seq<byte>): Result<seq<byte>> {
    if |frame| < 5 then Err(TooShort)
    else if !Accepts(frame) then Err(CrcMismatch)
    else if frame[1] & 0x80 != 0 then Err(Exception(frame[0], frame[1] & 0x7F, frame[2]))
    else if |frame| < 3 + Size(frame[2]) + 2 then Err(Truncated(Size(frame[2]), |frame| - 5))
    else Ok(frame[3..3 + Size(frame[2])])
  }

  /** The reply a device sends to a read. */
  function ReadReply(slave: byte, fc: byte, body: seq<byte>): seq<byte>
    requires |body| < 256
  {
    Sealed([slave, fc, U8(|body|)] + body)
  }

  lemma ReplyFields(slave: byte, fc: byte, body: seq<byte>)
    requires |body| < 256
    ensures var f := ReadReply(slave, fc, body);
      && |f| == 5 + |body| && f[0] == slave && f[1] == fc && Size(f[2]) == |body| && f[3..3 + |body|] == body
  {
    var h := [slave, fc, U8(|body|)];
    SizeOfU8(|body|);
    Layout(h, body, Low(Register(SEED, h + body)), High(Register(SEED, h + body)));
  }

  lemma ReplyRoundTrip(slave: byte, fc: byte, body: seq<byte>)
    requires |body| < 256 && fc & 0x80 == 0
    ensures ParseReadResponse(ReadReply(slave, fc, body)) == Ok(body)
  {
    SealedIsAccepted([slave, fc, U8(|body|)] + body);
    ReplyFields(slave, fc, body);
  }

  function ParseWriteResponse(frame: seq<byte>): Result<()> {
    if |frame| < 5 then Err(TooShort)
    else if !Accepts(frame) then Err(CrcMismatch)
    else if frame[1] & 0x80 != 0 then Err(Exception(frame[0], frame[1] & 0x7F, frame[2]))
    else Ok(())
  }

  /** The reply a device sends to a write: an echo, or an exception. */
  function WriteReply(slave: byte, fc: byte, rest: seq<byte>, code: byte, carriedOut: bool): seq<byte> {
    if carriedOut then Sealed([slave, fc] + rest) else Sealed([slave, fc | 0x80, code])
  }

  lemma WriteReplyFields(slave: byte, fc: byte, rest: seq<byte>, code: byte, carriedOut: bool)
    requires fc & 0x80 == 0 && |rest| == 4
    ensures var f := WriteReply(slave, fc, rest, code, carriedOut);
      && |f| == (if carriedOut then 8 else 5) && f[0] == slave && f[1] == (if carriedOut then fc else fc | 0x80)
      && (ParseWriteResponse(f).Ok? <==> carriedOut)
  {
    var d := if carriedOut then [slave, fc] + rest else [slave, fc | 0x80, code];
    SealedIsAccepted(d);
    assert Sealed(d)[..|d|] == d;
    assert Sealed(d)[0] == d[0] && Sealed(d)[1] == d[1];
    assert (fc | 0x80) & 0x80 != 0;
  }

  /** An exception reply is reported with the device's address, function and code. */
  lemma ExceptionReported(slave: byte, fc: byte, code: byte)
    requires fc & 0x80 == 0
    ensures ParseReadResponse(Sealed([slave, fc | 0x80, code])) == Err(Exception(slave, fc, code))
  {
    var d := [slave, fc | 0x80, code];
    var f := Sealed(d);
    SealedIsAccepted(d);
    assert f[0] == d[0] && f[1] == d[1] && f[2] == d[2];
    assert (fc | 0x80) & 0x80 != 0 && (fc | 0x80) & 0x7F == fc;
  }

  /** No data ever comes out of a reply that was hit by a burst of up to 16 bits. */
  lemma CorruptReplyRejected(f: seq<byte>, g: seq<byte>, start: nat)
    requires ParseReadResponse(f).Ok? && |g| == |f| && g != f && CrcDetection.Lfsr.Agree(Bits(f), Bits(g), start, 16)
    ensures ParseReadResponse(g) == Err(CrcMismatch)
  {
    CrcDetection.BurstDetected(f, g, start);
  }
}
