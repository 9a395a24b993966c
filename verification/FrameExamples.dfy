/** The example requests and data of the Modbus application protocol V1.1b3, byte for byte:
    they fix byte order, bit order and function codes. */
module FrameExamples {
  import opened Bytes
  import opened Crc
  import CrcDetection
  import RtuFrame

  /** Ten registers from address 0 of slave 1, with the checksum of the repository's own test. */
  lemma ReadRequestBytes()
    ensures RtuFrame.Sealed([1, 3] + RtuFrame.BigEndian(0) + RtuFrame.BigEndian(10)) == [1, 3, 0, 0, 0, 0x0A, 0xC5, 0xCD]
  {
    CrcDetection.KnownChecksum();
    var data: seq<byte> := [1, 3] + RtuFrame.BigEndian(0) + RtuFrame.BigEndian(10);
    assert data == [1, 3, 0, 0, 0, 0x0A];
  }

  /** Section 6.5: output 173 on; section 6.6: register 2 to 3. */
  lemma SingleWriteBytes()
    ensures RtuFrame.WriteSingleBody(0x11, 5, 0xAC, RtuFrame.CoilWord(true)) == [0x11, 5, 0, 0xAC, 0xFF, 0]
    ensures RtuFrame.WriteSingleBody(0x11, 5, 0xAC, RtuFrame.CoilWord(false)) == [0x11, 5, 0, 0xAC, 0, 0]
    ensures RtuFrame.WriteSingleBody(0x11, 6, 1, 3) == [0x11, 6, 0, 1, 0, 3]
  {
  }

  const TEN_COILS: seq<bool> := [true, false, true, true, false, false, true, true, true, false]

  /** Section 6.11: the ten outputs CD 01 from output 20 on. */
  lemma CoilWriteBytes()
    ensures RtuFrame.WriteCoilsBody(0x11, 0x13, TEN_COILS) == [0x11, 0x0F, 0, 0x13, 0, 0x0A, 2, 0xCD, 1]
  {
    TenCoilsPacked();
    HeaderBytes();
    Joined(TEN_COILS, 10, [0x11, 0x0F, 0, 0x13, 0, 0x0A, 2], [0xCD, 1]);
  }

  lemma Joined(coils: seq<bool>, n: nat, header: seq<byte>, packed: seq<byte>)
    requires |coils| == n && RtuFrame.WriteHeader(0x11, 0x0F, 0x13, n, U8((n + 7) / 8)) == header
    requires RtuFrame.PackFrom(coils, 0, RtuFrame.CoilBytes(n)) == packed
    ensures RtuFrame.WriteCoilsBody(0x11, 0x13, coils) == header + packed
  {
  }

  lemma SmallBytes()
    ensures U8(0) == 0 && U8(2) == 2 && U8(10) == 10
  {
  }

  lemma HeaderBytes()
    ensures RtuFrame.WriteHeader(0x11, 0x0F, 0x13, 10, U8((10 + 7) / 8)) == [0x11, 0x0F, 0, 0x13, 0, 0x0A, 2]
  {
    SmallBytes();
    assert 10 / 0x100 == 0 && (10 + 7) / 8 == 2;
  }

  lemma TenCoilsPacked()
    ensures RtuFrame.PackFrom(TEN_COILS, 0, RtuFrame.CoilBytes(10)) == [0xCD, 1]
  {
    var first, second := RtuFrame.Octet(TEN_COILS, 0), RtuFrame.Octet(TEN_COILS, 8);
    assert first == [true, false, true, true, false, false, true, true];
    assert second == [true, false, false, false, false, false, false, false];
    PackedExample(first, second);
    assert RtuFrame.CoilBytes(10) == 2;
    assert RtuFrame.PackFrom(TEN_COILS, 8, 1) == [RtuFrame.PackByte(TEN_COILS, 8)] + RtuFrame.PackFrom(TEN_COILS, 16, 0);
  }

  lemma PackedExample(first: seq<bool>, second: seq<bool>)
    requires first == [true, false, true, true, false, false, true, true]
    requires second == [true, false, false, false, false, false, false, false]
    ensures ByteOf(first) == 0xCD && ByteOf(second) == 1
  {
  }

  /** Section 6.12: registers 2 and 3 to 000A and 0102. */
  lemma RegisterWriteBytes()
    ensures RtuFrame.WriteRegistersBody(0x11, 1, [0x000A, 0x0102]) == [0x11, 0x10, 0, 1, 0, 2, 4, 0, 0x0A, 1, 2]
  {
    var values: seq<bv16> := [0x000A, 0x0102];
    assert values[1..] == [0x0102] && values[1..][1..] == [];
    assert RtuFrame.RegisterBytes(values) == [0, 0x0A] + RtuFrame.RegisterBytes(values[1..]);
    assert RtuFrame.RegisterBytes(values[1..]) == [1, 2] + RtuFrame.RegisterBytes([]);
  }

  /** Section 6.3: the data 02 2B 00 00 00 64 are the registers 555, 0 and 100; section 6.1: the
      data byte CD. */
  lemma ReplyData()
    ensures RtuFrame.ExtractRegisters([2, 0x2B, 0, 0, 0, 0x64]) == [555, 0, 100]
    ensures RtuFrame.Coils([0xCD], 8) == [true, false, true, true, false, false, true, true]
  {
    var data: seq<byte> := [2, 0x2B, 0, 0, 0, 0x64];
    assert data[2..] == [0, 0, 0, 0x64] && data[2..][2..] == [0, 0x64] && data[2..][2..][2..] == [];
    var coils: seq<byte> := [0xCD];
    assert Bits(coils) == ByteBits(0xCD) + Bits(coils[1..]);
  }
}
