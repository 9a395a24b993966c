/** How the cells of a device travel in Modbus frames: registers as two bytes each, high byte
    first, coils and inputs as bits (`st-comm-modbus/src/frame.rs:197-240`). */
module Wire {
  import opened Bytes
  import opened Crc
  import opened Profile
  import RtuFrame

  predicate IsWord(k: Kind) { k.HoldingRegister? || k.InputRegister? }

  predicate CellFits(k: Kind, v: nat) { v < if IsWord(k) then 0x10000 else 2 }

  predicate AllCellsFit(k: Kind, raw: seq<nat>) { forall j :: 0 <= j < |raw| ==> CellFits(k, raw[j]) }

  /** The register that holds the number v, and the number in a register. */
  function Word(v: nat): bv16 { RtuFrame.Join(U8(v / 0x100), U8(v)) }
  function Number(w: bv16): nat { 0x100 * Size(High(w)) + Size(Low(w)) }

  function Words(raw: seq<nat>): (ws: seq<bv16>)
    ensures |ws| == |raw| && forall j :: 0 <= j < |raw| ==> ws[j] == Word(raw[j])
  {
    seq(|raw|, j requires 0 <= j < |raw| => Word(raw[j]))
  }

  function Numbers(ws: seq<bv16>): (raw: seq<nat>)
    ensures |raw| == |ws| && forall j :: 0 <= j < |ws| ==> raw[j] == Number(ws[j])
  {
    seq(|ws|, j requires 0 <= j < |ws| => Number(ws[j]))
  }

  function Flags(raw: seq<nat>): (bs: seq<bool>)
    ensures |bs| == |raw| && forall j :: 0 <= j < |raw| ==> bs[j] == (raw[j] != 0)
  {
    seq(|raw|, j requires 0 <= j < |raw| => raw[j] != 0)
  }

  function ZeroOne(b: bool): nat { if b then 1 else 0 }

  function ZeroOnes(bs: seq<bool>): (raw: seq<nat>)
    ensures |raw| == |bs| && forall j :: 0 <= j < |bs| ==> raw[j] == ZeroOne(bs[j])
  {
    seq(|bs|, j requires 0 <= j < |bs| => ZeroOne(bs[j]))
  }

  // ---------------------------------------------------------------- words

  lemma JoinedBytes(hi: byte, lo: byte)
    ensures High(RtuFrame.Join(hi, lo)) == hi && Low(RtuFrame.Join(hi, lo)) == lo
  {
  }

  lemma NumberOfWord(v: nat)
    requires v < 0x10000
    ensures Number(Word(v)) == v
  {
    JoinedBytes(U8(v / 0x100), U8(v));
    SizeOfU8(v / 0x100);
    SizeOfU8(v);
    Digits(v);
  }

  lemma Digits(v: nat)
    requires v < 0x10000
    ensures 0x100 * (v / 0x100 % 0x100) + v % 0x100 == v
  {
  }

  /** A number that travels as two bytes. */
  lemma WordArrives(v: nat)
    requires v < 0x10000
    ensures Number(RtuFrame.Join(High(Word(v)), Low(Word(v)))) == v
  {
    RtuFrame.JoinBytes(Word(v));
    NumberOfWord(v);
  }

  lemma WordsBack(raw: seq<nat>)
    requires forall j :: 0 <= j < |raw| ==> raw[j] < 0x10000
    ensures Numbers(Words(raw)) == raw
  {
    forall j | 0 <= j < |raw| ensures Numbers(Words(raw))[j] == raw[j] { NumberOfWord(raw[j]); }
  }

  lemma FlagsBack(raw: seq<nat>)
    requires forall j :: 0 <= j < |raw| ==> raw[j] < 2
    ensures ZeroOnes(Flags(raw)) == raw
  {
  }

  // ---------------------------------------------------------------- the data of a reply

  /** Bytes of data in a reply: registers take two each, coils and inputs one bit. */
  function BodySize(k: Kind, n: nat): nat { if IsWord(k) then 2 * n else (n + 7) / 8 }

  function Body(k: Kind, raw: seq<nat>): (body: seq<byte>)
    ensures |body| == BodySize(k, |raw|)
  {
    if IsWord(k) then RtuFrame.RegisterBytes(Words(raw)) else RtuFrame.PackFrom(Flags(raw), 0, (|raw| + 7) / 8)
  }

  /** What the client takes out of it when it asked for n cells. */
  function Unpacked(k: Kind, n: nat, body: seq<byte>): seq<nat> {
    if IsWord(k) then Numbers(RtuFrame.ExtractRegisters(body)) else ZeroOnes(RtuFrame.Coils(body, n))
  }

  lemma UnpackedIsCells(k: Kind, raw: seq<nat>)
    requires AllCellsFit(k, raw)
    ensures Unpacked(k, |raw|, Body(k, raw)) == raw
  {
    if IsWord(k) {
      RtuFrame.ExtractInverts(Words(raw));
      WordsBack(raw);
    } else {
      RtuFrame.AllPacked(Flags(raw), (|raw| + 7) / 8);
      FlagsBack(raw);
    }
  }
}
