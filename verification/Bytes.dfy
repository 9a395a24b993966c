/** Bytes, their bits from the lowest up, and their value. */
module Bytes {
  type byte = bv8

  predicate Has(b: byte, mask: byte) { b & mask != 0 }

  function ByteBits(b: byte): (r: seq<bool>)
    ensures |r| == 8
  {
    [Has(b, 1), Has(b, 2), Has(b, 4), Has(b, 8), Has(b, 16), Has(b, 32), Has(b, 64), Has(b, 128)]
  }

  function ByteOf(octet: seq<bool>): byte
    requires |octet| == 8
  {
    (if octet[0] then 1 else 0) | (if octet[1] then 2 else 0) | (if octet[2] then 4 else 0) | (if octet[3] then 8 else 0)
    | (if octet[4] then 16 else 0) | (if octet[5] then 32 else 0) | (if octet[6] then 64 else 0) | (if octet[7] then 128 else 0)
  }

  lemma ByteOfBits(octet: seq<bool>)
    requires |octet| == 8
    ensures ByteBits(ByteOf(octet)) == octet
  {
  }

  /** The unsigned value. */
  function Size(b: byte): nat { b as nat }

  /** A number cut to eight bits. */
  function U8(n: nat): byte { (n % 0x100) as byte }

  lemma Next(b: byte)
    requires b != 0xFF
    ensures (b + 1) as nat == b as nat + 1
  {
  }

  /** Every value below 256 is the value of a byte. */
  lemma {:induction false} ByteWith(m: nat) returns (b: byte)
    requires m < 0x100
    ensures b as nat == m
    decreases m
  {
    b := 0;
    if m > 0 {
      var c := ByteWith(m - 1);
      Next(c);
      b := c + 1;
    }
  }

  lemma Back(b: byte)
    ensures (b as nat) as byte == b
  {
  }

  lemma SizeOfU8(n: nat)
    ensures Size(U8(n)) == n % 0x100
  {
    var b := ByteWith(n % 0x100);
    Back(b);
  }
}
