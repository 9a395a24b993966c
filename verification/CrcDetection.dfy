/** Which corruptions of a frame `verify_crc` notices. */
module CrcDetection {
  import opened Bytes
  import Lfsr
  import opened Crc

  lemma RegLaws()
    ensures Lfsr.Laws(Reg())
  {
    LinearHolds();
    InvertibleHolds();
    CancelsHolds();
    PushesHolds();
    MixesHolds();
  }

  lemma {:induction false} SameShifts(c: bv16, n: nat)
    ensures Lfsr.Shifts(Reg(), c, n) == Shifts(c, n)
    decreases n
  {
    if n > 0 { SameShifts(Shift(c), n - 1); }
  }

  function Push(w: bv16, b: bool): bv16 { Xor(Up(w), Bit(b)) }

  lemma WordPush(b: bool, s: seq<bool>)
    ensures Lfsr.Word(Reg(), [b] + s) == Push(Lfsr.Word(Reg(), s), b)
  {
    assert ([b] + s)[1..] == s;
  }

  function Push4(w: bv16, b0: bool, b1: bool, b2: bool, b3: bool): bv16 {
    Push(Push(Push(Push(w, b3), b2), b1), b0)
  }

  lemma WordPush4(b0: bool, b1: bool, b2: bool, b3: bool, s: seq<bool>)
    ensures Lfsr.Word(Reg(), [b0, b1, b2, b3] + s) == Push4(Lfsr.Word(Reg(), s), b0, b1, b2, b3)
  {
    WordPush(b3, s);
    WordPush(b2, [b3] + s);
    WordPush(b1, [b2] + ([b3] + s));
    WordPush(b0, [b1] + ([b2] + ([b3] + s)));
    assert [b0] + ([b1] + ([b2] + ([b3] + s))) == [b0, b1, b2, b3] + s;
  }

  function Spread(b: byte): bv16 { b as bv16 }
  function Joined(lo: bv16, hi: bv16): bv16 { Xor(hi << 8, lo) }
  function PushLow(w: bv16, b: byte): bv16 { Push4(w, Has(b, 1), Has(b, 2), Has(b, 4), Has(b, 8)) }
  function PushHigh(w: bv16, b: byte): bv16 { Push4(w, Has(b, 16), Has(b, 32), Has(b, 64), Has(b, 128)) }

  lemma LowNibble(w: bv16, b: byte)
    ensures PushLow(w, b) == Xor(w << 4, Spread(b) & 0xF)
  {
  }

  lemma HighNibble(w: bv16, b: byte)
    ensures PushHigh(w, b) == Xor(w << 4, Spread(b) >> 4)
  {
  }

  lemma Nibbles(w: bv16, b: byte)
    ensures Xor(Xor(w << 4, Spread(b) >> 4) << 4, Spread(b) & 0xF) == Joined(Spread(b), w)
  {
  }

  lemma PushByte(w: bv16, b: byte)
    ensures PushLow(PushHigh(w, b), b) == Joined(Spread(b), w)
  {
    HighNibble(w, b);
    LowNibble(Xor(w << 4, Spread(b) >> 4), b);
    Nibbles(w, b);
  }

  lemma WordPush8(b0: bool, b1: bool, b2: bool, b3: bool, b4: bool, b5: bool, b6: bool, b7: bool, s: seq<bool>)
    ensures Lfsr.Word(Reg(), [b0, b1, b2, b3, b4, b5, b6, b7] + s)
            == Push4(Push4(Lfsr.Word(Reg(), s), b4, b5, b6, b7), b0, b1, b2, b3)
  {
    WordPush4(b4, b5, b6, b7, s);
    WordPush4(b0, b1, b2, b3, [b4, b5, b6, b7] + s);
    assert [b0, b1, b2, b3] + ([b4, b5, b6, b7] + s) == [b0, b1, b2, b3, b4, b5, b6, b7] + s;
  }

  lemma WordOfNibbles(b: byte, s: seq<bool>)
    ensures Lfsr.Word(Reg(), ByteBits(b) + s) == PushLow(PushHigh(Lfsr.Word(Reg(), s), b), b)
  {
    WordPush8(Has(b, 1), Has(b, 2), Has(b, 4), Has(b, 8), Has(b, 16), Has(b, 32), Has(b, 64), Has(b, 128), s);
  }

  /** The bits of a byte spell the byte. */
  lemma WordOfByte(b: byte, s: seq<bool>)
    ensures Lfsr.Word(Reg(), ByteBits(b) + s) == Joined(Spread(b), Lfsr.Word(Reg(), s))
  {
    WordOfNibbles(b, s);
    PushByte(Lfsr.Word(Reg(), s), b);
  }

  lemma WordOfLastByte(b: byte)
    ensures Lfsr.Word(Reg(), ByteBits(b)) == Spread(b)
  {
    WordOfByte(b, []);
    assert ByteBits(b) + [] == ByteBits(b);
    assert Joined(Spread(b), 0) == Spread(b);
  }

  lemma UpdateFeeds(c: bv16, b: byte)
    ensures Update(c, b) == Lfsr.Feed(Reg(), c, ByteBits(b))
  {
    RegLaws();
    WordOfLastByte(b);
    Lfsr.FeedWord(Reg(), c, ByteBits(b));
    SameShifts(Xor(c, Spread(b)), 8);
  }

  /** The byte-wise checksum loop is the bit-wise shift register over the transmitted bits. */
  lemma {:induction false} RegisterFeeds(c: bv16, data: seq<byte>)
    ensures Register(c, data) == Lfsr.Feed(Reg(), c, Bits(data))
    decreases data
  {
    if data != [] {
      UpdateFeeds(c, data[0]);
      RegisterFeeds(Update(c, data[0]), data[1..]);
      Lfsr.FeedAppend(Reg(), c, ByteBits(data[0]), Bits(data[1..]));
    }
  }

  lemma {:induction false} RegisterAppend(c: bv16, x: seq<byte>, y: seq<byte>)
    ensures Register(c, x + y) == Register(Register(c, x), y)
    decreases x
  {
    if x == [] {
      assert x + y == y;
    } else {
      assert (x + y)[1..] == x[1..] + y;
      RegisterAppend(Update(c, x[0]), x[1..], y);
    }
  }

  lemma JoinHalves(c: bv16)
    ensures Joined(Spread(Low(c)), Spread(High(c))) == c
  {
  }

  lemma SplitJoined(lo: byte, hi: byte)
    ensures Low(Joined(Spread(lo), Spread(hi))) == lo
    ensures High(Joined(Spread(lo), Spread(hi))) == hi
  {
  }

  lemma BitsOfTwo(lo: byte, hi: byte)
    ensures Bits([lo, hi]) == ByteBits(lo) + ByteBits(hi)
  {
    assert [lo, hi][1..] == [hi] && [hi][1..] == [];
    assert Bits([hi]) == ByteBits(hi) + Bits([]) == ByteBits(hi);
  }

  lemma WordOfTwo(lo: byte, hi: byte)
    ensures Lfsr.Word(Reg(), Bits([lo, hi])) == Joined(Spread(lo), Spread(hi))
  {
    BitsOfTwo(lo, hi);
    WordOfLastByte(hi);
    WordOfByte(lo, ByteBits(hi));
  }

  /** Two bytes take the register to zero exactly when they are its own halves, low first. */
  lemma ZeroAfterOwnHalves(c: bv16, lo: byte, hi: byte)
    ensures Register(c, [lo, hi]) == 0 <==> lo == Low(c) && hi == High(c)
  {
    RegLaws();
    RegisterFeeds(c, [lo, hi]);
    WordOfTwo(lo, hi);
    Lfsr.ZeroAfterWord(Reg(), c, Bits([lo, hi]));
    JoinHalves(c);
    SplitJoined(lo, hi);
  }

  /** A frame of at least three bytes is accepted exactly when the register over the whole
      frame, checksum included, ends at zero. */
  lemma AcceptsIsResidueZero(frame: seq<byte>)
    ensures Accepts(frame) <==> |frame| >= 3 && Register(SEED, frame) == 0
  {
    if |frame| >= 3 {
      var n := |frame| - 2;
      var c := Register(SEED, frame[..n]);
      assert frame == frame[..n] + [frame[n], frame[n + 1]];
      RegisterAppend(SEED, frame[..n], [frame[n], frame[n + 1]]);
      ZeroAfterOwnHalves(c, frame[n], frame[n + 1]);
    }
  }

  // ---------------------------------------------------------------- bit positions

  lemma ByteBitsInjective(x: byte, y: byte)
    requires ByteBits(x) == ByteBits(y)
    ensures x == y
  {
    WordOfLastByte(x);
    WordOfLastByte(y);
    SpreadInjective(x, y);
  }

  lemma SpreadInjective(x: byte, y: byte)
    requires Spread(x) == Spread(y)
    ensures x == y
  {
  }

  lemma {:induction false} BitsInjective(x: seq<byte>, y: seq<byte>)
    requires |x| == |y| && Bits(x) == Bits(y)
    ensures x == y
    decreases x
  {
    if x != [] {
      assert Bits(x)[..8] == ByteBits(x[0]) && Bits(y)[..8] == ByteBits(y[0]);
      assert Bits(x)[8..] == Bits(x[1..]) && Bits(y)[8..] == Bits(y[1..]);
      ByteBitsInjective(x[0], y[0]);
      BitsInjective(x[1..], y[1..]);
      assert x == [x[0]] + x[1..] && y == [y[0]] + y[1..];
    }
  }

  /** Acceptance in terms of the transmitted bits alone. */
  lemma AcceptsFeeds(f: seq<byte>)
    ensures Accepts(f) <==> |f| >= 3 && Lfsr.Feed(Reg(), SEED, Bits(f)) == 0
  {
    AcceptsIsResidueZero(f);
    RegisterFeeds(SEED, f);
  }

  /** Every non-zero corruption confined to 16 consecutive bits is noticed. */
  lemma BurstDetected(f: seq<byte>, g: seq<byte>, start: nat)
    requires Accepts(f) && |f| == |g| && f != g && Lfsr.Agree(Bits(f), Bits(g), start, 16)
    ensures !Accepts(g)
  {
    AcceptsFeeds(f);
    AcceptsFeeds(g);
    if Lfsr.Feed(Reg(), SEED, Bits(g)) == 0 {
      RegLaws();
      Lfsr.BurstWindow(Reg(), SEED, Bits(f), Bits(g), start);
      BitsInjective(f, g);
    }
  }

  /** Whether a corruption goes unnoticed depends only on which bits it flips: the flipped
      positions, fed into the zero register, must leave zero. */
  lemma UnnoticedIffSyndromeZero(f: seq<byte>, g: seq<byte>)
    requires Accepts(f) && |f| == |g|
    ensures Accepts(g) <==> Lfsr.Feed(Reg(), 0, Lfsr.Diff(Bits(f), Bits(g))) == 0
  {
    RegLaws();
    AcceptsFeeds(f);
    AcceptsFeeds(g);
    Lfsr.SameIffSyndromeZero(Reg(), SEED, Bits(f), Bits(g));
  }

  /** The first sixteen flips of the generator pattern x^16 + x^15 + x^2 + 1. */
  function Generator(): (s: seq<bool>)
    ensures |s| == 16
  {
    seq(16, k => k == 0 || k == 1 || k == 14)
  }

  function GeneratorWord(): bv16 { 0x4003 }

  lemma GeneratorIsWord()
    ensures Lfsr.Word(Reg(), Generator()) == GeneratorWord()
  {
    assert Generator() == ByteBits(0x03) + ByteBits(0x40);
    WordOfLastByte(0x40);
    WordOfByte(0x03, ByteBits(0x40));
  }

  lemma GeneratorGenerates()
    ensures Lfsr.Generates(Reg(), Generator())
  {
    GeneratorIsWord();
    SameShifts(0x4003, 16);
    assert Shift(0x4003) == 0x8000;
    TopFalls();
  }

  lemma TopFalls()
    ensures Shifts(0x8000, 15) == 1
  {
    assert Shifts(0x8000, 15) == Shifts(0x4000, 14) == Shifts(0x2000, 13) == Shifts(0x1000, 12);
    assert Shifts(0x1000, 12) == Shifts(0x800, 11) == Shifts(0x400, 10) == Shifts(0x200, 9) == Shifts(0x100, 8);
    assert Shifts(0x100, 8) == Shifts(0x80, 7) == Shifts(0x40, 6) == Shifts(0x20, 5) == Shifts(0x10, 4);
    assert Shifts(0x10, 4) == Shifts(0x8, 3) == Shifts(0x4, 2) == Shifts(0x2, 1) == Shifts(0x1, 0);
  }

  /** 16 bits is exactly what the checksum promises: within 17 consecutive bits the only
      unnoticed corruption flips the pattern of the generator polynomial. */
  lemma SeventeenBitWindow(f: seq<byte>, g: seq<byte>, start: nat)
    requires Accepts(f) && |f| == |g| && f != g && start + 17 <= 8 * |f| && Lfsr.Agree(Bits(f), Bits(g), start, 17)
    ensures Accepts(g) <==> Lfsr.Diff(Bits(f), Bits(g))[start..start + 17] == Generator() + [true]
  {
    AcceptsFeeds(f);
    AcceptsFeeds(g);
    if Bits(f) == Bits(g) { BitsInjective(f, g); }
    WindowOnRegister(Bits(f), Bits(g), start);
  }

  lemma WindowOnRegister(x: seq<bool>, y: seq<bool>, start: nat)
    requires start + 17 <= |x| && Lfsr.Agree(x, y, start, 17) && x != y
    ensures Lfsr.Feed(Reg(), SEED, x) == Lfsr.Feed(Reg(), SEED, y)
            <==> Lfsr.Diff(x, y)[start..start + 17] == Generator() + [true]
  {
    RegLaws();
    GeneratorGenerates();
    Lfsr.SeventeenWindow(Reg(), SEED, x, y, start, Generator());
  }

  // ---------------------------------------------------------------- parity

  predicate Lowest(w: bv16) { w & 1 != 0 }
  function Half(w: bv16): bv16 { w >> 1 }

  /** An odd number of one bits. */
  predicate OddWord(w: bv16) {
    if w == 0 then false else Lowest(w) != OddWord(Half(w))
  }

  lemma HalfXor(x: bv16, y: bv16)
    ensures Half(Xor(x, y)) == Xor(Half(x), Half(y)) && Lowest(Xor(x, y)) == (Lowest(x) != Lowest(y))
  {
  }

  lemma OddStep(w: bv16)
    ensures OddWord(w) == (Lowest(w) != OddWord(Half(w)))
  {
  }

  lemma {:induction false} OddXor(x: bv16, y: bv16)
    ensures OddWord(Xor(x, y)) == (OddWord(x) != OddWord(y))
    decreases x
  {
    if x == 0 {
      assert Xor(x, y) == y;
    } else {
      OddXor(Half(x), Half(y));
      HalfXor(x, y);
      OddStep(Xor(x, y));
      OddStep(y);
    }
  }

  lemma PolyIsOdd()
    ensures OddWord(POLY)
  {
    assert OddWord(POLY) == !OddWord(0x5000) && OddWord(0x5000) == OddWord(0x2800) == OddWord(0x1400) == OddWord(0xA00);
    assert OddWord(0xA00) == OddWord(0x500) == OddWord(0x280) == OddWord(0x140) == OddWord(0xA0);
    assert OddWord(0xA0) == OddWord(0x50) == OddWord(0x28) == OddWord(0x14) == OddWord(0xA) == OddWord(5);
    assert OddWord(5) == !OddWord(2) == !OddWord(1);
  }

  lemma SeedIsEven()
    ensures !OddWord(SEED)
  {
    assert OddWord(0xFFFF) == !OddWord(0x7FFF) == OddWord(0x3FFF) == !OddWord(0x1FFF) == OddWord(0xFFF);
    assert OddWord(0xFFF) == !OddWord(0x7FF) == OddWord(0x3FF) == !OddWord(0x1FF) == OddWord(0xFF);
    assert OddWord(0xFF) == !OddWord(0x7F) == OddWord(0x3F) == !OddWord(0x1F) == OddWord(0xF);
    assert OddWord(0xF) == !OddWord(7) == OddWord(3) == !OddWord(1) == OddWord(0);
  }

  lemma ShiftIsHalf(w: bv16)
    ensures Shift(w) == if Lowest(w) then Xor(Half(w), POLY) else Half(w)
  {
  }

  lemma ShiftKeepsParity(w: bv16)
    ensures OddWord(Shift(w)) == OddWord(w)
  {
    ShiftIsHalf(w);
    OddStep(w);
    PolyIsOdd();
    OddXor(Half(w), POLY);
  }

  lemma FlipParity(w: bv16, b: bool)
    ensures OddWord(Xor(w, Bit(b))) == (OddWord(w) != b)
  {
    OddXor(w, Bit(b));
    assert OddWord(1) == (Lowest(1) != OddWord(0));
  }

  lemma ParityHolds()
    ensures Lfsr.Parity(Reg(), w => OddWord(w))
  {
    forall w ensures OddWord(Shift(w)) == OddWord(w) { ShiftKeepsParity(w); }
    forall w, b ensures OddWord(Xor(w, Bit(b))) == (OddWord(w) != b) { FlipParity(w, b); }
  }

  /** Every accepted frame carries an even number of one bits. */
  lemma AcceptedFramesAreEven(f: seq<byte>)
    requires Accepts(f)
    ensures !Lfsr.Odd(Bits(f))
  {
    ParityHolds();
    AcceptsFeeds(f);
    Lfsr.FeedParity(Reg(), w => OddWord(w), SEED, Bits(f));
    SeedIsEven();
  }

  /** Any odd number of flipped bits is noticed, wherever they are. */
  lemma OddFlipsDetected(f: seq<byte>, g: seq<byte>)
    requires Accepts(f) && |f| == |g| && Lfsr.Odd(Lfsr.Diff(Bits(f), Bits(g)))
    ensures !Accepts(g)
  {
    Lfsr.OddDiff(Bits(f), Bits(g));
    AcceptedFramesAreEven(f);
    if Accepts(g) { AcceptedFramesAreEven(g); }
  }

  /** The checksum of any non-empty data makes an accepted frame, and no other pair does. */
  lemma ChecksumCompletes(data: seq<byte>, lo: byte, hi: byte)
    requires data != []
    ensures Accepts(data + [lo, hi]) <==> lo == Low(Register(SEED, data)) && hi == High(Register(SEED, data))
  {
    var f := data + [lo, hi];
    assert f[..|f| - 2] == data;
  }

  // ---------------------------------------------------------------- the start value

  /** Different registers stay different whatever is fed. */
  lemma RegisterInjective(c: bv16, d: bv16, data: seq<byte>)
    requires Register(c, data) == Register(d, data)
    ensures c == d
  {
    RegLaws();
    RegisterFeeds(c, data);
    RegisterFeeds(d, data);
    Lfsr.FeedInjective(Reg(), c, d, Bits(data));
  }

  lemma EightShifts(c: bv16)
    ensures Shifts(c, 8) == Shift(Shift(Shift(Shift(Shift(Shift(Shift(Shift(c))))))))
  {
    var d := Shift(Shift(Shift(Shift(c))));
    assert Shifts(c, 8) == Shifts(Shift(Shift(c)), 6) == Shifts(d, 4);
    assert Shifts(d, 4) == Shifts(Shift(Shift(d)), 2) == Shifts(Shift(Shift(Shift(Shift(d)))), 0);
  }

  lemma UpdateIs(c: bv16, b: byte)
    ensures Update(c, b) == Shift(Shift(Shift(Shift(Shift(Shift(Shift(Shift(c ^ (b as bv16)))))))))
  {
    EightShifts(c ^ (b as bv16));
  }

  /** A zero byte put in front of any data changes its checksum: the register starts at ones. */
  lemma LeadingZeroCounts(data: seq<byte>)
    ensures Register(SEED, [0] + data) != Register(SEED, data)
  {
    assert ([0] + data)[1..] == data;
    UpdateIs(SEED, 0);
    if Register(SEED, [0] + data) == Register(SEED, data) { RegisterInjective(Update(SEED, 0), SEED, data); }
  }

  lemma {:induction false} ZerosKeepZero(data: seq<byte>)
    requires forall k :: 0 <= k < |data| ==> data[k] == 0
    ensures Register(0, data) == 0
    decreases data
  {
    if data != [] {
      UpdateIs(0, 0);
      ZerosKeepZero(data[1..]);
    }
  }

  /** No frame of zero bytes is accepted, whatever its length. */
  lemma ZerosRejected(frame: seq<byte>)
    requires forall k :: 0 <= k < |frame| ==> frame[k] == 0
    ensures !Accepts(frame)
  {
    if Accepts(frame) {
      AcceptsIsResidueZero(frame);
      ZerosKeepZero(frame);
      RegisterInjective(SEED, 0, frame);
    }
  }

  /** The known vector of the repository: 01 03 00 00 00 0A has the checksum C5 CD. */
  lemma KnownChecksum()
    ensures var c := Register(SEED, [1, 3, 0, 0, 0, 0x0A]); Low(c) == 0xC5 && High(c) == 0xCD
  {
    UpdateIs(SEED, 1);
    UpdateIs(0x807E, 3);
    UpdateIs(0x2140, 0);
    UpdateIs(0xF020, 0);
    UpdateIs(0xD8F1, 0);
    UpdateIs(0x8419, 0x0A);
    var data: seq<byte> := [1, 3, 0, 0, 0, 0x0A];
    var rest: seq<byte> := [0, 0, 0x0A];
    assert data[1..][1..][1..] == rest;
    assert Register(SEED, data) == Register(0x807E, data[1..]) == Register(0x2140, data[1..][1..]) == Register(0xF020, rest);
    assert rest[1..][1..] == [0x0A] && [0x0A as byte][1..] == [];
    assert Register(0xF020, rest) == Register(0xD8F1, rest[1..]) == Register(0x8419, [0x0A]);
    assert Register(0x8419, [0x0A]) == Register(0xCDC5, []) == 0xCDC5;
  }

  method KnownVector() returns (lo: byte, hi: byte)
    ensures lo == 0xC5 && hi == 0xCD
  {
    KnownChecksum();
    lo, hi := Crc16([1, 3, 0, 0, 0, 0x0A]);
  }
}
