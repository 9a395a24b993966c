/** The UPP parser (`st-comm-upp/src/frame_parser.rs`). */
module Upp {
  import opened Bytes
  import opened Framing

  const CR: byte := 0x0D
  const MAX_RESPONSE_LEN: nat := 64

  function FirstCr(buf: seq<byte>): (k: nat)
    ensures k <= |buf| && (k < |buf| ==> buf[k] == CR) && forall j :: 0 <= j < k ==> buf[j] != CR
  {
    if buf == [] || buf[0] == CR then 0 else 1 + FirstCr(buf[1..])
  }

  function Parse(buf: seq<byte>): FrameStatus {
    var k := FirstCr(buf);
    if k < |buf| then Complete(k + 1)
    else if |buf| >= MAX_RESPONSE_LEN then Invalid("UPP response exceeded 64 bytes without CR")
    else Need(|buf| + 1)
  }

  function Parser(): Framing.Parser { buf => Parse(buf) }

  /** No CR before position k. */
  ghost predicate NoCrBefore(bytes: nat -> byte, k: nat) { forall j: nat :: j < k ==> bytes(j) != CR }

  ghost predicate FirstCrAt(bytes: nat -> byte, k: nat) { NoCrBefore(bytes, k) && bytes(k) == CR }

  lemma StatusBefore(bytes: nat -> byte, n: nat)
    requires NoCrBefore(bytes, n)
    ensures StatusAt(Parser(), bytes, n) ==
      if n >= MAX_RESPONSE_LEN then Invalid("UPP response exceeded 64 bytes without CR") else Need(n + 1)
  {
    var p := Prefix(bytes, n);
    assert FirstCr(p) == n;
  }

  lemma StatusAfter(bytes: nat -> byte, k: nat, n: nat)
    requires FirstCrAt(bytes, k) && k < n
    ensures StatusAt(Parser(), bytes, n) == Complete(k + 1)
  {
    var p := Prefix(bytes, n);
    var i := FirstCr(p);
    assert p[k] == CR;
  }

  /** The first CR lies at or behind the parser's limit, but within the buffer. */
  ghost predicate LateCr(bytes: nat -> byte, capacity: nat) {
    exists k: nat :: MAX_RESPONSE_LEN <= k < capacity && FirstCrAt(bytes, k)
  }

  lemma StableUnlessLate(bytes: nat -> byte, capacity: nat)
    requires !LateCr(bytes, capacity)
    ensures StableOn(Parser(), bytes, capacity)
  {
    forall j, k | 0 <= j <= k <= capacity && Final(StatusAt(Parser(), bytes, j), j, capacity)
      ensures Final(StatusAt(Parser(), bytes, k), k, capacity)
      ensures Verdict(StatusAt(Parser(), bytes, k), k, capacity) == Verdict(StatusAt(Parser(), bytes, j), j, capacity)
    {
      StableBetween(bytes, capacity, j, k);
    }
  }

  lemma StableBetween(bytes: nat -> byte, capacity: nat, j: nat, k: nat)
    requires !LateCr(bytes, capacity) && j <= k <= capacity && Final(StatusAt(Parser(), bytes, j), j, capacity)
    ensures Final(StatusAt(Parser(), bytes, k), k, capacity)
    ensures Verdict(StatusAt(Parser(), bytes, k), k, capacity) == Verdict(StatusAt(Parser(), bytes, j), j, capacity)
  {
    var i := FirstCr(Prefix(bytes, k));
    assert NoCrBefore(bytes, i) by {
      forall x: nat | x < i ensures bytes(x) != CR { assert Prefix(bytes, k)[x] == bytes(x); }
    }
    if i < k {
      assert FirstCrAt(bytes, i);
      StatusAfter(bytes, i, k);
      if i < j { StatusAfter(bytes, i, j); } else { StatusBefore(bytes, j); }
    } else {
      StatusBefore(bytes, j);
      StatusBefore(bytes, k);
    }
  }

  lemma LateIsDependent(bytes: nat -> byte, capacity: nat, k: nat)
    requires MAX_RESPONSE_LEN <= k < capacity && FirstCrAt(bytes, k)
    ensures Receive(Line(bytes, Trickle()), Parser(), capacity, 1, Start(0)).outcome.Rejected?
    ensures Receive(Line(bytes, Gulp(k)), Parser(), capacity, 1, Start(0)).outcome == Frame(k + 1)
  {
    forall j: nat | j <= MAX_RESPONSE_LEN
      ensures StatusAt(Parser(), bytes, j) ==
        if j >= MAX_RESPONSE_LEN then Invalid("UPP response exceeded 64 bytes without CR") else Need(j + 1)
    {
      StatusBefore(bytes, j);
    }
    TrickleFinds(bytes, Parser(), capacity, MAX_RESPONSE_LEN, Start(0));
    StatusAfter(bytes, k, k + 1);
    GulpFinds(bytes, Parser(), capacity, 1, k);
  }

  /** The UPP receive result is independent of how reads split the bytes exactly when the
      first CR is not between the parser's 64-byte limit and the end of the buffer; with the
      client's 65-byte buffer that is the one position 64. */
  lemma IndependentIffNotLate(bytes: nat -> byte, capacity: nat)
    ensures Independent(Parser(), bytes, capacity) <==> !LateCr(bytes, capacity)
  {
    if LateCr(bytes, capacity) {
      var k: nat :| MAX_RESPONSE_LEN <= k < capacity && FirstCrAt(bytes, k);
      LateIsDependent(bytes, capacity, k);
      var x := Receive(Line(bytes, Trickle()), Parser(), capacity, 1, Start(0)).outcome;
      var y := Receive(Line(bytes, Gulp(k)), Parser(), capacity, 1, Start(0)).outcome;
      assert Decided(x) && Decided(y) && x != y;
    } else {
      StableUnlessLate(bytes, capacity);
      StableIsIndependent(Parser(), bytes, capacity);
    }
  }

  /** The parser's own example: OK and a carriage return are a frame of three bytes; a line feed
      ends none. */
  lemma CarriageReturnEnds()
    ensures Parse([0x4F, 0x4B, 0x0D]) == Complete(3) && Parse([0x4F, 0x4B, 0x0A]) == Need(4)
  {
    var ok, feed: seq<byte> := [0x4F, 0x4B, 0x0D], [0x4F, 0x4B, 0x0A];
    assert ok[2] == 0x0D && FirstCr(ok) == 2;
    assert FirstCr(feed) == 3;
  }

  /** Without a carriage return the 64th byte makes the frame invalid. */
  lemma LimitIs64(buf: seq<byte>)
    requires forall k :: 0 <= k < |buf| ==> buf[k] != 0x0D
    ensures Parse(buf).Invalid? <==> |buf| >= 64
    ensures |buf| < 64 ==> Parse(buf) == Need(|buf| + 1)
  {
  }
}
