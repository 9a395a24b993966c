/** The streaming Modbus RTU parser (`st-comm-modbus/src/frame_parser.rs`). */
module RtuParser {
  import opened Names
  import opened Bytes
  import opened Framing

  /** What the request lets the parser check. */
  datatype Expect = Expect(slave: Option<byte>, fc: Option<byte>)

  function ForRequest(slave: byte, fc: byte): Expect { Expect(Some(slave), Some(fc & 0x7F)) }

  predicate IsException(fc: byte) { fc & 0x80 != 0 }
  predicate IsRead(fc: byte) { fc == 1 || fc == 2 || fc == 3 || fc == 4 }
  predicate IsWrite(fc: byte) { fc == 5 || fc == 6 || fc == 0x0F || fc == 0x10 }
  function Code(fc: byte): byte { fc & 0x7F }
  function UpTo(total: nat, buf: seq<byte>): FrameStatus {
    if |buf| < total then Need(total) else Complete(total)
  }

  function Parse(x: Expect, buf: seq<byte>): FrameStatus {
    if x.slave.Some? && |buf| >= 1 && buf[0] != x.slave.value then Invalid("Slave ID mismatch")
    else if |buf| < 2 then Need(2)
    else if x.fc.Some? && Code(buf[1]) != x.fc.value then Invalid("Function code mismatch")
    else if IsException(buf[1]) then UpTo(5, buf)
    else if IsRead(buf[1]) then if |buf| < 3 then Need(3) else UpTo(5 + Size(buf[2]), buf)
    else if IsWrite(buf[1]) then UpTo(8, buf)
    else Invalid("Unrecognised Modbus function code")
  }

  function Parser(x: Expect): Framing.Parser { buf => Parse(x, buf) }

  /** The length the first bytes of a stream announce; none when they are not a response to
      the request at all. */
  function Announced(x: Expect, bytes: nat -> byte): Option<nat> {
    var fc := bytes(1);
    if x.slave.Some? && bytes(0) != x.slave.value then None
    else if x.fc.Some? && Code(fc) != x.fc.value then None
    else if IsException(fc) then Some(5)
    else if IsRead(fc) then Some(5 + Size(bytes(2)))
    else if IsWrite(fc) then Some(8)
    else None
  }

  lemma StatusOf(x: Expect, bytes: nat -> byte, k: nat)
    ensures var st := StatusAt(Parser(x), bytes, k);
      match Announced(x, bytes)
      case Some(n) => if k >= n then st == Complete(n) else st.Need? && k < st.minTotal <= n && (k >= 3 ==> st == Need(n))
      case None => if k >= 2 then st.Invalid? else st.Invalid? || st == Need(2)
  {
    var p := Prefix(bytes, k);
    if k >= 1 { assert p[0] == bytes(0); }
    if k >= 2 { assert p[1] == bytes(1); }
    if k >= 3 { assert p[2] == bytes(2); }
  }

  lemma InvalidStays(x: Expect, bytes: nat -> byte, j: nat, k: nat)
    requires j <= k && StatusAt(Parser(x), bytes, j).Invalid?
    ensures StatusAt(Parser(x), bytes, k) == StatusAt(Parser(x), bytes, j)
  {
    var p, q := Prefix(bytes, j), Prefix(bytes, k);
    if j >= 1 { assert p[0] == q[0]; }
    if j >= 2 { assert p[1] == q[1]; }
  }

  lemma Stable(x: Expect, bytes: nat -> byte, capacity: nat)
    requires capacity >= 2
    ensures StableOn(Parser(x), bytes, capacity)
  {
    forall j, k | 0 <= j <= k <= capacity && Final(StatusAt(Parser(x), bytes, j), j, capacity)
      ensures Final(StatusAt(Parser(x), bytes, k), k, capacity)
      ensures Verdict(StatusAt(Parser(x), bytes, k), k, capacity) == Verdict(StatusAt(Parser(x), bytes, j), j, capacity)
    {
      StatusOf(x, bytes, j);
      StatusOf(x, bytes, k);
      if StatusAt(Parser(x), bytes, j).Invalid? {
        InvalidStays(x, bytes, j, k);
      } else if StatusAt(Parser(x), bytes, j).Need? {
        TooLongStays(x, bytes, capacity, j, k);
      }
    }
  }

  lemma TooLongStays(x: Expect, bytes: nat -> byte, capacity: nat, j: nat, k: nat)
    requires 2 <= capacity && j <= k <= capacity
    requires StatusAt(Parser(x), bytes, j).Need? && StatusAt(Parser(x), bytes, j).minTotal > capacity
    ensures StatusAt(Parser(x), bytes, k) == StatusAt(Parser(x), bytes, j)
  {
    StatusOf(x, bytes, j);
    StatusOf(x, bytes, k);
    var p, q := Prefix(bytes, j), Prefix(bytes, k);
    assert p[0] == q[0] && p[1] == q[1];
    if j >= 3 { assert p[2] == q[2]; }
  }

  /** For the RTU parser how reads split the stream never matters. */
  lemma ReceiveIsIndependent(x: Expect, bytes: nat -> byte, capacity: nat)
    ensures Independent(Parser(x), bytes, capacity)
  {
    if capacity >= 2 {
      Stable(x, bytes, capacity);
      StableIsIndependent(Parser(x), bytes, capacity);
    } else {
      assert StatusAt(Parser(x), bytes, 0) == Need(2);
    }
  }

  /** What a decided run returns, whatever the reads and the deadline: the announced frame if
      it fits the buffer. A timed-out run has seen fewer bytes than the announced frame, so
      the parser never waits for bytes beyond it. */
  lemma ReceivesAnnounced(x: Expect, line: Line, capacity: nat, deadline: nat, t: nat)
    requires Announced(x, line.bytes).Some? && capacity >= 3
    ensures var n := Announced(x, line.bytes).value;
      var e := Receive(line, Parser(x), capacity, deadline, Start(t));
      && (Decided(e.outcome) ==> e.outcome == if n <= capacity then Frame(n) else TooLong(n, capacity))
      && (e.outcome.TimedOut? ==> e.outcome.total < n)
  {
    var n := Announced(x, line.bytes).value;
    var e := Receive(line, Parser(x), capacity, deadline, Start(t));
    EndsWithVerdict(line, Parser(x), capacity, deadline, Start(t));
    StatusOf(x, line.bytes, e.at.total);
    if e.outcome.TimedOut? {
      var k :| 0 <= k <= e.at.total && StatusAt(Parser(x), line.bytes, k) == Need(e.outcome.need);
      StatusOf(x, line.bytes, k);
    }
  }

  /** A stream that is no response to the request is rejected, never returned as a frame. */
  lemma RejectsStrangers(x: Expect, line: Line, capacity: nat, deadline: nat, t: nat)
    requires Announced(x, line.bytes).None? && capacity >= 2
    ensures var o := Receive(line, Parser(x), capacity, deadline, Start(t)).outcome;
      Decided(o) ==> o.Rejected?
  {
    var e := Receive(line, Parser(x), capacity, deadline, Start(t));
    EndsWithVerdict(line, Parser(x), capacity, deadline, Start(t));
    StatusOf(x, line.bytes, e.at.total);
  }
}
