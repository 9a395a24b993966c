/** Receiving one frame from a serial line (`st-comm-serial/src/framing.rs`, `transport.rs`):
    what the receive loop returns for a given parser, byte stream and read schedule. */
module Framing {
  import opened Bytes

  datatype FrameStatus = Complete(len: nat) | Need(minTotal: nat) | Invalid(reason: string)

  /** The parsers of the repository keep no state between calls. */
  type Parser = seq<byte> -> FrameStatus

  /** One read: at least one byte became available, the read timed out empty, or it failed.
      Times are in clock ticks; a read that brings nothing takes at least one. */
  datatype ReadEvent = Data(extra: nat, elapsed: nat) | Empty(extraElapsed: nat) | Fault

  /** The bytes on the line after the request, and how the reads deliver them. */
  datatype Line = Line(bytes: nat -> byte, arrivals: nat -> ReadEvent)

  datatype Outcome =
    | Frame(len: nat)
    | Rejected(reason: string)
    | TooLong(need: nat, capacity: nat)
    | BadComplete(claimed: nat, total: nat)
    | NoProgress(need: nat, total: nat)
    | TimedOut(total: nat, need: nat)
    | ReadFailed

  /** Bytes received, next read, clock, time of the last byte. */
  datatype Progress = Progress(total: nat, turn: nat, now: nat, last: nat)

  datatype Ending = Ending(outcome: Outcome, at: Progress)

  function Prefix(bytes: nat -> byte, n: nat): (p: seq<byte>)
    ensures |p| == n && forall k :: 0 <= k < n ==> p[k] == bytes(k)
  {
    seq(n, k requires 0 <= k < n => bytes(k))
  }

  function Left(deadline: nat, now: nat): nat { if now < deadline then deadline - now else 0 }

  function Min(a: nat, b: nat): nat { if a < b then a else b }

  function AfterData(s: Progress, e: ReadEvent, capacity: nat): Progress
    requires e.Data? && s.total < capacity
  {
    var t := s.now + e.elapsed;
    Progress(s.total + Min(e.extra + 1, capacity - s.total), s.turn + 1, t, t)
  }

  /** Consult the parser on everything received so far. */
  function Receive(line: Line, parse: Parser, capacity: nat, deadline: nat, s: Progress): Ending
    requires s.total <= capacity
    decreases capacity - s.total, Left(deadline, s.now), 1
  {
    match parse(Prefix(line.bytes, s.total))
    case Complete(n) => Ending(if n > s.total then BadComplete(n, s.total) else Frame(n), s)
    case Invalid(reason) => Ending(Rejected(reason), s)
    case Need(m) =>
      if m > capacity then Ending(TooLong(m, capacity), s)
      else if m <= s.total then Ending(NoProgress(m, s.total), s)
      else Fill(line, parse, capacity, deadline, m, s)
  }

  /** Read until m bytes are there. */
  function Fill(line: Line, parse: Parser, capacity: nat, deadline: nat, m: nat, s: Progress): Ending
    requires s.total < m <= capacity
    decreases capacity - s.total, Left(deadline, s.now), 0
  {
    if s.now >= deadline then Ending(TimedOut(s.total, m), s) else
    match line.arrivals(s.turn)
    case Fault => Ending(ReadFailed, s)
    case Empty(x) => Fill(line, parse, capacity, deadline, m, s.(turn := s.turn + 1, now := s.now + x + 1))
    case Data(_, _) =>
      var t := AfterData(s, line.arrivals(s.turn), capacity);
      if t.total < m then Fill(line, parse, capacity, deadline, m, t)
      else Receive(line, parse, capacity, deadline, t)
  }

  // ---------------------------------------------------------------- what decides the result

  /** A run that neither timed out nor failed to read. */
  predicate Decided(o: Outcome) { !o.TimedOut? && !o.ReadFailed? }

  /** The parser's last word once `total` bytes are there, if it has one. */
  function Verdict(status: FrameStatus, total: nat, capacity: nat): Outcome {
    match status
    case Complete(n) => if n > total then BadComplete(n, total) else Frame(n)
    case Invalid(reason) => Rejected(reason)
    case Need(m) => if m > capacity then TooLong(m, capacity) else NoProgress(m, total)
  }

  predicate Final(status: FrameStatus, total: nat, capacity: nat) {
    status.Need? ==> status.minTotal > capacity || status.minTotal <= total
  }

  function StatusAt(parse: Parser, bytes: nat -> byte, n: nat): FrameStatus { parse(Prefix(bytes, n)) }

  lemma {:induction false} EndsWithVerdict(line: Line, parse: Parser, capacity: nat, deadline: nat, s: Progress)
    requires s.total <= capacity
    ensures var e := Receive(line, parse, capacity, deadline, s);
      && s.total <= e.at.total <= capacity
      && (Decided(e.outcome) ==>
            && Final(StatusAt(parse, line.bytes, e.at.total), e.at.total, capacity)
            && e.outcome == Verdict(StatusAt(parse, line.bytes, e.at.total), e.at.total, capacity))
      && (e.outcome.TimedOut? ==>
            && e.at.now >= deadline && e.outcome.total == e.at.total < e.outcome.need <= capacity
            && exists k :: s.total <= k <= e.at.total && StatusAt(parse, line.bytes, k) == Need(e.outcome.need))
    decreases capacity - s.total, Left(deadline, s.now), 1
  {
    var status := StatusAt(parse, line.bytes, s.total);
    if status.Need? && s.total < status.minTotal <= capacity {
      FillEndsWithVerdict(line, parse, capacity, deadline, status.minTotal, s.total, s);
    }
  }

  lemma {:induction false} FillEndsWithVerdict(line: Line, parse: Parser, capacity: nat, deadline: nat, m: nat, asked: nat, s: Progress)
    requires asked <= s.total < m <= capacity && StatusAt(parse, line.bytes, asked) == Need(m)
    ensures var e := Fill(line, parse, capacity, deadline, m, s);
      && s.total <= e.at.total <= capacity
      && (Decided(e.outcome) ==>
            && Final(StatusAt(parse, line.bytes, e.at.total), e.at.total, capacity)
            && e.outcome == Verdict(StatusAt(parse, line.bytes, e.at.total), e.at.total, capacity))
      && (e.outcome.TimedOut? ==>
            && e.at.now >= deadline && e.outcome.total == e.at.total < e.outcome.need <= capacity
            && exists k :: asked <= k <= e.at.total && StatusAt(parse, line.bytes, k) == Need(e.outcome.need))
    decreases capacity - s.total, Left(deadline, s.now), 0
  {
    if s.now < deadline {
      match line.arrivals(s.turn)
      case Fault =>
      case Empty(x) =>
        FillEndsWithVerdict(line, parse, capacity, deadline, m, asked, s.(turn := s.turn + 1, now := s.now + x + 1));
      case Data(_, _) =>
        var t := AfterData(s, line.arrivals(s.turn), capacity);
        if t.total < m {
          FillEndsWithVerdict(line, parse, capacity, deadline, m, asked, t);
        } else {
          EndsWithVerdict(line, parse, capacity, deadline, t);
        }
    }
  }

  /** Along one stream, a verdict once reached stays the same for any longer prefix. */
  ghost predicate StableOn(parse: Parser, bytes: nat -> byte, capacity: nat) {
    forall j, k :: 0 <= j <= k <= capacity && Final(StatusAt(parse, bytes, j), j, capacity) ==>
      Final(StatusAt(parse, bytes, k), k, capacity)
      && Verdict(StatusAt(parse, bytes, k), k, capacity) == Verdict(StatusAt(parse, bytes, j), j, capacity)
  }

  function Start(now: nat): Progress { Progress(0, 0, now, now) }

  /** Chunk independence: two decided runs over the same bytes have the same outcome, however
      the reads split them and whatever the deadlines. */
  lemma ChunkIndependence(a: Line, b: Line, parse: Parser, capacity: nat, da: nat, db: nat, ta: nat, tb: nat)
    requires a.bytes == b.bytes && StableOn(parse, a.bytes, capacity)
    requires Decided(Receive(a, parse, capacity, da, Start(ta)).outcome)
    requires Decided(Receive(b, parse, capacity, db, Start(tb)).outcome)
    ensures Receive(a, parse, capacity, da, Start(ta)).outcome == Receive(b, parse, capacity, db, Start(tb)).outcome
  {
    EndsWithVerdict(a, parse, capacity, da, Start(ta));
    EndsWithVerdict(b, parse, capacity, db, Start(tb));
    var ka := Receive(a, parse, capacity, da, Start(ta)).at.total;
    var kb := Receive(b, parse, capacity, db, Start(tb)).at.total;
    assert Final(StatusAt(parse, a.bytes, ka), ka, capacity);
    assert Final(StatusAt(parse, a.bytes, kb), kb, capacity);
  }

  /** Every decided run over `bytes` ends the same way. */
  ghost predicate Independent(parse: Parser, bytes: nat -> byte, capacity: nat) {
    forall r, q, dr: nat, dq: nat ::
      (var x := Receive(Line(bytes, r), parse, capacity, dr, Start(0)).outcome;
       var y := Receive(Line(bytes, q), parse, capacity, dq, Start(0)).outcome;
       Decided(x) && Decided(y) ==> x == y)
  }

  lemma StableIsIndependent(parse: Parser, bytes: nat -> byte, capacity: nat)
    requires StableOn(parse, bytes, capacity)
    ensures Independent(parse, bytes, capacity)
  {
    forall r, q, dr: nat, dq: nat
      | Decided(Receive(Line(bytes, r), parse, capacity, dr, Start(0)).outcome)
        && Decided(Receive(Line(bytes, q), parse, capacity, dq, Start(0)).outcome)
      ensures Receive(Line(bytes, r), parse, capacity, dr, Start(0)).outcome
              == Receive(Line(bytes, q), parse, capacity, dq, Start(0)).outcome
    {
      ChunkIndependence(Line(bytes, r), Line(bytes, q), parse, capacity, dr, dq, 0, 0);
    }
  }

  /** One byte per read, no time passing. */
  function Trickle(): nat -> ReadEvent { turn => Data(0, 0) }

  /** All `n` + 1 bytes in every read, no time passing. */
  function Gulp(n: nat): nat -> ReadEvent { turn => Data(n, 0) }

  /** A trickled run consults the parser at every length it asks for. */
  lemma {:induction false} TrickleFinds(bytes: nat -> byte, parse: Parser, capacity: nat, k: nat, s: Progress)
    requires s.total <= k <= capacity && s.now == 0
    requires forall j :: s.total <= j < k ==> StatusAt(parse, bytes, j) == Need(j + 1)
    requires Final(StatusAt(parse, bytes, k), k, capacity)
    ensures Receive(Line(bytes, Trickle()), parse, capacity, 1, s).outcome == Verdict(StatusAt(parse, bytes, k), k, capacity)
    decreases k - s.total
  {
    if s.total < k {
      var t := AfterData(s, Data(0, 0), capacity);
      assert StatusAt(parse, bytes, s.total) == Need(s.total + 1);
      TrickleFinds(bytes, parse, capacity, k, t);
    }
  }

  lemma GulpFinds(bytes: nat -> byte, parse: Parser, capacity: nat, m: nat, n: nat)
    requires StatusAt(parse, bytes, 0) == Need(m) && 0 < m <= n + 1 <= capacity
    requires Final(StatusAt(parse, bytes, n + 1), n + 1, capacity)
    ensures Receive(Line(bytes, Gulp(n)), parse, capacity, 1, Start(0)).outcome == Verdict(StatusAt(parse, bytes, n + 1), n + 1, capacity)
  {
    var t := AfterData(Start(0), Data(n, 0), capacity);
    assert t.total == n + 1;
    assert Receive(Line(bytes, Gulp(n)), parse, capacity, 1, Start(0)) == Fill(Line(bytes, Gulp(n)), parse, capacity, 1, m, Start(0));
    assert Fill(Line(bytes, Gulp(n)), parse, capacity, 1, m, Start(0)) == Receive(Line(bytes, Gulp(n)), parse, capacity, 1, t);
  }
}
