/** The shared serial transport (`st-comm-serial/src/transport.rs:245-416`). */
module SerialTransports {
  import opened Bytes
  import opened Framing

  /** What the operating system does with one transaction's calls. */
  datatype Host = Host(setTimeoutOk: bool, clearOk: bool, writeOk: bool, sendTime: nat)

  datatype Fault = NotOpen | SetTimeoutFailed | ClearFailed | WriteFailed

  datatype Reply = Failed(fault: Fault) | Received(outcome: Outcome)

  function Max(a: nat, b: nat): nat { if a < b then b else a }

  class SerialTransport {
    var isOpen: bool
    var clock: nat
    var lastFrameTime: nat
    var currentReadTimeout: nat
    const interFrame: nat

    ghost predicate Valid()
      reads this
    {
      lastFrameTime <= clock
    }

    constructor (interFrame: nat, timeout: nat, now: nat)
      ensures Valid() && !isOpen && this.interFrame == interFrame && currentReadTimeout == timeout && clock == now
    {
      this.interFrame := interFrame;
      isOpen, clock, lastFrameTime, currentReadTimeout := false, now, now, timeout;
    }

    /** Skips the system call when the cached timeout is already right. */
    method EnsureReadTimeout(timeout: nat, host: Host) returns (fault: seq<Fault>)
      requires Valid()
      modifies this`currentReadTimeout
      ensures fault == (if timeout == old(currentReadTimeout) then []
                        else if !isOpen then [NotOpen]
                        else if !host.setTimeoutOk then [SetTimeoutFailed] else [])
      ensures currentReadTimeout == if fault == [] then timeout else old(currentReadTimeout)
    {
      if timeout == currentReadTimeout { return []; }
      if !isOpen { return [NotOpen]; }
      if !host.setTimeoutOk { return [SetTimeoutFailed]; }
      currentReadTimeout := timeout;
      fault := [];
    }

    method SleepUntilSilent(silence: nat)
      requires Valid()
      modifies this`clock
      ensures clock == Max(old(clock), lastFrameTime + silence)
    {
      var elapsed := clock - lastFrameTime;
      if elapsed < silence { clock := clock + (silence - elapsed); }
    }

    /** Waits out the inter-frame gap, then writes. */
    method Send(host: Host) returns (fault: seq<Fault>)
      requires Valid()
      modifies this`clock, this`lastFrameTime
      ensures Valid()
      ensures fault == if !isOpen then [NotOpen] else if !host.writeOk then [WriteFailed] else []
      ensures fault == [] ==> clock == lastFrameTime == Max(old(clock), old(lastFrameTime) + interFrame) + host.sendTime
      ensures fault != [] ==> lastFrameTime == old(lastFrameTime) && clock >= old(clock)
    {
      if !isOpen { return [NotOpen]; }
      SleepUntilSilent(interFrame);
      if !host.writeOk { return [WriteFailed]; }
      clock := clock + host.sendTime;
      lastFrameTime := clock;
      fault := [];
    }

    /** One read into `buf[total..]`. */
    method ReceiveSome(line: Line, turn: nat, buf: array<byte>, total: nat) returns (ok: bool, n: nat)
      requires Valid() && total < buf.Length && buf[..total] == Prefix(line.bytes, total)
      modifies this`clock, this`lastFrameTime, buf
      ensures Valid()
      ensures ok == !line.arrivals(turn).Fault?
      ensures line.arrivals(turn).Fault? ==> n == 0 && clock == old(clock) && lastFrameTime == old(lastFrameTime)
      ensures line.arrivals(turn).Empty? ==>
        n == 0 && clock == old(clock) + line.arrivals(turn).extraElapsed + 1 && lastFrameTime == old(lastFrameTime)
      ensures line.arrivals(turn).Data? ==>
        n == Min(line.arrivals(turn).extra + 1, buf.Length - total)
        && clock == lastFrameTime == old(clock) + line.arrivals(turn).elapsed
      ensures buf[..total + n] == Prefix(line.bytes, total + n)
      ensures buf[total + n..] == old(buf[total + n..])
    {
      match line.arrivals(turn)
      case Fault => return false, 0;
      case Empty(x) =>
        clock := clock + x + 1;
        return true, 0;
      case Data(extra, elapsed) =>
        n := Min(extra + 1, buf.Length - total);
        for i := 0 to n
          modifies buf
          invariant buf[..total + i] == Prefix(line.bytes, total + i)
          invariant buf[total + i..] == old(buf[total + i..])
        {
          buf[total + i] := line.bytes(total + i);
          assert buf[..total + i + 1] == buf[..total + i] + [line.bytes(total + i)];
          assert old(buf[total + i..])[1..] == old(buf[total + i + 1..]);
        }
        clock := clock + elapsed;
        lastFrameTime := clock;
        ok := true;
    }

    /** Reads until m bytes are there; `stop` holds the outcome of a run that ends before. */
    method FillTo(line: Line, buf: array<byte>, from: nat, firstTurn: nat, m: nat, deadline: nat, ghost parse: Parser)
      returns (total: nat, turn: nat, stop: seq<Outcome>)
      requires Valid() && from < m <= buf.Length && buf[..from] == Prefix(line.bytes, from)
      modifies this`clock, this`lastFrameTime, buf
      ensures Valid() && from <= total <= buf.Length && buf[..total] == Prefix(line.bytes, total)
      ensures buf[total..] == old(buf[total..])
      ensures var e := Fill(line, parse, buf.Length, deadline, m, Progress(from, firstTurn, old(clock), old(lastFrameTime)));
        var s := Progress(total, turn, clock, lastFrameTime);
        if stop == [] then total >= m && Receive(line, parse, buf.Length, deadline, s) == e
        else |stop| == 1 && e == Ending(stop[0], s)
    {
      total, turn, stop := from, firstTurn, [];
      ghost var e := Fill(line, parse, buf.Length, deadline, m, Progress(from, firstTurn, clock, lastFrameTime));
      while total < m
        invariant Valid() && from <= total <= buf.Length && buf[..total] == Prefix(line.bytes, total)
        invariant buf[total..] == old(buf[total..])
        invariant var s := Progress(total, turn, clock, lastFrameTime);
          e == if total < m then Fill(line, parse, buf.Length, deadline, m, s) else Receive(line, parse, buf.Length, deadline, s)
        decreases buf.Length - total, Left(deadline, clock)
      {
        if clock >= deadline { return total, turn, [TimedOut(total, m)]; }
        var ok, n := ReceiveSome(line, turn, buf, total);
        if !ok { return total, turn, [ReadFailed]; }
        assert old(buf[total..])[n..] == old(buf[total + n..]);
        total := total + n;
        turn := turn + 1;
      }
    }

    /** The receive loop: consult the parser, read what it asks for, repeat. */
    method ReceiveFramed(line: Line, buf: array<byte>, parse: Parser, deadline: nat) returns (outcome: Outcome)
      requires Valid()
      modifies this`clock, this`lastFrameTime, buf
      ensures Valid()
      ensures var e := Receive(line, parse, buf.Length, deadline, Progress(0, 0, old(clock), old(lastFrameTime)));
        && outcome == e.outcome && e.at.total <= buf.Length
        && buf[..e.at.total] == Prefix(line.bytes, e.at.total)
        && buf[e.at.total..] == old(buf[e.at.total..])
        && clock == e.at.now && lastFrameTime == e.at.last
    {
      var total, turn := 0, 0;
      ghost var e := Receive(line, parse, buf.Length, deadline, Progress(0, 0, clock, lastFrameTime));
      while true
        invariant Valid() && total <= buf.Length && buf[..total] == Prefix(line.bytes, total)
        invariant buf[total..] == old(buf[total..])
        invariant Receive(line, parse, buf.Length, deadline, Progress(total, turn, clock, lastFrameTime)) == e
        decreases buf.Length - total
      {
        match parse(buf[..total])
        case Complete(n) =>
          return if n > total then BadComplete(n, total) else Frame(n);
        case Invalid(reason) =>
          return Rejected(reason);
        case Need(m) =>
          if m > buf.Length { return TooLong(m, buf.Length); }
          if m <= total { return NoProgress(m, total); }
          ghost var before := total;
          var stop;
          total, turn, stop := FillTo(line, buf, total, turn, m, deadline, parse);
          assert old(buf[before..])[total - before..] == old(buf[total..]);
          if stop != [] { return stop[0]; }
      }
    }

    /** Sends the request and receives one frame. A transaction that gets past sending returns
        exactly what `Receive` says for the bytes that follow, starting when the request was
        out; that is not before the bus was silent for both the gap and the preamble. */
    method TransactionFramed(line: Line, host: Host, buf: array<byte>, parse: Parser, timeout: nat, preamble: nat)
      returns (r: Reply, sentAt: nat)
      requires Valid()
      modifies this`clock, this`lastFrameTime, this`currentReadTimeout, buf
      ensures Valid()
      ensures r.Failed? <==> !isOpen || (timeout != old(currentReadTimeout) && !host.setTimeoutOk) || !host.clearOk || !host.writeOk
      ensures r.Failed? && !isOpen ==> r.fault == NotOpen
      ensures r.Failed? && isOpen && timeout != old(currentReadTimeout) && !host.setTimeoutOk ==> r.fault == SetTimeoutFailed
      ensures r.Failed? && isOpen && (timeout == old(currentReadTimeout) || host.setTimeoutOk) ==>
        r.fault == if host.clearOk then WriteFailed else ClearFailed
      ensures r.Failed? ==> buf[..] == old(buf[..]) && lastFrameTime == old(lastFrameTime)
      ensures r.Received? ==> currentReadTimeout == timeout
      ensures r.Received? ==>
        sentAt == Max(old(clock), old(lastFrameTime) + Max(preamble, interFrame)) + host.sendTime
      ensures r.Received? ==>
        var e := Receive(line, parse, buf.Length, sentAt + timeout, Start(sentAt));
        && r.outcome == e.outcome && e.at.total <= buf.Length
        && buf[..e.at.total] == Prefix(line.bytes, e.at.total)
        && buf[e.at.total..] == old(buf[e.at.total..])
        && clock == e.at.now && lastFrameTime == e.at.last
    {
      var fault := EnsureReadTimeout(timeout, host);
      if fault != [] { return Failed(fault[0]), 0; }
      if preamble != 0 { SleepUntilSilent(preamble); }
      if !isOpen { return Failed(NotOpen), 0; }
      if !host.clearOk { return Failed(ClearFailed), 0; }
      fault := Send(host);
      if fault != [] { return Failed(fault[0]), 0; }
      sentAt := clock;
      var outcome := ReceiveFramed(line, buf, parse, sentAt + timeout);
      r := Received(outcome);
    }
  }
}
