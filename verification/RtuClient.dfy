/** The Modbus RTU client (`st-comm-modbus/src/rtu_client.rs`): a request out, a frame back,
    the registers out of it. */
module RtuClients {
  import opened Names
  import opened Bytes
  import opened Framing
  import opened SerialTransports
  import RtuParser
  import RtuFrame

  const CAPACITY: nat := 256

  /** What came of the bytes on the line. */
  datatype Raw = Got(frame: seq<byte>) | NoLink(fault: SerialTransports.Fault) | NoFrame(outcome: Outcome)

  datatype Answer =
    | Registers(values: seq<bv16>)
    | Coils(bits: seq<bool>)
    | Done
    | LinkFault(fault: SerialTransports.Fault)
    | LineFault(outcome: Outcome)
    | BadReply(error: RtuFrame.ReadError)

  function RawOf(bytes: nat -> byte, outcome: Outcome): Raw {
    if outcome.Frame? then Got(Prefix(bytes, outcome.len)) else NoFrame(outcome)
  }

  function Failure(raw: Raw): Answer
    requires !raw.Got?
  {
    match raw case NoLink(f) => LinkFault(f) case NoFrame(o) => LineFault(o)
  }

  /** What the client makes of what came: of the reply to a read of registers, to a read of
      coils or inputs, and to a write. */
  function RegistersOf(raw: Raw): Answer {
    if !raw.Got? then Failure(raw) else
    match RtuFrame.ParseReadResponse(raw.frame) case Ok(body) => Registers(RtuFrame.ExtractRegisters(body)) case Err(e) => BadReply(e)
  }

  function CoilsOf(raw: Raw, count: nat): Answer {
    if !raw.Got? then Failure(raw) else
    match RtuFrame.ParseReadResponse(raw.frame) case Ok(body) => Coils(RtuFrame.Coils(body, count)) case Err(e) => BadReply(e)
  }

  function WriteOf(raw: Raw): Answer {
    if !raw.Got? then Failure(raw) else
    match RtuFrame.ParseWriteResponse(raw.frame) case Ok(_) => Done case Err(e) => BadReply(e)
  }

  /** How the receive loop for a request ends when it went out at time t. */
  function EndOf(slave: byte, fc: byte, line: Line, deadline: nat, t: nat): Outcome {
    Receive(line, RtuParser.Parser(RtuParser.ForRequest(slave, fc)), CAPACITY, deadline, Start(t)).outcome
  }

  class RtuClient {
    const transport: SerialTransport
    const timeout: nat
    const preamble: nat

    constructor (transport: SerialTransport, timeout: nat, preamble: nat)
      ensures this.transport == transport && this.timeout == timeout && this.preamble == preamble
    {
      this.transport, this.timeout, this.preamble := transport, timeout, preamble;
    }

    /** Sends a request and waits for the frame that answers it. */
    method Transact(request: seq<byte>, line: Line, host: Host) returns (raw: Raw, sentAt: nat)
      requires transport.Valid() && |request| >= 2
      modifies transport
      ensures transport.Valid()
      ensures raw.NoLink? <==>
        !old(transport.isOpen) || (timeout != old(transport.currentReadTimeout) && !host.setTimeoutOk) || !host.clearOk || !host.writeOk
      ensures !raw.NoLink? ==>
        sentAt >= old(transport.lastFrameTime) + preamble && sentAt >= old(transport.lastFrameTime) + transport.interFrame
        && raw == RawOf(line.bytes, EndOf(request[0], request[1], line, sentAt + timeout, sentAt))
    {
      var buf := new byte[256];
      var parser := RtuParser.Parser(RtuParser.ForRequest(request[0], request[1]));
      var reply, at := transport.TransactionFramed(line, host, buf, parser, timeout, preamble);
      sentAt := at;
      if reply.Failed? { return NoLink(reply.fault), sentAt; }
      if !reply.outcome.Frame? { return NoFrame(reply.outcome), sentAt; }
      FrameInBuffer(line, parser, buf.Length, sentAt + timeout, sentAt);
      raw := Got(buf[..reply.outcome.len]);
      assert raw.frame == Prefix(line.bytes, reply.outcome.len);
    }

    /** Reads holding (fc 3) or input (fc 4) registers. */
    method ReadRegisters(slave: byte, fc: byte, start: bv16, count: bv16, line: Line, host: Host)
      returns (request: seq<byte>, answer: Answer, sentAt: nat)
      requires transport.Valid()
      modifies transport
      ensures transport.Valid()
      ensures request == RtuFrame.Sealed([slave, fc] + RtuFrame.BigEndian(start) + RtuFrame.BigEndian(count))
      ensures answer.LinkFault? <==>
        !old(transport.isOpen) || (timeout != old(transport.currentReadTimeout) && !host.setTimeoutOk) || !host.clearOk || !host.writeOk
      ensures !answer.LinkFault? ==>
        sentAt >= old(transport.lastFrameTime) + preamble && sentAt >= old(transport.lastFrameTime) + transport.interFrame
        && answer == RegistersOf(RawOf(line.bytes, EndOf(slave, fc, line, sentAt + timeout, sentAt)))
    {
      request := RtuFrame.BuildReadRequest(slave, fc, start, count);
      assert request[0] == slave && request[1] == fc;
      var raw, at := Transact(request, line, host);
      sentAt := at;
      if !raw.Got? { return request, Failure(raw), sentAt; }
      match RtuFrame.ParseReadResponse(raw.frame)
      case Ok(body) => answer := Registers(RtuFrame.ExtractRegisters(body));
      case Err(e) => answer := BadReply(e);
    }

    /** Reads coils (fc 1) or discrete inputs (fc 2). */
    method ReadCoils(slave: byte, fc: byte, start: bv16, count: bv16, line: Line, host: Host)
      returns (request: seq<byte>, answer: Answer, sentAt: nat)
      requires transport.Valid()
      modifies transport
      ensures transport.Valid()
      ensures request == RtuFrame.Sealed([slave, fc] + RtuFrame.BigEndian(start) + RtuFrame.BigEndian(count))
      ensures answer.LinkFault? <==>
        !old(transport.isOpen) || (timeout != old(transport.currentReadTimeout) && !host.setTimeoutOk) || !host.clearOk || !host.writeOk
      ensures !answer.LinkFault? ==>
        sentAt >= old(transport.lastFrameTime) + preamble && sentAt >= old(transport.lastFrameTime) + transport.interFrame
        && answer == CoilsOf(RawOf(line.bytes, EndOf(slave, fc, line, sentAt + timeout, sentAt)), count as nat)
    {
      request := RtuFrame.BuildReadRequest(slave, fc, start, count);
      assert request[0] == slave && request[1] == fc;
      var raw, at := Transact(request, line, host);
      sentAt := at;
      if !raw.Got? { return request, Failure(raw), sentAt; }
      answer := ParseCoils(raw, count as nat);
    }

    static method ParseCoils(raw: Raw, count: nat) returns (answer: Answer)
      requires raw.Got?
      ensures answer == CoilsOf(raw, count)
    {
      match RtuFrame.ParseReadResponse(raw.frame)
      case Ok(body) =>
        var bits := RtuFrame.ExtractCoils(body, count);
        answer := Coils(bits);
      case Err(e) => answer := BadReply(e);
    }

    /** Writes holding registers (fc 16). */
    method WriteRegisters(slave: byte, start: bv16, values: seq<bv16>, line: Line, host: Host)
      returns (request: seq<byte>, answer: Answer, sentAt: nat)
      requires transport.Valid()
      modifies transport
      ensures transport.Valid()
      ensures request == RtuFrame.Sealed(RtuFrame.WriteRegistersBody(slave, start, values))
      ensures answer.LinkFault? <==>
        !old(transport.isOpen) || (timeout != old(transport.currentReadTimeout) && !host.setTimeoutOk) || !host.clearOk || !host.writeOk
      ensures !answer.LinkFault? ==>
        sentAt >= old(transport.lastFrameTime) + preamble && sentAt >= old(transport.lastFrameTime) + transport.interFrame
        && answer == WriteOf(RawOf(line.bytes, EndOf(slave, 0x10, line, sentAt + timeout, sentAt)))
    {
      request := RtuFrame.BuildWriteMultipleRegisters(slave, start, values);
      assert request[0] == slave && request[1] == 0x10;
      var raw, at := Transact(request, line, host);
      sentAt := at;
      if !raw.Got? { return request, Failure(raw), sentAt; }
      match RtuFrame.ParseWriteResponse(raw.frame)
      case Ok(_) => answer := Done;
      case Err(e) => answer := BadReply(e);
    }
  }

  /** A returned frame lies within the received bytes. */
  lemma FrameInBuffer(line: Line, parse: Parser, capacity: nat, deadline: nat, t: nat)
    ensures var e := Receive(line, parse, capacity, deadline, Start(t));
      e.outcome.Frame? ==> e.outcome.len <= e.at.total <= capacity
  {
    EndsWithVerdict(line, parse, capacity, deadline, Start(t));
  }

  ghost predicate StartsWith(bytes: nat -> byte, frame: seq<byte>) {
    forall k :: 0 <= k < |frame| ==> bytes(k) == frame[k]
  }

  /** A device that answers the request properly: whatever follows the reply on the line, and
      however the reads split it, the client ends with the reply's body, or with TooLong when
      the body has more than 251 bytes; and it can time out only before the reply is complete. */
  lemma HonestReply(slave: byte, fc: byte, body: seq<byte>, line: Line, deadline: nat, t: nat)
    requires |body| < 256 && RtuParser.IsRead(fc) && StartsWith(line.bytes, RtuFrame.ReadReply(slave, fc, body))
    ensures var o := EndOf(slave, fc, line, deadline, t);
      && (Decided(o) && |body| <= 251 ==> o.Frame? && RtuFrame.ParseReadResponse(Prefix(line.bytes, o.len)) == RtuFrame.Ok(body))
      && (Decided(o) && |body| > 251 ==> o == TooLong(5 + |body|, CAPACITY))
      && (o.TimedOut? ==> o.total < 5 + |body|)
  {
    var f := RtuFrame.ReadReply(slave, fc, body);
    var x := RtuParser.ForRequest(slave, fc);
    RtuFrame.ReplyFields(slave, fc, body);
    ReadCodes(fc);
    assert line.bytes(0) == f[0] && line.bytes(1) == f[1] && line.bytes(2) == f[2];
    assert RtuParser.Announced(x, line.bytes) == Some(5 + |body|);
    RtuParser.ReceivesAnnounced(x, line, CAPACITY, deadline, t);
    assert Prefix(line.bytes, 5 + |body|) == f;
    RtuFrame.ReplyRoundTrip(slave, fc, body);
  }

  lemma RegistersTaken(bytes: nat -> byte, o: Outcome, body: seq<byte>, held: seq<bv16>)
    requires o.Frame? && RtuFrame.ParseReadResponse(Prefix(bytes, o.len)) == RtuFrame.Ok(body) && RtuFrame.ExtractRegisters(body) == held
    ensures RegistersOf(RawOf(bytes, o)) == Registers(held)
  {
  }

  lemma CoilsTaken(bytes: nat -> byte, o: Outcome, body: seq<byte>, held: seq<bool>)
    requires o.Frame? && RtuFrame.ParseReadResponse(Prefix(bytes, o.len)) == RtuFrame.Ok(body) && RtuFrame.Coils(body, |held|) == held
    ensures CoilsOf(RawOf(bytes, o), |held|) == Coils(held)
  {
  }

  lemma RegistersArrive(slave: byte, fc: byte, body: seq<byte>, held: seq<bv16>, line: Line, deadline: nat, t: nat)
    requires |body| <= 251 && RtuParser.IsRead(fc) && StartsWith(line.bytes, RtuFrame.ReadReply(slave, fc, body))
    requires Decided(EndOf(slave, fc, line, deadline, t)) && RtuFrame.ExtractRegisters(body) == held
    ensures RegistersOf(RawOf(line.bytes, EndOf(slave, fc, line, deadline, t))) == Registers(held)
  {
    HonestReply(slave, fc, body, line, deadline, t);
    RegistersTaken(line.bytes, EndOf(slave, fc, line, deadline, t), body, held);
  }

  lemma CoilsArrive(slave: byte, fc: byte, body: seq<byte>, held: seq<bool>, line: Line, deadline: nat, t: nat)
    requires |body| <= 251 && RtuParser.IsRead(fc) && StartsWith(line.bytes, RtuFrame.ReadReply(slave, fc, body))
    requires Decided(EndOf(slave, fc, line, deadline, t)) && RtuFrame.Coils(body, |held|) == held
    ensures CoilsOf(RawOf(line.bytes, EndOf(slave, fc, line, deadline, t)), |held|) == Coils(held)
  {
    HonestReply(slave, fc, body, line, deadline, t);
    CoilsTaken(line.bytes, EndOf(slave, fc, line, deadline, t), body, held);
  }

  lemma ReadCodes(fc: byte)
    requires RtuParser.IsRead(fc)
    ensures RtuParser.Code(fc) == fc && !RtuParser.IsException(fc)
  {
  }

  /** End to end: the registers a device holds are the registers the client returns, up to the
      125 that fit one reply. */
  lemma DeviceRegistersArrive(slave: byte, fc: byte, held: seq<bv16>, body: seq<byte>, line: Line, deadline: nat, t: nat)
    requires |held| <= 125 && RtuParser.IsRead(fc) && body == RtuFrame.RegisterBytes(held)
    requires StartsWith(line.bytes, RtuFrame.ReadReply(slave, fc, body)) && Decided(EndOf(slave, fc, line, deadline, t))
    ensures RegistersOf(RawOf(line.bytes, EndOf(slave, fc, line, deadline, t))) == Registers(held)
  {
    RtuFrame.ExtractInverts(held);
    RegistersArrive(slave, fc, body, held, line, deadline, t);
  }

  /** Likewise up to 2008 coils or inputs, packed eight to a byte. */
  lemma DeviceCoilsArrive(slave: byte, fc: byte, held: seq<bool>, body: seq<byte>, line: Line, deadline: nat, t: nat)
    requires |held| <= 2008 && RtuParser.IsRead(fc) && body == RtuFrame.PackFrom(held, 0, (|held| + 7) / 8)
    requires StartsWith(line.bytes, RtuFrame.ReadReply(slave, fc, body)) && Decided(EndOf(slave, fc, line, deadline, t))
    ensures CoilsOf(RawOf(line.bytes, EndOf(slave, fc, line, deadline, t)), |held|) == Coils(held)
  {
    RtuFrame.AllPacked(held, (|held| + 7) / 8);
    CoilsArrive(slave, fc, body, held, line, deadline, t);
  }

  /** The answer to a write: the device repeats the first six bytes of the request when it has
      carried it out, and sends an exception otherwise. The client reports success exactly in
      the first case. */
  lemma WriteAnswered(slave: byte, fc: byte, rest: seq<byte>, code: byte, carriedOut: bool, line: Line, deadline: nat, t: nat)
    requires RtuParser.IsWrite(fc) && |rest| == 4
    requires StartsWith(line.bytes, RtuFrame.WriteReply(slave, fc, rest, code, carriedOut))
    ensures var o := EndOf(slave, fc, line, deadline, t);
      Decided(o) ==> (WriteOf(RawOf(line.bytes, o)) == Done <==> carriedOut)
  {
    var f := RtuFrame.WriteReply(slave, fc, rest, code, carriedOut);
    var x := RtuParser.ForRequest(slave, fc);
    RtuFrame.WriteReplyFields(slave, fc, rest, code, carriedOut);
    WriteCodes(fc);
    assert line.bytes(0) == f[0] && line.bytes(1) == f[1];
    assert RtuParser.Announced(x, line.bytes) == Some(|f|);
    RtuParser.ReceivesAnnounced(x, line, CAPACITY, deadline, t);
    assert Prefix(line.bytes, |f|) == f;
  }

  lemma WriteCodes(fc: byte)
    requires RtuParser.IsWrite(fc)
    ensures RtuParser.Code(fc) == fc && !RtuParser.IsException(fc) && !RtuParser.IsRead(fc)
    ensures RtuParser.Code(fc | 0x80) == fc && RtuParser.IsException(fc | 0x80)
  {
  }
}
