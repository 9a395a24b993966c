/** Batched writes to a slave that carries out the frames it can read: the device model of
    `Batching` tied to the frames the client builds and to its reading of the answers. */
module WritingSlave {
  import opened Names
  import opened Bytes
  import opened Crc
  import opened Framing
  import opened Profile
  import opened Batching
  import opened Wire
  import opened HonestSlave
  import RtuFrame
  import RtuClients

  /** What a request asks for. */
  datatype Write = Write(kind: Kind, start: nat, values: seq<nat>)

  /** A multiple write is understood when it brings as many values as it announces. */
  function Whole(w: Write, count: nat): Option<Write> { if |w.values| == count then Some(w) else None }

  /** How a slave reads a write request. */
  function Decode(f: seq<byte>): Option<Write> {
    if |f| < 8 || !Accepts(f) then None else
    var start := Number(RtuFrame.Join(f[2], f[3]));
    if f[1] == 5 then
      if f[4] == 0xFF && f[5] == 0 then Some(Write(Coil, start, [1]))
      else if f[4] == 0 && f[5] == 0 then Some(Write(Coil, start, [0]))
      else None
    else if f[1] == 6 then Some(Write(HoldingRegister, start, [Number(RtuFrame.Join(f[4], f[5]))]))
    else if |f| < 9 then None
    else if f[1] == 0x0F then
      Whole(Write(Coil, start, ZeroOnes(RtuFrame.Coils(RtuFrame.DataOf(f), RtuFrame.CountOf(f)))), RtuFrame.CountOf(f))
    else if f[1] == 0x10 then
      Whole(Write(HoldingRegister, start, Numbers(RtuFrame.ExtractRegisters(RtuFrame.DataOf(f)))), RtuFrame.CountOf(f))
    else None
  }

  /** The function code and the frame of a write of those values: the batch writes runs of one
      with the single codes. */
  function WriteCode(k: Kind, n: nat): byte { if k.Coil? then if n == 1 then 5 else 0x0F else if n == 1 then 6 else 0x10 }

  function RequestOf(slave: byte, k: Kind, start: nat, sent: seq<nat>): seq<byte> {
    if |sent| == 1 then
      RtuFrame.Sealed(RtuFrame.WriteSingleBody(slave, WriteCode(k, 1), Word(start),
        if k.Coil? then RtuFrame.CoilWord(sent[0] != 0) else Word(sent[0])))
    else if k.Coil? then RtuFrame.Sealed(RtuFrame.WriteCoilsBody(slave, Word(start), Flags(sent)))
    else RtuFrame.Sealed(RtuFrame.WriteRegistersBody(slave, Word(start), Words(sent)))
  }

  /** The values one frame has room for: the size of the data has to fit one byte. */
  function WriteLimit(k: Kind): nat { if IsWord(k) then 127 else 2040 }

  // ---------------------------------------------------------------- frames arrive

  lemma SingleCoilArrives(slave: byte, start: nat, v: nat)
    requires start < 0x10000 && v < 2
    ensures Decode(RequestOf(slave, Coil, start, [v])) == Some(Write(Coil, start, [v]))
  {
    RtuFrame.RequestFields(slave, 5, Word(start), RtuFrame.CoilWord(v != 0));
    WordArrives(start);
    CoilWordBytes(v != 0);
  }

  lemma CoilWordBytes(on: bool)
    ensures High(RtuFrame.CoilWord(on)) == (if on then 0xFF else 0) && Low(RtuFrame.CoilWord(on)) == 0
  {
  }

  lemma SingleRegisterArrives(slave: byte, start: nat, v: nat)
    requires start < 0x10000 && v < 0x10000
    ensures Decode(RequestOf(slave, HoldingRegister, start, [v])) == Some(Write(HoldingRegister, start, [v]))
  {
    RtuFrame.RequestFields(slave, 6, Word(start), Word(v));
    WordArrives(start);
    WordArrives(v);
  }

  lemma DecodedCoils(f: seq<byte>, start: nat, n: nat)
    requires |f| >= 9 && Accepts(f) && f[1] == 0x0F && Number(RtuFrame.Join(f[2], f[3])) == start && RtuFrame.CountOf(f) == n
    ensures Decode(f) == Whole(Write(Coil, start, ZeroOnes(RtuFrame.Coils(RtuFrame.DataOf(f), n))), n)
  {
  }

  lemma DecodedRegisters(f: seq<byte>, start: nat, n: nat)
    requires |f| >= 9 && Accepts(f) && f[1] == 0x10 && Number(RtuFrame.Join(f[2], f[3])) == start && RtuFrame.CountOf(f) == n
    ensures Decode(f) == Whole(Write(HoldingRegister, start, Numbers(RtuFrame.ExtractRegisters(RtuFrame.DataOf(f)))), n)
  {
  }

  lemma CoilHead(slave: byte, start: nat, coils: seq<bool>)
    requires start < 0x10000
    ensures var f := RtuFrame.Sealed(RtuFrame.WriteCoilsBody(slave, Word(start), coils));
      |f| >= 9 && Accepts(f) && f[1] == 0x0F && Number(RtuFrame.Join(f[2], f[3])) == start
  {
    RtuFrame.WriteHead(slave, 0x0F, Word(start), |coils|, U8((|coils| + 7) / 8), RtuFrame.PackFrom(coils, 0, RtuFrame.CoilBytes(|coils|)));
    WordArrives(start);
  }

  lemma RegisterHead(slave: byte, start: nat, values: seq<bv16>)
    requires start < 0x10000
    ensures var f := RtuFrame.Sealed(RtuFrame.WriteRegistersBody(slave, Word(start), values));
      |f| >= 9 && Accepts(f) && f[1] == 0x10 && Number(RtuFrame.Join(f[2], f[3])) == start
  {
    RtuFrame.WriteHead(slave, 0x10, Word(start), |values|, U8(2 * |values|), RtuFrame.RegisterBytes(values));
    WordArrives(start);
  }

  lemma CoilsArrive(slave: byte, start: nat, sent: seq<nat>, f: seq<byte>)
    requires start < 0x10000 && |sent| < 0x10000 && AllCellsFit(Coil, sent)
    requires f == RtuFrame.Sealed(RtuFrame.WriteCoilsBody(slave, Word(start), Flags(sent)))
    ensures Decode(f) == if |sent| <= 2040 then Some(Write(Coil, start, sent)) else None
  {
    CoilHead(slave, start, Flags(sent));
    RtuFrame.WrittenCoils(slave, Word(start), Flags(sent));
    DecodedCoils(f, start, |sent|);
    FlagsBack(sent);
  }

  lemma RegistersArrive(slave: byte, start: nat, sent: seq<nat>, f: seq<byte>)
    requires start < 0x10000 && |sent| < 0x10000 && AllCellsFit(HoldingRegister, sent)
    requires f == RtuFrame.Sealed(RtuFrame.WriteRegistersBody(slave, Word(start), Words(sent)))
    ensures Decode(f) == if |sent| <= 127 then Some(Write(HoldingRegister, start, sent)) else None
  {
    RegisterHead(slave, start, Words(sent));
    RtuFrame.WrittenRegisters(slave, Word(start), Words(sent));
    DecodedRegisters(f, start, |sent|);
    WordsBack(sent);
  }

  /** The slave reads exactly the values the batch sends, up to 127 registers or 2040 coils, and
      refuses longer runs: their size byte has wrapped. */
  lemma WriteArrivesIff(slave: byte, k: Kind, start: nat, sent: seq<nat>)
    requires Writable(k) && start < 0x10000 && 0 < |sent| < 0x10000 && AllCellsFit(k, sent)
    ensures Decode(RequestOf(slave, k, start, sent)) == if |sent| <= WriteLimit(k) then Some(Write(k, start, sent)) else None
  {
    if |sent| == 1 {
      assert sent == [sent[0]];
      if k.Coil? { SingleCoilArrives(slave, start, sent[0]); } else { SingleRegisterArrives(slave, start, sent[0]); }
    } else if k.Coil? {
      CoilsArrive(slave, start, sent, RequestOf(slave, k, start, sent));
    } else {
      RegistersArrive(slave, start, sent, RequestOf(slave, k, start, sent));
    }
  }

  // ---------------------------------------------------------------- the slave

  /** It carries out a write that it understands and whose cells it has. */
  predicate CarriesOut(d: Device, f: seq<byte>) {
    var w := Decode(f);
    w.Some? && Present(d, w.value.kind, w.value.start, |w.value.values|)
  }

  /** Its memory after the request. */
  function Stored(d: Device, cells: map<Cell, nat>, f: seq<byte>): map<Cell, nat> {
    if CarriesOut(d, f)
    then WriteCells(cells, Decode(f).value.kind, Decode(f).value.start, Decode(f).value.values, |Decode(f).value.values|)
    else cells
  }

  /** The answer, an echo or an exception, arrives, and the outcome of the write is what the
      client makes of it. */
  ghost predicate Answers(d: Device, slave: byte, k: Kind, start: nat, sent: seq<nat>)
    requires Writable(k)
  {
    var fc, f := WriteCode(k, |sent|), RequestOf(slave, k, start, sent);
    exists rest: seq<byte>, code: byte, line: Line, deadline: nat, t: nat ::
      && |rest| == 4 && RtuClients.StartsWith(line.bytes, RtuFrame.WriteReply(slave, fc, rest, code, CarriesOut(d, f)))
      && Decided(RtuClients.EndOf(slave, fc, line, deadline, t))
      && (d.writeStatus(k, start, |sent|) == ERR_OK <==>
            RtuClients.WriteOf(RtuClients.RawOf(line.bytes, RtuClients.EndOf(slave, fc, line, deadline, t))) == RtuClients.Done)
  }

  predicate Sendable(k: Kind, start: nat, sent: seq<nat>) {
    Writable(k) && start < 0x10000 && 0 < |sent| < 0x10000 && AllCellsFit(k, sent)
  }

  ghost predicate Obedient(d: Device, slave: byte) {
    && (forall cell :: cell in d.cells ==> cell.1 < 0x10000)
    && forall k, start: nat, sent {:trigger Answers(d, slave, k, start, sent)} :: Sendable(k, start, sent) ==> Answers(d, slave, k, start, sent)
  }

  lemma SucceedsIffCarriedOut(d: Device, slave: byte, k: Kind, start: nat, sent: seq<nat>)
    requires Writable(k) && Answers(d, slave, k, start, sent)
    ensures d.writeStatus(k, start, |sent|) == ERR_OK <==> CarriesOut(d, RequestOf(slave, k, start, sent))
  {
    var fc, f := WriteCode(k, |sent|), RequestOf(slave, k, start, sent);
    var rest: seq<byte>, code: byte, line: Line, deadline: nat, t: nat :|
      && |rest| == 4 && RtuClients.StartsWith(line.bytes, RtuFrame.WriteReply(slave, fc, rest, code, CarriesOut(d, f)))
      && Decided(RtuClients.EndOf(slave, fc, line, deadline, t))
      && (d.writeStatus(k, start, |sent|) == ERR_OK <==>
            RtuClients.WriteOf(RtuClients.RawOf(line.bytes, RtuClients.EndOf(slave, fc, line, deadline, t))) == RtuClients.Done);
    RtuClients.WriteAnswered(slave, fc, rest, code, CarriesOut(d, f), line, deadline, t);
  }

  lemma StoredBy(d: Device, cells: map<Cell, nat>, f: seq<byte>, w: Write, fits: bool)
    requires Decode(f) == if fits then Some(w) else None
    ensures CarriesOut(d, f) <==> fits && Present(d, w.kind, w.start, |w.values|)
    ensures Stored(d, cells, f) == if CarriesOut(d, f) then WriteCells(cells, w.kind, w.start, w.values, |w.values|) else cells
  {
  }

  /** A transaction of the batch does to the memory what the slave does with its frame. */
  lemma TransactIsStored(d: Device, slave: byte, k: Kind, start: nat, sent: seq<nat>, s: WritePass)
    requires Obedient(d, slave) && Sendable(k, start, sent)
    ensures Transact(d, s, k, start, sent).cells == Stored(d, s.cells, RequestOf(slave, k, start, sent))
    ensures d.writeStatus(k, start, |sent|) == ERR_OK <==> |sent| <= WriteLimit(k) && Present(d, k, start, |sent|)
  {
    assert Answers(d, slave, k, start, sent);
    SucceedsIffCarriedOut(d, slave, k, start, sent);
    WriteArrivesIff(slave, k, start, sent);
    StoredBy(d, s.cells, RequestOf(slave, k, start, sent), Write(k, start, sent), |sent| <= WriteLimit(k));
  }

  // ---------------------------------------------------------------- batched and single writes

  function Zeros(n: nat): (z: seq<nat>)
    ensures |z| == n && forall j :: 0 <= j < n ==> z[j] == 0
  {
    seq(n, _ => 0)
  }

  lemma WriteSucceedsIff(d: Device, slave: byte, k: Kind, start: nat, n: nat)
    requires Obedient(d, slave) && Writable(k) && start < 0x10000 && 0 < n < 0x10000
    ensures d.writeStatus(k, start, n) == ERR_OK <==> n <= WriteLimit(k) && Present(d, k, start, n)
  {
    TransactIsStored(d, slave, k, start, Zeros(n), WritePass(d.cells, ERR_OK));
  }

  lemma WriteRunAnswered<I(!new)>(d: Device, slave: byte, regs: seq<Reg<I>>, i: nat)
    requires Obedient(d, slave) && AllPresent(d, Writable, regs) && (forall j :: 0 <= j < |regs| ==> regs[j].address < 0x10000)
    requires i < |regs| < 0x10000 && Writable(regs[i].kind)
    ensures RunFits(regs, WriteLimit, i) <==> d.writeStatus(regs[i].kind, regs[i].address, RunEnd(regs, i, i + 1) - i) == ERR_OK
  {
    PresentUnlessWrapped(d, Writable, regs, i);
    WriteSucceedsIff(d, slave, regs[i].kind, regs[i].address, RunEnd(regs, i, i + 1) - i);
  }

  /** The error code of the batch is 0 exactly when every write succeeded. */
  lemma {:induction false} WriteErrorIsRemembered<I(!new), V(!new)>(d: Device, c: Conversions<I, V>, regs: seq<Reg<I>>, i: nat, values: seq<V>, s: WritePass)
    requires i <= |regs| < 0x10000 && Fitting(regs, values)
    ensures BatchWrite(d, c, regs, i, values, s).err == ERR_OK <==> s.err == ERR_OK && TransactionsOk(d.writeStatus, Writable, regs, i)
    decreases |regs| - i
  {
    if i < |regs| {
      if !Writable(regs[i].kind) {
        WriteErrorIsRemembered(d, c, regs, i + 1, values, s);
      } else {
        var end := RunEnd(regs, i, i + 1);
        var sent := Sent(c, regs, i, end, values);
        WriteErrorIsRemembered(d, c, regs, end, values, Transact(d, s, regs[i].kind, regs[i].address, sent));
      }
    }
  }

  lemma {:induction false} SingleWritesSucceed<I(!new), V(!new)>(d: Device, slave: byte, c: Conversions<I, V>, regs: seq<Reg<I>>, i: nat, values: seq<V>, s: WritePass)
    requires Obedient(d, slave) && AllPresent(d, Writable, regs) && i <= |regs| && Fitting(regs, values)
    ensures SingleWrite(d, c, regs, i, values, s).err == s.err
    decreases |regs| - i
  {
    if i < |regs| {
      var q := regs[i];
      if !Writable(q.kind) {
        SingleWritesSucceed(d, slave, c, regs, i + 1, values, s);
      } else {
        WriteSucceedsIff(d, slave, q.kind, q.address, 1);
        SingleWritesSucceed(d, slave, c, regs, i + 1, values, Transact(d, s, q.kind, q.address, [Raw(c, regs, i, values)]));
      }
    }
  }

  /** With such a slave, which has every register of the list, the batched write leaves what
      single writes leave if and only if no run is longer than one frame carries (127
      registers, 2040 coils) or wraps the address. Nothing in the code splits such a run. */
  lemma BatchWriteIsSingleIffShort<I(!new), V(!new)>(d: Device, slave: byte, c: Conversions<I, V>, regs: seq<Reg<I>>, values: seq<V>)
    requires Sensible(d) && Obedient(d, slave) && AllPresent(d, Writable, regs) && |regs| < 0x10000 && Fitting(regs, values)
    ensures BatchWrite(d, c, regs, 0, values, WritePass(d.cells, ERR_OK)) == SingleWrite(d, c, regs, 0, values, WritePass(d.cells, ERR_OK))
            <==> ShortRuns(regs, Writable, WriteLimit, 0)
  {
    var s := WritePass(d.cells, ERR_OK);
    forall i | 0 <= i < |regs| && Writable(regs[i].kind)
      ensures RunFits(regs, WriteLimit, i) <==> d.writeStatus(regs[i].kind, regs[i].address, RunEnd(regs, i, i + 1) - i) == ERR_OK
    {
      WriteRunAnswered(d, slave, regs, i);
    }
    ShortIffAnswered(d.writeStatus, Writable, WriteLimit, regs, 0);
    if ShortRuns(regs, Writable, WriteLimit, 0) {
      BatchWriteIsSingleWrite(d, c, regs, 0, values, s);
    } else {
      WriteErrorIsRemembered(d, c, regs, 0, values, s);
      SingleWritesSucceed(d, slave, c, regs, 0, values, s);
    }
  }

  /** From 128 consecutive holding registers on, the batched write fails where single writes
      do not. */
  lemma LongRunNotWritten<I(!new), V(!new)>(d: Device, slave: byte, c: Conversions<I, V>, regs: seq<Reg<I>>, values: seq<V>)
    requires Sensible(d) && Obedient(d, slave) && AllPresent(d, Writable, regs) && Fitting(regs, values)
    requires Consecutive(regs, HoldingRegister) && 128 <= |regs| < 0x10000
    ensures BatchWrite(d, c, regs, 0, values, WritePass(d.cells, ERR_OK)) != SingleWrite(d, c, regs, 0, values, WritePass(d.cells, ERR_OK))
  {
    OneRun(regs, HoldingRegister, 1);
    BatchWriteIsSingleIffShort(d, slave, c, regs, values);
  }
}
