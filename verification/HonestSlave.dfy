/** Batched reads from a slave that answers every request properly: the device model of
    `Batching` tied to what the RTU client makes of real replies. */
module HonestSlave {
  import opened Names
  import opened Bytes
  import opened Crc
  import opened Framing
  import opened Profile
  import opened Batching
  import opened Wire
  import RtuFrame
  import RtuClients

  function FunctionCode(k: Kind): byte
    requires Readable(k)
  {
    match k case Coil => 1 case DiscreteInput => 2 case HoldingRegister => 3 case InputRegister => 4
  }

  /** What a read request asks for, as the device reads it. */
  datatype Read = Read(kind: Kind, start: nat, count: nat)

  function DecodeRead(f: seq<byte>): Option<Read> {
    if |f| != 8 || !Accepts(f) then None else
    var start, count := Number(RtuFrame.Join(f[2], f[3])), Number(RtuFrame.Join(f[4], f[5]));
    if f[1] == 1 then Some(Read(Coil, start, count))
    else if f[1] == 2 then Some(Read(DiscreteInput, start, count))
    else if f[1] == 3 then Some(Read(HoldingRegister, start, count))
    else if f[1] == 4 then Some(Read(InputRegister, start, count))
    else None
  }

  /** The device reads in the client's request what it asks for. */
  lemma ReadArrives(slave: byte, k: Kind, start: nat, n: nat)
    requires Readable(k) && start < 0x10000 && n < 0x10000
    ensures DecodeRead(RtuFrame.Sealed([slave, FunctionCode(k)] + RtuFrame.BigEndian(Word(start)) + RtuFrame.BigEndian(Word(n))))
         == Some(Read(k, start, n))
  {
    RtuFrame.RequestFields(slave, FunctionCode(k), Word(start), Word(n));
    WordArrives(start);
    WordArrives(n);
  }

  predicate Present(d: Device, k: Kind, start: nat, n: nat) { forall a :: start <= a < start + n ==> (k, a) in d.cells }

  /** The numbers in the client's answer to a read of n cells. */
  function ReadingOf(k: Kind, n: nat, raw: RtuClients.Raw): Option<seq<nat>> {
    if IsWord(k) then match RtuClients.RegistersOf(raw) case Registers(values) => Some(Numbers(values)) case _ => None
    else match RtuClients.CoilsOf(raw, n) case Coils(bits) => Some(ZeroOnes(bits)) case _ => None
  }

  /** A finished exchange: a reply with the contents of those cells is on the line, possibly
      followed by other bytes. */
  ghost predicate Exchange(slave: byte, k: Kind, contents: seq<nat>, body: seq<byte>, line: Line, deadline: nat, t: nat)
    requires Readable(k)
  {
    && body == Body(k, contents) && |body| < 256
    && RtuClients.StartsWith(line.bytes, RtuFrame.ReadReply(slave, FunctionCode(k), body))
    && Decided(RtuClients.EndOf(slave, FunctionCode(k), line, deadline, t))
  }

  /** What the client read in it. */
  function Reading(slave: byte, k: Kind, n: nat, line: Line, deadline: nat, t: nat): Option<seq<nat>>
    requires Readable(k)
  {
    ReadingOf(k, n, RtuClients.RawOf(line.bytes, RtuClients.EndOf(slave, FunctionCode(k), line, deadline, t)))
  }

  /** The cells one reply has room for. */
  function Limit(k: Kind): nat { if IsWord(k) then 125 else 2008 }

  lemma FittingSizes(k: Kind, n: nat)
    ensures BodySize(k, n) <= 251 <==> n <= Limit(k)
  {
  }

  lemma WordsRead(slave: byte, k: Kind, contents: seq<nat>, body: seq<byte>, line: Line, deadline: nat, t: nat)
    requires IsWord(k) && AllCellsFit(k, contents) && |contents| <= 125 && Exchange(slave, k, contents, body, line, deadline, t)
    ensures Reading(slave, k, |contents|, line, deadline, t) == Some(contents)
  {
    RtuClients.DeviceRegistersArrive(slave, FunctionCode(k), Words(contents), body, line, deadline, t);
    WordsBack(contents);
  }

  lemma BitsRead(slave: byte, k: Kind, contents: seq<nat>, body: seq<byte>, line: Line, deadline: nat, t: nat)
    requires Readable(k) && !IsWord(k) && AllCellsFit(k, contents) && |contents| <= 2008
    requires Exchange(slave, k, contents, body, line, deadline, t)
    ensures Reading(slave, k, |contents|, line, deadline, t) == Some(contents)
  {
    RtuClients.DeviceCoilsArrive(slave, FunctionCode(k), Flags(contents), body, line, deadline, t);
    FlagsBack(contents);
  }

  lemma TooManyRead(slave: byte, k: Kind, contents: seq<nat>, body: seq<byte>, line: Line, deadline: nat, t: nat)
    requires Readable(k) && |body| > 251 && Exchange(slave, k, contents, body, line, deadline, t)
    ensures Reading(slave, k, |contents|, line, deadline, t) == None
  {
    RtuClients.HonestReply(slave, FunctionCode(k), body, line, deadline, t);
  }

  /** The client reads exactly the cells, if one reply has room for them, and fails otherwise. */
  lemma ReadingIsCells(slave: byte, k: Kind, contents: seq<nat>, body: seq<byte>, line: Line, deadline: nat, t: nat)
    requires Readable(k) && AllCellsFit(k, contents) && Exchange(slave, k, contents, body, line, deadline, t)
    ensures Reading(slave, k, |contents|, line, deadline, t) == if |contents| <= Limit(k) then Some(contents) else None
  {
    FittingSizes(k, |contents|);
    if |contents| > Limit(k) {
      TooManyRead(slave, k, contents, body, line, deadline, t);
    } else if IsWord(k) {
      WordsRead(slave, k, contents, body, line, deadline, t);
    } else {
      BitsRead(slave, k, contents, body, line, deadline, t);
    }
  }

  /** The outcome of a read is what the client makes of a reply with the cells. */
  ghost predicate Replies(d: Device, slave: byte, k: Kind, start: nat, n: nat)
    requires Readable(k) && Present(d, k, start, n)
  {
    exists body, line, deadline: nat, t: nat ::
      && Exchange(slave, k, CellsFrom(d, k, start, n), body, line, deadline, t)
      && (d.readStatus(k, start, n) == ERR_OK <==> Reading(slave, k, n, line, deadline, t).Some?)
  }

  /** Cells have 16-bit addresses, and hold 16 bits in registers and one in coils and inputs. */
  ghost predicate CellsOk(d: Device) {
    forall cell :: cell in d.cells ==> cell.1 < 0x10000 && CellFits(cell.0, d.cells[cell])
  }

  /** The slave replies to every request for cells it has, as far as the one byte for the size
      goes, and the reply arrives in time; other requests fail. */
  ghost predicate Honest(d: Device, slave: byte) {
    && CellsOk(d)
    && forall k, start: nat, n: nat {:trigger d.readStatus(k, start, n)} :: n > 0 ==>
         if Readable(k) && Present(d, k, start, n) && BodySize(k, n) < 256
         then Replies(d, slave, k, start, n)
         else d.readStatus(k, start, n) != ERR_OK
  }

  lemma TakenIffFits(d: Device, slave: byte, k: Kind, start: nat, n: nat)
    requires CellsOk(d) && Readable(k) && Present(d, k, start, n) && Replies(d, slave, k, start, n)
    ensures d.readStatus(k, start, n) == ERR_OK <==> n <= Limit(k)
  {
    var contents := CellsFrom(d, k, start, n);
    var body, line, deadline: nat, t: nat :|
      && Exchange(slave, k, contents, body, line, deadline, t)
      && (d.readStatus(k, start, n) == ERR_OK <==> Reading(slave, k, n, line, deadline, t).Some?);
    ContentsFit(d, k, start, n);
    ReadingIsCells(slave, k, contents, body, line, deadline, t);
  }

  lemma ContentsFit(d: Device, k: Kind, start: nat, n: nat)
    requires CellsOk(d) && Present(d, k, start, n)
    ensures AllCellsFit(k, CellsFrom(d, k, start, n))
  {
    forall j | 0 <= j < n ensures CellFits(k, CellsFrom(d, k, start, n)[j]) { assert (k, start + j) in d.cells; }
  }

  /** Exactly the requests whose reply fits are answered. */
  ghost predicate AnswersFitting(d: Device) {
    && CellsOk(d)
    && forall k, start: nat, n: nat {:trigger d.readStatus(k, start, n)} :: n > 0 ==>
         (d.readStatus(k, start, n) == ERR_OK <==> Readable(k) && Present(d, k, start, n) && n <= Limit(k))
  }

  /** That is what an honest slave comes to: at most 125 registers, or 2008 coils or inputs. */
  lemma HonestAnswersFitting(d: Device, slave: byte)
    requires Honest(d, slave)
    ensures AnswersFitting(d)
  {
    forall k, start: nat, n: nat | n > 0
      ensures d.readStatus(k, start, n) == ERR_OK <==> Readable(k) && Present(d, k, start, n) && n <= Limit(k)
    {
      FittingSizes(k, n);
      if Readable(k) && Present(d, k, start, n) && BodySize(k, n) < 256 { TakenIffFits(d, slave, k, start, n); }
    }
  }

  // ---------------------------------------------------------------- runs that fit

  /** The run from i has at most as many cells as one transaction carries, and does not wrap
      the address. */
  predicate RunFits<I(!new)>(regs: seq<Reg<I>>, limit: Kind -> nat, i: nat)
    requires i < |regs|
  {
    var n := RunEnd(regs, i, i + 1) - i;
    n <= limit(regs[i].kind) && regs[i].address + n <= 0x10000
  }

  predicate ShortRuns<I(!new)>(regs: seq<Reg<I>>, touched: Kind -> bool, limit: Kind -> nat, i: nat)
    requires i <= |regs|
    decreases |regs| - i
  {
    i == |regs|
    || (if !touched(regs[i].kind) then ShortRuns(regs, touched, limit, i + 1)
        else RunFits(regs, limit, i) && ShortRuns(regs, touched, limit, RunEnd(regs, i, i + 1)))
  }

  ghost predicate AllPresent<I(!new)>(d: Device, touched: Kind -> bool, regs: seq<Reg<I>>) {
    forall k :: 0 <= k < |regs| && touched(regs[k].kind) ==> (regs[k].kind, regs[k].address) in d.cells
  }

  lemma PresentUnlessWrapped<I(!new)>(d: Device, touched: Kind -> bool, regs: seq<Reg<I>>, i: nat)
    requires AllPresent(d, touched, regs) && (forall j :: 0 <= j < |regs| ==> regs[j].address < 0x10000)
    requires (forall cell :: cell in d.cells ==> cell.1 < 0x10000) && i < |regs| && touched(regs[i].kind)
    ensures var n := RunEnd(regs, i, i + 1) - i;
      Present(d, regs[i].kind, regs[i].address, n) <==> regs[i].address + n <= 0x10000
  {
    var k, start, n := regs[i].kind, regs[i].address, RunEnd(regs, i, i + 1) - i;
    if start + n <= 0x10000 {
      RunAddresses(regs, i, i + n);
      forall a | start <= a < start + n ensures (k, a) in d.cells { assert regs[i + (a - start)].address == a; }
    } else {
      assert (k, start + n - 1) !in d.cells;
    }
  }

  /** A run is answered exactly when it fits. */
  ghost predicate FittingAnswered<I(!new)>(status: (Kind, nat, nat) -> int, touched: Kind -> bool, limit: Kind -> nat, regs: seq<Reg<I>>) {
    forall i {:trigger RunFits(regs, limit, i)} :: 0 <= i < |regs| && touched(regs[i].kind) ==>
      (RunFits(regs, limit, i) <==> status(regs[i].kind, regs[i].address, RunEnd(regs, i, i + 1) - i) == ERR_OK)
  }

  lemma {:induction false} ShortIffAnswered<I(!new)>(status: (Kind, nat, nat) -> int, touched: Kind -> bool, limit: Kind -> nat, regs: seq<Reg<I>>, i: nat)
    requires FittingAnswered(status, touched, limit, regs) && |regs| < 0x10000 && i <= |regs|
    ensures ShortRuns(regs, touched, limit, i) <==> RunsAnswered(status, touched, regs, i)
    ensures ShortRuns(regs, touched, limit, i) <==> TransactionsOk(status, touched, regs, i)
    decreases |regs| - i
  {
    if i < |regs| {
      if !touched(regs[i].kind) {
        ShortIffAnswered(status, touched, limit, regs, i + 1);
      } else {
        ShortIffAnswered(status, touched, limit, regs, RunEnd(regs, i, i + 1));
      }
    }
  }

  /** Registers at addresses 0, 1, 2, … form one run. */
  ghost predicate Consecutive<I(!new)>(regs: seq<Reg<I>>, k: Kind) {
    forall j :: 0 <= j < |regs| ==> regs[j].kind == k && regs[j].address == j
  }

  lemma {:induction false} OneRun<I(!new)>(regs: seq<Reg<I>>, k: Kind, end: nat)
    requires Consecutive(regs, k) && 0 < end <= |regs| < 0x10000
    ensures RunEnd(regs, 0, end) == |regs|
    decreases |regs| - end
  {
    if end < |regs| { OneRun(regs, k, end + 1); }
  }

  // ---------------------------------------------------------------- batched and single reads

  lemma ReadRunAnswered<I(!new)>(d: Device, regs: seq<Reg<I>>, i: nat)
    requires AnswersFitting(d) && AllPresent(d, Readable, regs) && (forall j :: 0 <= j < |regs| ==> regs[j].address < 0x10000)
    requires i < |regs| && Readable(regs[i].kind)
    ensures RunFits(regs, Limit, i) <==> d.readStatus(regs[i].kind, regs[i].address, RunEnd(regs, i, i + 1) - i) == ERR_OK
  {
    PresentUnlessWrapped(d, Readable, regs, i);
  }

  lemma {:induction false} SinglesSucceed<I(!new), V(!new)>(d: Device, c: Conversions<I, V>, regs: seq<Reg<I>>, i: nat, s: Pass<V>)
    requires Sensible(d) && AnswersFitting(d) && AllPresent(d, Readable, regs) && i <= |regs| && Fitting(regs, s.values)
    ensures SingleRead(d, c, regs, i, s).err == s.err
    decreases |regs| - i
  {
    if i < |regs| {
      var q := regs[i];
      if q.kind.Virtual? {
        SinglesSucceed(d, c, regs, i + 1, s);
      } else {
        assert Present(d, q.kind, q.address, 1) && 1 <= Limit(q.kind);
        SinglesSucceed(d, c, regs, i + 1,
          s.(values := s.values[q.ioIdx := c.load(q.kind, q.info, d.cells[(q.kind, q.address)])]));
      }
    }
  }

  /** With an honest slave that has every register of the list, the batched read leaves what
      single reads leave if and only if no run is longer than one reply carries (125 registers,
      2008 coils or inputs) or wraps the address. Nothing in the code splits such a run. */
  lemma BatchIsSingleIffShort<I(!new), V(!new)>(d: Device, slave: byte, c: Conversions<I, V>, regs: seq<Reg<I>>, values: seq<V>)
    requires Sensible(d) && Honest(d, slave) && AllPresent(d, Readable, regs) && |regs| < 0x10000 && Fitting(regs, values)
    ensures BatchRead(d, c, regs, 0, Pass(values, ERR_OK)) == SingleRead(d, c, regs, 0, Pass(values, ERR_OK))
            <==> ShortRuns(regs, Readable, Limit, 0)
  {
    var s := Pass(values, ERR_OK);
    HonestAnswersFitting(d, slave);
    forall i | 0 <= i < |regs| && Readable(regs[i].kind)
      ensures RunFits(regs, Limit, i) <==> d.readStatus(regs[i].kind, regs[i].address, RunEnd(regs, i, i + 1) - i) == ERR_OK
    {
      ReadRunAnswered(d, regs, i);
    }
    ShortIffAnswered(d.readStatus, Readable, Limit, regs, 0);
    if ShortRuns(regs, Readable, Limit, 0) {
      BatchReadIsSingleRead(d, c, regs, 0, s);
    } else {
      ErrorIsRemembered(d, c, regs, 0, s);
      SinglesSucceed(d, c, regs, 0, s);
    }
  }

  /** From 126 consecutive holding registers on, the batched read fails where single reads do not. */
  lemma LongRunDiffers<I(!new), V(!new)>(d: Device, slave: byte, c: Conversions<I, V>, regs: seq<Reg<I>>, values: seq<V>)
    requires Sensible(d) && Honest(d, slave) && AllPresent(d, Readable, regs) && Fitting(regs, values)
    requires Consecutive(regs, HoldingRegister) && 126 <= |regs| < 0x10000
    ensures BatchRead(d, c, regs, 0, Pass(values, ERR_OK)) != SingleRead(d, c, regs, 0, Pass(values, ERR_OK))
  {
    OneRun(regs, HoldingRegister, 1);
    BatchIsSingleIffShort(d, slave, c, regs, values);
  }
}
