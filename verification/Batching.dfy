/** Modbus registers read and written in runs of consecutive addresses
    (`st-comm-modbus/src/device_fb.rs:385-575`), against one transaction per register. */
module Batching {
  import opened Profile

  const ERR_OK: int := 0

  type Cell = (Kind, nat)

  /** A device's memory and how it answers: error code 0 for a read or write of `count` cells
      from `start` that succeeds, the code of the error otherwise. */
  datatype Device = Device(cells: map<Cell, nat>, readStatus: (Kind, nat, nat) -> int, writeStatus: (Kind, nat, nat) -> int)

  /** A device answers only for cells it has, and single cells of any run it answers. */
  ghost predicate Sensible(d: Device) {
    && (forall k, s: nat, n: nat, a: nat :: d.readStatus(k, s, n) == ERR_OK && s <= a < s + n ==>
          (k, a) in d.cells && d.readStatus(k, a, 1) == ERR_OK)
    && (forall k, s: nat, n: nat, a: nat :: d.writeStatus(k, s, n) == ERR_OK && s <= a < s + n ==>
          d.writeStatus(k, a, 1) == ERR_OK)
  }

  /** The value conversions, which this model does not look into. */
  datatype Conversions<!I, !V> = Conversions(load: (Kind, I, nat) -> V, store: (Kind, I, V) -> nat)

  // ---------------------------------------------------------------- runs

  /** The end of the run that starts at i, searching from `end`: addresses count up in 16
      bits and the kind stays. */
  function RunEnd<I>(regs: seq<Reg<I>>, i: nat, end: nat): (e: nat)
    requires i < end <= |regs|
    ensures end <= e <= |regs|
    decreases |regs| - end
  {
    if end < |regs| && regs[end].kind == regs[i].kind && regs[end].address == (regs[i].address + (end - i)) % 0x10000
    then RunEnd(regs, i, end + 1)
    else end
  }

  method FindRun<I>(regs: seq<Reg<I>>, i: nat) returns (end: nat)
    requires i < |regs|
    ensures i < end <= |regs| && end == RunEnd(regs, i, i + 1)
  {
    end := i + 1;
    while end < |regs|
      invariant i < end <= |regs| && RunEnd(regs, i, end) == RunEnd(regs, i, i + 1)
    {
      if regs[end].kind != regs[i].kind || regs[end].address != (regs[i].address + (end - i)) % 0x10000 { break; }
      end := end + 1;
    }
  }

  lemma {:induction false} RunMembers<I>(regs: seq<Reg<I>>, i: nat, end: nat, k: nat)
    requires i < end <= |regs| && (forall j :: 0 <= j < |regs| ==> regs[j].address < 0x10000)
    requires forall j :: i <= j < end ==> regs[j].kind == regs[i].kind && regs[j].address == (regs[i].address + (j - i)) % 0x10000
    requires i <= k < RunEnd(regs, i, end)
    ensures regs[k].kind == regs[i].kind && regs[k].address == (regs[i].address + (k - i)) % 0x10000
    decreases |regs| - end
  {
    if k >= end { RunMembers(regs, i, end + 1, k); }
  }

  /** A run is as long as the list allows. */
  lemma {:induction false} RunIsMaximal<I>(regs: seq<Reg<I>>, i: nat, end: nat)
    requires i < end <= |regs|
    ensures var e := RunEnd(regs, i, end);
      e < |regs| ==> regs[e].kind != regs[i].kind || regs[e].address != (regs[i].address + (e - i)) % 0x10000
    decreases |regs| - end
  {
    if end < |regs| && RunEnd(regs, i, end) != end { RunIsMaximal(regs, i, end + 1); }
  }

  /** The count as the request carries it. */
  function Count16(n: nat): nat { n % 0x10000 }

  // ---------------------------------------------------------------- reading

  datatype Pass<V> = Pass(values: seq<V>, err: int)

  function CellsFrom(d: Device, kind: Kind, start: nat, count: nat): (r: seq<nat>)
    requires forall a :: start <= a < start + count ==> (kind, a) in d.cells
    ensures |r| == count && forall j :: 0 <= j < count ==> r[j] == d.cells[(kind, start + j)]
  {
    seq(count, j requires 0 <= j < count => d.cells[(kind, start + j)])
  }

  /** Storing the first n answers of the run at i. */
  function StoreRun<I, V>(c: Conversions<I, V>, regs: seq<Reg<I>>, i: nat, raw: seq<nat>, n: nat, values: seq<V>): (r: seq<V>)
    requires n <= |raw| && i + n <= |regs|
    requires forall j :: 0 <= j < |regs| ==> regs[j].ioIdx < |values|
    ensures |r| == |values|
    decreases n
  {
    if n == 0 then values else
    var q := regs[i + n - 1];
    StoreRun(c, regs, i, raw, n - 1, values)[q.ioIdx := c.load(q.kind, q.info, raw[n - 1])]
  }

  ghost predicate Fitting<I, V>(regs: seq<Reg<I>>, values: seq<V>) {
    forall j :: 0 <= j < |regs| ==> regs[j].ioIdx < |values| && regs[j].address < 0x10000
  }

  /** The batched read from register i on. */
  ghost function BatchRead<I(!new), V(!new)>(d: Device, c: Conversions<I, V>, regs: seq<Reg<I>>, i: nat, s: Pass<V>): (r: Pass<V>)
    requires Sensible(d) && i <= |regs| && Fitting(regs, s.values)
    ensures |r.values| == |s.values|
    decreases |regs| - i
  {
    if i == |regs| then s
    else if regs[i].kind.Virtual? then BatchRead(d, c, regs, i + 1, s)
    else
      var end := RunEnd(regs, i, i + 1);
      var n := Count16(end - i);
      var code := d.readStatus(regs[i].kind, regs[i].address, n);
      if code != ERR_OK then BatchRead(d, c, regs, end, s.(err := code))
      else BatchRead(d, c, regs, end, s.(values := StoreRun(c, regs, i, CellsFrom(d, regs[i].kind, regs[i].address, n), n, s.values)))
  }

  /** One transaction per register, in list order. */
  ghost function SingleRead<I(!new), V(!new)>(d: Device, c: Conversions<I, V>, regs: seq<Reg<I>>, i: nat, s: Pass<V>): (r: Pass<V>)
    requires Sensible(d) && i <= |regs| && Fitting(regs, s.values)
    ensures |r.values| == |s.values|
    decreases |regs| - i
  {
    if i == |regs| then s
    else if regs[i].kind.Virtual? then SingleRead(d, c, regs, i + 1, s)
    else
      var q := regs[i];
      var code := d.readStatus(q.kind, q.address, 1);
      if code != ERR_OK then SingleRead(d, c, regs, i + 1, s.(err := code))
      else SingleRead(d, c, regs, i + 1, s.(values := s.values[q.ioIdx := c.load(q.kind, q.info, d.cells[(q.kind, q.address)])]))
  }

  class IoState<V> {
    var readValues: seq<V>
    var writeValues: seq<V>
    var connected: bool
    var errorCode: int
    var errorsCount: nat
    var ioCycles: nat
    var lastResponse: nat

    constructor (defaults: seq<V>)
      ensures readValues == writeValues == defaults
      ensures !connected && errorCode == 0 && errorsCount == 0 && ioCycles == 0 && lastResponse == 0
    {
      readValues, writeValues := defaults, defaults;
      connected, errorCode, errorsCount, ioCycles, lastResponse := false, 0, 0, 0, 0;
    }
  }

  /** The inner loop: one answer per register of the run. */
  method StoreAnswers<I, V>(c: Conversions<I, V>, regs: seq<Reg<I>>, i: nat, raw: seq<nat>, io: IoState<V>)
    requires i + |raw| <= |regs| && Fitting(regs, io.readValues)
    modifies io`readValues
    ensures |io.readValues| == |old(io.readValues)|
    ensures io.readValues == StoreRun(c, regs, i, raw, |raw|, old(io.readValues))
  {
    for j := 0 to |raw|
      invariant io.readValues == StoreRun(c, regs, i, raw, j, old(io.readValues))
    {
      var r := regs[i + j];
      io.readValues := io.readValues[r.ioIdx := c.load(r.kind, r.info, raw[j])];
    }
  }

  /** One transaction: the run from i, whose answers are stored unless it fails. */
  method ReadRun<I(!new), V(!new)>(d: Device, c: Conversions<I, V>, regs: seq<Reg<I>>, i: nat, io: IoState<V>, err: int)
    returns (end: nat, lastErr: int)
    requires Sensible(d) && i < |regs| && Fitting(regs, io.readValues) && !regs[i].kind.Virtual?
    modifies io`readValues
    ensures i < end <= |regs| && |io.readValues| == |old(io.readValues)|
    ensures BatchRead(d, c, regs, end, Pass(io.readValues, lastErr)) == BatchRead(d, c, regs, i, Pass(old(io.readValues), err))
  {
    end := FindRun(regs, i);
    lastErr := err;
    var count := (end - i) % 0x10000;
    var code := d.readStatus(regs[i].kind, regs[i].address, count);
    if code != ERR_OK {
      lastErr := code;
    } else {
      var raw := CellsFrom(d, regs[i].kind, regs[i].address, count);
      StoreAnswers(c, regs, i, raw, io);
    }
  }

  method ReadBatchedIo<I(!new), V(!new)>(d: Device, c: Conversions<I, V>, fields: seq<Field<I>>, io: IoState<V>) returns (lastErr: int)
    requires Sensible(d) && |io.readValues| == Offset(fields, |fields|)
    modifies io`readValues
    ensures |io.readValues| == |old(io.readValues)| && Fitting(InputRegs(fields), old(io.readValues))
    ensures Pass(io.readValues, lastErr) == BatchRead(d, c, InputRegs(fields), 0, Pass(old(io.readValues), ERR_OK))
  {
    lastErr := ERR_OK;
    var regs := ExpandRegisters(fields, dir => Reads(dir));
    InputRegsFit(fields, io.readValues);
    ghost var whole := BatchRead(d, c, regs, 0, Pass(io.readValues, ERR_OK));
    var i := 0;
    while i < |regs|
      invariant i <= |regs| && Fitting(regs, io.readValues) && |io.readValues| == |old(io.readValues)|
      invariant BatchRead(d, c, regs, i, Pass(io.readValues, lastErr)) == whole
    {
      if regs[i].kind.Virtual? {
        i := i + 1;
        continue;
      }
      i, lastErr := ReadRun(d, c, regs, i, io, lastErr);
    }
  }

  function InputRegs<I>(fields: seq<Field<I>>): seq<Reg<I>> { Expand(fields, dir => Reads(dir), |fields|) }
  function OutputRegs<I>(fields: seq<Field<I>>): seq<Reg<I>> { Expand(fields, dir => Writes(dir), |fields|) }

  lemma {:induction false} AddressesFit<I>(fields: seq<Field<I>>, keep: Direction -> bool, n: nat)
    requires n <= |fields|
    ensures forall r :: r in Expand(fields, keep, n) ==> r.address < 0x10000
    decreases n
  {
    if n > 0 { AddressesFit(fields, keep, n - 1); }
  }

  lemma InputRegsFit<I, V>(fields: seq<Field<I>>, values: seq<V>)
    requires |values| == Offset(fields, |fields|)
    ensures Fitting(InputRegs(fields), values)
  {
    IndicesIncrease(fields, dir => Reads(dir), |fields|);
    AddressesFit(fields, dir => Reads(dir), |fields|);
  }

  lemma OutputRegsFit<I, V>(fields: seq<Field<I>>, values: seq<V>)
    requires |values| == Offset(fields, |fields|)
    ensures Fitting(OutputRegs(fields), values)
  {
    IndicesIncrease(fields, dir => Writes(dir), |fields|);
    AddressesFit(fields, dir => Writes(dir), |fields|);
  }

  /** Every run of the list is short enough not to wrap and is answered as a whole. */
  ghost predicate RunsAnswered<I(!new)>(status: (Kind, nat, nat) -> int, touched: Kind -> bool, regs: seq<Reg<I>>, i: nat)
    requires i <= |regs|
    decreases |regs| - i
  {
    i == |regs|
    || (if !touched(regs[i].kind) then RunsAnswered(status, touched, regs, i + 1)
        else var end := RunEnd(regs, i, i + 1);
          && end - i < 0x10000 && regs[i].address + (end - i) <= 0x10000
          && status(regs[i].kind, regs[i].address, end - i) == ERR_OK
          && RunsAnswered(status, touched, regs, end))
  }

  predicate Readable(k: Kind) { !k.Virtual? }
  predicate Writable(k: Kind) { k.Coil? || k.HoldingRegister? }

  /** Reading one register after another inside an answered run ends where the batch ends. */
  lemma {:induction false} RunSingly<I(!new), V(!new)>(d: Device, c: Conversions<I, V>, regs: seq<Reg<I>>, i: nat, n: nat, m: nat, s: Pass<V>)
    requires Sensible(d) && Fitting(regs, s.values) && m <= n && i + n <= |regs| && n >= 1
    requires regs[i].address + n <= 0x10000 && Readable(regs[i].kind)
    requires forall k :: i <= k < i + n ==> regs[k].kind == regs[i].kind && regs[k].address == regs[i].address + (k - i)
    requires d.readStatus(regs[i].kind, regs[i].address, n) == ERR_OK
    ensures var raw := CellsFrom(d, regs[i].kind, regs[i].address, n);
      SingleRead(d, c, regs, i, s) == SingleRead(d, c, regs, i + m, s.(values := StoreRun(c, regs, i, raw, m, s.values)))
    decreases m
  {
    if m > 0 {
      RunSingly(d, c, regs, i, n, m - 1, s);
      var q := regs[i + m - 1];
      assert q.address == regs[i].address + (m - 1);
      AnsweredAlone(d, q.kind, regs[i].address, n, q.address);
    }
  }

  lemma AnsweredAlone(d: Device, kind: Kind, start: nat, n: nat, a: nat)
    requires Sensible(d) && d.readStatus(kind, start, n) == ERR_OK && start <= a < start + n
    ensures (kind, a) in d.cells && d.readStatus(kind, a, 1) == ERR_OK
  {
  }

  lemma {:induction false} RunAddress<I>(regs: seq<Reg<I>>, i: nat, end: nat, k: nat)
    requires i < |regs| && end == RunEnd(regs, i, i + 1) && (forall j :: 0 <= j < |regs| ==> regs[j].address < 0x10000)
    requires regs[i].address + (end - i) <= 0x10000 && i <= k < end
    ensures regs[k].kind == regs[i].kind && regs[k].address == regs[i].address + (k - i)
  {
    RunMembers(regs, i, i + 1, k);
  }

  lemma {:induction false} RunAddresses<I>(regs: seq<Reg<I>>, i: nat, end: nat)
    requires i < |regs| && end == RunEnd(regs, i, i + 1) && (forall j :: 0 <= j < |regs| ==> regs[j].address < 0x10000)
    requires regs[i].address + (end - i) <= 0x10000
    ensures forall k :: i <= k < end ==> regs[k].kind == regs[i].kind && regs[k].address == regs[i].address + (k - i)
  {
    forall k | i <= k < end ensures regs[k].kind == regs[i].kind && regs[k].address == regs[i].address + (k - i) {
      RunAddress(regs, i, end, k);
    }
  }

  /** Batching refines one-by-one reading: when every run is answered, both leave the same
      values and no error. */
  lemma {:induction false} BatchReadIsSingleRead<I(!new), V(!new)>(d: Device, c: Conversions<I, V>, regs: seq<Reg<I>>, i: nat, s: Pass<V>)
    requires Sensible(d) && i <= |regs| && Fitting(regs, s.values) && RunsAnswered(d.readStatus, Readable, regs, i)
    ensures BatchRead(d, c, regs, i, s) == SingleRead(d, c, regs, i, s)
    ensures BatchRead(d, c, regs, i, s).err == s.err
    decreases |regs| - i
  {
    if i < |regs| {
      if regs[i].kind.Virtual? {
        BatchReadIsSingleRead(d, c, regs, i + 1, s);
      } else {
        var end := RunEnd(regs, i, i + 1);
        var n := end - i;
        RunAddresses(regs, i, end);
        RunSingly(d, c, regs, i, n, n, s);
        var raw := CellsFrom(d, regs[i].kind, regs[i].address, n);
        BatchReadIsSingleRead(d, c, regs, end, s.(values := StoreRun(c, regs, i, raw, n, s.values)));
      }
    }
  }

  /** Each readable register's value, freshly loaded, at its own index; nothing else changes. */
  ghost predicate Fresh<I(!new), V(!new)>(d: Device, c: Conversions<I, V>, regs: seq<Reg<I>>, i: nat, before: seq<V>, after: seq<V>)
    requires |after| == |before|
  {
    && (forall k :: i <= k < |regs| && Readable(regs[k].kind) ==>
          (regs[k].kind, regs[k].address) in d.cells && regs[k].ioIdx < |after|
          && after[regs[k].ioIdx] == c.load(regs[k].kind, regs[k].info, d.cells[(regs[k].kind, regs[k].address)]))
    && (forall x :: 0 <= x < |after| && (forall k :: i <= k < |regs| && Readable(regs[k].kind) ==> regs[k].ioIdx != x) ==>
          after[x] == before[x])
  }

  lemma {:induction false} SingleReadIsFresh<I(!new), V(!new)>(d: Device, c: Conversions<I, V>, regs: seq<Reg<I>>, i: nat, s: Pass<V>)
    requires Sensible(d) && i <= |regs| && Fitting(regs, s.values) && Increasing(regs)
    requires forall k :: i <= k < |regs| && Readable(regs[k].kind) ==> d.readStatus(regs[k].kind, regs[k].address, 1) == ERR_OK
    ensures Fresh(d, c, regs, i, s.values, SingleRead(d, c, regs, i, s).values)
    decreases |regs| - i
  {
    if i < |regs| {
      var q := regs[i];
      if q.kind.Virtual? {
        SingleReadIsFresh(d, c, regs, i + 1, s);
      } else {
        var t := s.(values := s.values[q.ioIdx := c.load(q.kind, q.info, d.cells[(q.kind, q.address)])]);
        SingleReadIsFresh(d, c, regs, i + 1, t);
        var after := SingleRead(d, c, regs, i + 1, t).values;
        assert after[q.ioIdx] == t.values[q.ioIdx];
      }
    }
  }

  lemma {:induction false} AnsweredSingly<I(!new)>(d: Device, regs: seq<Reg<I>>, i: nat, k: nat)
    requires Sensible(d) && i <= k < |regs| && RunsAnswered(d.readStatus, Readable, regs, i)
    requires Readable(regs[k].kind) && forall j :: 0 <= j < |regs| ==> regs[j].address < 0x10000
    ensures d.readStatus(regs[k].kind, regs[k].address, 1) == ERR_OK
    decreases |regs| - i
  {
    if regs[i].kind.Virtual? {
      AnsweredSingly(d, regs, i + 1, k);
    } else {
      var end := RunEnd(regs, i, i + 1);
      if k < end {
        RunAddresses(regs, i, end);
        AnsweredAlone(d, regs[i].kind, regs[i].address, end - i, regs[k].address);
      } else {
        AnsweredSingly(d, regs, end, k);
      }
    }
  }

  /** What a fault-free input pass does for a whole profile: every non-virtual input register
      is stored, converted, at its own index, the rest of the values stay, no error. */
  lemma InputPass<I(!new), V(!new)>(d: Device, c: Conversions<I, V>, fields: seq<Field<I>>, values: seq<V>)
    requires Sensible(d) && |values| == Offset(fields, |fields|)
    requires RunsAnswered(d.readStatus, Readable, InputRegs(fields), 0)
    ensures Fitting(InputRegs(fields), values)
    ensures var p := BatchRead(d, c, InputRegs(fields), 0, Pass(values, ERR_OK));
      p.err == ERR_OK && Fresh(d, c, InputRegs(fields), 0, values, p.values)
  {
    var regs := InputRegs(fields);
    InputRegsFit(fields, values);
    IndicesIncrease(fields, dir => Reads(dir), |fields|);
    BatchReadIsSingleRead(d, c, regs, 0, Pass(values, ERR_OK));
    forall k | 0 <= k < |regs| && Readable(regs[k].kind) ensures d.readStatus(regs[k].kind, regs[k].address, 1) == ERR_OK {
      AnsweredSingly(d, regs, 0, k);
    }
    SingleReadIsFresh(d, c, regs, 0, Pass(values, ERR_OK));
  }

  /** Every transaction of a pass succeeds. */
  ghost predicate TransactionsOk<I(!new)>(status: (Kind, nat, nat) -> int, touched: Kind -> bool, regs: seq<Reg<I>>, i: nat)
    requires i <= |regs|
    decreases |regs| - i
  {
    i == |regs|
    || (if !touched(regs[i].kind) then TransactionsOk(status, touched, regs, i + 1)
        else var end := RunEnd(regs, i, i + 1);
          status(regs[i].kind, regs[i].address, Count16(end - i)) == ERR_OK && TransactionsOk(status, touched, regs, end))
  }

  /** The error code is 0 exactly when every transaction succeeded: a later success never
      hides an earlier error. */
  lemma {:induction false} ErrorIsRemembered<I(!new), V(!new)>(d: Device, c: Conversions<I, V>, regs: seq<Reg<I>>, i: nat, s: Pass<V>)
    requires Sensible(d) && i <= |regs| && Fitting(regs, s.values)
    ensures BatchRead(d, c, regs, i, s).err == ERR_OK <==> s.err == ERR_OK && TransactionsOk(d.readStatus, Readable, regs, i)
    decreases |regs| - i
  {
    if i < |regs| {
      if regs[i].kind.Virtual? {
        ErrorIsRemembered(d, c, regs, i + 1, s);
      } else {
        var end := RunEnd(regs, i, i + 1);
        var n := Count16(end - i);
        var code := d.readStatus(regs[i].kind, regs[i].address, n);
        if code != ERR_OK {
          ErrorIsRemembered(d, c, regs, end, s.(err := code));
        } else {
          var raw := CellsFrom(d, regs[i].kind, regs[i].address, n);
          ErrorIsRemembered(d, c, regs, end, s.(values := StoreRun(c, regs, i, raw, n, s.values)));
        }
      }
    }
  }

  // ---------------------------------------------------------------- writing

  datatype WritePass = WritePass(cells: map<Cell, nat>, err: int)

  function Raw<I, V>(c: Conversions<I, V>, regs: seq<Reg<I>>, j: nat, values: seq<V>): nat
    requires j < |regs| && regs[j].ioIdx < |values|
  {
    c.store(regs[j].kind, regs[j].info, values[regs[j].ioIdx])
  }

  /** The device stores the first n sent values from `start` on. */
  function WriteCells(cells: map<Cell, nat>, kind: Kind, start: nat, sent: seq<nat>, n: nat): map<Cell, nat>
    requires n <= |sent|
    decreases n
  {
    if n == 0 then cells
    else WriteCells(cells, kind, start, sent, n - 1)[(kind, start + n - 1) := sent[n - 1]]
  }

  function Sent<I, V>(c: Conversions<I, V>, regs: seq<Reg<I>>, i: nat, end: nat, values: seq<V>): (r: seq<nat>)
    requires i <= end <= |regs| && forall j :: 0 <= j < |regs| ==> regs[j].ioIdx < |values|
    ensures |r| == end - i && forall j :: 0 <= j < end - i ==> r[j] == Raw(c, regs, i + j, values)
  {
    seq<nat>(end - i, j requires 0 <= j < end - i => Raw(c, regs, i + j, values))
  }

  /** One write transaction: all of `sent` or, on an error, nothing. */
  function Transact(d: Device, s: WritePass, kind: Kind, start: nat, sent: seq<nat>): WritePass {
    var code := d.writeStatus(kind, start, |sent|);
    if code != ERR_OK then s.(err := code) else s.(cells := WriteCells(s.cells, kind, start, sent, |sent|))
  }

  function BatchWrite<I, V>(d: Device, c: Conversions<I, V>, regs: seq<Reg<I>>, i: nat, values: seq<V>, s: WritePass): WritePass
    requires i <= |regs| && forall j :: 0 <= j < |regs| ==> regs[j].ioIdx < |values|
    decreases |regs| - i
  {
    if i == |regs| then s
    else if !Writable(regs[i].kind) then BatchWrite(d, c, regs, i + 1, values, s)
    else
      var end := RunEnd(regs, i, i + 1);
      BatchWrite(d, c, regs, end, values, Transact(d, s, regs[i].kind, regs[i].address, Sent(c, regs, i, end, values)))
  }

  function SingleWrite<I, V>(d: Device, c: Conversions<I, V>, regs: seq<Reg<I>>, i: nat, values: seq<V>, s: WritePass): WritePass
    requires i <= |regs| && forall j :: 0 <= j < |regs| ==> regs[j].ioIdx < |values|
    decreases |regs| - i
  {
    if i == |regs| then s
    else if !Writable(regs[i].kind) then SingleWrite(d, c, regs, i + 1, values, s)
    else SingleWrite(d, c, regs, i + 1, values, Transact(d, s, regs[i].kind, regs[i].address, [Raw(c, regs, i, values)]))
  }

  method WriteBatchedIo<I(!new), V(!new)>(d: Device, c: Conversions<I, V>, fields: seq<Field<I>>, values: seq<V>)
    returns (cells: map<Cell, nat>, lastErr: int)
    requires |values| == Offset(fields, |fields|)
    ensures Fitting(OutputRegs(fields), values)
    ensures WritePass(cells, lastErr) == BatchWrite(d, c, OutputRegs(fields), 0, values, WritePass(d.cells, ERR_OK))
  {
    lastErr, cells := ERR_OK, d.cells;
    var regs := ExpandRegisters(fields, dir => Writes(dir));
    OutputRegsFit(fields, values);
    var i := 0;
    while i < |regs|
      invariant i <= |regs|
      invariant BatchWrite(d, c, regs, i, values, WritePass(cells, lastErr))
                == BatchWrite(d, c, regs, 0, values, WritePass(d.cells, ERR_OK))
    {
      if regs[i].kind.Coil? || regs[i].kind.HoldingRegister? {
        var end := FindRun(regs, i);
        var sent := Sent(c, regs, i, end, values);
        var p := Transact(d, WritePass(cells, lastErr), regs[i].kind, regs[i].address, sent);
        cells, lastErr := p.cells, p.err;
        i := end;
      } else {
        i := i + 1;
      }
    }
  }

  lemma {:induction false} RunWrittenSingly<I(!new), V(!new)>(d: Device, c: Conversions<I, V>, regs: seq<Reg<I>>, i: nat, n: nat, m: nat, values: seq<V>, s: WritePass)
    requires Sensible(d) && m <= n && i + n <= |regs| && n >= 1 && Writable(regs[i].kind)
    requires forall j :: 0 <= j < |regs| ==> regs[j].ioIdx < |values|
    requires forall k :: i <= k < i + n ==> regs[k].kind == regs[i].kind && regs[k].address == regs[i].address + (k - i)
    requires d.writeStatus(regs[i].kind, regs[i].address, n) == ERR_OK
    ensures var sent := Sent(c, regs, i, i + n, values);
      SingleWrite(d, c, regs, i, values, s)
      == SingleWrite(d, c, regs, i + m, values, s.(cells := WriteCells(s.cells, regs[i].kind, regs[i].address, sent, m)))
    decreases m
  {
    if m > 0 {
      RunWrittenSingly(d, c, regs, i, n, m - 1, values, s);
      var q := regs[i + m - 1];
      var sent := Sent(c, regs, i, i + n, values);
      var before := WriteCells(s.cells, regs[i].kind, regs[i].address, sent, m - 1);
      assert q.address == regs[i].address + (m - 1);
      assert d.writeStatus(q.kind, q.address, 1) == ERR_OK;
      assert WriteCells(before, q.kind, q.address, [sent[m - 1]], 1) == before[(q.kind, q.address) := sent[m - 1]] by {
        assert WriteCells(before, q.kind, q.address, [sent[m - 1]], 0) == before;
      }
    }
  }

  /** Batching refines one-by-one writing, overlapping addresses included: when every run is
      answered, the device ends with the same memory as after single writes in list order. */
  lemma {:induction false} BatchWriteIsSingleWrite<I(!new), V(!new)>(d: Device, c: Conversions<I, V>, regs: seq<Reg<I>>, i: nat, values: seq<V>, s: WritePass)
    requires Sensible(d) && i <= |regs| && Fitting(regs, values) && RunsAnswered(d.writeStatus, Writable, regs, i)
    ensures BatchWrite(d, c, regs, i, values, s) == SingleWrite(d, c, regs, i, values, s)
    ensures BatchWrite(d, c, regs, i, values, s).err == s.err
    decreases |regs| - i
  {
    if i < |regs| {
      if !Writable(regs[i].kind) {
        BatchWriteIsSingleWrite(d, c, regs, i + 1, values, s);
      } else {
        var end := RunEnd(regs, i, i + 1);
        RunAddresses(regs, i, end);
        RunWrittenSingly(d, c, regs, i, end - i, end - i, values, s);
        var sent := Sent(c, regs, i, end, values);
        BatchWriteIsSingleWrite(d, c, regs, end, values, Transact(d, s, regs[i].kind, regs[i].address, sent));
      }
    }
  }

  /** Cells that no writable register names are never touched. */
  lemma {:induction false} WritesOnlyItsRegisters<I(!new), V(!new)>(d: Device, c: Conversions<I, V>, regs: seq<Reg<I>>, i: nat, values: seq<V>, s: WritePass, cell: Cell)
    requires Sensible(d) && i <= |regs| && Fitting(regs, values) && RunsAnswered(d.writeStatus, Writable, regs, i)
    requires forall k :: i <= k < |regs| && Writable(regs[k].kind) ==> (regs[k].kind, regs[k].address) != cell
    ensures var after := BatchWrite(d, c, regs, i, values, s).cells;
      (cell in after <==> cell in s.cells) && (cell in after ==> after[cell] == s.cells[cell])
    decreases |regs| - i
  {
    BatchWriteIsSingleWrite(d, c, regs, i, values, s);
    SingleWriteElsewhere(d, c, regs, i, values, s, cell);
  }

  lemma {:induction false} SingleWriteElsewhere<I(!new), V(!new)>(d: Device, c: Conversions<I, V>, regs: seq<Reg<I>>, i: nat, values: seq<V>, s: WritePass, cell: Cell)
    requires i <= |regs| && Fitting(regs, values)
    requires forall k :: i <= k < |regs| && Writable(regs[k].kind) ==> (regs[k].kind, regs[k].address) != cell
    ensures var after := SingleWrite(d, c, regs, i, values, s).cells;
      (cell in after <==> cell in s.cells) && (cell in after ==> after[cell] == s.cells[cell])
    decreases |regs| - i
  {
    if i < |regs| {
      if !Writable(regs[i].kind) {
        SingleWriteElsewhere(d, c, regs, i + 1, values, s, cell);
      } else {
        var sent := [Raw(c, regs, i, values)];
        assert WriteCells(s.cells, regs[i].kind, regs[i].address, sent, 0) == s.cells;
        SingleWriteElsewhere(d, c, regs, i + 1, values, Transact(d, s, regs[i].kind, regs[i].address, sent), cell);
      }
    }
  }

  // ---------------------------------------------------------------- one poll

  const U64_MAX: nat := 0xFFFF_FFFF_FFFF_FFFF

  /** One poll: read pass, then write pass from the values queued before it, then diagnostics.
      Write errors win over read errors.
      `elapsed` is the time the two passes took. */
  method Poll<I(!new), V(!new)>(d: Device, c: Conversions<I, V>, fields: seq<Field<I>>, io: IoState<V>, elapsed: nat) returns (ok: bool, cells: map<Cell, nat>)
    requires Sensible(d) && |io.readValues| == |io.writeValues| == Offset(fields, |fields|)
    modifies io`readValues, io`connected, io`errorCode, io`errorsCount, io`ioCycles, io`lastResponse
    ensures Fitting(InputRegs(fields), old(io.readValues)) && Fitting(OutputRegs(fields), io.writeValues)
    ensures var r := BatchRead(d, c, InputRegs(fields), 0, Pass(old(io.readValues), ERR_OK));
      var w := BatchWrite(d, c, OutputRegs(fields), 0, io.writeValues, WritePass(d.cells, ERR_OK));
      && io.readValues == r.values && cells == w.cells
      && io.errorCode == (if w.err != ERR_OK then w.err else r.err)
      && (ok <==> r.err == ERR_OK && w.err == ERR_OK)
    ensures io.connected == ok && io.ioCycles == old(io.ioCycles) + 1 && io.lastResponse == elapsed
    ensures io.errorsCount == if !ok && old(io.errorsCount) < U64_MAX then old(io.errorsCount) + 1 else old(io.errorsCount)
  {
    var snapshot := io.writeValues;
    var readErr := ReadBatchedIo(d, c, fields, io);
    var written, writeErr := WriteBatchedIo(d, c, fields, snapshot);
    cells := written;
    var cycleErr := if writeErr != ERR_OK then writeErr else readErr;
    io.connected := cycleErr == ERR_OK;
    io.errorCode := cycleErr;
    io.ioCycles := io.ioCycles + 1;
    io.lastResponse := elapsed;
    if cycleErr != ERR_OK && io.errorsCount < U64_MAX { io.errorsCount := io.errorsCount + 1; }
    ok := cycleErr == ERR_OK;
  }
}
