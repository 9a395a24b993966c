/** The serial bus thread: one pass after another over the registered devices
    (`st-comm-serial/src/bus.rs:70-157`). */
module BusLoop {
  import opened Names

  datatype Device = Device(interval: nat, last: Option<nat>)

  /** The device list is locked during a pass, so devices register only between passes. */
  datatype Phase = Between | InPass(cursor: nat)

  datatype BusState = BusState(now: nat, devices: seq<Device>, phase: Phase)

  /** One poll: the device, and when it started and ended. */
  datatype Poll = Poll(device: nat, start: nat, end: nat)

  /** `Check` looks at the device under the cursor `wait` ticks later and, if it is due, polls
      it for `work` ticks. */
  datatype Event = Register(interval: nat) | Begin | Check(wait: nat, work: nat) | Finish(sleep: nat)

  predicate DueAt(d: Device, now: nat) { d.last.Some? ==> now >= d.last.value + d.interval }

  predicate Enabled(s: BusState, e: Event) {
    match e
    case Register(_) => s.phase.Between?
    case Begin => s.phase.Between?
    case Check(_, _) => s.phase.InPass? && s.phase.cursor < |s.devices|
    case Finish(_) => s.phase.InPass? && s.phase.cursor == |s.devices|
  }

  function Step(s: BusState, e: Event): BusState
    requires Enabled(s, e)
  {
    match e
    case Register(interval) => s.(devices := s.devices + [Device(interval, None)])
    case Begin => s.(phase := InPass(0))
    case Finish(sleep) => s.(now := s.now + sleep, phase := Between)
    case Check(wait, work) =>
      var c := s.phase.cursor;
      var t := s.now + wait;
      if DueAt(s.devices[c], t)
      then BusState(t + work, s.devices[c := s.devices[c].(last := Some(t + work))], InPass(c + 1))
      else BusState(t, s.devices, InPass(c + 1))
  }

  function PollsOf(s: BusState, e: Event): (p: seq<Poll>)
    requires Enabled(s, e)
    ensures |p| <= 1
  {
    if e.Check? && DueAt(s.devices[s.phase.cursor], s.now + e.wait)
    then [Poll(s.phase.cursor, s.now + e.wait, s.now + e.wait + e.work)] else []
  }

  predicate InRange(s: BusState) { s.phase.InPass? ==> s.phase.cursor <= |s.devices| }

  ghost predicate Possible(s: BusState, events: seq<Event>)
    decreases events
  {
    events == [] || (Enabled(s, events[0]) && Possible(Step(s, events[0]), events[1..]))
  }

  function Run(s: BusState, events: seq<Event>): (r: BusState)
    requires Possible(s, events)
    ensures InRange(s) ==> InRange(r)
    decreases events
  {
    if events == [] then s else Run(Step(s, events[0]), events[1..])
  }

  /** All polls of a run, in order. */
  function Log(s: BusState, events: seq<Event>): seq<Poll>
    requires Possible(s, events)
    decreases events
  {
    if events == [] then [] else PollsOf(s, events[0]) + Log(Step(s, events[0]), events[1..])
  }

  // ---------------------------------------------------------------- spacing

  lemma {:induction false} LogFrom(s: BusState, events: seq<Event>, k: nat)
    requires Possible(s, events) && k < |Log(s, events)|
    ensures var p := Log(s, events)[k];
      && p.start >= s.now && p.end >= p.start
      && (p.device < |s.devices| && s.devices[p.device].last.Some? ==>
            p.start >= s.devices[p.device].last.value + s.devices[p.device].interval)
    decreases events
  {
    var first := PollsOf(s, events[0]);
    if k >= |first| {
      LogFrom(Step(s, events[0]), events[1..], k - |first|);
      assert Log(s, events)[k] == Log(Step(s, events[0]), events[1..])[k - |first|];
    }
  }

  /** A device's interval, wherever in the run it registers. */
  lemma {:induction false} DevicesStay(s: BusState, events: seq<Event>, d: nat)
    requires Possible(s, events) && d < |s.devices|
    ensures d < |Run(s, events).devices| && Run(s, events).devices[d].interval == s.devices[d].interval
    decreases events
  {
    if events != [] { DevicesStay(Step(s, events[0]), events[1..], d); }
  }

  /** Polls never overlap, and a device's later polls start at least its interval after each
      of its earlier ones ended. */
  lemma {:induction false} Spacing(s: BusState, events: seq<Event>, i: nat, j: nat)
    requires Possible(s, events) && i < j < |Log(s, events)|
    ensures var log := Log(s, events);
      && log[i].end <= log[j].start
      && (log[i].device == log[j].device ==>
            log[i].device < |Run(s, events).devices|
            && log[j].start >= log[i].end + Run(s, events).devices[log[i].device].interval)
    decreases events
  {
    var e, t := events[0], Step(s, events[0]);
    var first, rest := PollsOf(s, e), Log(t, events[1..]);
    if i >= |first| {
      Spacing(t, events[1..], i - |first|, j - |first|);
      assert Log(s, events)[i] == rest[i - |first|] && Log(s, events)[j] == rest[j - |first|];
    } else {
      var p := first[0];
      LogFrom(t, events[1..], j - 1);
      assert Log(s, events)[j] == rest[j - 1];
      DevicesStay(t, events[1..], p.device);
    }
  }

  // ---------------------------------------------------------------- who is polled

  /** The last poll of device d in a log. */
  function LastPoll(log: seq<Poll>, d: nat): (r: Option<nat>)
    ensures r.Some? ==> r.value < |log| && log[r.value].device == d && forall j :: r.value < j < |log| ==> log[j].device != d
    ensures r.None? ==> forall j :: 0 <= j < |log| ==> log[j].device != d
    decreases log
  {
    if log == [] then None
    else if log[|log| - 1].device == d then Some(|log| - 1)
    else LastPoll(log[..|log| - 1], d)
  }

  function LastEnd(log: seq<Poll>, d: nat): Option<nat> {
    match LastPoll(log, d) case None => None case Some(k) => Some(log[k].end)
  }

  lemma LastEndAppend(a: seq<Poll>, b: seq<Poll>, d: nat)
    ensures LastEnd(a + b, d) == if LastEnd(b, d).Some? then LastEnd(b, d) else LastEnd(a, d)
  {
    var all := a + b;
    assert forall j :: 0 <= j < |b| ==> all[|a| + j] == b[j];
    assert forall j :: 0 <= j < |a| ==> all[j] == a[j];
    var r := LastPoll(all, d);
    if LastPoll(b, d).Some? {
      assert all[|a| + LastPoll(b, d).value].device == d;
    } else if LastPoll(a, d).Some? {
      assert all[LastPoll(a, d).value].device == d;
    }
  }

  /** What the bus remembers of a device is the end of its last poll in the log. */
  lemma {:induction false} LastIsLogged(s: BusState, events: seq<Event>, d: nat)
    requires Possible(s, events) && d < |Run(s, events).devices|
    ensures Run(s, events).devices[d].last ==
      if LastEnd(Log(s, events), d).Some? then LastEnd(Log(s, events), d)
      else if d < |s.devices| then s.devices[d].last else None
    decreases events
  {
    if events != [] {
      LastIsLogged(Step(s, events[0]), events[1..], d);
      LastEndAppend(PollsOf(s, events[0]), Log(Step(s, events[0]), events[1..]), d);
      OnePoll(s, events[0], d);
    }
  }

  lemma OnePoll(s: BusState, e: Event, d: nat)
    requires Enabled(s, e)
    ensures var own := LastEnd(PollsOf(s, e), d);
      d < |Step(s, e).devices| ==>
        Step(s, e).devices[d].last == if own.Some? then own else if d < |s.devices| then s.devices[d].last else None
    ensures d >= |Step(s, e).devices| ==> LastEnd(PollsOf(s, e), d).None?
  {
  }

  /** No device has been polled yet. */
  predicate Unpolled(s: BusState) { forall d :: 0 <= d < |s.devices| ==> s.devices[d].last.None? }

  /** A check polls its device, at once and for as long as the poll takes, if and only if the
      device has never been polled or its last poll ended at least its interval ago. */
  lemma CheckPollsIff(s: BusState, events: seq<Event>, wait: nat, work: nat)
    requires Unpolled(s) && Possible(s, events) && Enabled(Run(s, events), Check(wait, work))
    ensures var now, d, log := Run(s, events).now + wait, Run(s, events).phase.cursor, Log(s, events);
      PollsOf(Run(s, events), Check(wait, work)) ==
        if LastPoll(log, d).None? || now >= log[LastPoll(log, d).value].end + Run(s, events).devices[d].interval
        then [Poll(d, now, now + work)] else []
  {
    LastIsLogged(s, events, Run(s, events).phase.cursor);
  }

  // ---------------------------------------------------------------- fairness

  /** How many checks of other devices come before the next check of device d. */
  function Ahead(s: BusState, d: nat): nat
    requires d < |s.devices| && (s.phase.InPass? ==> s.phase.cursor <= |s.devices|)
  {
    if s.phase.Between? then d
    else if s.phase.cursor <= d then d - s.phase.cursor
    else |s.devices| - s.phase.cursor + d
  }

  predicate ChecksOther(s: BusState, e: Event, d: nat) { e.Check? && s.phase.InPass? && s.phase.cursor != d }
  predicate ChecksIt(s: BusState, e: Event, d: nat) { e.Check? && s.phase.InPass? && s.phase.cursor == d }

  /** Only a check of another device brings d nearer; registrations do not push it back. */
  lemma AheadCountsDown(s: BusState, e: Event, d: nat)
    requires InRange(s) && Enabled(s, e) && d < |s.devices| && !ChecksIt(s, e, d)
    ensures InRange(Step(s, e)) && d < |Step(s, e).devices|
    ensures Ahead(Step(s, e), d) == Ahead(s, d) - (if ChecksOther(s, e, d) then 1 else 0)
  {
  }

  /** A device that is due stays due until it is checked, and the check polls it. */
  lemma DueStays(s: BusState, e: Event, d: nat)
    requires InRange(s) && Enabled(s, e) && d < |s.devices| && DueAt(s.devices[d], s.now)
    ensures ChecksIt(s, e, d) ==> |PollsOf(s, e)| == 1 && PollsOf(s, e)[0].device == d
    ensures !ChecksIt(s, e, d) ==> Step(s, e).devices[d] == s.devices[d] && DueAt(Step(s, e).devices[d], Step(s, e).now)
  {
  }

  lemma {:induction false} BypassBounded(s: BusState, events: seq<Event>, d: nat)
    requires InRange(s) && Possible(s, events) && d < |s.devices| && DueAt(s.devices[d], s.now)
    requires forall p :: p in Log(s, events) ==> p.device != d
    ensures |Log(s, events)| <= Ahead(s, d) <= |s.devices| - 1
    decreases events
  {
    if events != [] {
      var e, t := events[0], Step(s, events[0]);
      DueStays(s, e, d);
      assert forall p :: p in PollsOf(s, e) || p in Log(t, events[1..]) ==> p in Log(s, events);
      if !ChecksIt(s, e, d) {
        AheadCountsDown(s, e, d);
        BypassBounded(t, events[1..], d);
      }
    }
  }

  function Checks(events: seq<Event>): nat
    decreases events
  {
    if events == [] then 0 else (if events[0].Check? then 1 else 0) + Checks(events[1..])
  }

  lemma {:induction false} ServedInTime(s: BusState, events: seq<Event>, d: nat)
    requires InRange(s) && Possible(s, events) && d < |s.devices| && DueAt(s.devices[d], s.now)
    requires Checks(events) > Ahead(s, d)
    ensures exists p :: p in Log(s, events) && p.device == d
    decreases events
  {
    var e, t := events[0], Step(s, events[0]);
    DueStays(s, e, d);
    assert forall p :: p in PollsOf(s, e) || p in Log(t, events[1..]) ==> p in Log(s, events);
    if !ChecksIt(s, e, d) {
      AheadCountsDown(s, e, d);
      ServedInTime(t, events[1..], d);
    }
  }

  /** Bounded bypass: once a device was never polled, or its last poll ended at least its
      interval ago, fewer polls of other devices than there are devices start before its own,
      even when devices register in between. */
  lemma BoundedBypass(s: BusState, before: seq<Event>, events: seq<Event>, d: nat)
    requires Unpolled(s) && InRange(s) && Possible(s, before) && d < |Run(s, before).devices| && Possible(Run(s, before), events)
    requires var log := Log(s, before);
      (LastPoll(log, d).None? || Run(s, before).now >= log[LastPoll(log, d).value].end + Run(s, before).devices[d].interval)
    requires forall p :: p in Log(Run(s, before), events) ==> p.device != d
    ensures |Log(Run(s, before), events)| <= Ahead(Run(s, before), d) <= |Run(s, before).devices| - 1
  {
    LastIsLogged(s, before, d);
    BypassBounded(Run(s, before), events, d);
  }

  /** And it is served: a run that goes on for as many checks has polled it. */
  lemma DueIsServed(s: BusState, before: seq<Event>, events: seq<Event>, d: nat)
    requires Unpolled(s) && InRange(s) && Possible(s, before) && d < |Run(s, before).devices| && Possible(Run(s, before), events)
    requires var log := Log(s, before);
      (LastPoll(log, d).None? || Run(s, before).now >= log[LastPoll(log, d).value].end + Run(s, before).devices[d].interval)
    requires Checks(events) > Ahead(Run(s, before), d)
    ensures exists p :: p in Log(Run(s, before), events) && p.device == d
  {
    LastIsLogged(s, before, d);
    ServedInTime(Run(s, before), events, d);
  }

  // ---------------------------------------------------------------- the code

  /** What the clock does at the checks of one pass. */
  datatype Clock = Clock(wait: nat -> nat, work: nat -> nat)

  function CheckEvents(clock: Clock, n: nat): (e: seq<Event>)
    ensures |e| == n && forall k :: 0 <= k < n ==> e[k] == Check(clock.wait(k), clock.work(k))
  {
    seq(n, k requires 0 <= k < n => Check(clock.wait(k), clock.work(k)))
  }

  lemma {:induction false} RunSnoc(s: BusState, events: seq<Event>, e: Event)
    requires Possible(s, events) && Enabled(Run(s, events), e)
    ensures Possible(s, events + [e])
    ensures Run(s, events + [e]) == Step(Run(s, events), e)
    ensures Log(s, events + [e]) == Log(s, events) + PollsOf(Run(s, events), e)
    decreases events
  {
    if events == [] {
      assert events + [e] == [e] && [e][1..] == [];
    } else {
      assert (events + [e])[1..] == events[1..] + [e];
      RunSnoc(Step(s, events[0]), events[1..], e);
    }
  }

  class Bus {
    var devices: seq<Device>
    var threadStarted: bool

    constructor ()
      ensures devices == [] && !threadStarted
    {
      devices, threadStarted := [], false;
    }

    /** Appends the device; the bus thread is started by the first registration only. */
    method RegisterDevice(interval: nat) returns (spawn: bool)
      modifies this
      ensures devices == old(devices) + [Device(interval, None)]
      ensures threadStarted && spawn == !old(threadStarted)
    {
      devices := devices + [Device(interval, None)];
      spawn := !threadStarted;
      threadStarted := true;
    }

    /** Device i: polled if it is due. */
    method CheckDevice(i: nat, start: nat, wait: nat, work: nat) returns (now: nat, polled: seq<Poll>)
      requires i < |devices|
      modifies this`devices
      ensures BusState(now, devices, InPass(i + 1)) == Step(BusState(start, old(devices), InPass(i)), Check(wait, work))
      ensures polled == PollsOf(BusState(start, old(devices), InPass(i)), Check(wait, work))
      ensures polled != [] <==> old(devices)[i].last.None? || start + wait - old(devices)[i].last.value >= old(devices)[i].interval
    {
      now, polled := start + wait, [];
      var due := devices[i].last.None? || now - devices[i].last.value >= devices[i].interval;
      if !due { return; }
      polled := [Poll(i, now, now + work)];
      now := now + work;
      devices := devices[i := devices[i].(last := Some(now))];
    }

    /** One pass of the bus thread, with the list locked. */
    method Pass(start: nat, clock: Clock) returns (now: nat, anyPolled: bool, polls: seq<Poll>)
      modifies this`devices
      ensures var s := BusState(start, old(devices), InPass(0));
        var events := CheckEvents(clock, |old(devices)|);
        && Possible(s, events) && Run(s, events) == BusState(now, devices, InPass(|devices|))
        && polls == Log(s, events) && (anyPolled <==> polls != [])
    {
      ghost var s := BusState(start, devices, InPass(0));
      now, anyPolled, polls := start, false, [];
      for i := 0 to |devices|
        invariant |devices| == |old(devices)| && Possible(s, CheckEvents(clock, i))
        invariant Run(s, CheckEvents(clock, i)) == BusState(now, devices, InPass(i))
        invariant polls == Log(s, CheckEvents(clock, i)) && (anyPolled <==> polls != [])
      {
        RunSnoc(s, CheckEvents(clock, i), Check(clock.wait(i), clock.work(i)));
        assert CheckEvents(clock, i + 1) == CheckEvents(clock, i) + [Check(clock.wait(i), clock.work(i))];
        var polled;
        now, polled := CheckDevice(i, now, clock.wait(i), clock.work(i));
        if polled != [] { anyPolled := true; }
        polls := polls + polled;
      }
    }
  }
}
