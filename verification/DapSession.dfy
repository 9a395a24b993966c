/** The debug server's main loop: every received request is answered once
    (`st-dap/src/server.rs:120-249, 686-785, 2628-2849`). */
module DapSessions {
  import opened Names

  datatype Command = Pause | Disconnect | SetBreakpoints | Evaluate | Continue | Next | StepIn | StepOut | Launch | Other

  datatype Request = Request(seqNo: int, command: Command)

  datatype Response = Response(requestSeq: int, success: bool)

  predicate IsResume(c: Command) { c.Continue? || c.Next? || c.StepIn? || c.StepOut? }

  /** What the virtual machine and the clock do in one turn of the run loop: how many requests
      have arrived by the drain after a completed cycle and by each chunk of the sleep. */
  datatype Turn = Halted | Failed | Completed(arrived: nat, chunks: seq<nat>, capReached: bool)

  /** One resume: a list of turns. A run that is still going when the list ends has not left
      the run loop. `hasVm` is false before a program is loaded. */
  datatype Script = Script(hasVm: bool, turns: seq<Turn>)

  /** Whether a request with this command is among those received from `i` up to `j`. */
  predicate Asked(rs: seq<Request>, i: nat, j: nat, c: Command)
    requires i <= j <= |rs|
    decreases j
  {
    i < j && (rs[j - 1].command == c || Asked(rs, i, j - 1, c))
  }

  lemma {:induction false} AskedSplit(rs: seq<Request>, i: nat, j: nat, k: nat, c: Command)
    requires i <= j <= k <= |rs|
    ensures Asked(rs, i, k, c) <==> Asked(rs, i, j, c) || Asked(rs, j, k, c)
    decreases k
  {
    if j < k { AskedSplit(rs, i, j, k - 1, c); }
  }

  lemma AskedNext(rs: seq<Request>, i: nat, j: nat, c: Command)
    requires i <= j < |rs|
    ensures Asked(rs, i, j + 1, c) <==> rs[j].command == c || Asked(rs, i, j, c)
  {
  }

  /** Received by a drain of `arrived` requests when `taken` of `all` were received before. */
  function Drained(all: nat, taken: nat, arrived: nat): (t: nat)
    requires taken <= all
    ensures taken <= t <= all
  {
    if arrived < all - taken then taken + arrived else all
  }

  /** A Pause or a Disconnect among the requests received from i up to j. */
  predicate Stops(rs: seq<Request>, i: nat, j: nat)
    requires i <= j <= |rs|
  {
    Asked(rs, i, j, Pause) || Asked(rs, i, j, Disconnect)
  }

  /** How far the channel is read by a sleep of those chunks: up to the drain that sees a Pause
      or Disconnect. */
  function Slept(rs: seq<Request>, taken: nat, chunks: seq<nat>): (t: nat)
    requires taken <= |rs|
    ensures taken <= t <= |rs|
    decreases chunks
  {
    if chunks == [] then taken
    else
      var t := Drained(|rs|, taken, chunks[0]);
      if Stops(rs, taken, t) then t else Slept(rs, t, chunks[1..])
  }

  /** How a Continue goes on from here: how far it reads the channel and whether it ends. */
  function Continued(rs: seq<Request>, taken: nat, turns: seq<Turn>): (r: (nat, bool))
    requires taken <= |rs|
    ensures taken <= r.0 <= |rs|
    decreases turns
  {
    if turns == [] then (taken, false)
    else
      match turns[0]
      case Halted => (taken, true)
      case Failed => (taken, true)
      case Completed(arrived, chunks, capReached) =>
        var drained := Drained(|rs|, taken, arrived);
        if Stops(rs, taken, drained) then (drained, true)
        else
          var slept := Slept(rs, drained, chunks);
          if !Stops(rs, drained, slept) && capReached then (slept, true) else Continued(rs, slept, turns[1..])
  }

  /** The state before turn k of a Continue that has not ended by then. */
  function Reached(rs: seq<Request>, taken: nat, turns: seq<Turn>, k: nat): Option<nat>
    requires taken <= |rs| && k <= |turns|
    ensures var r := Reached(rs, taken, turns, k); r.Some? ==> taken <= r.value <= |rs|
    decreases turns
  {
    if k == 0 then Some(taken)
    else if !turns[0].Completed? then None
    else
      var drained := Drained(|rs|, taken, turns[0].arrived);
      if Stops(rs, taken, drained) then None
      else
        var slept := Slept(rs, drained, turns[0].chunks);
        if !Stops(rs, drained, slept) && turns[0].capReached then None else Reached(rs, slept, turns[1..], k - 1)
  }

  /** A Pause or Disconnect that has arrived by the end of some cycle ends the run there: the
      channel is read no further than that drain. */
  lemma {:induction false} StopEndsRun(rs: seq<Request>, taken: nat, turns: seq<Turn>, k: nat)
    requires taken <= |rs| && k < |turns| && Reached(rs, taken, turns, k).Some? && turns[k].Completed?
    requires var t := Reached(rs, taken, turns, k).value; Stops(rs, t, Drained(|rs|, t, turns[k].arrived))
    ensures Continued(rs, taken, turns) == (Drained(|rs|, Reached(rs, taken, turns, k).value, turns[k].arrived), true)
    decreases turns
  {
    if k > 0 {
      var slept := Slept(rs, Drained(|rs|, taken, turns[0].arrived), turns[0].chunks);
      StopEndsRun(rs, slept, turns[1..], k - 1);
    }
  }

  class DapSession {
    /** Everything the client sends until it closes the channel, and how much was received. */
    const incoming: seq<Request>
    const succeeds: Request -> bool
    var taken: nat
    var written: seq<Response>
    var deferredRequests: seq<Request>
    var deferredResponses: seq<Response>
    var shouldExit: bool
    /** Run loops entered so far. */
    var resumes: nat

    constructor (incoming: seq<Request>, succeeds: Request -> bool)
      ensures this.incoming == incoming && this.succeeds == succeeds
      ensures taken == 0 && written == [] && deferredRequests == [] && deferredResponses == [] && !shouldExit && resumes == 0
    {
      this.incoming, this.succeeds := incoming, succeeds;
      taken, written, deferredRequests, deferredResponses, shouldExit, resumes := 0, [], [], [], false, 0;
    }

    ghost predicate Valid()
      reads this
    {
      taken <= |incoming|
    }

    /** The responses the requests are to get: each its own number and its own success. */
    function Replies(rs: seq<Request>): (s: seq<Response>)
      ensures |s| == |rs| && forall i :: 0 <= i < |rs| ==> s[i] == Response(rs[i].seqNo, succeeds(rs[i]))
    {
      seq(|rs|, i requires 0 <= i < |rs| => Response(rs[i].seqNo, succeeds(rs[i])))
    }

    lemma RepliesSnoc(rs: seq<Request>, r: Request)
      ensures multiset(Replies(rs + [r])) == multiset(Replies(rs)) + multiset{Response(r.seqNo, succeeds(r))}
    {
      assert Replies(rs + [r]) == Replies(rs) + [Response(r.seqNo, succeeds(r))];
    }

    lemma RepliesCons(r: Request, rs: seq<Request>)
      ensures multiset(Replies([r] + rs)) == multiset{Response(r.seqNo, succeeds(r))} + multiset(Replies(rs))
    {
      assert Replies([r] + rs) == [Response(r.seqNo, succeeds(r))] + Replies(rs);
    }

    lemma NothingPending()
      ensures multiset(Replies([])) == multiset{}
    {
      assert Replies([]) == [];
    }

    /** The responses owed for everything received so far. */
    ghost function Received(): multiset<Response>
      requires Valid()
      reads this
    {
      multiset(Replies(incoming[..taken]))
    }

    /** Responses on the wire, waiting to be written, and of requests waiting to be handled. */
    ghost function Accounted(): multiset<Response>
      reads this
    {
      multiset(written) + multiset(deferredResponses) + multiset(Replies(deferredRequests))
    }

    /** Nothing is lost and nothing is answered twice, or otherwise than it should be. */
    ghost predicate Conserved()
      requires Valid()
      reads this
    {
      Received() == Accounted()
    }

    /** At the head of the main loop: all received requests are answered. */
    ghost predicate Settled()
      requires Valid()
      reads this
    {
      deferredRequests == [] && deferredResponses == [] && multiset(written) == Received()
    }

    method Take() returns (r: Request)
      requires Valid() && taken < |incoming|
      modifies this`taken
      ensures Valid() && taken == old(taken) + 1 && r == incoming[old(taken)]
      ensures Received() == old(Received()) + multiset{Response(r.seqNo, succeeds(r))}
    {
      r := incoming[taken];
      taken := taken + 1;
      assert incoming[..taken] == incoming[..taken - 1] + [r];
      RepliesSnoc(incoming[..taken - 1], r);
    }

    method Respond(r: Response)
      modifies this`written
      ensures written == old(written) + [r]
      ensures multiset(written) == old(multiset(written)) + multiset{r}
    {
      written := written + [r];
    }

    method DeferRequest(r: Request)
      modifies this`deferredRequests
      ensures deferredRequests == old(deferredRequests) + [r]
      ensures Accounted() == old(Accounted()) + multiset{Response(r.seqNo, succeeds(r))}
    {
      RepliesSnoc(deferredRequests, r);
      deferredRequests := deferredRequests + [r];
    }

    method DeferResponse(r: Response)
      modifies this`deferredResponses
      ensures deferredResponses == old(deferredResponses) + [r]
      ensures Accounted() == old(Accounted()) + multiset{r}
    {
      deferredResponses := deferredResponses + [r];
    }

    /** Always answers the request it was given; Disconnect asks the main loop to stop. */
    method HandleRequest(r: Request) returns (response: Response)
      modifies this`shouldExit
      ensures response == Response(r.seqNo, succeeds(r))
      ensures shouldExit == (old(shouldExit) || r.command.Disconnect?)
    {
      if r.command.Disconnect? { shouldExit := true; }
      response := Response(r.seqNo, succeeds(r));
    }

    /** One request that arrived during a run: breakpoints and watches are answered at once,
        the answer waiting to be written; everything else is put off. */
    method HandleInflight(r: Request)
      modifies this`deferredRequests, this`deferredResponses
      ensures Accounted() == old(Accounted()) + multiset{Response(r.seqNo, succeeds(r))}
      ensures r.command == SetBreakpoints || r.command == Evaluate ==>
        deferredResponses == old(deferredResponses) + [Response(r.seqNo, succeeds(r))] && deferredRequests == old(deferredRequests)
      ensures r.command != SetBreakpoints && r.command != Evaluate ==>
        deferredRequests == old(deferredRequests) + [r] && deferredResponses == old(deferredResponses)
    {
      match r.command
      case SetBreakpoints => DeferResponse(Response(r.seqNo, succeeds(r)));
      case Evaluate => DeferResponse(Response(r.seqNo, succeeds(r)));
      case _ => DeferRequest(r);
    }

    method TakeInflight() returns (r: Request)
      requires Valid() && Conserved() && taken < |incoming|
      modifies this`taken, this`deferredRequests, this`deferredResponses
      ensures Valid() && Conserved() && taken == old(taken) + 1 && r == incoming[old(taken)]
    {
      r := Take();
      HandleInflight(r);
    }

    /** Drains the `arrived` requests that are there: breakpoints and watches are handled at
        once, everything else is put off until the run loop ends. */
    method ProcessInflight(arrived: nat) returns (pause: bool, disconnect: bool)
      requires Valid() && Conserved()
      modifies this`taken, this`deferredRequests, this`deferredResponses
      ensures Valid() && Conserved()
      ensures taken == Drained(|incoming|, old(taken), arrived)
      ensures pause == Asked(incoming, old(taken), taken, Pause) && disconnect == Asked(incoming, old(taken), taken, Disconnect)
    {
      pause, disconnect := false, false;
      ghost var start := taken;
      var n := 0;
      while n < arrived && taken < |incoming|
        invariant Valid() && Conserved() && n <= arrived && taken == start + n
        invariant pause == Asked(incoming, start, start + n, Pause) && disconnect == Asked(incoming, start, start + n, Disconnect)
      {
        AskedNext(incoming, start, start + n, Pause);
        AskedNext(incoming, start, start + n, Disconnect);
        var r := TakeInflight();
        n := n + 1;
        if r.command.Pause? { pause := true; }
        if r.command.Disconnect? { disconnect := true; }
      }
    }

    /** Sleeps chunk by chunk, draining after each; stops early on Pause or Disconnect. */
    method InterruptibleSleep(chunks: seq<nat>) returns (interrupted: bool)
      requires Valid() && Conserved()
      modifies this`taken, this`deferredRequests, this`deferredResponses
      ensures Valid() && Conserved() && taken == Slept(incoming, old(taken), chunks)
      ensures interrupted == Stops(incoming, old(taken), taken)
    {
      interrupted := false;
      ghost var start := taken;
      for i := 0 to |chunks|
        invariant Valid() && Conserved() && taken >= start && !Stops(incoming, start, taken)
        invariant Slept(incoming, taken, chunks[i..]) == Slept(incoming, start, chunks)
      {
        ghost var before := taken;
        assert chunks[i..][0] == chunks[i] && chunks[i..][1..] == chunks[i + 1..];
        var pause, disconnect := ProcessInflight(chunks[i]);
        AskedSplit(incoming, start, before, taken, Pause);
        AskedSplit(incoming, start, before, taken, Disconnect);
        if disconnect || pause { return true; }
      }
    }

    /** The run loop. Only a Continue looks at the channel, and a Pause or Disconnect that its
        drain sees ends it; a step that reaches the end of the cycle goes on as a step into the
        next one. */
    method ResumeExecution(isContinue: bool, script: Script) returns (ended: bool)
      requires Valid() && Conserved()
      modifies this`taken, this`deferredRequests, this`deferredResponses, this`resumes
      ensures Valid() && Conserved() && resumes == old(resumes) + 1
      ensures !script.hasVm ==> ended && taken == old(taken)
      ensures script.hasVm && isContinue ==> (taken, ended) == Continued(incoming, old(taken), script.turns)
      ensures !isContinue ==> taken == old(taken) && deferredRequests == old(deferredRequests) && deferredResponses == old(deferredResponses)
    {
      resumes := resumes + 1;
      if !script.hasVm { return true; }
      ghost var start := taken;
      for i := 0 to |script.turns|
        invariant Valid() && Conserved() && taken >= start && resumes == old(resumes) + 1
        invariant isContinue ==> Continued(incoming, taken, script.turns[i..]) == Continued(incoming, start, script.turns)
        invariant !isContinue ==> taken == start && deferredRequests == old(deferredRequests) && deferredResponses == old(deferredResponses)
      {
        assert script.turns[i..][0] == script.turns[i] && script.turns[i..][1..] == script.turns[i + 1..];
        match script.turns[i]
        case Halted => return true;
        case Failed => return true;
        case Completed(arrived, chunks, capReached) =>
          if !isContinue { continue; }
          var pause, disconnect := ProcessInflight(arrived);
          if pause { return true; }
          if disconnect { return true; }
          var interrupted := InterruptibleSleep(chunks);
          if interrupted { continue; }
          if capReached { return true; }
      }
      ended := false;
    }

    /** Writes the responses that were produced inside the run loop. */
    method DrainResponses()
      requires Valid() && Conserved()
      modifies this`written, this`deferredResponses
      ensures Valid() && Conserved() && deferredResponses == []
    {
      var todo := deferredResponses;
      for i := 0 to |todo|
        invariant deferredResponses == todo[i..] && Valid() && Conserved()
      {
        assert todo[i..] == [todo[i]] + todo[i + 1..];
        deferredResponses := todo[i + 1..];
        Respond(todo[i]);
      }
    }

    method TakeDeferred() returns (r: Request)
      requires deferredRequests != []
      modifies this`deferredRequests
      ensures r == old(deferredRequests)[0] && deferredRequests == old(deferredRequests)[1..]
      ensures old(multiset(Replies(deferredRequests))) == multiset(Replies(deferredRequests)) + multiset{Response(r.seqNo, succeeds(r))}
    {
      r := deferredRequests[0];
      assert deferredRequests == [r] + deferredRequests[1..];
      RepliesCons(r, deferredRequests[1..]);
      deferredRequests := deferredRequests[1..];
    }

    /** Answers the first of the requests that were put off. */
    method AnswerDeferred()
      requires Valid() && Conserved() && deferredRequests != []
      modifies this`written, this`deferredRequests, this`shouldExit
      ensures Valid() && Conserved() && deferredRequests == old(deferredRequests)[1..]
      ensures shouldExit == (old(shouldExit) || old(deferredRequests)[0].command.Disconnect?)
    {
      var r := TakeDeferred();
      var response := HandleRequest(r);
      Respond(response);
    }

    /** Answers all of them, in order. A resume command among them is answered but not carried
        out. */
    method DrainRequests()
      requires Valid() && Conserved() && deferredResponses == []
      modifies this`written, this`deferredRequests, this`shouldExit
      ensures Valid() && Settled()
      ensures shouldExit == (old(shouldExit) || Asked(old(deferredRequests), 0, |old(deferredRequests)|, Disconnect))
    {
      ghost var todo := deferredRequests;
      for i := 0 to |deferredRequests|
        invariant deferredRequests == todo[i..] && Valid() && Conserved()
        invariant shouldExit == (old(shouldExit) || Asked(todo, 0, i, Disconnect))
      {
        AskedNext(todo, 0, i, Disconnect);
        AnswerDeferred();
      }
      NothingPending();
    }

    /** The next request is answered before anything else, a resume command too. */
    method AnswerNext() returns (r: Request)
      requires Valid() && Settled() && taken < |incoming|
      modifies this`taken, this`written, this`shouldExit
      ensures Valid() && Conserved() && deferredResponses == [] && deferredRequests == []
      ensures taken == old(taken) + 1 && r == incoming[old(taken)]
      ensures written == old(written) + [Response(r.seqNo, succeeds(r))]
    {
      r := Take();
      var response := HandleRequest(r);
      Respond(response);
      NothingPending();
    }

    /** A resume command starts a run loop, any other is done with its answer. */
    method CarryOut(command: Command, script: Script) returns (ended: bool)
      requires Valid() && Conserved()
      modifies this`taken, this`deferredRequests, this`deferredResponses, this`resumes
      ensures Valid() && Conserved() && taken >= old(taken)
      ensures resumes == old(resumes)
        + (if command == Continue || command == Next || command == StepIn || command == StepOut then 1 else 0)
    {
      ended := true;
      if IsResume(command) { ended := ResumeExecution(command.Continue?, script); }
    }

    method DrainAll()
      requires Valid() && Conserved()
      modifies this`written, this`deferredResponses, this`deferredRequests, this`shouldExit
      ensures Valid() && Settled() && Conserved()
    {
      DrainResponses();
      DrainRequests();
      NothingPending();
    }

    /** One turn of the main loop. */
    method ServeOne(script: Script) returns (ended: bool)
      requires Valid() && Settled() && taken < |incoming|
      modifies this
      ensures Valid() && taken > old(taken)
      ensures ended ==> Settled()
      ensures Conserved()
      ensures resumes == old(resumes) + (if IsResume(incoming[old(taken)].command) then 1 else 0)
    {
      var r := AnswerNext();
      ended := CarryOut(r.command, script);
      if ended { DrainAll(); }
    }

    /** The main loop, until the channel closes, a Disconnect was served, or a run loop does
        not end within its script. Whenever it is at its head or done, every received request
        has exactly one response; and nothing is ever lost, even in the middle of a run. */
    method Serve(scripts: nat -> Script) returns (ended: bool)
      requires Valid() && Settled()
      modifies this
      ensures Valid() && Conserved()
      ensures ended ==> Settled() && (taken == |incoming| || shouldExit)
    {
      ended := true;
      NothingPending();
      while ended && taken < |incoming| && !shouldExit
        invariant Valid() && Conserved() && (ended ==> Settled())
        decreases |incoming| - taken, ended
      {
        ended := ServeOne(scripts(taken));
      }
    }
  }
}
