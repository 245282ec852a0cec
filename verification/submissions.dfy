/** What goes into a session and what must come of it, told by the operations alone: which calls are
    submitted, which answers are heard, how long the session lives, and that nothing is ever stuck. */
module Submissions {
  import opened Options
  import opened Decimal
  import opened Session

  /** The requests that callers submit, in order. */
  function Requests(ops: seq<Op>): seq<Request> {
    if ops == [] then [] else (if ops[0].Submit? then [ops[0].request] else []) + Requests(ops[1..])
  }

  /** What the station sends, in order. */
  function AnswersIn(ops: seq<Op>): seq<Answer> {
    if ops == [] then [] else (if ops[0].Hear? then [ops[0].answer] else []) + AnswersIn(ops[1..])
  }

  function Elapsed(ops: seq<Op>): nat {
    if ops == [] then 0 else (if ops[0].Tick? then ops[0].elapsed else 0) + Elapsed(ops[1..])
  }

  function HeardIn(trace: seq<Wire>): seq<Answer> {
    if trace == [] then [] else
    HeardIn(trace[..|trace| - 1]) + if trace[|trace| - 1].Heard? then [trace[|trace| - 1].answer] else []
  }

  /** The caller's action and payload, and the caller's timeout or 24 hours, whichever is shorter. */
  predicate AsAsked(kept: Request, asked: Request) {
    && kept.action == asked.action && kept.payload == asked.payload
    && kept.timeout <= asked.timeout && kept.timeout <= 24 * 60 * 60 * 1000
    && (kept.timeout == asked.timeout || kept.timeout == 24 * 60 * 60 * 1000)
  }

  ghost predicate AllAsAsked(kept: seq<Request>, asked: seq<Request>) {
    |kept| == |asked| && forall i | 0 <= i < |kept| :: AsAsked(kept[i], asked[i])
  }

  lemma HeardAppend(trace: seq<Wire>, e: Wire)
    ensures HeardIn(trace + [e]) == HeardIn(trace) + if e.Heard? then [e.answer] else []
  {
    assert (trace + [e])[..|trace|] == trace;
  }

  /** One step of a session that lives: what it submits and hears is what the operation says. */
  lemma LiveStepTellsItsOperation(s: State, op: Op)
    requires !s.ended
    ensures var s' := Step(s, op);
            && |s'.submitted| == |s.submitted| + (if op.Submit? then 1 else 0)
            && s'.submitted[..|s.submitted|] == s.submitted
            && (op.Submit? ==> AsAsked(s'.submitted[|s.submitted|], op.request))
            && HeardIn(s'.trace) == HeardIn(s.trace) + (if op.Hear? then [op.answer] else [])
            && (s'.ended ==> !op.Submit? && !op.Hear?)
  {
    var s' := Step(s, op);
    hide HeardIn;
    if s'.trace != s.trace {
      if op == Pump(false) && |s'.trace| == |s.trace| + 2 {
        var e := s'.trace[|s.trace|];
        HeardAppend(s.trace, e);
        HeardAppend(s.trace + [e], Hangup);
      } else {
        HeardAppend(s.trace, s'.trace[|s.trace|]);
      }
    }
  }

  /** After the end nothing is submitted or heard any more. */
  lemma EndedStepIsSilent(s: State, op: Op)
    requires s.ended
    ensures var s' := Step(s, op);
            s'.ended && s'.submitted == s.submitted && s'.trace == s.trace && s'.settled == s.settled
  {
  }

  lemma {:induction false} EndedRunIsSilent(s: State, ops: seq<Op>)
    requires s.ended
    ensures var s' := Run(s, ops);
            s'.ended && s'.submitted == s.submitted && s'.trace == s.trace && s'.settled == s.settled
    decreases |ops|
  {
    if ops != [] {
      EndedStepIsSilent(s, ops[0]);
      EndedRunIsSilent(Step(s, ops[0]), ops[1..]);
    }
  }

  lemma {:induction false} RunConcat(s: State, a: seq<Op>, b: seq<Op>)
    ensures Run(s, a + b) == Run(Run(s, a), b)
    decreases |a|
  {
    hide Step;
    if a == [] {
      assert a + b == b;
    } else {
      assert (a + b)[0] == a[0] && (a + b)[1..] == a[1..] + b;
      RunConcat(Step(s, a[0]), a[1..], b);
    }
  }

  /** As long as the session lives, everything that is submitted goes in, ... */
  lemma {:induction false} WhileItLivesItTakes(s: State, ops: seq<Op>)
    requires !s.ended && !Run(s, ops).ended
    ensures s.submitted <= Run(s, ops).submitted
    ensures AllAsAsked(Run(s, ops).submitted[|s.submitted|..], Requests(ops))
    decreases |ops|
  {
    if ops == [] {
      assert s.submitted[|s.submitted|..] == [];
    } else {
      var s1 := Step(s, ops[0]);
      LiveStepTellsItsOperation(s, ops[0]);
      hide Step, HeardIn;
      if s1.ended {
        EndedRunIsSilent(s1, ops[1..]);
      }
      WhileItLivesItTakes(s1, ops[1..]);
      var all := Run(s, ops).submitted;
      assert all == Run(s1, ops[1..]).submitted;
      hide Run;
      OneMoreAsAsked(s.submitted, s1.submitted, all, ops);
    }
  }

  lemma OneMoreAsAsked(before: seq<Request>, after: seq<Request>, all: seq<Request>, ops: seq<Op>)
    requires ops != [] && after <= all && AllAsAsked(all[|after|..], Requests(ops[1..]))
    requires |after| == |before| + (if ops[0].Submit? then 1 else 0) && after[..|before|] == before
    requires ops[0].Submit? ==> AsAsked(after[|before|], ops[0].request)
    ensures before <= all && AllAsAsked(all[|before|..], Requests(ops))
  {
    hide AsAsked, AllAsAsked, Requests;
    FirstRequest(ops);
    assert before == all[..|before|];
    if ops[0].Submit? {
      assert all[|before|..] == [after[|before|]] + all[|after|..];
      FirstAsAsked(after[|before|], all[|after|..], ops[0].request, Requests(ops[1..]));
    } else {
      assert Requests(ops) == Requests(ops[1..]);
    }
  }

  lemma FirstAsAsked(x: Request, kept: seq<Request>, r: Request, asked: seq<Request>)
    requires AsAsked(x, r) && AllAsAsked(kept, asked)
    ensures AllAsAsked([x] + kept, [r] + asked)
  {
    hide AsAsked;
  }

  /** ... and everything that the station sends is heard. */
  lemma {:induction false} WhileItLivesItHears(s: State, ops: seq<Op>)
    requires !s.ended && !Run(s, ops).ended
    ensures HeardIn(Run(s, ops).trace) == HeardIn(s.trace) + AnswersIn(ops)
    decreases |ops|
  {
    if ops != [] {
      var s1 := Step(s, ops[0]);
      LiveStepTellsItsOperation(s, ops[0]);
      hide Step, HeardIn;
      if s1.ended {
        EndedRunIsSilent(s1, ops[1..]);
      }
      WhileItLivesItHears(s1, ops[1..]);
    }
  }

  /** In every run there is a point, `k` operations in, up to which the session lives. What callers
      submitted by then is what the session has, as asked; what the station sent by then is what it
      heard; afterwards there is neither. */
  lemma WhatGoesIn(counter: nat, ops: seq<Op>) returns (k: nat)
    ensures k <= |ops| && forall i | 0 <= i <= |ops| :: Run(Initial(counter), ops[..i]).ended <==> i > k
    ensures AllAsAsked(Run(Initial(counter), ops).submitted, Requests(ops[..k]))
    ensures HeardIn(Run(Initial(counter), ops).trace) == AnswersIn(ops[..k])
  {
    var s := Initial(counter);
    k := EndPoint(s, ops);
    assert ops[..|ops|] == ops;
    WhileItLivesItTakes(s, ops[..k]);
    WhileItLivesItHears(s, ops[..k]);
    var s' := Run(s, ops[..k]);
    assert s'.submitted[0..] == s'.submitted;
    hide Initial, Step, HeardIn;
    if k < |ops| {
      assert ops == ops[..k] + ops[k..] && ops[k..][0] == ops[k];
      RunConcat(s, ops[..k], ops[k..]);
      assert Run(s', ops[k..]) == Run(Step(s', ops[k]), ops[k..][1..]);
      LiveStepTellsItsOperation(s', ops[k]);
      assert ops[..k + 1] == ops[..k] + [ops[k]];
      RunConcat(s, ops[..k], [ops[k]]);
      assert Run(s', [ops[k]]) == Run(Step(s', ops[k]), []);
      EndedRunIsSilent(Step(s', ops[k]), ops[k..][1..]);
    }
  }

  lemma {:induction false} EndPoint(s: State, ops: seq<Op>) returns (k: nat)
    requires !s.ended
    ensures k <= |ops| && forall i | 0 <= i <= |ops| :: Run(s, ops[..i]).ended <==> i > k
    decreases |ops|
  {
    hide Step;
    k := 0;
    if ops != [] {
      var s1 := Step(s, ops[0]);
      if s1.ended {
        forall i | 0 < i <= |ops| ensures Run(s, ops[..i]).ended {
          assert ops[..i][1..] == ops[1..i];
          EndedRunIsSilent(s1, ops[1..i]);
        }
      } else {
        var m := EndPoint(s1, ops[1..]);
        k := m + 1;
        forall i | 0 < i <= |ops| ensures Run(s, ops[..i]).ended <==> i > k {
          assert ops[..i][1..] == ops[1..][..i - 1];
        }
      }
    }
  }

  /** A written call in any run: it is the call of the submission with its number, as asked; its fate
      is what the wire says; and it never times out before its time. */
  lemma CallsGoOutAsAsked(counter: nat, ops: seq<Op>, i: nat)
    requires IsWrite(Run(Initial(counter), ops).trace, i)
    ensures var s := Run(Initial(counter), ops); var w := s.trace[i];
            && w.ticket < |Requests(ops)| && AsAsked(w.request, Requests(ops)[w.ticket])
            && Fate(s, w.ticket) == Verdict(s.trace, i, CallIn(w))
            && (Fate(s, w.ticket).Some? && Fate(s, w.ticket).value.TimedOut? ==>
                  w.at + w.request.timeout <= Fate(s, w.ticket).value.at)
  {
    FatesComeFromTheWire(counter, ops, i);
    var k := WhatGoesIn(counter, ops);
    assert ops == ops[..k] + ops[k..];
    RequestsConcat(ops[..k], ops[k..]);
    hide *;
  }

  lemma {:induction false} RequestsConcat(a: seq<Op>, b: seq<Op>)
    ensures Requests(a + b) == Requests(a) + Requests(b)
  {
    hide Requests;
    if a == [] {
      assert a + b == b;
      NoRequests();
    } else {
      FirstRequest(a);
      FirstRequest(a + b);
      assert (a + b)[0] == a[0] && (a + b)[1..] == a[1..] + b;
      RequestsConcat(a[1..], b);
    }
  }

  lemma NoRequests()
    ensures Requests([]) == []
  {
  }

  lemma FirstRequest(ops: seq<Op>)
    requires ops != []
    ensures Requests(ops) == (if ops[0].Submit? then [ops[0].request] else []) + Requests(ops[1..])
  {
  }

  // ---- each step does its work -------------------------------------------------------------------

  /** A turn of the pump. It does nothing while a call is open or none has been received; a call whose
      caller gave up is abandoned; any other is written under the next number, and if the write fails
      the session is over. */
  lemma PumpDoesItsWork(s: State, writable: bool)
    requires Inv(s) && !s.ended
    ensures var s', t := Step(s, Pump(writable)), s.taken;
            if s.inFlight.Some? || s.queue == [] then s' == s
            else && t < |s.submitted| && s'.taken == t + 1 && |s'.queue| == (if s'.ended then 0 else |s.queue| - 1)
                 && if t in s.cancelled
                    then s'.trace == s.trace && s'.settled == s.settled[t := Abandoned] && !s'.ended
                    else && s'.trace == s.trace
                              + [Wrote(t, s.counter + 1, MessageId(s.counter + 1), s.submitted[t], s.now)]
                              + (if writable then [] else [Hangup])
                         && s'.counter == s.counter + 1 && s'.ended == !writable
  {
    if s.queue != [] {
      assert (s.queue + CallsOf(s.channel))[0] == s.queue[0];
    }
  }

  /** A written call without a fate is settled by the first timer from its deadline on; timers do
      nothing else. */
  lemma TimersDoTheirWork(s: State)
    requires Inv(s) && !s.ended
    ensures var s' := Step(s, Expire);
            && (forall i | IsWrite(s.trace, i) && Fate(s, s.trace[i].ticket) == None ::
                  if s.trace[i].at + s.trace[i].request.timeout <= s.now
                  then s'.settled == s.settled[s.trace[i].ticket := TimedOut(s.now)] else s' == s)
            && ((forall i | IsWrite(s.trace, i) :: Fate(s, s.trace[i].ticket).Some?) && s.inFlight == None ==> s' == s)
  {
  }

  /** What ends a session: the socket, a close command that is received, or a write that fails. */
  lemma EndsExactlyWhen(s: State, op: Op)
    requires Inv(s) && !s.ended
    ensures Step(s, op).ended <==>
      || op.HangUp?
      || (op.Receive? && s.channel != [] && s.channel[0].CloseCommand?)
      || (op == Pump(false) && s.inFlight == None && s.queue != [] && s.taken !in s.cancelled)
    ensures Step(s, SubmitClose).channel == s.channel + [CloseCommand]
  {
    if op.Pump? {
      PumpDoesItsWork(s, op.writable);
    }
  }

  lemma KnownMessageIds()
    ensures MessageId(12) == "csms-12" && MessageId(0x1_0000_0000_0000_0000 + 9) == "csms-9"
  {
    assert Digits(1) == [1] && Digits(12) == [1, 2] && Digits(9) == [9];
    assert Text([1, 2]) == "12" && Text([9]) == "9";
  }

  /** The calls whose callers gave up are those named by a `Cancel` after they were submitted. */
  lemma {:induction false} CancelledExactlyWhen(s: State, ops: seq<Op>, ticket: nat)
    ensures ticket in Run(s, ops).cancelled <==>
      || ticket in s.cancelled
      || exists i :: 0 <= i < |ops| && CancelsAt(s, ops, ticket, i)
    decreases |ops|
  {
    if ops != [] {
      var s1 := Step(s, ops[0]);
      StepCancels(s, ops[0], ticket);
      hide Step;
      CancelledExactlyWhen(s1, ops[1..], ticket);
      assert CancelsAt(s, ops, ticket, 0) <==> ops[0] == Cancel(ticket) && ticket < |s.submitted| by {
        assert Run(s, ops[..0]) == s;
      }
      forall i | 0 < i < |ops| ensures CancelsAt(s, ops, ticket, i) <==> CancelsAt(s1, ops[1..], ticket, i - 1) {
        assert ops[..i][1..] == ops[1..][..i - 1];
      }
      hide CancelsAt, Run;
      if j :| 0 <= j < |ops[1..]| && CancelsAt(s1, ops[1..], ticket, j) {
        assert CancelsAt(s, ops, ticket, j + 1);
      }
    }
  }

  predicate CancelsAt(s: State, ops: seq<Op>, ticket: nat, i: nat)
    requires i < |ops|
  {
    ops[i] == Cancel(ticket) && ticket < |Run(s, ops[..i]).submitted|
  }

  lemma StepCancels(s: State, op: Op, ticket: nat)
    ensures ticket in Step(s, op).cancelled <==>
            ticket in s.cancelled || (op == Cancel(ticket) && ticket < |s.submitted|)
  {
  }

  /** The clock runs with the operations that let time pass, also after the end of the session. */
  lemma {:induction false} ClockRuns(s: State, ops: seq<Op>)
    ensures Run(s, ops).now == s.now + Elapsed(ops)
    decreases |ops|
  {
    if ops != [] {
      assert Step(s, ops[0]).now == s.now + if ops[0].Tick? then ops[0].elapsed else 0;
      hide Step;
      ClockRuns(Step(s, ops[0]), ops[1..]);
    }
  }

  /** Nobody writes a call whose caller gave up before its turn. */
  lemma {:induction false} CancelledCallsAreNotWritten(s: State, ops: seq<Op>, ticket: nat)
    requires Inv(s) && !WasWritten(s.trace, ticket) && (ticket < s.taken || ticket in s.cancelled)
    ensures !WasWritten(Run(s, ops).trace, ticket)
    decreases |ops|
  {
    if ops != [] {
      NotWrittenNext(s, ops[0], ticket);
      StepKeepsInv(s, ops[0]);
      hide Inv, Step, WasWritten;
      CancelledCallsAreNotWritten(Step(s, ops[0]), ops[1..], ticket);
    }
  }

  lemma NotWrittenNext(s: State, op: Op, ticket: nat)
    requires Inv(s) && !WasWritten(s.trace, ticket) && (ticket < s.taken || ticket in s.cancelled)
    ensures var s' := Step(s, op);
            !WasWritten(s'.trace, ticket) && (ticket < s'.taken || ticket in s'.cancelled)
  {
    if op.Pump? && !s.ended {
      PumpDoesItsWork(s, op.writable);
      var s' := Step(s, op);
      hide Step, Inv, Verdict, Fate;
      if s'.trace != s.trace {
        var n := |s.trace|;
        forall i | IsWrite(s'.trace, i) ensures s'.trace[i].ticket != ticket {
          if i < n {
            assert IsWrite(s.trace, i) && s'.trace[i] == s.trace[i];
          }
        }
      }
    } else {
      QuietOnTheWire(s, op);
      var s', n := Step(s, op), |s.trace|;
      hide Step, Inv;
      forall i | IsWrite(s'.trace, i) ensures s'.trace[i].ticket != ticket {
        assert IsWrite(s.trace, i) && s'.trace[i] == s.trace[i];
      }
    }
  }

  lemma QuietOnTheWire(s: State, op: Op)
    requires !op.Pump? || s.ended
    ensures var s' := Step(s, op);
            && s'.taken >= s.taken && s.cancelled <= s'.cancelled
            && (s'.trace == s.trace || exists e :: s'.trace == s.trace + [e] && !e.Wrote?)
  {
  }

  // ---- nothing is ever stuck ---------------------------------------------------------------------

  function Receives(n: nat): seq<Op> { if n == 0 then [] else [Receive] + Receives(n - 1) }

  /** A day passes, the timer goes off, and the pump turns once. */
  function Days(n: nat): seq<Op> {
    if n == 0 then [] else [Tick(24 * 60 * 60 * 1000), Expire, Pump(true)] + Days(n - 1)
  }

  /** No call waits for longer than a day. */
  ghost predicate Timely(s: State) {
    && (forall i | 0 <= i < |s.submitted| :: s.submitted[i].timeout <= 24 * 60 * 60 * 1000)
    && (s.inFlight.Some? ==> s.inFlight.value.deadline <= s.now + 24 * 60 * 60 * 1000)
  }

  lemma StepIsTimely(s: State, op: Op)
    requires Inv(s) && Timely(s)
    ensures Timely(Step(s, op))
  {
    if op.Pump? && !s.ended {
      PumpDoesItsWork(s, op.writable);
      assert s.queue != [] ==> (s.queue + CallsOf(s.channel))[0] == s.queue[0];
    }
  }

  lemma {:induction false} RunIsTimely(s: State, ops: seq<Op>)
    requires Inv(s) && Timely(s)
    ensures Inv(Run(s, ops)) && Timely(Run(s, ops))
    decreases |ops|
  {
    hide Inv, Timely, Step;
    if ops != [] {
      StepKeepsInv(s, ops[0]);
      StepIsTimely(s, ops[0]);
      RunIsTimely(Step(s, ops[0]), ops[1..]);
    }
  }

  lemma {:induction false} ReceivingTakesAll(s: State, n: nat)
    requires Inv(s) && n >= |s.channel|
    ensures var s' := Run(s, Receives(n)); s'.submitted == s.submitted && (s'.ended || s'.channel == [])
    decreases n
  {
    if n > 0 {
      assert Receives(n)[1..] == Receives(n - 1);
      StepKeepsInv(s, Receive);
      var s1 := Step(s, Receive);
      assert s1.submitted == s.submitted && (s1.ended || |s1.channel| <= n - 1);
      hide Inv, Step;
      if s1.ended {
        EndedRunIsSilent(s1, Receives(n - 1));
      } else {
        ReceivingTakesAll(s1, n - 1);
      }
    }
  }

  lemma DayGetsOn(s: State)
    requires Inv(s) && Timely(s) && !s.ended && s.channel == []
    ensures var s' := Step(Step(Step(s, Tick(24 * 60 * 60 * 1000)), Expire), Pump(true));
            && !s'.ended && s'.channel == [] && s'.submitted == s.submitted
            && (s.queue == [] ==> s'.queue == [] && s'.inFlight == None)
            && (s.queue != [] ==> |s'.queue| == |s.queue| - 1)
  {
  }

  lemma {:induction false} DaysSettleAll(s: State, n: nat)
    requires Inv(s) && Timely(s) && !s.ended && s.channel == [] && n > |s.queue|
    ensures var s' := Run(s, Days(n));
            !s'.ended && s'.channel == [] && s'.queue == [] && s'.inFlight == None && s'.submitted == s.submitted
    decreases n
  {
    var day := [Tick(24 * 60 * 60 * 1000), Expire, Pump(true)];
    var s' := Step(Step(Step(s, day[0]), day[1]), day[2]);
    DayGetsOn(s);
    RunOfThree(s, day[0], day[1], day[2]);
    RunIsTimely(s, day);
    hide Inv, Timely, Step;
    RunConcat(s, day, Days(n - 1));
    if n - 1 > |s'.queue| {
      DaysSettleAll(s', n - 1);
    } else {
      assert n == 1 && Days(0) == [];
    }
  }

  lemma RunOfThree(s: State, a: Op, b: Op, c: Op)
    ensures Run(s, [a, b, c]) == Step(Step(Step(s, a), b), c)
  {
    hide Step;
    var s1, s2 := Step(s, a), Step(Step(s, a), b);
    assert [a, b, c][1..] == [b, c] && [b, c][1..] == [c] && [c][1..] == [];
    assert Run(s, [a, b, c]) == Run(s1, [b, c]) == Run(s2, [c]) == Run(Step(s2, c), []);
  }

  /** Wherever a run stands: if the session receives what is in its channel and then lets days pass,
      every call that was ever submitted is settled. */
  lemma NothingIsStuck(counter: nat, ops: seq<Op>)
    ensures var s := Run(Initial(counter), ops);
            var s' := Run(s, Receives(|s.channel|) + Days(|s.submitted| + 1));
            forall t: nat | t < |s.submitted| :: t in s'.settled
  {
    InitialInv(counter);
    RunIsTimely(Initial(counter), ops);
    var s := Run(Initial(counter), ops);
    var received := Run(s, Receives(|s.channel|));
    RunConcat(s, Receives(|s.channel|), Days(|s.submitted| + 1));
    RunIsTimely(s, Receives(|s.channel|));
    ReceivingTakesAll(s, |s.channel|);
    RunIsTimely(received, Days(|s.submitted| + 1));
    var s' := Run(received, Days(|s.submitted| + 1));
    if received.ended {
      EndedRunIsSilent(received, Days(|s.submitted| + 1));
    } else {
      assert |received.queue| <= |s.submitted| by { assert Queueing(received); }
      DaysSettleAll(received, |s.submitted| + 1);
    }
    AllTakenAllSettled(s');
  }

  lemma AllTakenAllSettled(s: State)
    requires Inv(s) && (s.ended || (s.channel == [] && s.queue == [] && s.inFlight == None))
    ensures forall t: nat | t < |s.submitted| :: t in s.settled
  {
  }
}
