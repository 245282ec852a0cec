/** The session in its own form: an object with a command channel, a queue and a slot, whose
    methods are proved to take the steps of module `Session`. */
module CallSession {
  import opened Options
  import Session
  import opened Decimal

  type Outcome = Session.Outcome
  type Request = Session.Request
  type QueuedCall = Session.QueuedCall

  /** The session pumps: it skips cancelled calls until it has written one or has none left. */
  ghost function PumpAll(s: Session.State, writable: bool): Session.State
    decreases |s.queue|
  {
    if s.ended || s.inFlight.Some? || s.queue == [] then s
    else PumpAll(Session.Step(s, Session.Pump(writable)), writable)
  }

  /** Dropping queued calls fails each of them. */
  function FailAll(settled: map<nat, Outcome>, calls: seq<QueuedCall>): map<nat, Outcome>
    decreases |calls|
  {
    if calls == [] then settled
    else FailAll(settled[calls[0].ticket := Session.ConnectionClosed], calls[1..])
  }

  function Tickets(calls: seq<QueuedCall>): set<nat> {
    set call | call in calls :: call.ticket
  }

  lemma {:induction false} FailAllFailsEach(settled: map<nat, Outcome>, calls: seq<QueuedCall>)
    ensures FailAll(settled, calls).Keys == settled.Keys + Tickets(calls)
    ensures forall t | t in FailAll(settled, calls) ::
              FailAll(settled, calls)[t] == if t in Tickets(calls) then Session.ConnectionClosed else settled[t]
    decreases |calls|
  {
    if calls != [] {
      FailAllFailsEach(settled[calls[0].ticket := Session.ConnectionClosed], calls[1..]);
      assert forall c | c in calls :: c == calls[0] || c in calls[1..];
      assert Tickets(calls) == {calls[0].ticket} + Tickets(calls[1..]);
    }
  }

  class Runner {
    var channel: seq<Session.Command>
    var queue: seq<QueuedCall>
    var inFlight: Option<Session.Flight>
    var ended: bool
    /** The clock, and the counter all sessions share. */
    var now: nat
    var counter: nat
    /** The callers' ends of the reply channels: who dropped theirs, and what the others got. */
    var cancelled: set<nat>
    var outcomes: map<nat, Outcome>
    var nextTicket: nat
    ghost var submitted: seq<Request>
    ghost var taken: nat
    ghost var trace: seq<Session.Wire>

    ghost function View(): Session.State
      reads this
    {
      Session.State(channel, queue, inFlight, ended, now, counter, submitted, taken, cancelled, trace, outcomes)
    }

    ghost predicate Valid()
      reads this
    {
      nextTicket == |submitted| && Session.Inv(View())
    }

    constructor (counter: nat)
      ensures Valid() && View() == Session.Initial(counter)
    {
      channel, queue, inFlight, ended := [], [], None, false;
      now, this.counter, cancelled, outcomes, nextTicket := 0, counter, {}, map[], 0;
      submitted, taken, trace := [], 0, [];
      new;
      Session.InitialInv(counter);
    }

    /** `call_timeout` up to the point where the command is in the session's channel. */
    method Submit(request: Request) returns (accepted: bool)
      requires Valid()
      modifies this
      ensures Valid() && View() == Session.Step(old(View()), Session.Submit(request))
      ensures accepted == !old(ended)
      ensures accepted ==>
        && |submitted| == |old(submitted)| + 1
        && var kept := submitted[|submitted| - 1];
           && kept.action == request.action && kept.payload == request.payload
           && kept.timeout <= request.timeout && kept.timeout <= 24 * 60 * 60 * 1000
           && (kept.timeout == request.timeout || kept.timeout == 24 * 60 * 60 * 1000)
    {
      hide Session.Inv;
      Session.StepKeepsInv(View(), Session.Submit(request));
      if ended {
        return false;
      }
      var timeout := if request.timeout <= Session.MAX_CALL_TIMEOUT then request.timeout else Session.MAX_CALL_TIMEOUT;
      var clamped := request.(timeout := timeout);
      channel := channel + [Session.CallCommand(Session.QueuedCall(nextTicket, clamped))];
      nextTicket := nextTicket + 1;
      submitted := submitted + [clamped];
      return true;
    }

    method Receive()
      requires Valid() && !ended && channel != []
      modifies this
      ensures Valid() && View() == Session.Step(old(View()), Session.Receive)
    {
      hide Session.Inv;
      Session.StepKeepsInv(View(), Session.Receive);
      match channel[0] {
        case CallCommand(call) =>
          channel := channel[1..];
          queue := queue + [call];
        case CloseCommand =>
          Drop();
      }
    }

    /** `expire_in_flight`, run when the deadline has passed. */
    method ExpireInFlight()
      requires Valid() && !ended && inFlight.Some? && inFlight.value.deadline <= now
      modifies this
      ensures Valid() && View() == Session.Step(old(View()), Session.Expire)
    {
      hide Session.Inv;
      Session.StepKeepsInv(View(), Session.Expire);
      trace := trace + [Session.Alarm(inFlight.value.ticket, now)];
      outcomes := outcomes[inFlight.value.ticket := Session.TimedOut(now)];
      inFlight := None;
    }

    /** The part of `on_text` that handles a CALLRESULT or CALLERROR. */
    method OnAnswer(answer: Session.Answer)
      requires Valid() && !ended
      modifies this
      ensures Valid() && View() == Session.Step(old(View()), Session.Hear(answer))
    {
      hide Session.Inv;
      Session.StepKeepsInv(View(), Session.Hear(answer));
      if inFlight.Some? && inFlight.value.id == answer.id {
        outcomes := outcomes[inFlight.value.ticket := Session.Answered(answer)];
        inFlight := None;
      }
      trace := trace + [Session.Heard(answer)];
    }

    /** A message id that none of the 2^64 - 1 messages before had. */
    method NextMessageId() returns (id: string)
      modifies this`counter
      ensures counter == old(counter) + 1 && id == Session.MessageId(counter)
      ensures forall m: nat | m < counter < m + Session.COUNTER_SPAN :: id != Session.MessageId(m)
    {
      counter := counter + 1;
      forall m: nat | m < counter < m + Session.COUNTER_SPAN
        ensures Session.MessageId(counter) != Session.MessageId(m)
      {
        Session.MessageIdsRepeatWithTheCounter(counter, m);
        Session.DifferentResidues(counter, m);
      }
      id := "csms-" + Text(Digits(counter % Session.COUNTER_SPAN));
    }

    /** The pump's loop: it ends with a CALL in flight, with nothing queued, or with the session. */
    method PumpCalls(writable: bool)
      requires Valid() && !ended
      modifies this
      ensures Valid() && View() == PumpAll(old(View()), writable)
      ensures ended || inFlight.Some? || queue == []
    {
      ghost var start := View();
      while !ended && inFlight.None? && queue != []
        invariant Valid() && PumpAll(View(), writable) == PumpAll(start, writable)
        decreases |queue|
      {
        PumpOne(writable);
      }
    }

    /** One round of the pump loop. */
    method PumpOne(writable: bool)
      requires Valid() && !ended && inFlight.None? && queue != []
      modifies this
      ensures Valid() && View() == Session.Step(old(View()), Session.Pump(writable))
      ensures |queue| < |old(queue)|
    {
      hide Session.Inv;
      if queue[0].ticket in cancelled {
        Session.StepKeepsInv(View(), Session.Pump(writable));
        outcomes := outcomes[queue[0].ticket := Session.Abandoned];
        queue := queue[1..];
        taken := taken + 1;
      } else {
        WriteFirst();
        if !writable {
          Drop();
        }
      }
    }

    method WriteFirst()
      requires Valid() && !ended && inFlight.None? && queue != [] && queue[0].ticket !in cancelled
      modifies this
      ensures Valid() && View() == Session.Write(old(View()))
    {
      hide Session.Inv;
      Session.WritingKeepsInv(View());
      var call := queue[0];
      queue := queue[1..];
      taken := taken + 1;
      var id := NextMessageId();
      trace := trace + [Session.Wrote(call.ticket, counter, id, call.request, now)];
      inFlight := Some(Session.Flight(call.ticket, id, now + call.request.timeout));
    }

    /** The session is dropped: every queued or in-flight call fails. */
    method Drop()
      requires Valid() && !ended
      modifies this
      ensures Valid() && View() == Session.End(old(View()))
    {
      hide Session.Inv, Session.CallsOf, FailAll;
      Session.EndingKeepsInv(View());
      ghost var s := View();
      if inFlight.Some? {
        outcomes := outcomes[inFlight.value.ticket := Session.ConnectionClosed];
      }
      inFlight := None;
      ghost var closed := outcomes;
      ghost var backlog := queue + Session.CallsOf(channel);
      outcomes := FailCommands(outcomes, queue, channel);
      channel, queue, ended := [], [], true;
      trace := trace + [Session.Hangup];
      EndFailsTheRest(s, closed, backlog);
    }
  }

  /** Drops the queue and then the commands nobody will receive any more. */
  method FailCommands(outcomes: map<nat, Outcome>, queue: seq<QueuedCall>, channel: seq<Session.Command>)
    returns (failed: map<nat, Outcome>)
    ensures failed == FailAll(outcomes, queue + Session.CallsOf(channel))
  {
    failed := outcomes;
    var left, commands := queue, channel;
    while left != []
      invariant FailAll(failed, left + Session.CallsOf(channel)) == FailAll(outcomes, queue + Session.CallsOf(channel))
      decreases |left|
    {
      assert (left + Session.CallsOf(channel))[1..] == left[1..] + Session.CallsOf(channel);
      failed := failed[left[0].ticket := Session.ConnectionClosed];
      left := left[1..];
    }
    assert left + Session.CallsOf(channel) == Session.CallsOf(channel);
    while commands != []
      invariant FailAll(failed, Session.CallsOf(commands)) == FailAll(outcomes, queue + Session.CallsOf(channel))
      decreases |commands|
    {
      if commands[0].CallCommand? {
        assert Session.CallsOf(commands)[1..] == Session.CallsOf(commands[1..]);
        failed := failed[commands[0].call.ticket := Session.ConnectionClosed];
      } else {
        assert Session.CallsOf(commands) == Session.CallsOf(commands[1..]);
      }
      commands := commands[1..];
    }
  }

  /** In a valid session, failing the slot and the backlog fails exactly what is not settled. */
  lemma EndFailsTheRest(s: Session.State, closed: map<nat, Outcome>, backlog: seq<QueuedCall>)
    requires Session.Inv(s) && !s.ended && backlog == s.queue + Session.CallsOf(s.channel)
    requires closed == if s.inFlight.None? then s.settled
                       else s.settled[s.inFlight.value.ticket := Session.ConnectionClosed]
    ensures FailAll(closed, backlog) == Session.End(s).settled
  {
    FailAllFailsEach(closed, backlog);
    var end := Session.End(s).settled;
    forall t: nat
      ensures t in FailAll(closed, backlog) <==> t in end
      ensures t in end ==> FailAll(closed, backlog)[t] == end[t]
    {
      if s.taken <= t < |s.submitted| {
        assert backlog[t - s.taken].ticket == t && backlog[t - s.taken] in backlog;
      }
    }
  }
}
