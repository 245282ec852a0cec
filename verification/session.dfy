/** One session's outbound CALLs (OCPP-J 1.6, section 4.1.1, "Synchronicity").

    Calls are queued by handles, written one at a time by the session, and settled by the
    station's answer, by the deadline or by the end of the session. `Step` is one atomic step of
    any of the parties, so a `Run` is any interleaving of callers, station, clock and session. */
module Session {
  import opened Options
  import opened Decimal

  /** Longest timeout of a CALL, in milliseconds (24 hours); larger ones are clamped. */
  const MAX_CALL_TIMEOUT: nat := 86_400_000
  const COUNTER_SPAN: nat := 0x1_0000_0000_0000_0000

  datatype Request = Request(action: string, payload: nat, timeout: nat)

  /** A CALLRESULT or CALLERROR from the station; the id is whatever the station sent. */
  datatype Answer = Answer(id: string, ok: bool, payload: nat)

  /** What the caller's future yields. `Abandoned` never reaches a caller: the call was dropped
      from the queue because its caller had given up before it was written. */
  datatype Outcome = Answered(answer: Answer) | TimedOut(at: nat) | ConnectionClosed | Abandoned

  /** A call waiting for its turn. `ticket` counts submissions and only serves the statements. */
  datatype QueuedCall = QueuedCall(ticket: nat, request: Request)

  datatype Command = CallCommand(call: QueuedCall) | CloseCommand

  datatype Flight = Flight(ticket: nat, id: string, deadline: nat)

  /** What happened on the socket and at the deadline timers, in order. */
  datatype Wire =
    | Wrote(ticket: nat, number: nat, id: string, request: Request, at: nat)
    | Heard(answer: Answer)
    | Alarm(ticket: nat, at: nat)
    | Hangup

  datatype State = State(
    channel: seq<Command>, queue: seq<QueuedCall>, inFlight: Option<Flight>, ended: bool,
    now: nat, counter: nat,
    submitted: seq<Request>, taken: nat, cancelled: set<nat>,
    trace: seq<Wire>, settled: map<nat, Outcome>)

  datatype Op =
    | Submit(request: Request)
    | SubmitClose
    | Cancel(ticket: nat)
    | Receive
    | Pump(writable: bool)
    | Hear(answer: Answer)
    | Tick(elapsed: nat)
    | Expire
    | HangUp
    | AllocateElsewhere

  function Initial(counter: nat): State {
    State([], [], None, false, 0, counter, [], 0, {}, [], map[])
  }

  /** Message ids come from one 64-bit counter shared by all sessions; `number` is its ordinal. */
  function MessageId(number: nat): string {
    "csms-" + Text(Digits(number % COUNTER_SPAN))
  }

  function Clamp(timeout: nat): nat {
    if timeout <= MAX_CALL_TIMEOUT then timeout else MAX_CALL_TIMEOUT
  }

  /** The session is gone: whatever is not settled fails with `ConnectionClosed`. */
  function End(s: State): State {
    s.(channel := [], queue := [], inFlight := None, ended := true,
       trace := s.trace + [Hangup],
       settled := map t: nat | t < |s.submitted| :: if t in s.settled then s.settled[t] else ConnectionClosed)
  }

  function Write(s: State): State
    requires s.queue != []
  {
    var call, number := s.queue[0], s.counter + 1;
    s.(queue := s.queue[1..], taken := s.taken + 1, counter := number,
       trace := s.trace + [Wrote(call.ticket, number, MessageId(number), call.request, s.now)],
       inFlight := Some(Flight(call.ticket, MessageId(number), s.now + call.request.timeout)))
  }

  function Settle(s: State, outcome: Outcome): State
    requires s.inFlight.Some?
  {
    s.(inFlight := None, settled := s.settled[s.inFlight.value.ticket := outcome])
  }

  function Step(s: State, op: Op): State {
    match op
    case AllocateElsewhere => s.(counter := s.counter + 1)
    case Tick(elapsed) => s.(now := s.now + elapsed)
    case Cancel(ticket) => if ticket < |s.submitted| then s.(cancelled := s.cancelled + {ticket}) else s
    case _ => if s.ended then s else LiveStep(s, op)
  }

  /** Steps that need the session: after its end its command channel is closed and it is gone. */
  function LiveStep(s: State, op: Op): State {
    match op
    case Submit(request) =>
      var clamped := request.(timeout := Clamp(request.timeout));
      s.(channel := s.channel + [CallCommand(QueuedCall(|s.submitted|, clamped))], submitted := s.submitted + [clamped])
    case SubmitClose => s.(channel := s.channel + [CloseCommand])
    case Receive =>
      if s.channel == [] then s else
        (match s.channel[0]
         case CallCommand(call) => s.(channel := s.channel[1..], queue := s.queue + [call])
         case CloseCommand => End(s))
    case Pump(writable) =>
      if s.inFlight.Some? || s.queue == [] then s
      else if s.queue[0].ticket in s.cancelled then
        s.(queue := s.queue[1..], taken := s.taken + 1, settled := s.settled[s.queue[0].ticket := Abandoned])
      else if writable then Write(s)
      else End(Write(s))
    case Hear(answer) =>
      var heard := s.(trace := s.trace + [Heard(answer)]);
      if s.inFlight.Some? && s.inFlight.value.id == answer.id then Settle(heard, Answered(answer)) else heard
    case Expire =>
      if s.inFlight.Some? && s.inFlight.value.deadline <= s.now
      then Settle(s.(trace := s.trace + [Alarm(s.inFlight.value.ticket, s.now)]), TimedOut(s.now)) else s
    case HangUp => End(s)
    case _ => s
  }

  function Run(s: State, ops: seq<Op>): State
    decreases |ops|
  {
    if ops == [] then s else Run(Step(s, ops[0]), ops[1..])
  }

  // ---- reference: the fate of one call, read off the wire ---------------------------------

  /** A call on the wire: whose it is, and its message id. */
  datatype OpenCall = OpenCall(ticket: nat, id: string)

  function CallIn(w: Wire): OpenCall
    requires w.Wrote?
  {
    OpenCall(w.ticket, w.id)
  }

  /** What one event says about an open call: an answer with its id, its own deadline, or the end. */
  function Judge(event: Wire, call: OpenCall): Option<Outcome> {
    match event
    case Heard(answer) => if answer.id == call.id then Some(Answered(answer)) else None
    case Alarm(ticket, at) => if ticket == call.ticket then Some(TimedOut(at)) else None
    case Hangup => Some(ConnectionClosed)
    case Wrote(_, _, _, _, _) => None
  }

  /** The fate of the call written at position `at`: what the first later event that concerns it
      says. There is no queue and no slot here, every call is looked at alone. */
  function Verdict(trace: seq<Wire>, at: nat, call: OpenCall): Option<Outcome> {
    if |trace| <= at + 1 then None else
      var earlier := Verdict(trace[..|trace| - 1], at, call);
      if earlier.Some? then earlier else Judge(trace[|trace| - 1], call)
  }

  lemma {:induction false} VerdictIsFirstJudgement(trace: seq<Wire>, at: nat, call: OpenCall, k: nat)
    requires at < k < |trace|
    requires forall m | at < m < k :: Judge(trace[m], call) == None
    requires Judge(trace[k], call).Some?
    ensures Verdict(trace, at, call) == Judge(trace[k], call)
  {
    var before := trace[..|trace| - 1];
    if k < |before| {
      VerdictIsFirstJudgement(before, at, call, k);
    } else {
      NoJudgementNoVerdict(before, at, call);
    }
  }

  lemma {:induction false} NoJudgementNoVerdict(trace: seq<Wire>, at: nat, call: OpenCall)
    requires forall m | at < m < |trace| :: Judge(trace[m], call) == None
    ensures Verdict(trace, at, call) == None
  {
    if |trace| > at + 1 {
      NoJudgementNoVerdict(trace[..|trace| - 1], at, call);
    }
  }

  /** A call answered by a frame is answered by a frame with its own id, heard after the write. */
  lemma {:induction false} VerdictComesLater(trace: seq<Wire>, at: nat, call: OpenCall) returns (k: nat)
    requires Verdict(trace, at, call).Some?
    ensures at < k < |trace| && Judge(trace[k], call) == Verdict(trace, at, call)
    ensures forall m | at < m < k :: Judge(trace[m], call) == None
  {
    var before := trace[..|trace| - 1];
    if Verdict(before, at, call).Some? {
      k := VerdictComesLater(before, at, call);
    } else {
      k := |trace| - 1;
      forall m | at < m < k ensures Judge(trace[m], call) == None {
        if Judge(trace[m], call).Some? {
          var first := FirstJudgement(before, at, call, m);
          VerdictIsFirstJudgement(before, at, call, first);
        }
      }
    }
  }

  lemma {:induction false} FirstJudgement(trace: seq<Wire>, at: nat, call: OpenCall, m: nat) returns (k: nat)
    requires at < m < |trace| && Judge(trace[m], call).Some?
    ensures at < k <= m && Judge(trace[k], call).Some?
    ensures forall i | at < i < k :: Judge(trace[i], call) == None
    decreases m
  {
    if i :| at < i < m && Judge(trace[i], call).Some? {
      k := FirstJudgement(trace, at, call, i);
    } else {
      k := m;
    }
  }

  // ---- invariant ------------------------------------------------------------------------

  function CallsOf(commands: seq<Command>): seq<QueuedCall> {
    if commands == [] then []
    else (if commands[0].CallCommand? then [commands[0].call] else []) + CallsOf(commands[1..])
  }

  function Fate(s: State, ticket: nat): Option<Outcome> {
    if ticket in s.settled then Some(s.settled[ticket]) else None
  }

  ghost predicate IsWrite(trace: seq<Wire>, i: int) {
    0 <= i < |trace| && trace[i].Wrote?
  }

  ghost predicate WasWritten(trace: seq<Wire>, ticket: nat) {
    exists i :: IsWrite(trace, i) && trace[i].ticket == ticket
  }

  /** While the session lives, queue and channel hold the calls not yet taken, in order. */
  ghost predicate Queueing(s: State) {
    var backlog := s.queue + CallsOf(s.channel);
    && s.taken <= |s.submitted|
    && (!s.ended ==> s.taken + |backlog| == |s.submitted|)
    && (!s.ended ==> forall i | 0 <= i < |backlog| :: backlog[i] == QueuedCall(s.taken + i, s.submitted[s.taken + i]))
    && (s.ended ==> s.inFlight == None && backlog == [])
  }

  ghost predicate InFlight(s: State, ticket: int) {
    s.inFlight.Some? && s.inFlight.value.ticket == ticket
  }

  /** Exactly the taken calls other than the one in flight are settled, and all of them at the end. */
  ghost predicate Settling(s: State) {
    && (forall t: nat :: t in s.settled <==> t < |s.submitted| && (s.ended || (t < s.taken && !InFlight(s, t))))
    && (forall t | t in s.settled && t >= s.taken :: s.settled[t] == ConnectionClosed)
    && (s.inFlight.Some? ==> s.inFlight.value.ticket < s.taken)
  }

  /** A taken call was written, or skipped because its caller had cancelled it. */
  ghost predicate Taking(s: State) {
    forall t | 0 <= t < s.taken ::
      WasWritten(s.trace, t) || (t in s.cancelled && Fate(s, t) == Some(Abandoned))
  }

  /** Calls are written in submission order, each with a fresh message number. */
  ghost predicate Writing(s: State) {
    && (forall i | IsWrite(s.trace, i) :: var w := s.trace[i];
          && w.ticket < s.taken <= |s.submitted| && w.request == s.submitted[w.ticket]
          && w.id == MessageId(w.number) && w.number <= s.counter)
    && (forall i, j | i < j && IsWrite(s.trace, i) && IsWrite(s.trace, j) ::
          s.trace[i].ticket < s.trace[j].ticket && s.trace[i].number < s.trace[j].number)
  }

  /** Every written call has the fate the wire gives it, and an open one is the one in flight. */
  ghost predicate Judged(s: State) {
    forall i | IsWrite(s.trace, i) :: var w := s.trace[i];
      && Verdict(s.trace, i, CallIn(w)) == Fate(s, w.ticket)
      && (Fate(s, w.ticket) == None ==> s.inFlight == Some(Flight(w.ticket, w.id, w.at + w.request.timeout)))
      && (Fate(s, w.ticket).Some? && Fate(s, w.ticket).value.TimedOut? ==>
            w.at + w.request.timeout <= Fate(s, w.ticket).value.at)
  }

  /** Before a call is written, every earlier one has got its fate. */
  ghost predicate OneAtATime(trace: seq<Wire>) {
    forall i, j | i < j && IsWrite(trace, i) && IsWrite(trace, j) :: Verdict(trace[..j], i, CallIn(trace[i])).Some?
  }

  ghost predicate Inv(s: State) {
    && Queueing(s)
    && Settling(s)
    && Taking(s)
    && Writing(s)
    && Judged(s)
    && OneAtATime(s.trace)
  }

  lemma VerdictAppend(trace: seq<Wire>, e: Wire, at: nat, call: OpenCall)
    ensures Verdict(trace + [e], at, call) ==
            if at >= |trace| then None
            else if Verdict(trace, at, call).Some? then Verdict(trace, at, call) else Judge(e, call)
  {
    assert (trace + [e])[..|trace|] == trace;
  }

  lemma WritesAppend(trace: seq<Wire>, e: Wire)
    ensures forall i :: IsWrite(trace, i) ==> IsWrite(trace + [e], i) && (trace + [e])[i] == trace[i]
    ensures forall i :: IsWrite(trace + [e], i) ==> IsWrite(trace, i) || (i == |trace| && e.Wrote?)
    ensures forall t :: WasWritten(trace, t) ==> WasWritten(trace + [e], t)
    ensures e.Wrote? ==> WasWritten(trace + [e], e.ticket)
  {
    forall t | WasWritten(trace, t) ensures WasWritten(trace + [e], t) {
      var i :| IsWrite(trace, i) && trace[i].ticket == t;
      assert IsWrite(trace + [e], i);
    }
    if e.Wrote? {
      assert IsWrite(trace + [e], |trace|);
    }
  }

  lemma OneAtATimeAppend(s: State, e: Wire)
    requires Judged(s) && Settling(s) && OneAtATime(s.trace)
    requires e.Wrote? ==> s.inFlight == None
    ensures OneAtATime(s.trace + [e])
  {
    var trace := s.trace + [e];
    WritesAppend(s.trace, e);
    forall i, j | i < j && IsWrite(trace, i) && IsWrite(trace, j)
      ensures Verdict(trace[..j], i, CallIn(trace[i])).Some?
    {
      assert trace[..j] == s.trace[..j];
      if j == |s.trace| {
        assert trace[..j] == s.trace;
        assert IsWrite(s.trace, i);
      }
    }
  }

  // ---- every step keeps it ------------------------------------------------------------------

  lemma {:induction false} CallsOfAppend(commands: seq<Command>, c: Command)
    ensures CallsOf(commands + [c]) == CallsOf(commands) + if c.CallCommand? then [c.call] else []
  {
    if commands == [] {
      assert [] + [c] == [c] && CallsOf([c][1..]) == [];
    } else {
      var rest := commands[1..];
      CallsOfAppend(rest, c);
      assert (commands + [c])[1..] == rest + [c] && (commands + [c])[0] == commands[0];
      assert CallsOf(commands + [c]) ==
             (if commands[0].CallCommand? then [commands[0].call] else []) + CallsOf(rest + [c]);
    }
  }

  lemma SubmittingKeepsInv(s: State, request: Request)
    requires Inv(s) && !s.ended
    ensures Inv(Step(s, Submit(request)))
  {
    var s' := Step(s, Submit(request));
    var c := s'.channel[|s.channel|];
    CallsOfAppend(s.channel, c);
    hide CallsOf;
    var backlog := s.queue + CallsOf(s.channel);
    assert s'.queue + CallsOf(s'.channel) == backlog + [c.call];
    assert Queueing(s');
    FrameTrace(s, s');
  }

  lemma ReceivingKeepsInv(s: State)
    requires Inv(s) && !s.ended && s.channel != [] && s.channel[0].CallCommand?
    ensures Inv(Step(s, Receive))
  {
    var s' := Step(s, Receive);
    assert s'.queue + CallsOf(s'.channel) == s.queue + CallsOf(s.channel);
    FrameTrace(s, s');
  }

  lemma ClosingKeepsInv(s: State)
    requires Inv(s) && !s.ended
    ensures Inv(Step(s, SubmitClose))
  {
    CallsOfAppend(s.channel, CloseCommand);
    assert CallsOf(s.channel + [CloseCommand]) == CallsOf(s.channel);
    FrameTrace(s, Step(s, SubmitClose));
  }

  /** The wire is as it was, and so are the fates and the slot. */
  lemma FrameTrace(s: State, s': State)
    requires Settling(s) && Taking(s) && Writing(s) && Judged(s) && OneAtATime(s.trace)
    requires s'.trace == s.trace && s'.settled == s.settled && s'.inFlight == s.inFlight && s'.ended == s.ended
    requires s'.taken == s.taken <= |s.submitted| <= |s'.submitted| && s'.submitted[..|s.submitted|] == s.submitted
    requires s'.counter >= s.counter && s.cancelled <= s'.cancelled
    requires s.ended ==> s'.submitted == s.submitted
    ensures Settling(s') && Taking(s') && Writing(s') && Judged(s') && OneAtATime(s'.trace)
  {
    forall i | IsWrite(s.trace, i) ensures s'.submitted[s.trace[i].ticket] == s.submitted[s.trace[i].ticket] {
      assert s'.submitted[..|s.submitted|][s.trace[i].ticket] == s.submitted[s.trace[i].ticket];
    }
  }

  lemma SkippingKeepsInv(s: State)
    requires Inv(s) && !s.ended && s.inFlight == None && s.queue != [] && s.queue[0].ticket in s.cancelled
    ensures Inv(Step(s, Pump(true)))
  {
    var s' := Step(s, Pump(true));
    var backlog := s.queue + CallsOf(s.channel);
    assert backlog[0] == s.queue[0];
    assert s'.queue + CallsOf(s'.channel) == backlog[1..];
    assert s.queue[0].ticket == s.taken;
    forall t | 0 <= t < s'.taken
      ensures WasWritten(s'.trace, t) || (t in s'.cancelled && Fate(s', t) == Some(Abandoned))
    {
      assert t < s.taken || t == s.taken;
    }
  }

  lemma WritingKeepsInv(s: State)
    requires Inv(s) && !s.ended && s.inFlight == None && s.queue != []
    ensures Inv(Write(s))
  {
    var s' := Write(s);
    var e := s'.trace[|s.trace|];
    var backlog := s.queue + CallsOf(s.channel);
    assert backlog[0] == s.queue[0];
    assert s'.queue + CallsOf(s'.channel) == backlog[1..];
    assert s.queue[0] == QueuedCall(s.taken, s.submitted[s.taken]);
    OneAtATimeAppend(s, e);
    WritesAppend(s.trace, e);
    forall t | 0 <= t < s'.taken
      ensures WasWritten(s'.trace, t) || (t in s'.cancelled && Fate(s', t) == Some(Abandoned))
    {
      assert t < s.taken || t == s.taken;
    }
    forall i | IsWrite(s'.trace, i) ensures Verdict(s'.trace, i, CallIn(s'.trace[i])) == Fate(s', s'.trace[i].ticket) {
      VerdictAppend(s.trace, e, i, CallIn(s'.trace[i]));
    }
  }

  /** Any event that is no write: the call in flight gets the fate the event gives it, if any. */
  lemma EventKeepsInv(s: State, s': State, e: Wire)
    requires Inv(s) && !e.Wrote? && s'.trace == s.trace + [e]
    requires s'.submitted == s.submitted && s'.taken == s.taken
    requires s'.counter == s.counter && s'.cancelled == s.cancelled
    requires Queueing(s') && Settling(s')
    requires forall t | t in s.settled :: t in s'.settled && s'.settled[t] == s.settled[t]
    requires s'.inFlight == s.inFlight || s'.inFlight == None
    requires s.inFlight.Some? ==> var f := s.inFlight.value; var fate := Fate(s', f.ticket);
               && fate == Judge(e, OpenCall(f.ticket, f.id))
               && (fate.Some? && fate.value.TimedOut? ==> f.deadline <= fate.value.at)
    ensures Inv(s')
  {
    WritesAppend(s.trace, e);
    OneAtATimeAppend(s, e);
    forall i | IsWrite(s'.trace, i) ensures Verdict(s'.trace, i, CallIn(s'.trace[i])) == Fate(s', s'.trace[i].ticket) {
      VerdictAppend(s.trace, e, i, CallIn(s'.trace[i]));
      assert IsWrite(s.trace, i);
    }
  }

  /** A frame that arrives: for the open call, or late, duplicate or unsolicited. */
  lemma HearingKeepsInv(s: State, answer: Answer)
    requires Inv(s) && !s.ended
    ensures Inv(Step(s, Hear(answer)))
  {
    EventKeepsInv(s, Step(s, Hear(answer)), Heard(answer));
  }

  lemma ExpiringKeepsInv(s: State)
    requires Inv(s) && !s.ended && s.inFlight.Some? && s.inFlight.value.deadline <= s.now
    ensures Inv(Step(s, Expire))
  {
    EventKeepsInv(s, Step(s, Expire), Alarm(s.inFlight.value.ticket, s.now));
  }

  lemma EndingKeepsInv(s: State)
    requires Inv(s) && !s.ended
    ensures Inv(End(s))
  {
    EventKeepsInv(s, End(s), Hangup);
  }

  /** Steps of others: they touch neither the wire nor any call's place. */
  lemma OutsideKeepsInv(s: State, op: Op)
    requires Inv(s) && (op.AllocateElsewhere? || op.Tick? || op.Cancel?)
    ensures Inv(Step(s, op))
  {
    FrameTrace(s, Step(s, op));
  }

  lemma StepKeepsInv(s: State, op: Op)
    requires Inv(s)
    ensures Inv(Step(s, op))
  {
    hide Inv;
    match op
    case AllocateElsewhere => OutsideKeepsInv(s, op);
    case Tick(elapsed) => OutsideKeepsInv(s, op);
    case Cancel(ticket) => OutsideKeepsInv(s, op);
    case Submit(request) => if !s.ended { SubmittingKeepsInv(s, request); }
    case SubmitClose => if !s.ended { ClosingKeepsInv(s); }
    case Receive =>
      if !s.ended && s.channel != [] {
        if s.channel[0].CloseCommand? { EndingKeepsInv(s); } else { ReceivingKeepsInv(s); }
      }
    case Pump(writable) =>
      if !s.ended && s.inFlight == None && s.queue != [] {
        if s.queue[0].ticket in s.cancelled {
          SkippingKeepsInv(s);
        } else {
          WritingKeepsInv(s);
          if !writable { EndingKeepsInv(Write(s)); }
        }
      }
    case Hear(answer) => if !s.ended { HearingKeepsInv(s, answer); }
    case Expire =>
      if !s.ended && s.inFlight.Some? && s.inFlight.value.deadline <= s.now { ExpiringKeepsInv(s); }
    case HangUp => if !s.ended { EndingKeepsInv(s); }
  }

  lemma {:induction false} RunKeepsInv(s: State, ops: seq<Op>)
    requires Inv(s)
    ensures Inv(Run(s, ops))
    decreases |ops|
  {
    if ops != [] {
      StepKeepsInv(s, ops[0]);
      RunKeepsInv(Step(s, ops[0]), ops[1..]);
    }
  }

  // ---- what holds in every run --------------------------------------------------------------

  lemma InitialInv(counter: nat)
    ensures Inv(Initial(counter))
  {
  }

  /** At most one CALL is outstanding: before a CALL is written, every earlier one has been
      answered, has timed out or was cut off. */
  lemma AtMostOneOutstanding(counter: nat, ops: seq<Op>, i: nat, j: nat)
    requires var trace := Run(Initial(counter), ops).trace; i < j && IsWrite(trace, i) && IsWrite(trace, j)
    ensures var trace := Run(Initial(counter), ops).trace; Verdict(trace[..j], i, CallIn(trace[i])).Some?
  {
    InitialInv(counter);
    RunKeepsInv(Initial(counter), ops);
  }

  /** CALLs are written in the order they were submitted, and a call that was overtaken had been
      given up by its caller. */
  lemma WrittenInOrderOnlyCancelledSkipped(counter: nat, ops: seq<Op>, j: nat, ticket: nat)
    requires var trace := Run(Initial(counter), ops).trace; IsWrite(trace, j) && ticket < trace[j].ticket
    ensures var s := Run(Initial(counter), ops);
            || (exists i :: i < j && IsWrite(s.trace, i) && s.trace[i].ticket == ticket)
            || (ticket in s.cancelled && Fate(s, ticket) == Some(Abandoned) && !WasWritten(s.trace, ticket))
  {
    InitialInv(counter);
    RunKeepsInv(Initial(counter), ops);
    var s := Run(Initial(counter), ops);
    if WasWritten(s.trace, ticket) {
      var i :| IsWrite(s.trace, i) && s.trace[i].ticket == ticket;
      assert i < j;
    }
  }

  /** A written call has the fate that the wire alone gives it, and it was written as submitted.
      A timeout is never early, counted from the write. */
  lemma FatesComeFromTheWire(counter: nat, ops: seq<Op>, i: nat)
    requires IsWrite(Run(Initial(counter), ops).trace, i)
    ensures var s := Run(Initial(counter), ops); var w := s.trace[i];
            && w.ticket < |s.submitted| && w.request == s.submitted[w.ticket] && w.id == MessageId(w.number)
            && Fate(s, w.ticket) == Verdict(s.trace, i, CallIn(w))
            && (Fate(s, w.ticket).Some? && Fate(s, w.ticket).value.TimedOut? ==>
                  w.at + w.request.timeout <= Fate(s, w.ticket).value.at)
  {
    InitialInv(counter);
    RunKeepsInv(Initial(counter), ops);
  }

  /** Nothing is settled that was not submitted; at the end of the session everything is; and what
      was never written was abandoned or cut off. */
  lemma EverythingIsSettledByTheEnd(counter: nat, ops: seq<Op>, ticket: nat)
    ensures var s := Run(Initial(counter), ops);
            && (ticket in s.settled ==> ticket < |s.submitted|)
            && (s.ended && ticket < |s.submitted| ==> ticket in s.settled)
            && (ticket in s.settled && !WasWritten(s.trace, ticket) ==>
                  s.settled[ticket] == ConnectionClosed || (s.settled[ticket] == Abandoned && ticket in s.cancelled))
  {
    InitialInv(counter);
    RunKeepsInv(Initial(counter), ops);
  }

  /** A call is settled once: no later step takes its outcome back or changes it. */
  lemma {:induction false} OutcomesAreFinal(s: State, ops: seq<Op>, ticket: nat)
    requires Inv(s) && ticket in s.settled
    ensures ticket in Run(s, ops).settled && Run(s, ops).settled[ticket] == s.settled[ticket]
    decreases |ops|
  {
    if ops != [] {
      StepSettlesOnce(s, ops[0], ticket);
      StepKeepsInv(s, ops[0]);
      OutcomesAreFinal(Step(s, ops[0]), ops[1..], ticket);
    }
  }

  lemma StepSettlesOnce(s: State, op: Op, ticket: nat)
    requires Inv(s) && ticket in s.settled
    ensures ticket in Step(s, op).settled && Step(s, op).settled[ticket] == s.settled[ticket]
  {
    if op.Pump? && !s.ended && s.inFlight == None && s.queue != [] {
      assert (s.queue + CallsOf(s.channel))[0] == s.queue[0];
    }
  }

  lemma MessageIdsRepeatWithTheCounter(m: nat, n: nat)
    ensures MessageId(m) == MessageId(n) <==> m % 0x1_0000_0000_0000_0000 == n % 0x1_0000_0000_0000_0000
  {
    if MessageId(m) == MessageId(n) {
      assert MessageId(m)[5..] == Text(Digits(m % COUNTER_SPAN));
      assert MessageId(n)[5..] == Text(Digits(n % COUNTER_SPAN));
      DecimalIsInjective(m % COUNTER_SPAN, n % COUNTER_SPAN);
    }
  }

  /** An answer to one call never settles another: the frame that answered call `i` carries an id
      that no other written call has, however late or often frames arrive. Ids repeat only when
      the counter has gone round, 2^64 messages later. */
  lemma AnswersNeverCross(counter: nat, ops: seq<Op>, i: nat, j: nat)
    requires var trace := Run(Initial(counter), ops).trace; i != j && IsWrite(trace, i) && IsWrite(trace, j)
    requires var trace := Run(Initial(counter), ops).trace;
             trace[i].number < trace[j].number + COUNTER_SPAN && trace[j].number < trace[i].number + COUNTER_SPAN
    ensures var s := Run(Initial(counter), ops); var fate := Fate(s, s.trace[i].ticket);
            fate.Some? && fate.value.Answered? ==>
              && fate.value.answer.id == s.trace[i].id != s.trace[j].id
              && exists k :: i < k < |s.trace| && s.trace[k] == Heard(fate.value.answer)
  {
    InitialInv(counter);
    RunKeepsInv(Initial(counter), ops);
    var s := Run(Initial(counter), ops);
    var fate := Fate(s, s.trace[i].ticket);
    if fate.Some? && fate.value.Answered? {
      var k := VerdictComesLater(s.trace, i, CallIn(s.trace[i]));
      assert s.trace[k] == Heard(fate.value.answer);
      MessageIdsRepeatWithTheCounter(s.trace[i].number, s.trace[j].number);
      DifferentResidues(s.trace[i].number, s.trace[j].number);
    }
  }

  lemma DifferentResidues(m: nat, n: nat)
    requires m != n && m < n + COUNTER_SPAN && n < m + COUNTER_SPAN
    ensures m % COUNTER_SPAN != n % COUNTER_SPAN
  {
  }
}
