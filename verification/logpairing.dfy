/** Which rows of the log are partners, told without the functions that record an event: by what
    stands in the rows, and in every run by what was pushed. */
module LogPairing {
  import opened Options
  import opened Windows
  import opened LogView

  predicate Asks(row: Row, id: MessageKey) { row.kind == Some(Call) && row.id == Some(id) }

  predicate Replies(row: Row, id: MessageKey) { row.kind in {Some(Result), Some(Error)} && row.id == Some(id) }

  /** Row `c` is the newest CALL with the id among those still held. */
  ghost predicate NewestCall(l: Log, id: MessageKey, c: nat) {
    && l.first <= c < |l.all| && Asks(l.all[c].value, id)
    && forall k | c < k < |l.all| :: !Asks(l.all[k].value, id)
  }

  predicate IsReply(event: Event) {
    event.FrameEvent? && event.kind in {Result, Error} && event.id.Some?
  }

  /** The event answers row `c`: its newest held CALL, which has no partner yet. */
  ghost predicate Answers(l: Log, event: Event, c: nat) {
    IsReply(event) && NewestCall(l, event.id.value, c) && l.all[c].value.peer == None
  }

  /** The row an event brings, as number `n`. */
  function FreshRow(event: Event, n: nat, rtt: Option<nat>, peer: Option<nat>): Sized<Row>
    requires !event.StateChanged?
  {
    if event.LineEvent? then Sized(Row(n, event.ts, None, None, rtt, peer), event.bytes)
    else Sized(Row(n, event.ts, Some(event.kind), event.id, rtt, peer), event.bytes)
  }

  lemma {:induction false} NewestIsNewest(all: seq<Sized<Row>>, first: nat, id: MessageKey)
    ensures var c := Newest(all, first, id);
            forall k | (if c.Some? then c.value + 1 else first) <= k < |all| :: !Asks(all[k].value, id)
  {
    if |all| > first && !IsCall(all[|all| - 1].value, id) {
      NewestIsNewest(all[..|all| - 1], first, id);
    }
  }

  lemma OpenIsAnswered(l: Log, event: Event)
    requires IsReply(event)
    ensures forall c: nat :: Answers(l, event, c) <==> Open(l, event.id.value) == Some(c)
    ensures Open(l, event.id.value).Some? ==> Answers(l, event, Open(l, event.id.value).value)
  {
    NewestIsNewest(l.all, l.first, event.id.value);
  }

  function Took(asked: int, answered: int): nat { if answered < asked then 0 else answered - asked }

  /** The rows when the event answers row `c`: both point at each other. */
  function WithPair(l: Log, event: Event, c: nat): seq<Sized<Row>>
    requires IsReply(event) && c < |l.all|
  {
    var asked := l.all[c].value;
    l.all[c := l.all[c].(value := asked.(peer := Some(|l.all|)))]
    + [FreshRow(event, |l.all|, Some(Took(asked.ts, event.ts)), Some(c))]
  }

  // ---- one event, from any consistent log --------------------------------------------------------

  /** An answer whose newest held CALL has no partner becomes its partner and knows the time since;
      nothing waits for that id any more. */
  lemma AnswersArePaired(l: Log, event: Event, c: nat, limits: Limits)
    requires Inv(l) && Windowed(l, limits) && Answers(l, event, c)
    ensures Step(l, Push(event), limits).all == WithPair(l, event, c)
    ensures event.id.value !in Step(l, Push(event), limits).pending
  {
    PushKeepsInv(l, event, limits);
    OpenIsAnswered(l, event);
    var l', id := Step(l, Push(event), limits), event.id.value;
    assert PendingFor(l', id) == OpenCall(l', id);
    hide Inv, Windowed, Step, Newest, Open;
    assert l'.all == WithPair(l, event, c);
    NothingOpen(l, event, c, l');
  }

  lemma NothingOpen(l: Log, event: Event, c: nat, l': Log)
    requires Answers(l, event, c) && l'.all == WithPair(l, event, c)
    ensures Open(l', event.id.value) == None
  {
    var i := Open(l', event.id.value);
    if i.Some? {
      assert Asks(l.all[i.value].value, event.id.value);
      NewestIsNewest(l'.all, l'.first, event.id.value);
      assert Asks(l'.all[c].value, event.id.value);
    }
  }

  /** No other event pairs anything. */
  lemma OthersPairNothing(l: Log, event: Event, limits: Limits)
    requires Inv(l) && Windowed(l, limits) && !event.StateChanged? && forall c: nat :: !Answers(l, event, c)
    ensures Step(l, Push(event), limits).all == l.all + [FreshRow(event, |l.all|, None, None)]
  {
    PushKeepsInv(l, event, limits);
    if IsReply(event) {
      OpenIsAnswered(l, event);
      hide Inv, Windowed, Step, Newest, Open;
    }
  }

  /** The window moves on, but never past the new row. */
  lemma WindowMovesOn(l: Log, event: Event, limits: Limits)
    requires Inv(l) && Windowed(l, limits) && !event.StateChanged?
    ensures l.first <= Step(l, Push(event), limits).first <= |l.all|
  {
    assert Numbered(l);
    hide Inv, Windowed;
    ShrinkMovesOn(Recorded(l, event), limits);
  }

  lemma {:induction false} ShrinkMovesOn(l: Log, limits: Limits)
    requires l.first < |l.all|
    ensures l.first <= Shrink(l, limits).first < |l.all| == |Shrink(l, limits).all|
    decreases |l.all| - l.first
  {
    if l.first + 1 < |l.all| && !Fits(Held(l), limits.capacity, limits.maxBytes) {
      ShrinkMovesOn(Evicted(l), limits);
    }
  }

  /** A CALL waits for its answer from then on, whatever was waiting for its id before. */
  lemma CallsWait(l: Log, event: Event, limits: Limits)
    requires Inv(l) && Windowed(l, limits) && event.FrameEvent? && event.kind == Call && event.id.Some?
    ensures var l' := Step(l, Push(event), limits);
            event.id.value in l'.pending && l'.pending[event.id.value] == (|l.all|, event.ts)
  {
    PushKeepsInv(l, event, limits);
    OthersPairNothing(l, event, limits);
    WindowMovesOn(l, event, limits);
    var l', id, n := Step(l, Push(event), limits), event.id.value, |l.all|;
    assert PendingFor(l', id) == OpenCall(l', id);
    hide Inv, Step;
    assert l'.first <= n && l'.all[n].value == Row(n, event.ts, Some(Call), Some(id), None, None);
  }

  /** Clearing forgets every row and every CALL that waits, and nothing else. */
  lemma ClearForgetsEverything(l: Log, limits: Limits)
    ensures var l' := Step(l, Clear, limits);
            l'.all == l.all && l'.first == |l.all| && l'.cleared == |l.all| && l'.pending == map[]
  {
  }

  // ---- every run ---------------------------------------------------------------------------------

  /** Row `c` is the newest held CALL with the id, and no answer with the id came after it. */
  ghost predicate Waits(l: Log, id: MessageKey, c: nat) {
    NewestCall(l, id, c) && forall k | c < k < |l.all| :: !Replies(l.all[k].value, id)
  }

  /** Whether the newest CALL with an id has a partner is seen from the rows after it. */
  ghost predicate PartnersShow(l: Log) {
    forall id, c: nat | NewestCall(l, id, c) :: l.all[c].value.peer == None <==> Waits(l, id, c)
  }

  lemma ReplyShows(l: Log, event: Event, c: nat, l': Log)
    requires PartnersShow(l) && Answers(l, event, c)
    requires l'.all == WithPair(l, event, c) && l.first <= l'.first <= |l.all|
    ensures PartnersShow(l')
  {
    var n := |l.all|;
    assert Replies(l'.all[n].value, event.id.value);
    forall id, d: nat | NewestCall(l', id, d) ensures l'.all[d].value.peer == None <==> Waits(l', id, d) {
      assert forall k | 0 <= k < n :: Asks(l'.all[k].value, id) <==> Asks(l.all[k].value, id);
      assert forall k | 0 <= k < n :: Replies(l'.all[k].value, id) <==> Replies(l.all[k].value, id);
      assert NewestCall(l, id, d);
      assert Waits(l', id, d) <==> Waits(l, id, d) && id != event.id.value;
    }
  }

  lemma OtherShows(l: Log, event: Event, l': Log)
    requires PartnersShow(l) && !event.StateChanged? && forall c: nat :: !Answers(l, event, c)
    requires l'.all == l.all + [FreshRow(event, |l.all|, None, None)] && l.first <= l'.first <= |l.all|
    ensures PartnersShow(l')
  {
    var n := |l.all|;
    forall id, d: nat | NewestCall(l', id, d) ensures l'.all[d].value.peer == None <==> Waits(l', id, d) {
      assert forall k | 0 <= k < n :: l'.all[k] == l.all[k];
      if d < n {
        assert NewestCall(l, id, d);
        if Replies(l'.all[n].value, id) {
          assert !Answers(l, event, d);
        }
        assert Waits(l', id, d) <==> Waits(l, id, d) && !Replies(l'.all[n].value, id);
      }
    }
  }

  lemma NothingHeldShows(l: Log)
    requires l.first == |l.all|
    ensures PartnersShow(l)
  {
  }

  lemma StepShows(l: Log, op: Op, limits: Limits)
    requires Inv(l) && Windowed(l, limits) && PartnersShow(l)
    ensures PartnersShow(Step(l, op, limits))
  {
    hide Inv, Windowed, PartnersShow, Answers;
    var l' := Step(l, op, limits);
    if op.Clear? {
      ClearForgetsEverything(l, limits);
      NothingHeldShows(l');
    } else if !op.event.StateChanged? {
      WindowMovesOn(l, op.event, limits);
      hide Step;
      if c: nat :| Answers(l, op.event, c) {
        AnswersArePaired(l, op.event, c, limits);
        ReplyShows(l, op.event, c, l');
      } else {
        OthersPairNothing(l, op.event, limits);
        OtherShows(l, op.event, l');
      }
    }
  }

  lemma {:induction false} RunShows(l: Log, ops: seq<Op>, limits: Limits)
    requires Inv(l) && Windowed(l, limits) && PartnersShow(l)
    ensures var l' := Run(l, ops, limits); Inv(l') && Windowed(l', limits) && PartnersShow(l')
    decreases |ops|
  {
    hide Inv, Windowed, PartnersShow, Step;
    if ops != [] {
      StepKeepsInv(l, ops[0], limits);
      StepShows(l, ops[0], limits);
      RunShows(Step(l, ops[0], limits), ops[1..], limits);
    }
  }

  lemma {:induction false} RunConcat(l: Log, a: seq<Op>, b: seq<Op>, limits: Limits)
    ensures Run(l, a + b, limits) == Run(Run(l, a, limits), b, limits)
    decreases |a|
  {
    hide Step;
    if a == [] {
      assert a + b == b;
    } else {
      assert (a + b)[0] == a[0] && (a + b)[1..] == a[1..] + b;
      RunConcat(Step(l, a[0], limits), a[1..], b, limits);
    }
  }

  /** Rows other than CALLs without a partner never change. */
  lemma StepKeepsAnswers(l: Log, op: Op, limits: Limits, i: nat)
    requires Inv(l) && Windowed(l, limits) && i < |l.all|
    requires l.all[i].value.kind != Some(Call) || l.all[i].value.peer.Some?
    ensures i < |Step(l, op, limits).all| && Step(l, op, limits).all[i] == l.all[i]
  {
    hide Inv, Windowed;
    if op.Push? && !op.event.StateChanged? {
      hide Step;
      if c: nat :| Answers(l, op.event, c) {
        AnswersArePaired(l, op.event, c, limits);
      } else {
        OthersPairNothing(l, op.event, limits);
      }
    }
  }

  lemma {:induction false} RunKeepsAnswers(l: Log, ops: seq<Op>, limits: Limits, i: nat)
    requires Inv(l) && Windowed(l, limits) && i < |l.all|
    requires l.all[i].value.kind != Some(Call) || l.all[i].value.peer.Some?
    ensures i < |Run(l, ops, limits).all| && Run(l, ops, limits).all[i] == l.all[i]
    decreases |ops|
  {
    hide Inv, Windowed, Step;
    if ops != [] {
      StepKeepsInv(l, ops[0], limits);
      StepKeepsAnswers(l, ops[0], limits, i);
      RunKeepsAnswers(Step(l, ops[0], limits), ops[1..], limits, i);
    }
  }

  lemma StartShows(limits: Limits)
    ensures Inv(Empty) && Windowed(Empty, limits) && PartnersShow(Empty)
  {
    EmptyIsConsistent(limits);
  }

  /** An answer pushed anywhere in a run, looked at when the run is over. Its partner is the newest
      CALL with its id that was still held and that no other answer came after; there is none exactly
      if there was no such CALL. */
  lemma PartnersComeFromTheEvents(ops: seq<Op>, event: Event, more: seq<Op>, limits: Limits)
    requires IsReply(event)
    ensures var l, end := Run(Empty, ops, limits), Run(Empty, ops + [Push(event)] + more, limits);
            var n, id := |l.all|, event.id.value;
            && n < |end.all|
            && (forall c: nat | Waits(l, id, c) ::
                  && end.all[c].value.peer == Some(n)
                  && end.all[n] == FreshRow(event, n, Some(Took(l.all[c].value.ts, event.ts)), Some(c)))
            && ((forall c: nat :: !Waits(l, id, c)) ==> end.all[n] == FreshRow(event, n, None, None))
  {
    hide Inv, Windowed, PartnersShow, Step;
    StartShows(limits);
    RunShows(Empty, ops, limits);
    var l, id := Run(Empty, ops, limits), event.id.value;
    var l' := Step(l, Push(event), limits);
    RunConcat(Empty, ops, [Push(event)], limits);
    RunConcat(Empty, ops + [Push(event)], more, limits);
    assert Run(l, [Push(event)], limits) == Run(l', [], limits) == l';
    hide Run;
    StepKeepsInv(l, Push(event), limits);
    AnswersAreWaitedFor(l, event);
    var n := |l.all|;
    if c: nat :| Answers(l, event, c) {
      AnswersArePaired(l, event, c, limits);
      RunKeepsAnswers(l', more, limits, c);
      RunKeepsAnswers(l', more, limits, n);
      assert forall d: nat | Waits(l, id, d) :: d == c;
    } else {
      OthersPairNothing(l, event, limits);
      RunKeepsAnswers(l', more, limits, n);
    }
  }

  lemma AnswersAreWaitedFor(l: Log, event: Event)
    requires IsReply(event) && PartnersShow(l)
    ensures forall c: nat :: Answers(l, event, c) <==> Waits(l, event.id.value, c)
  {
  }

  /** The events that make a row, in order. */
  function Pushed(ops: seq<Op>): seq<Event> {
    if ops == [] then [] else
    (if ops[0].Push? && !ops[0].event.StateChanged? then [ops[0].event] else []) + Pushed(ops[1..])
  }

  /** The row tells what the event was, and when, and as which one. */
  predicate Tells(row: Sized<Row>, event: Event, n: nat) {
    !event.StateChanged? && row == FreshRow(event, n, row.value.rtt, row.value.peer)
  }

  lemma StepTells(l: Log, event: Event, limits: Limits)
    requires Inv(l) && Windowed(l, limits) && !event.StateChanged?
    ensures var l' := Step(l, Push(event), limits); |l'.all| == |l.all| + 1 && Tells(l'.all[|l.all|], event, |l.all|)
  {
    hide Inv, Windowed, Step;
    if c: nat :| Answers(l, event, c) {
      AnswersArePaired(l, event, c, limits);
    } else {
      OthersPairNothing(l, event, limits);
    }
  }

  /** Row `k` is the `k`-th of those events, whatever was evicted or cleared since. */
  lemma {:induction false} RowsAreTheEvents(l: Log, ops: seq<Op>, limits: Limits)
    requires Inv(l) && Windowed(l, limits)
    ensures var rows, events := Run(l, ops, limits).all, Pushed(ops);
            && |rows| == |l.all| + |events|
            && forall k | 0 <= k < |events| :: Tells(rows[|l.all| + k], events[k], |l.all| + k)
    decreases |ops|
  {
    hide Inv, Windowed, Step, Tells;
    if ops != [] {
      var l1, later, n := Step(l, ops[0], limits), Pushed(ops[1..]), |l.all|;
      StepKeepsInv(l, ops[0], limits);
      RowsAreTheEvents(l1, ops[1..], limits);
      var rows := Run(l, ops, limits).all;
      if ops[0].Push? && !ops[0].event.StateChanged? {
        StepTells(l, ops[0].event, limits);
        NoRowIsRepaired(l1, ops[1..], limits, n);
        StillTells(l1.all[n], rows[n], ops[0].event, n);
        forall k | 0 <= k < |Pushed(ops)| ensures Tells(rows[n + k], Pushed(ops)[k], n + k) {
          if k > 0 {
            assert Pushed(ops)[k] == later[k - 1] && rows[n + 1 + (k - 1)] == rows[n + k];
          }
        }
      } else {
        QuietStep(l, ops[0], limits);
        assert Pushed(ops) == later;
      }
    }
  }

  lemma StillTells(before: Sized<Row>, after: Sized<Row>, event: Event, n: nat)
    requires Keeps(before, after) && Tells(before, event, n)
    ensures Tells(after, event, n)
  {
  }

  lemma QuietStep(l: Log, op: Op, limits: Limits)
    requires op.Clear? || op.event.StateChanged?
    ensures Step(l, op, limits).all == l.all
  {
  }
}
