/** Output that never blocks: senders queue lines for a writer thread, or drop and count them.

    The state changes at the program's atomic operations. Senders hold a lock for a whole `send`,
    so one of them at most is at work; the writer runs beside it. `outcomes` is the history: every
    line offered, in order, and whether the queue took it. */
module LinePump {

  datatype Line = Line(text: string)

  function Size(l: Line): nat { |l.text| }

  /** A queued line, and the byte counter just before the line was counted. */
  datatype Entry = Entry(line: Line, before: int)

  datatype Output = Text(line: Line) | Note(count: nat)

  datatype Outcome = Outcome(line: Line, kept: bool)

  /** Where the sender is: a line is counted, then queued or refused; a refused line is uncounted,
      then the drop is counted. */
  datatype Sender = Idle | Counted(entry: Entry) | Refused(line: Line) | Uncounted

  /** Where the writer is with the line it took. */
  datatype Writer =
    | Waiting
    | Taken(line: Line)
    | Ready(line: Line)
    | Missed(line: Line, count: nat)
    | Told(line: Line)
    | LastMissed(count: nat)
    | Finished

  datatype Limits = Limits(lines: nat, maxBytes: nat)

  datatype State = State(
    open: bool,
    queue: seq<Entry>,
    queued: int,
    dropped: nat,
    sender: Sender,
    writer: Writer,
    written: seq<Output>,
    outcomes: seq<Outcome>)

  const Start := State(true, [], 0, 0, Idle, Waiting, [], [])

  /** `Send` begins a send, `Proceed` is its next atomic operation, `Write` the writer's next one. */
  datatype Op = Send(line: Line) | Proceed | Write | Finish

  function Step(s: State, op: Op, limits: Limits): State {
    match op
    case Send(line) =>
      if s.sender.Idle? && s.open
      then s.(queued := s.queued + Size(line), sender := Counted(Entry(line, s.queued)))
      else s
    case Proceed => SenderStep(s, limits)
    case Write => WriterStep(s)
    case Finish => if s.sender.Idle? then s.(open := false) else s
  }

  function SenderStep(s: State, limits: Limits): State {
    match s.sender
    case Idle => s
    case Counted(e) =>
      if (e.before > 0 && e.before + Size(e.line) > limits.maxBytes) || |s.queue| >= limits.lines
      then s.(sender := Refused(e.line), outcomes := s.outcomes + [Outcome(e.line, false)])
      else s.(sender := Idle, queue := s.queue + [e], outcomes := s.outcomes + [Outcome(e.line, true)])
    case Refused(line) => s.(sender := Uncounted, queued := s.queued - Size(line))
    case Uncounted => s.(sender := Idle, dropped := s.dropped + 1)
  }

  function WriterStep(s: State): State {
    match s.writer
    case Waiting =>
      if s.queue != [] then s.(queue := s.queue[1..], writer := Taken(s.queue[0].line))
      else if s.open then s
      else s.(dropped := 0, writer := if s.dropped > 0 then LastMissed(s.dropped) else Finished)
    case Taken(line) => s.(queued := s.queued - Size(line), writer := Ready(line))
    case Ready(line) => s.(dropped := 0, writer := if s.dropped > 0 then Missed(line, s.dropped) else Told(line))
    case Missed(line, count) => s.(written := s.written + [Note(count)], writer := Told(line))
    case Told(line) => s.(written := s.written + [Text(line)], writer := Waiting)
    case LastMissed(count) => s.(written := s.written + [Note(count)], writer := Finished)
    case Finished => s
  }

  function Run(s: State, ops: seq<Op>, limits: Limits): State
    decreases |ops|
  {
    if ops == [] then s else Run(Step(s, ops[0], limits), ops[1..], limits)
  }

  // ---- what the histories say ------------------------------------------------------------------

  function Accepted(outcomes: seq<Outcome>): seq<Line> {
    if outcomes == [] then [] else
    var o := outcomes[|outcomes| - 1];
    Accepted(outcomes[..|outcomes| - 1]) + if o.kept then [o.line] else []
  }

  function Refusals(outcomes: seq<Outcome>): nat {
    if outcomes == [] then 0 else
    Refusals(outcomes[..|outcomes| - 1]) + if outcomes[|outcomes| - 1].kept then 0 else 1
  }

  function Texts(written: seq<Output>): seq<Line> {
    if written == [] then [] else
    var o := written[|written| - 1];
    Texts(written[..|written| - 1]) + if o.Text? then [o.line] else []
  }

  /** The sum of the counts in the notes. */
  function Reported(written: seq<Output>): nat {
    if written == [] then 0 else
    var o := written[|written| - 1];
    Reported(written[..|written| - 1]) + if o.Note? then o.count else 0
  }

  function Lines(queue: seq<Entry>): seq<Line> { seq(|queue|, i requires 0 <= i < |queue| => queue[i].line) }

  function Bytes(queue: seq<Entry>): nat {
    if queue == [] then 0 else Size(queue[0].line) + Bytes(queue[1..])
  }

  function InHand(w: Writer): seq<Line> {
    match w
    case Taken(line) => [line]
    case Ready(line) => [line]
    case Missed(line, _) => [line]
    case Told(line) => [line]
    case _ => []
  }

  function Unreported(w: Writer): nat { if w.Missed? || w.LastMissed? then w.count else 0 }

  function Owed(s: Sender): nat { if s.Refused? || s.Uncounted? then 1 else 0 }

  /** Every accepted line is written, in hand or queued, in the order of the sends. */
  ghost predicate InOrder(s: State) {
    Texts(s.written) + InHand(s.writer) + Lines(s.queue) == Accepted(s.outcomes)
  }

  /** Every dropped line is in a note, about to be, still counted, or about to be counted. */
  ghost predicate DropsAccounted(s: State) {
    Reported(s.written) + Unreported(s.writer) + s.dropped + Owed(s.sender) == Refusals(s.outcomes)
  }

  function SenderBytes(s: Sender): nat {
    match s
    case Counted(e) => Size(e.line)
    case Refused(line) => Size(line)
    case _ => 0
  }

  /** The byte counter is the queue, the line a sender has counted, and the line just taken. */
  ghost predicate BytesExact(s: State) {
    s.queued == Bytes(s.queue) + SenderBytes(s.sender) + if s.writer.Taken? then Size(s.writer.line) else 0
  }

  /** The queue holds at most `maxBytes`, or a single line of that size among empty ones, which was
      accepted when the counter was zero. */
  ghost predicate Bounded(s: State, limits: Limits) {
    && |s.queue| <= limits.lines
    && (Bytes(s.queue) > limits.maxBytes ==>
          exists e :: e in s.queue && e.before == 0 && Size(e.line) == Bytes(s.queue))
    && (s.sender.Counted? ==> s.sender.entry.before >= Bytes(s.queue))
  }

  /** Only a closed pump ends its writer, and nothing is left behind. */
  ghost predicate Ending(s: State) {
    && (!s.open ==> s.sender.Idle?)
    && (s.writer.LastMissed? || s.writer.Finished? ==> !s.open && s.queue == [] && s.dropped == 0)
    && (s.writer.Missed? || s.writer.LastMissed? ==> s.writer.count > 0)
  }

  /** A note is never empty and stands directly before the next line, or at the very end. */
  ghost predicate NotesPlaced(s: State) {
    && (forall i | 0 <= i < |s.written| && s.written[i].Note? :: s.written[i].count > 0)
    && (forall i | 0 <= i < |s.written| - 1 && s.written[i].Note? :: s.written[i + 1].Text?)
    && (s.written != [] && s.written[|s.written| - 1].Note? ==> s.writer.Told? || s.writer.Finished?)
  }

  ghost predicate Inv(s: State, limits: Limits) {
    InOrder(s) && DropsAccounted(s) && BytesExact(s) && Bounded(s, limits) && Ending(s) && NotesPlaced(s)
  }

  lemma AcceptedAppend(outcomes: seq<Outcome>, o: Outcome)
    ensures Accepted(outcomes + [o]) == Accepted(outcomes) + if o.kept then [o.line] else []
    ensures Refusals(outcomes + [o]) == Refusals(outcomes) + if o.kept then 0 else 1
  {
    assert (outcomes + [o])[..|outcomes|] == outcomes;
  }

  lemma WrittenAppend(written: seq<Output>, o: Output)
    ensures Texts(written + [o]) == Texts(written) + if o.Text? then [o.line] else []
    ensures Reported(written + [o]) == Reported(written) + if o.Note? then o.count else 0
  {
    assert (written + [o])[..|written|] == written;
  }

  lemma {:induction false} BytesAppend(queue: seq<Entry>, e: Entry)
    ensures Bytes(queue + [e]) == Bytes(queue) + Size(e.line)
  {
    if queue == [] {
      assert [] + [e] == [e];
      assert [e][1..] == [];
    } else {
      assert (queue + [e])[1..] == queue[1..] + [e];
      BytesAppend(queue[1..], e);
    }
  }

  lemma {:induction false} SizeWithinBytes(queue: seq<Entry>, e: Entry)
    requires e in queue
    ensures Size(e.line) <= Bytes(queue)
  {
    if e != queue[0] {
      SizeWithinBytes(queue[1..], e);
    }
  }

  lemma LinesAppend(queue: seq<Entry>, e: Entry)
    ensures Lines(queue + [e]) == Lines(queue) + [e.line]
  {
  }

  lemma LinesFront(queue: seq<Entry>)
    requires queue != []
    ensures Lines(queue) == [queue[0].line] + Lines(queue[1..])
  {
  }

  lemma QueueingKeepsInv(s: State, limits: Limits)
    requires Inv(s, limits) && s.sender.Counted?
    ensures Inv(SenderStep(s, limits), limits)
  {
    hide Accepted, Refusals, Texts, Reported, Lines, Bytes, Size;
    var e := s.sender.entry;
    AcceptedAppend(s.outcomes, Outcome(e.line, false));
    AcceptedAppend(s.outcomes, Outcome(e.line, true));
    BytesAppend(s.queue, e);
    LinesAppend(s.queue, e);
    var s' := SenderStep(s, limits);
    if s'.sender.Idle? {
      assert e in s'.queue;
    }
  }

  lemma TakingKeepsInv(s: State, limits: Limits)
    requires Inv(s, limits) && s.writer.Waiting? && s.queue != []
    ensures Inv(WriterStep(s), limits)
  {
    var e, rest := s.queue[0], s.queue[1..];
    assert Bytes(s.queue) == Size(e.line) + Bytes(rest);
    hide Accepted, Refusals, Texts, Reported, Lines, Size;
    LinesFront(s.queue);
    if Bytes(rest) > limits.maxBytes {
      var big :| big in s.queue && big.before == 0 && Size(big.line) == Bytes(s.queue);
      assert big in rest || big == e;
      if big in rest {
        SizeWithinBytes(rest, big);
      }
    }
    hide Bytes;
  }

  lemma WritingPlacesNotes(s: State)
    requires NotesPlaced(s) && (s.writer.Missed? || s.writer.LastMissed? ==> s.writer.count > 0)
    ensures NotesPlaced(WriterStep(s))
  {
  }

  lemma WritingKeepsInv(s: State, limits: Limits)
    requires Inv(s, limits) && !(s.writer.Waiting? && s.queue != [])
    ensures Inv(WriterStep(s), limits)
  {
    hide Accepted, Refusals, Texts, Reported, Lines, Bytes, Size, NotesPlaced;
    WritingPlacesNotes(s);
    if s.writer.Missed? || s.writer.LastMissed? {
      WrittenAppend(s.written, Note(s.writer.count));
    } else if s.writer.Told? {
      WrittenAppend(s.written, Text(s.writer.line));
    }
  }

  lemma StepKeepsInv(s: State, op: Op, limits: Limits)
    requires Inv(s, limits)
    ensures Inv(Step(s, op, limits), limits)
  {
    hide Accepted, Refusals, Texts, Reported, Lines, Bytes, Size;
    if op.Proceed? && s.sender.Counted? {
      QueueingKeepsInv(s, limits);
    } else if op.Write? {
      if s.writer.Waiting? && s.queue != [] {
        TakingKeepsInv(s, limits);
      } else {
        WritingKeepsInv(s, limits);
      }
    }
  }

  /** In every interleaving of senders, writer and `finish`. */
  lemma {:induction false} EveryInterleavingIsAccounted(s: State, ops: seq<Op>, limits: Limits)
    requires Inv(s, limits)
    ensures Inv(Run(s, ops, limits), limits)
    decreases |ops|
  {
    if ops != [] {
      StepKeepsInv(s, ops[0], limits);
      EveryInterleavingIsAccounted(Step(s, ops[0], limits), ops[1..], limits);
    }
  }

  lemma BlankIsAccounted(s: State, limits: Limits)
    requires s.open && s.queue == [] && s.queued == 0 && s.dropped == 0 && s.sender.Idle? && s.writer.Waiting?
    requires s.written == [] && s.outcomes == []
    ensures Inv(s, limits)
  {
    assert Lines(s.queue) == [];
  }

  lemma StartIsAccounted(limits: Limits)
    ensures Inv(Start, limits)
  {
    hide Inv, InOrder, DropsAccounted, BytesExact, Bounded, Ending, NotesPlaced;
    BlankIsAccounted(Start, limits);
  }

  lemma FinishedIsComplete(s: State, limits: Limits)
    requires Inv(s, limits) && s.writer.Finished?
    ensures Texts(s.written) == Accepted(s.outcomes) && Reported(s.written) == Refusals(s.outcomes) && s.queued == 0
  {
    hide Accepted, Refusals, Texts, Reported, NotesPlaced, Bounded;
    assert Lines(s.queue) == [];
    assert Texts(s.written) + [] + [] == Texts(s.written);
  }

  /** When the writer is done, the output is every accepted line in send order, and the notes add up
      to exactly the lines that were refused. */
  lemma DrainedOutputIsComplete(ops: seq<Op>, limits: Limits)
    requires Run(Start, ops, limits).writer.Finished?
    ensures var s := Run(Start, ops, limits);
            Texts(s.written) == Accepted(s.outcomes) && Reported(s.written) == Refusals(s.outcomes) && s.queued == 0
  {
    StartIsAccounted(limits);
    EveryInterleavingIsAccounted(Start, ops, limits);
    hide *;
    FinishedIsComplete(Run(Start, ops, limits), limits);
  }

  /** While a line is counted and not yet decided on, the writer may do anything, other senders wait
      for the lock and `finish` waits too: the line keeps the counter it found, nothing else is
      decided, and the queue does not grow. */
  lemma {:induction false} MeanwhileTheWriterRuns(s: State, ops: seq<Op>, limits: Limits)
    requires s.sender.Counted? && Proceed !in ops
    ensures var s' := Run(s, ops, limits);
            s'.sender == s.sender && s'.outcomes == s.outcomes && s'.open == s.open && |s'.queue| <= |s.queue|
    decreases |ops|
  {
    if ops != [] {
      MeanwhileOneStep(s, ops[0], limits);
      hide Step;
      MeanwhileTheWriterRuns(Step(s, ops[0], limits), ops[1..], limits);
    }
  }

  lemma MeanwhileOneStep(s: State, op: Op, limits: Limits)
    requires s.sender.Counted? && op != Proceed
    ensures var s' := Step(s, op, limits);
            s'.sender == s.sender && s'.outcomes == s.outcomes && s'.open == s.open && |s'.queue| <= |s.queue|
  {
  }

  /** Exactly when a line is accepted, whatever happens between its counting and the decision: the
      counter was zero before it, or both fit, and by then there is room for a line. */
  lemma AcceptedExactlyWhen(s: State, line: Line, ops: seq<Op>, limits: Limits)
    requires Inv(s, limits) && s.open && s.sender.Idle? && Proceed !in ops
    ensures var s1 := Run(Step(s, Send(line), limits), ops, limits);
            Step(s1, Proceed, limits).outcomes == s.outcomes + [Outcome(line,
              (s.queued == 0 || s.queued + Size(line) <= limits.maxBytes) && |s1.queue| < limits.lines)]
  {
    MeanwhileTheWriterRuns(Step(s, Send(line), limits), ops, limits);
    assert s.queued >= 0;
    hide Run;
  }

  /** What the promise "an empty queue accepts any line" comes to: the writer must not be holding a
      line that it took but has not uncounted, unless both fit. */
  lemma EmptyQueueAcceptsExactlyWhen(s: State, line: Line, ops: seq<Op>, limits: Limits)
    requires Inv(s, limits) && s.open && s.sender.Idle? && s.queue == [] && limits.lines > 0 && Proceed !in ops
    ensures var s1 := Run(Step(s, Send(line), limits), ops, limits);
            Step(s1, Proceed, limits).outcomes == s.outcomes + [Outcome(line,
              || !s.writer.Taken?
              || Size(s.writer.line) == 0
              || Size(s.writer.line) + Size(line) <= limits.maxBytes)]
  {
    AcceptedExactlyWhen(s, line, ops, limits);
    MeanwhileTheWriterRuns(Step(s, Send(line), limits), ops, limits);
    assert s.queued == if s.writer.Taken? then Size(s.writer.line) else 0;
    hide Run;
  }

  /** An empty queue is not enough: the writer may hold a line it has not yet uncounted. */
  lemma EmptyQueueMayRefuse()
    ensures var limits := Limits(1, 2);
            var s := Run(Start, [Send(Line("ab")), Proceed, Write], limits);
            s.queue == [] && Step(Step(s, Send(Line("cd")), limits), Proceed, limits).sender.Refused?
  {
    var limits, ops := Limits(1, 2), [Send(Line("ab")), Proceed, Write];
    var s1 := Step(Start, Send(Line("ab")), limits);
    var s2 := Step(s1, Proceed, limits);
    var s3 := Step(s2, Write, limits);
    assert ops[1..] == [Proceed, Write] && ops[1..][1..] == [Write];
    assert Run(Start, ops, limits) == Run(s1, [Proceed, Write], limits);
    RunTwo(s1, Proceed, Write, limits);
    assert s3.queue == [] && s3.queued == 2;
  }

  /** Between two operations of the writer nobody else touches what it holds or has written. */
  lemma {:induction false} WriterAlone(s: State, ops: seq<Op>, limits: Limits)
    requires Write !in ops
    ensures var s' := Run(s, ops, limits); s'.writer == s.writer && s'.written == s.written
    decreases |ops|
  {
    if ops != [] {
      WriterAloneOneStep(s, ops[0], limits);
      hide Step;
      WriterAlone(Step(s, ops[0], limits), ops[1..], limits);
    }
  }

  lemma WriterAloneOneStep(s: State, op: Op, limits: Limits)
    requires op != Write
    ensures Step(s, op, limits).writer == s.writer && Step(s, op, limits).written == s.written
  {
  }

  /** The way of a queued line through the writer, whatever senders do between its operations: it is
      taken first, and before it is written the lines dropped until then are reported, all at once, if
      there are any. */
  lemma DropsAreReportedBeforeTheNextLine(s: State, a: seq<Op>, b: seq<Op>, c: seq<Op>, d: seq<Op>, limits: Limits)
    requires s.writer.Waiting? && s.queue != [] && Write !in a + b + c + d
    ensures var line := s.queue[0].line;
            var taken := Run(Step(s, Write, limits), a, limits);
            var ready := Run(Step(taken, Write, limits), b, limits);
            var missed := ready.dropped;
            var first := Step(Run(Step(ready, Write, limits), c, limits), Write, limits);
            var second := Step(Run(first, d, limits), Write, limits);
            && Step(s, Write, limits).queue == s.queue[1..]
            && Step(ready, Write, limits).dropped == 0
            && (missed == 0 ==> first.written == s.written + [Text(line)] && first.writer.Waiting?)
            && (missed > 0 ==> first.written == s.written + [Note(missed)]
                               && second.written == s.written + [Note(missed), Text(line)] && second.writer.Waiting?)
  {
    assert (forall op | op in a :: op in a + b + c + d) && (forall op | op in b :: op in a + b + c + d);
    assert (forall op | op in c :: op in a + b + c + d) && (forall op | op in d :: op in a + b + c + d);
    hide Run;
    WriterAlone(Step(s, Write, limits), a, limits);
    var taken := Run(Step(s, Write, limits), a, limits);
    WriterAlone(Step(taken, Write, limits), b, limits);
    var ready := Run(Step(taken, Write, limits), b, limits);
    WriterAlone(Step(ready, Write, limits), c, limits);
    var first := Step(Run(Step(ready, Write, limits), c, limits), Write, limits);
    WriterAlone(first, d, limits);
    assert s.written + [Note(ready.dropped)] + [Text(s.queue[0].line)]
        == s.written + [Note(ready.dropped), Text(s.queue[0].line)];
  }

  lemma RunTwo(s: State, a: Op, b: Op, limits: Limits)
    ensures Run(s, [a, b], limits) == Step(Step(s, a, limits), b, limits)
  {
    hide Step;
    var s1 := Step(s, a, limits);
    assert [a, b][1..] == [b] && [b][1..] == [];
    assert Run(s, [a, b], limits) == Run(s1, [b], limits) == Run(Step(s1, b, limits), [], limits);
  }

  lemma RunFour(s: State, a: Op, b: Op, c: Op, d: Op, limits: Limits)
    ensures Run(s, [a, b, c, d], limits) == Step(Step(Step(Step(s, a, limits), b, limits), c, limits), d, limits)
  {
    hide Step;
    var s1 := Step(s, a, limits);
    var s2 := Step(s1, b, limits);
    assert [a, b, c, d][1..] == [b, c, d] && [b, c, d][1..] == [c, d];
    assert Run(s, [a, b, c, d], limits) == Run(s1, [b, c, d], limits) == Run(s2, [c, d], limits);
    RunTwo(s2, c, d, limits);
  }

  /** The pump's shared fields. */
  class Pump {
    const limits: Limits
    var open: bool
    var queue: seq<Entry>
    var queued: int
    var dropped: nat
    ghost var sender: Sender
    var writer: Writer
    var written: seq<Output>
    ghost var outcomes: seq<Outcome>

    ghost function Now(): State
      reads this
    {
      State(open, queue, queued, dropped, sender, writer, written, outcomes)
    }

    ghost predicate Valid()
      reads this
    {
      Inv(Now(), limits)
    }

    constructor (lines: nat, maxBytes: nat)
      ensures Valid() && Now() == Start && limits == Limits(lines, maxBytes)
    {
      hide Inv, InOrder, DropsAccounted, BytesExact, Bounded, Ending, NotesPlaced,
        Texts, Accepted, Reported, Refusals, Bytes, Lines;
      limits := Limits(lines, maxBytes);
      open, queue, queued, dropped, sender, writer, written, outcomes := true, [], 0, 0, Idle, Waiting, [], [];
      new;
      StartIsAccounted(limits);
    }

    /** One whole `send` that nothing interrupts. */
    method SendLine(line: Line)
      requires Valid() && sender.Idle?
      modifies this
      ensures Valid() && sender.Idle?
      ensures Now() == Run(old(Now()), [Send(line), Proceed, Proceed, Proceed], limits)
    {
      hide Inv, InOrder, DropsAccounted, BytesExact, Bounded, Ending, NotesPlaced;
      EveryInterleavingIsAccounted(Now(), [Send(line), Proceed, Proceed, Proceed], limits);
      RunFour(Now(), Send(line), Proceed, Proceed, Proceed, limits);
      hide Run, Size;
      if !open {
        return;
      }
      var before := queued;
      queued := queued + Size(line);
      if before > 0 && before + Size(line) > limits.maxBytes {
        queued := queued - Size(line);
        dropped := dropped + 1;
        outcomes := outcomes + [Outcome(line, false)];
        return;
      }
      if |queue| < limits.lines {
        queue := queue + [Entry(line, before)];
        outcomes := outcomes + [Outcome(line, true)];
      } else {
        queued := queued - Size(line);
        dropped := dropped + 1;
        outcomes := outcomes + [Outcome(line, false)];
      }
    }

    /** The writer's next atomic operation. */
    method WriteOn()
      requires Valid()
      modifies this
      ensures Valid() && Now() == Step(old(Now()), Write, limits)
    {
      hide Inv, InOrder, DropsAccounted, BytesExact, Bounded, Ending, NotesPlaced;
      StepKeepsInv(Now(), Write, limits);
      hide Size;
      match writer {
        case Waiting =>
          if queue != [] {
            writer := Taken(queue[0].line);
            queue := queue[1..];
          } else if !open {
            writer := if dropped > 0 then LastMissed(dropped) else Finished;
            dropped := 0;
          }
        case Taken(line) =>
          queued := queued - Size(line);
          writer := Ready(line);
        case Ready(line) =>
          writer := if dropped > 0 then Missed(line, dropped) else Told(line);
          dropped := 0;
        case Missed(line, count) =>
          written := written + [Note(count)];
          writer := Told(line);
        case Told(line) =>
          written := written + [Text(line)];
          writer := Waiting;
        case LastMissed(count) =>
          written := written + [Note(count)];
          writer := Finished;
        case Finished =>
      }
    }

    /** `finish` without its time limit: no more lines, and the writer runs to its end. */
    method CloseAndDrain()
      requires Valid() && sender.Idle?
      modifies this
      ensures Valid() && !open && writer.Finished? && outcomes == old(outcomes)
      ensures Texts(written) == Accepted(outcomes) && Reported(written) == Refusals(outcomes)
    {
      hide Inv, InOrder, DropsAccounted, BytesExact, Bounded, Ending, NotesPlaced;
      StepKeepsInv(Now(), Finish, limits);
      hide Size, Texts, Accepted, Reported, Refusals;
      open := false;
      while !writer.Finished?
        invariant Valid() && !open && sender.Idle? && outcomes == old(outcomes)
        decreases StepsLeft(queue, writer)
      {
        WriteOn();
      }
      FinishedIsComplete(Now(), limits);
    }
  }

  function StepsLeft(queue: seq<Entry>, w: Writer): nat {
    6 * |queue| + match w
      case Taken(_) => 6
      case Ready(_) => 5
      case Missed(_, _) => 4
      case Told(_) => 3
      case Waiting => 2
      case LastMissed(_) => 1
      case Finished => 0
  }
}
