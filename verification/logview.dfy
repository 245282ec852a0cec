/** The log: rows numbered for ever, a bounded window of them, and the pairing of CALLs with their
    answers.

    `Log.all` is every row ever pushed, so a row's index is its sequence number; `first` is the
    oldest row still held and `cleared` the first row pushed since the last clear. The program
    holds only `all[first..]`. */
module LogView {
  import opened Options
  import opened Windows

  /** The id CALLs and answers are paired by. */
  datatype MessageKey = MessageKey(text: string)

  datatype FrameKind = Call | Result | Error | Raw

  /** Sizes of texts are not modelled: an event carries the size its row is accounted for. */
  datatype Event =
    | FrameEvent(kind: FrameKind, id: Option<MessageKey>, ts: int, bytes: nat)
    | LineEvent(ts: int, bytes: nat)
    | StateChanged

  datatype Row = Row(
    seqno: nat, ts: int, kind: Option<FrameKind>, id: Option<MessageKey>, rtt: Option<nat>, peer: Option<nat>)

  datatype Log = Log(all: seq<Sized<Row>>, cleared: nat, first: nat, pending: map<MessageKey, (nat, int)>)

  const Empty := Log([], 0, 0, map[])

  predicate IsCall(row: Row, id: MessageKey) { row.kind == Some(Call) && row.id == Some(id) }

  predicate IsAnswer(row: Row, id: MessageKey) {
    (row.kind == Some(Result) || row.kind == Some(Error)) && row.id == Some(id)
  }

  /** The newest retained CALL with the id. */
  function Newest(all: seq<Sized<Row>>, first: nat, id: MessageKey): (i: Option<nat>)
    ensures i.Some? ==> first <= i.value < |all| && IsCall(all[i.value].value, id)
  {
    if |all| <= first then None
    else if IsCall(all[|all| - 1].value, id) then Some(|all| - 1)
    else Newest(all[..|all| - 1], first, id)
  }

  /** The newest retained CALL with the id, if it is unanswered. */
  function Open(l: Log, id: MessageKey): (i: Option<nat>)
    ensures i.Some? ==>
      l.first <= i.value < |l.all| && IsCall(l.all[i.value].value, id) && l.all[i.value].value.peer == None
  {
    var i := Newest(l.all, l.first, id);
    if i.Some? && l.all[i.value].value.peer == None then i else None
  }

  /** The pending map is exactly the open CALLs: nothing dangles and nothing is missing. */
  ghost predicate PendingExact(l: Log) {
    forall id :: PendingFor(l, id) == OpenCall(l, id)
  }

  /** Number and time of the open CALL with the id. */
  function OpenCall(l: Log, id: MessageKey): Option<(nat, int)> {
    match Open(l, id)
    case None => None
    case Some(i) => Some((i, l.all[i].value.ts))
  }

  function PendingFor(l: Log, id: MessageKey): Option<(nat, int)> {
    if id in l.pending then Some(l.pending[id]) else None
  }

  ghost predicate Numbered(l: Log) {
    l.cleared <= l.first <= |l.all| && forall i | 0 <= i < |l.all| :: l.all[i].value.seqno == i
  }

  /** An answered CALL and its answer point at each other, the answer comes later and has the same
      id; rows of other kinds are not paired. */
  ghost predicate Matched(all: seq<Sized<Row>>) {
    forall i | 0 <= i < |all| && all[i].value.peer.Some? :: PairedAt(all, i)
  }

  ghost predicate PairedAt(all: seq<Sized<Row>>, i: nat)
    requires i < |all| && all[i].value.peer.Some?
  {
    var row, j := all[i].value, all[i].value.peer.value;
    && j < |all| && all[j].value.peer == Some(i)
    && row.id.Some?
    && if i < j then IsCall(row, row.id.value) && IsAnswer(all[j].value, row.id.value)
       else j < i && IsAnswer(row, row.id.value) && IsCall(all[j].value, row.id.value)
            && row.rtt == Some(RoundTrip(all[j].value.ts, row.ts))
  }

  ghost predicate Inv(l: Log) {
    Numbered(l) && PendingExact(l) && Matched(l.all)
  }

  function RoundTrip(asked: int, answered: int): nat {
    if answered >= asked then answered - asked else 0
  }

  // ---- recording one event ----------------------------------------------------------------

  function PlainRow(event: Event, seqno: nat): Row
    requires !event.StateChanged?
  {
    match event
    case FrameEvent(kind, id, ts, _) => Row(seqno, ts, Some(kind), id, None, None)
    case LineEvent(ts, _) => Row(seqno, ts, None, None, None, None)
  }

  /** The CALL an event answers: the newest retained one with its id, if that is open. */
  function Answered(l: Log, event: Event): Option<nat> {
    if event.FrameEvent? && (event.kind == Result || event.kind == Error) && event.id.Some?
    then Open(l, event.id.value) else None
  }

  /** The new row: an answer points at its CALL and knows the time it took. */
  function NewRow(l: Log, event: Event): Row
    requires !event.StateChanged?
  {
    var row := PlainRow(event, |l.all|);
    match Answered(l, event)
    case None => row
    case Some(c) => row.(rtt := Some(RoundTrip(l.all[c].value.ts, row.ts)), peer := Some(c))
  }

  /** The old rows, where an answered CALL points at the new one. */
  function Paired(l: Log, event: Event): (r: seq<Sized<Row>>)
    ensures |r| == |l.all|
  {
    match Answered(l, event)
    case None => l.all
    case Some(c) => l.all[c := l.all[c].(value := l.all[c].value.(peer := Some(|l.all|)))]
  }

  /** The rows after an event: a pairing, if there is one, and the new row. */
  function Rows(l: Log, event: Event): seq<Sized<Row>>
    requires !event.StateChanged?
  {
    Paired(l, event) + [Sized(NewRow(l, event), event.bytes)]
  }

  /** The log before anything is evicted. */
  function Recorded(l: Log, event: Event): Log
    requires !event.StateChanged?
  {
    l.(all := Rows(l, event),
       pending := if Answered(l, event).Some? then l.pending - {event.id.value}
                  else if event.FrameEvent? && event.kind == Call && event.id.Some?
                  then l.pending[event.id.value := (|l.all|, event.ts)]
                  else l.pending)
  }

  /** The log after its oldest row was dropped. */
  function Evicted(l: Log): Log
    requires l.first < |l.all|
  {
    var oldest := l.all[l.first].value;
    l.(first := l.first + 1,
       pending := if oldest.kind == Some(Call) && oldest.id.Some? && oldest.id.value in l.pending
                     && l.pending[oldest.id.value].0 == oldest.seqno
                  then l.pending - {oldest.id.value} else l.pending)
  }

  lemma {:induction false} NewestIgnoresEdits(all: seq<Sized<Row>>, all': seq<Sized<Row>>, first: nat, id: MessageKey)
    requires |all| == |all'|
    requires forall i | 0 <= i < |all| :: all[i].value.kind == all'[i].value.kind && all[i].value.id == all'[i].value.id
    ensures Newest(all, first, id) == Newest(all', first, id)
    decreases |all|
  {
    if |all| > first {
      NewestIgnoresEdits(all[..|all| - 1], all'[..|all| - 1], first, id);
    }
  }

  lemma NewestAfterAppend(all: seq<Sized<Row>>, row: Sized<Row>, first: nat, id: MessageKey)
    requires first <= |all|
    ensures Newest(all + [row], first, id) == if IsCall(row.value, id) then Some(|all|) else Newest(all, first, id)
  {
    assert (all + [row])[..|all|] == all;
  }

  lemma {:induction false} NewestAfterEviction(all: seq<Sized<Row>>, first: nat, id: MessageKey)
    requires first < |all|
    ensures Newest(all, first + 1, id) == if Newest(all, first, id) == Some(first) then None else Newest(all, first, id)
    decreases |all|
  {
    if |all| > first + 1 && !IsCall(all[|all| - 1].value, id) {
      NewestAfterEviction(all[..|all| - 1], first, id);
    }
  }

  lemma RecordingKeepsMatching(l: Log, event: Event)
    requires !event.StateChanged? && Inv(l)
    ensures Matched(Rows(l, event))
  {
    hide Newest, PendingExact;
    var all, n := Rows(l, event), |l.all|;
    forall i | 0 <= i < |all| && all[i].value.peer.Some? ensures PairedAt(all, i) {
      if i < n && l.all[i].value.peer.Some? {
        assert PairedAt(l.all, i);
      }
    }
  }

  lemma RecordingKeepsPending(l: Log, event: Event)
    requires !event.StateChanged? && Inv(l)
    ensures PendingExact(Recorded(l, event))
  {
    hide Newest, Matched;
    var l', n := Recorded(l, event), |l.all|;
    var edited := l'.all[..n];
    assert l'.all == edited + [l'.all[n]];
    forall id ensures PendingFor(l', id) == OpenCall(l', id) {
      assert PendingFor(l, id) == OpenCall(l, id);
      NewestAfterAppend(edited, l'.all[n], l.first, id);
      NewestIgnoresEdits(l.all, edited, l.first, id);
    }
  }

  lemma RecordingKeepsInv(l: Log, event: Event)
    requires !event.StateChanged? && Inv(l)
    ensures Inv(Recorded(l, event))
  {
    RecordingKeepsMatching(l, event);
    RecordingKeepsPending(l, event);
    hide Newest, PendingExact, Matched;
  }

  lemma EvictingKeepsInv(l: Log)
    requires Inv(l) && l.first < |l.all|
    ensures Inv(Evicted(l))
  {
    hide Newest, Matched;
    var l' := Evicted(l);
    forall id ensures PendingFor(l', id) == OpenCall(l', id) {
      assert PendingFor(l, id) == OpenCall(l, id);
      NewestAfterEviction(l.all, l.first, id);
    }
  }

  // ---- every run --------------------------------------------------------------------------

  datatype Op = Push(event: Event) | Clear

  datatype Limits = Limits(capacity: nat, maxBytes: nat)

  function Held(l: Log): seq<Sized<Row>>
    requires l.first <= |l.all|
  {
    l.all[l.first..]
  }

  /** Drops the oldest rows while there are too many or too big ones, but never the newest. */
  function Shrink(l: Log, limits: Limits): Log
    decreases |l.all| - l.first
  {
    if l.first + 1 < |l.all| && !Fits(Held(l), limits.capacity, limits.maxBytes) then Shrink(Evicted(l), limits) else l
  }

  function Step(l: Log, op: Op, limits: Limits): Log {
    match op
    case Push(event) => if event.StateChanged? then l else Shrink(Recorded(l, event), limits)
    case Clear => Log(l.all, |l.all|, |l.all|, map[])
  }

  function Run(l: Log, ops: seq<Op>, limits: Limits): Log
    decreases |ops|
  {
    if ops == [] then l else Run(Step(l, ops[0], limits), ops[1..], limits)
  }

  /** What the buffer promises: the longest tail of the rows pushed since the last clear that fits
      both limits, or just the newest row. */
  ghost predicate Windowed(l: Log, limits: Limits) {
    NewestWindow(l.all, l.cleared, l.first, limits.capacity, limits.maxBytes)
  }

  ghost predicate TooFull(l: Log, limits: Limits) {
    Overfull(l.all, l.cleared, l.first, limits.capacity, limits.maxBytes)
  }

  lemma {:induction false} ShrinkKeepsInv(l: Log, limits: Limits)
    requires Inv(l)
    ensures Inv(Shrink(l, limits)) && Shrink(l, limits).all == l.all && Shrink(l, limits).cleared == l.cleared
    decreases |l.all| - l.first
  {
    if l.first + 1 < |l.all| && !Fits(Held(l), limits.capacity, limits.maxBytes) {
      EvictingKeepsInv(l);
      ShrinkKeepsInv(Evicted(l), limits);
    }
  }

  lemma {:induction false} ShrinkEndsWindowed(l: Log, limits: Limits)
    requires l.first < |l.all| && TooFull(l, limits)
    ensures Windowed(Shrink(l, limits), limits)
    decreases |l.all| - l.first
  {
    if l.first + 1 < |l.all| && !Fits(Held(l), limits.capacity, limits.maxBytes) {
      DropOverfull(l.all, l.cleared, l.first, limits.capacity, limits.maxBytes);
      ShrinkEndsWindowed(Evicted(l), limits);
    }
  }

  lemma RecordingOverfills(l: Log, event: Event, limits: Limits)
    requires !event.StateChanged? && Inv(l) && Windowed(l, limits)
    ensures var l' := Recorded(l, event);
            && TooFull(l', limits)
            && Total(Held(l')) == Total(Held(l)) + event.bytes
  {
    hide Total, NewestWindow, Overfull, Newest, PendingExact, Matched;
    var l', n := Recorded(l, event), |l.all|;
    var edited := Paired(l, event);
    EditKeepsWindow(l.all, edited, l.cleared, l.first, limits.capacity, limits.maxBytes);
    AppendOverfull(edited, l'.all[n], l.cleared, l.first, limits.capacity, limits.maxBytes);
  }

  lemma PushKeepsInv(l: Log, event: Event, limits: Limits)
    requires Inv(l) && Windowed(l, limits) && !event.StateChanged?
    ensures Inv(Step(l, Push(event), limits)) && Windowed(Step(l, Push(event), limits), limits)
    ensures Step(l, Push(event), limits).all == Rows(l, event)
  {
    hide Total, NewestWindow, Overfull, Newest, PendingExact, Matched;
    RecordingKeepsInv(l, event);
    RecordingOverfills(l, event, limits);
    ShrinkKeepsInv(Recorded(l, event), limits);
    ShrinkEndsWindowed(Recorded(l, event), limits);
  }

  lemma ClearKeepsInv(l: Log, limits: Limits)
    requires Inv(l)
    ensures Inv(Step(l, Clear, limits)) && Windowed(Step(l, Clear, limits), limits)
  {
    hide Matched;
    var l' := Step(l, Clear, limits);
    assert l'.all[|l'.all|..] == [];
    forall id ensures PendingFor(l', id) == OpenCall(l', id) {}
  }

  lemma StepKeepsInv(l: Log, op: Op, limits: Limits)
    requires Inv(l) && Windowed(l, limits)
    ensures Inv(Step(l, op, limits)) && Windowed(Step(l, op, limits), limits)
  {
    hide Inv, Windowed;
    match op
    case Push(event) => if !event.StateChanged? { PushKeepsInv(l, event, limits); }
    case Clear => ClearKeepsInv(l, limits);
  }

  /** In every reachable log: rows are numbered without gaps, the pending map is exact, CALLs and
      answers are matched one to one, and the window is the longest that fits. */
  lemma {:induction false} EveryReachableLogIsConsistent(l: Log, ops: seq<Op>, limits: Limits)
    requires Inv(l) && Windowed(l, limits)
    ensures Inv(Run(l, ops, limits)) && Windowed(Run(l, ops, limits), limits)
    decreases |ops|
  {
    if ops != [] {
      StepKeepsInv(l, ops[0], limits);
      EveryReachableLogIsConsistent(Step(l, ops[0], limits), ops[1..], limits);
    }
  }

  lemma EmptyIsConsistent(limits: Limits)
    ensures Inv(Empty) && Windowed(Empty, limits)
  {
    forall id ensures PendingFor(Empty, id) == OpenCall(Empty, id) {}
    assert Empty.all[0..] == [];
  }

  /** No two rows have the same partner. */
  lemma PairingIsOneToOne(l: Log, i: nat, j: nat)
    requires Inv(l) && i < |l.all| && j < |l.all| && l.all[i].value.peer.Some?
    requires l.all[i].value.peer == l.all[j].value.peer
    ensures i == j
  {
    assert PairedAt(l.all, i) && PairedAt(l.all, j);
  }

  /** A retained answered CALL points at a retained answer. */
  lemma AnswersOutliveTheirCalls(l: Log, i: nat)
    requires Inv(l) && l.first <= i < |l.all| && l.all[i].value.kind == Some(Call) && l.all[i].value.peer.Some?
    ensures var j := l.all[i].value.peer.value; l.first <= i < j < |l.all| && l.all[j].value.peer == Some(i)
    ensures l.all[l.all[i].value.peer.value].value.id == l.all[i].value.id
  {
    assert PairedAt(l.all, i);
  }

  /** A row keeps its number, contents and, once it has one, its partner. */
  predicate Keeps(before: Sized<Row>, after: Sized<Row>) {
    && after.bytes == before.bytes
    && after.value.(peer := None) == before.value.(peer := None)
    && (before.value.peer.Some? ==> after == before)
  }

  lemma {:induction false} NoRowIsRepaired(l: Log, ops: seq<Op>, limits: Limits, i: nat)
    requires Inv(l) && Windowed(l, limits) && i < |l.all|
    ensures i < |Run(l, ops, limits).all| && Keeps(l.all[i], Run(l, ops, limits).all[i])
    decreases |ops|
  {
    if ops != [] {
      var l1 := Step(l, ops[0], limits);
      StepKeepsInv(l, ops[0], limits);
      StepKeepsRow(l, ops[0], limits, i);
      hide Inv, Windowed, Step;
      NoRowIsRepaired(l1, ops[1..], limits, i);
    }
  }

  lemma StepKeepsRow(l: Log, op: Op, limits: Limits, i: nat)
    requires Inv(l) && Windowed(l, limits) && i < |l.all|
    ensures i < |Step(l, op, limits).all| && Keeps(l.all[i], Step(l, op, limits).all[i])
  {
    if op.Push? && !op.event.StateChanged? {
      PushKeepsInv(l, op.event, limits);
      hide Inv, Windowed, Newest;
    }
  }

  /** The held rows after an event, told by their places in the window. */
  lemma HeldAfterRecording(l: Log, event: Event)
    requires !event.StateChanged? && Numbered(l)
    ensures |Recorded(l, event).all| == |l.all| + 1
    ensures Held(Recorded(l, event)) == Paired(l, event)[l.first..] + [Sized(NewRow(l, event), event.bytes)]
  {
    hide Paired, NewRow, Newest;
  }

  // ---- the object -------------------------------------------------------------------------

  class LogStore {
    var entries: seq<Sized<Row>>
    const limits: Limits
    var bytes: nat
    var nextSeq: nat
    var pending: map<MessageKey, (nat, int)>
    ghost var log: Log

    ghost predicate Valid()
      reads this
    {
      && Inv(log) && Windowed(log, limits)
      && entries == Held(log)
      && nextSeq == |log.all|
      && pending == log.pending
      && bytes == Total(entries)
    }

    constructor (capacity: nat, maxBytes: nat)
      ensures Valid() && log == Empty
      ensures limits == Limits(if capacity > 1 then capacity else 1, if maxBytes > 1 then maxBytes else 1)
    {
      limits := Limits(if capacity > 1 then capacity else 1, if maxBytes > 1 then maxBytes else 1);
      entries, bytes, nextSeq, pending, log := [], 0, 0, map[], Empty;
      new;
      EmptyIsConsistent(limits);
    }

    method ClearAll()
      requires Valid()
      modifies this
      ensures Valid() && log == Step(old(log), Clear, limits)
    {
      hide Inv, Windowed;
      StepKeepsInv(log, Clear, limits);
      entries, bytes, pending := [], 0, map[];
      log := Step(log, Clear, limits);
      assert Held(log) == [];
    }

    /** `index_of`: a row's place from its number and the number of the oldest row. */
    method IndexOf(number: nat) returns (index: Option<nat>)
      requires Valid()
      ensures index == if log.first <= number < |log.all| then Some(number - log.first) else None
    {
      if entries == [] {
        return None;
      }
      var first := entries[0].value.seqno;
      if number < first || number - first >= |entries| {
        return None;
      }
      return Some(number - first);
    }

    /** The row that was given that number, or nothing if it is no longer (or not yet) there. */
    method Get(number: nat) returns (row: Option<Row>)
      requires Valid()
      ensures row == if log.first <= number < |log.all| then Some(log.all[number].value) else None
    {
      var index := IndexOf(number);
      match index
      case Some(i) => return Some(entries[i].value);
      case None => return None;
    }

    /** Everything but the limits, which an append may exceed until the oldest rows are gone. */
    ghost predicate Mirrors()
      reads this
    {
      && Inv(log)
      && entries == Held(log)
      && nextSeq == |log.all|
      && pending == log.pending
      && bytes == Total(entries)
    }

    /** `build`: the new row; an answer is paired with its CALL, which also learns its partner. */
    method Build(event: Event) returns (row: Row)
      requires Mirrors() && !event.StateChanged?
      modifies this`pending, this`entries
      ensures pending == Recorded(log, event).pending
      ensures row == NewRow(log, event) && entries == Paired(log, event)[log.first..]
    {
      row := PlainRow(event, nextSeq);
      if event.FrameEvent? && event.id.Some? {
        var id := event.id.value;
        assert PendingFor(log, id) == OpenCall(log, id);
        assert entries != [] ==> entries[0].value.seqno == log.first;
        hide Inv, Newest, Total, Rows;
        if event.kind == Call {
          pending := pending[id := (nextSeq, event.ts)];
        } else if (event.kind == Result || event.kind == Error) && id in pending {
          var (callSeq, callTs) := pending[id];
          pending := pending - {id};
          row := row.(rtt := Some(RoundTrip(callTs, event.ts)), peer := Some(callSeq));
          var index := callSeq - entries[0].value.seqno;
          entries := entries[index := entries[index].(value := entries[index].value.(peer := Some(nextSeq)))];
        }
      }
    }

    method Record(event: Event)
      requires Valid() && !event.StateChanged?
      modifies this
      ensures Mirrors() && log == Recorded(old(log), event) && TooFull(log, limits) && entries != []
    {
      assert Numbered(log);
      hide Inv, Numbered, PendingExact, Matched, Windowed, NewestWindow, TooFull, Overfull, Total, Held, Recorded,
        Answered, PlainRow, Newest, Rows, NewRow, Paired;
      ghost var recorded := Recorded(log, event);
      RecordingKeepsInv(log, event);
      RecordingOverfills(log, event, limits);
      HeldAfterRecording(log, event);
      assert bytes + event.bytes == Total(Held(recorded));
      var row := Build(event);
      hide Valid;
      entries := entries + [Sized(row, event.bytes)];
      assert entries == Held(recorded);
      bytes := bytes + event.bytes;
      nextSeq := nextSeq + 1;
      log := recorded;
    }

    method PushEvent(event: Event)
      requires Valid()
      modifies this
      ensures Valid() && log == Step(old(log), Push(event), limits)
    {
      if event.StateChanged? {
        return;
      }
      PushKeepsInv(log, event, limits);
      Record(event);
      ghost var recorded := log;
      hide Inv, Windowed, TooFull, Recorded, Evicted, Total;
      while |entries| > 1 && (|entries| > limits.capacity || bytes > limits.maxBytes)
        invariant Mirrors() && TooFull(log, limits) && log.first <= |log.all|
        invariant Shrink(log, limits) == Shrink(recorded, limits)
        decreases |entries|
      {
        EvictOldest();
      }
    }

    method EvictOldest()
      requires Mirrors() && TooFull(log, limits) && |entries| > 1 && !Fits(entries, limits.capacity, limits.maxBytes)
      modifies this
      ensures Mirrors() && TooFull(log, limits)
      ensures log == Evicted(old(log)) && |entries| == |old(entries)| - 1
    {
      EvictingKeepsInv(log);
      DropOverfull(log.all, log.cleared, log.first, limits.capacity, limits.maxBytes);
      assert entries[0] == log.all[log.first];
      hide Inv, Total, Overfull;
      var oldest := entries[0];
      entries := entries[1..];
      bytes := bytes - oldest.bytes;
      if oldest.value.kind == Some(Call) && oldest.value.id.Some? {
        var id := oldest.value.id.value;
        if id in pending && pending[id].0 == oldest.value.seqno {
          pending := pending - {id};
        }
      }
      log := Evicted(log);
    }
  }
}
