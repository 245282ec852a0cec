/** The transactions of one station: a bounded list, specified against a ledger that forgets
    nothing.

    Ids need not be unique (the default allocator gives every transaction the same id); a stop or a
    meter reading applies to the latest active transaction with the id. */
module Transactions {
  import opened Options

  const MAX_ACTIVE_TRANSACTIONS := 256

  datatype Status = Active | Stopped

  /** Fields that never change after the start. */
  datatype StartInfo = StartInfo(connector: nat, idTag: string, idTagStatus: nat, meterStart: int, startedAt: int)

  datatype StopInfo = StopInfo(meterStop: int, at: int, reason: Option<nat>)

  /** The readings of one MeterValues message that count, already converted; `at` is the time of
      the last entry that had one. */
  datatype Reading = Reading(energyWh: Option<int>, powerW: Option<int>, at: Option<int>)

  datatype Transaction = Transaction(
    id: int, start: StartInfo, status: Status, stop: Option<StopInfo>,
    energyWh: Option<int>, powerW: Option<int>, lastMeterAt: Option<int>)

  datatype Change = Stop(info: StopInfo) | Meter(reading: Reading)

  datatype Op = Begin(id: int, start: StartInfo) | Update(id: int, change: Change)

  datatype State = State(transactions: seq<Transaction>, unknownStops: nat)

  function New(id: int, start: StartInfo): Transaction {
    Transaction(id, start, Active, None, None, None, None)
  }

  function Or<T>(first: Option<T>, second: Option<T>): Option<T> {
    if first.Some? then first else second
  }

  function Changed(tx: Transaction, change: Change): Transaction {
    match change
    case Stop(info) => tx.(status := Stopped, stop := Some(info))
    case Meter(r) => tx.(energyWh := Or(r.energyWh, tx.energyWh), powerW := Or(r.powerW, tx.powerW),
                         lastMeterAt := Or(r.at, tx.lastMeterAt))
  }

  // ---- list operations ------------------------------------------------------------------

  function Front(txs: seq<Transaction>): seq<Transaction> requires txs != [] { txs[..|txs| - 1] }

  function Last(txs: seq<Transaction>): Transaction requires txs != [] { txs[|txs| - 1] }

  function Count(txs: seq<Transaction>, status: Status): nat {
    if txs == [] then 0 else Count(Front(txs), status) + if Last(txs).status == status then 1 else 0
  }

  function Only(txs: seq<Transaction>, status: Status): seq<Transaction> {
    if txs == [] then [] else Only(Front(txs), status) + if Last(txs).status == status then [Last(txs)] else []
  }

  predicate IsActive(tx: Transaction, id: int) { tx.id == id && tx.status == Active }

  predicate HasActive(txs: seq<Transaction>, id: int) {
    txs != [] && (IsActive(Last(txs), id) || HasActive(Front(txs), id))
  }

  /** The place of the latest active transaction with the id. */
  function LastActive(txs: seq<Transaction>, id: int): (i: nat)
    requires HasActive(txs, id)
    ensures i < |txs| && IsActive(txs[i], id) && forall k | i < k < |txs| :: !IsActive(txs[k], id)
  {
    if IsActive(Last(txs), id) then |txs| - 1 else LastActive(Front(txs), id)
  }

  /** Changes the latest active transaction with the id. */
  function UpdateLast(txs: seq<Transaction>, id: int, change: Change): seq<Transaction> {
    if txs == [] then []
    else if IsActive(Last(txs), id) then Front(txs) + [Changed(Last(txs), change)]
    else UpdateLast(Front(txs), id, change) + [Last(txs)]
  }

  /** Drops the earliest transaction with the status. */
  function DropFirst(txs: seq<Transaction>, status: Status): seq<Transaction> {
    if txs == [] then []
    else if Count(Front(txs), status) > 0 then DropFirst(Front(txs), status) + [Last(txs)]
    else if Last(txs).status == status then Front(txs)
    else txs
  }

  /** Every active transaction and the latest-started `cap` stopped ones. */
  function Trim(txs: seq<Transaction>, cap: nat): seq<Transaction> {
    if txs == [] then []
    else if Last(txs).status == Active then Trim(Front(txs), cap) + [Last(txs)]
    else if cap > 0 then Trim(Front(txs), cap - 1) + [Last(txs)]
    else Trim(Front(txs), 0)
  }

  function Step(s: State, op: Op, cap: nat): State {
    match op
    case Begin(id, start) =>
      var txs := s.transactions + [New(id, start)];
      s.(transactions := if Count(txs, Active) > MAX_ACTIVE_TRANSACTIONS then DropFirst(txs, Active) else txs)
    case Update(id, change) =>
      if !HasActive(s.transactions, id) then
        if change.Stop? then s.(unknownStops := s.unknownStops + 1) else s
      else
        var txs := UpdateLast(s.transactions, id, change);
        s.(transactions := if change.Stop? then Trim(txs, cap) else txs)
  }

  function Run(s: State, ops: seq<Op>, cap: nat): State {
    if ops == [] then s else Step(Run(s, ops[..|ops| - 1], cap), ops[|ops| - 1], cap)
  }

  // ---- reference: a ledger of everything that was started ---------------------------------

  /** One started transaction; `evicted` marks an active one that was dropped as too many. */
  datatype Entry = Entry(tx: Transaction, evicted: bool)

  datatype Ledger = Ledger(entries: seq<Entry>, unknownStops: nat)

  predicate Running(e: Entry) { !e.evicted && e.tx.status == Active }

  predicate Ended(e: Entry) { !e.evicted && e.tx.status == Stopped }

  function CountRunning(entries: seq<Entry>): nat {
    if entries == [] then 0
    else CountRunning(entries[..|entries| - 1]) + if Running(entries[|entries| - 1]) then 1 else 0
  }

  function CountEnded(entries: seq<Entry>): nat {
    if entries == [] then 0
    else CountEnded(entries[..|entries| - 1]) + if Ended(entries[|entries| - 1]) then 1 else 0
  }

  function CountEvicted(entries: seq<Entry>): nat {
    if entries == [] then 0
    else CountEvicted(entries[..|entries| - 1]) + if entries[|entries| - 1].evicted then 1 else 0
  }

  function EvictFirst(entries: seq<Entry>): seq<Entry> {
    if entries == [] then [] else
      var front, last := entries[..|entries| - 1], entries[|entries| - 1];
      if CountRunning(front) > 0 then EvictFirst(front) + [last]
      else if Running(last) then front + [last.(evicted := true)]
      else entries
  }

  predicate HasRunning(entries: seq<Entry>, id: int) {
    entries != [] &&
    (|| (Running(entries[|entries| - 1]) && entries[|entries| - 1].tx.id == id)
     || HasRunning(entries[..|entries| - 1], id))
  }

  function UpdateEntry(entries: seq<Entry>, id: int, change: Change): seq<Entry> {
    if entries == [] then [] else
      var front, last := entries[..|entries| - 1], entries[|entries| - 1];
      if Running(last) && last.tx.id == id then front + [last.(tx := Changed(last.tx, change))]
      else UpdateEntry(front, id, change) + [last]
  }

  function Post(l: Ledger, op: Op): Ledger {
    match op
    case Begin(id, start) =>
      var entries := l.entries + [Entry(New(id, start), false)];
      l.(entries := if CountRunning(entries) > MAX_ACTIVE_TRANSACTIONS then EvictFirst(entries) else entries)
    case Update(id, change) =>
      if HasRunning(l.entries, id) then l.(entries := UpdateEntry(l.entries, id, change))
      else if change.Stop? then l.(unknownStops := l.unknownStops + 1)
      else l
  }

  function PostAll(l: Ledger, ops: seq<Op>): Ledger {
    if ops == [] then l else Post(PostAll(l, ops[..|ops| - 1]), ops[|ops| - 1])
  }

  /** The transactions the ledger has not evicted, in start order. */
  function Live(entries: seq<Entry>): seq<Transaction> {
    if entries == [] then [] else
      Live(entries[..|entries| - 1]) + if entries[|entries| - 1].evicted then [] else [entries[|entries| - 1].tx]
  }

  // ---- trimming commutes with everything else ---------------------------------------------

  lemma SplitLast(front: seq<Transaction>, tx: Transaction)
    ensures Front(front + [tx]) == front && Last(front + [tx]) == tx
  {
  }

  /** What trimming means: active transactions stay ... */
  lemma {:induction false} TrimKeepsEveryActive(txs: seq<Transaction>, cap: nat)
    ensures Only(Trim(txs, cap), Active) == Only(txs, Active)
  {
    if txs != [] {
      var c := if Last(txs).status == Stopped && cap > 0 then cap - 1 else cap;
      TrimKeepsEveryActive(Front(txs), c);
      SplitLast(Trim(Front(txs), c), Last(txs));
      assert Only(Trim(Front(txs), c), Active) + [] == Only(Trim(Front(txs), c), Active);
      assert Only(Front(txs), Active) + [] == Only(Front(txs), Active);
    }
  }

  function LastOnes(txs: seq<Transaction>, n: nat): seq<Transaction> {
    if |txs| <= n then txs else txs[|txs| - n..]
  }

  lemma LastOnesAppend(txs: seq<Transaction>, tx: Transaction, n: nat)
    ensures LastOnes(txs + [tx], n + 1) == LastOnes(txs, n) + [tx]
    ensures LastOnes(txs, 0) == []
  {
  }

  /** ... and of the stopped ones the last `cap`. */
  lemma {:induction false} TrimKeepsLatestStopped(txs: seq<Transaction>, cap: nat)
    ensures Only(Trim(txs, cap), Stopped) == LastOnes(Only(txs, Stopped), cap)
  {
    if txs == [] {
      assert LastOnes([], cap) == [];
    } else {
      hide LastOnes;
      var last, stopped := Last(txs), Only(Front(txs), Stopped);
      var c := if last.status == Stopped && cap > 0 then cap - 1 else cap;
      TrimKeepsLatestStopped(Front(txs), c);
      SplitLast(Trim(Front(txs), c), last);
      if last.status == Active {
        assert Only(txs, Stopped) == stopped;
        assert Only(Trim(txs, cap), Stopped) == Only(Trim(Front(txs), c), Stopped);
      } else if cap > 0 {
        LastOnesAppend(stopped, last, cap - 1);
      } else {
        LastOnesAppend(stopped, last, 0);
        LastOnesAppend(stopped + [last], last, 0);
      }
    }
  }

  lemma {:induction false} TrimKeepsActive(txs: seq<Transaction>, cap: nat, id: int)
    ensures Count(Trim(txs, cap), Active) == Count(txs, Active)
    ensures HasActive(Trim(txs, cap), id) == HasActive(txs, id)
  {
    if txs != [] {
      var c := if Last(txs).status == Stopped && cap > 0 then cap - 1 else cap;
      TrimKeepsActive(Front(txs), c, id);
      SplitLast(Trim(Front(txs), c), Last(txs));
    }
  }

  lemma {:induction false} TrimTwice(txs: seq<Transaction>, outer: nat, inner: nat)
    requires outer <= inner
    ensures Trim(Trim(txs, inner), outer) == Trim(txs, outer)
  {
    if txs != [] {
      if Last(txs).status == Active {
        TrimTwice(Front(txs), outer, inner);
        SplitLast(Trim(Front(txs), inner), Last(txs));
      } else if inner == 0 {
        TrimTwice(Front(txs), 0, 0);
      } else {
        SplitLast(Trim(Front(txs), inner - 1), Last(txs));
        TrimTwice(Front(txs), if outer > 0 then outer - 1 else 0, inner - 1);
      }
    }
  }

  lemma {:induction false} TrimThenDropFirstActive(txs: seq<Transaction>, cap: nat)
    ensures DropFirst(Trim(txs, cap), Active) == Trim(DropFirst(txs, Active), cap)
  {
    if txs != [] {
      var last := Last(txs);
      var c := if last.status == Stopped && cap > 0 then cap - 1 else cap;
      var kept := Trim(Front(txs), c);
      TrimKeepsActive(Front(txs), c, 0);
      SplitLast(kept, last);
      var stays := last.status == Active || cap > 0;
      assert Trim(txs, cap) == if stays then kept + [last] else kept;
      if Count(Front(txs), Active) > 0 {
        TrimThenDropFirstActive(Front(txs), c);
        var dropped := DropFirst(Front(txs), Active);
        SplitLast(dropped, last);
        assert Trim(dropped + [last], cap) == if stays then Trim(dropped, c) + [last] else Trim(dropped, c);
        assert DropFirst(txs, Active) == dropped + [last];
        assert DropFirst(kept + [last], Active) == DropFirst(kept, Active) + [last];
        hide Trim, DropFirst, Count;
      } else {
        NoneToDrop(kept);
        NoneToDrop(Front(txs));
      }
    }
  }

  lemma {:induction false} NoneToDrop(txs: seq<Transaction>)
    requires Count(txs, Active) == 0
    ensures DropFirst(txs, Active) == txs
  {
  }

  lemma {:induction false} TrimThenMeter(txs: seq<Transaction>, cap: nat, id: int, change: Change)
    requires change.Meter?
    ensures UpdateLast(Trim(txs, cap), id, change) == Trim(UpdateLast(txs, id, change), cap)
  {
    if txs != [] {
      var last := Last(txs);
      var c := if last.status == Stopped && cap > 0 then cap - 1 else cap;
      var kept := Trim(Front(txs), c);
      SplitLast(kept, last);
      if IsActive(last, id) {
        SplitLast(Front(txs), Changed(last, change));
      } else {
        TrimThenMeter(Front(txs), c, id, change);
        SplitLast(UpdateLast(Front(txs), id, change), last);
      }
    }
  }

  lemma {:induction false} TrimThenStop(txs: seq<Transaction>, cap: nat, id: int, change: Change)
    requires change.Stop?
    ensures Trim(UpdateLast(Trim(txs, cap), id, change), cap) == Trim(UpdateLast(txs, id, change), cap)
  {
    if txs != [] {
      var last, front := Last(txs), Front(txs);
      var c := if last.status == Stopped && cap > 0 then cap - 1 else cap;
      var kept := Trim(front, c);
      SplitLast(kept, last);
      if IsActive(last, id) {
        var stopped := Changed(last, change);
        SplitLast(front, stopped);
        SplitLast(kept, stopped);
        assert UpdateLast(Trim(txs, cap), id, change) == kept + [stopped];
        TrimTwice(front, if cap > 0 then cap - 1 else 0, cap);
      } else {
        TrimThenStop(front, c, id, change);
        SplitLast(UpdateLast(kept, id, change), last);
        SplitLast(UpdateLast(front, id, change), last);
        if last.status == Stopped && cap == 0 {
          assert Trim(txs, cap) == kept;
        } else {
          assert UpdateLast(Trim(txs, cap), id, change) == UpdateLast(kept, id, change) + [last];
        }
      }
    }
  }

  // ---- the ledger and its live transactions -------------------------------------------------

  lemma LiveAppend(entries: seq<Entry>, e: Entry)
    ensures Live(entries + [e]) == Live(entries) + if e.evicted then [] else [e.tx]
    ensures CountRunning(entries + [e]) == CountRunning(entries) + if Running(e) then 1 else 0
    ensures CountEnded(entries + [e]) == CountEnded(entries) + if Ended(e) then 1 else 0
    ensures CountEvicted(entries + [e]) == CountEvicted(entries) + if e.evicted then 1 else 0
  {
    assert (entries + [e])[..|entries|] == entries;
  }

  lemma {:induction false} LiveCounts(entries: seq<Entry>, id: int)
    ensures Count(Live(entries), Active) == CountRunning(entries)
    ensures HasActive(Live(entries), id) == HasRunning(entries, id)
    ensures |entries| == CountRunning(entries) + CountEnded(entries) + CountEvicted(entries)
  {
    if entries != [] {
      var front, last := entries[..|entries| - 1], entries[|entries| - 1];
      LiveCounts(front, id);
      if last.evicted {
        assert Live(entries) == Live(front);
      } else {
        SplitLast(Live(front), last.tx);
      }
    }
  }

  lemma {:induction false} EvictingDropsFirst(entries: seq<Entry>)
    requires CountRunning(entries) > 0
    ensures Live(EvictFirst(entries)) == DropFirst(Live(entries), Active)
    ensures CountRunning(EvictFirst(entries)) == CountRunning(entries) - 1
    ensures CountEnded(EvictFirst(entries)) == CountEnded(entries)
    ensures CountEvicted(EvictFirst(entries)) == CountEvicted(entries) + 1
  {
    var front, last := entries[..|entries| - 1], entries[|entries| - 1];
    LiveCounts(front, 0);
    LiveAppend(front, last);
    assert entries == front + [last];
    if !last.evicted {
      SplitLast(Live(front), last.tx);
    }
    if CountRunning(front) > 0 {
      EvictingDropsFirst(front);
      LiveAppend(EvictFirst(front), last);
      assert last.evicted ==> Live(entries) == Live(front);
    } else {
      LiveAppend(front, last.(evicted := true));
      assert Live(front) + [] == Live(front);
    }
  }

  lemma {:induction false} UpdatingUpdatesLast(entries: seq<Entry>, id: int, change: Change)
    ensures Live(UpdateEntry(entries, id, change)) == UpdateLast(Live(entries), id, change)
    ensures CountEvicted(UpdateEntry(entries, id, change)) == CountEvicted(entries)
    ensures CountEnded(UpdateEntry(entries, id, change)) ==
            CountEnded(entries) + if change.Stop? && HasRunning(entries, id) then 1 else 0
  {
    if entries != [] {
      var front, last := entries[..|entries| - 1], entries[|entries| - 1];
      LiveAppend(front, last);
      assert entries == front + [last];
      if !last.evicted {
        SplitLast(Live(front), last.tx);
      } else {
        assert Live(entries) == Live(front);
      }
      if Running(last) && last.tx.id == id {
        LiveAppend(front, last.(tx := Changed(last.tx, change)));
      } else {
        UpdatingUpdatesLast(front, id, change);
        LiveAppend(UpdateEntry(front, id, change), last);
      }
    }
  }

  // ---- the bounded list is a view of the ledger ---------------------------------------------

  const Empty := State([], 0)
  const Blank := Ledger([], 0)

  lemma BeginIsAView(entries: seq<Entry>, id: int, start: StartInfo, cap: nat)
    ensures Trim(Live(Post(Ledger(entries, 0), Begin(id, start)).entries), cap) ==
            Step(State(Trim(Live(entries), cap), 0), Begin(id, start), cap).transactions
  {
    var tx := New(id, start);
    var all := entries + [Entry(tx, false)];
    var live := Live(entries) + [tx];
    LiveAppend(entries, Entry(tx, false));
    SplitLast(Live(entries), tx);
    assert Trim(live, cap) == Trim(Live(entries), cap) + [tx];
    TrimKeepsActive(live, cap, id);
    LiveCounts(all, id);
    if CountRunning(all) > MAX_ACTIVE_TRANSACTIONS {
      EvictingDropsFirst(all);
      TrimThenDropFirstActive(live, cap);
    }
  }

  lemma UpdateIsAView(entries: seq<Entry>, id: int, change: Change, cap: nat)
    ensures Trim(Live(Post(Ledger(entries, 0), Update(id, change)).entries), cap) ==
            Step(State(Trim(Live(entries), cap), 0), Update(id, change), cap).transactions
    ensures HasActive(Trim(Live(entries), cap), id) == HasRunning(entries, id)
  {
    LiveCounts(entries, id);
    TrimKeepsActive(Live(entries), cap, id);
    UpdatingUpdatesLast(entries, id, change);
    if change.Stop? {
      TrimThenStop(Live(entries), cap, id, change);
    } else {
      TrimThenMeter(Live(entries), cap, id, change);
    }
  }

  /** Over every run: the list is the ledger's live transactions with only the latest-started
      `cap` stopped ones, in start order, and the unknown stops agree. */
  lemma {:induction false} ListIsAViewOfTheLedger(ops: seq<Op>, cap: nat)
    ensures var s, l := Run(Empty, ops, cap), PostAll(Blank, ops);
            s.transactions == Trim(Live(l.entries), cap) && s.unknownStops == l.unknownStops
  {
    if ops != [] {
      var before, op := ops[..|ops| - 1], ops[|ops| - 1];
      ListIsAViewOfTheLedger(before, cap);
      var l := PostAll(Blank, before);
      match op
      case Begin(id, start) => BeginIsAView(l.entries, id, start, cap);
      case Update(id, change) => UpdateIsAView(l.entries, id, change, cap);
    }
  }

  /** Every active transaction is listed, at most 256; of all ever stopped, exactly the `cap` that
      were started last. */
  lemma ListIsExact(ops: seq<Op>, cap: nat)
    ensures var txs, live := Run(Empty, ops, cap).transactions, Live(PostAll(Blank, ops).entries);
            && Only(txs, Active) == Only(live, Active)
            && Count(txs, Active) <= 256
            && Only(txs, Stopped) == LastOnes(Only(live, Stopped), cap)
  {
    var live := Live(PostAll(Blank, ops).entries);
    ListIsAViewOfTheLedger(ops, cap);
    TrimKeepsEveryActive(live, cap);
    TrimKeepsLatestStopped(live, cap);
    TrimKeepsActive(live, cap, 0);
    LiveCounts(PostAll(Blank, ops).entries, 0);
    EveryStartAndStopIsAccountedFor(ops);
  }

  /** The starts, in order. */
  function Begun(ops: seq<Op>): seq<(int, StartInfo)> {
    if ops == [] then [] else
      var op := ops[|ops| - 1];
      Begun(ops[..|ops| - 1]) + if op.Begin? then [(op.id, op.start)] else []
  }

  function Stops(ops: seq<Op>): nat {
    if ops == [] then 0 else
      var op := ops[|ops| - 1];
      Stops(ops[..|ops| - 1]) + if op.Update? && op.change.Stop? then 1 else 0
  }

  /** Two versions of an entry: what changes is only how a running transaction goes on. */
  predicate Continues(before: Entry, after: Entry) {
    && after.tx.id == before.tx.id && after.tx.start == before.tx.start
    && (!Running(before) ==> after == before)
  }

  ghost predicate AllContinue(before: seq<Entry>, after: seq<Entry>) {
    |before| <= |after| && forall i | 0 <= i < |before| :: Continues(before[i], after[i])
  }

  lemma AllContinueReflexive(entries: seq<Entry>)
    ensures AllContinue(entries, entries)
  {
  }

  lemma ContinuingIsTransitive(a: seq<Entry>, b: seq<Entry>, c: seq<Entry>)
    requires AllContinue(a, b) && AllContinue(b, c)
    ensures AllContinue(a, c)
  {
    forall i | 0 <= i < |a| ensures Continues(a[i], c[i]) {
      assert Continues(a[i], b[i]) && Continues(b[i], c[i]);
    }
  }

  lemma {:induction false} EvictingContinues(entries: seq<Entry>)
    ensures |EvictFirst(entries)| == |entries| && AllContinue(entries, EvictFirst(entries))
  {
    if entries != [] { EvictingContinues(entries[..|entries| - 1]); }
  }

  lemma {:induction false} UpdatingContinues(entries: seq<Entry>, id: int, change: Change)
    ensures |UpdateEntry(entries, id, change)| == |entries| && AllContinue(entries, UpdateEntry(entries, id, change))
  {
    if entries != [] { UpdatingContinues(entries[..|entries| - 1], id, change); }
  }

  lemma PostContinues(l: Ledger, op: Op)
    ensures AllContinue(l.entries, Post(l, op).entries)
    ensures |Post(l, op).entries| == |l.entries| + if op.Begin? then 1 else 0
    ensures op.Begin? ==> var e := Post(l, op).entries[|l.entries|]; e.tx.id == op.id && e.tx.start == op.start
  {
    match op
    case Begin(id, start) => EvictingContinues(l.entries + [Entry(New(id, start), false)]);
    case Update(id, change) => UpdatingContinues(l.entries, id, change);
  }

  /** A transaction that was stopped (or dropped) never changes again, and the k-th entry is the
      k-th start for ever. */
  lemma {:induction false} StoppedTransactionsNeverChange(ops: seq<Op>, more: seq<Op>)
    ensures AllContinue(PostAll(Blank, ops).entries, PostAll(Blank, ops + more).entries)
  {
    hide AllContinue, Post;
    if more == [] {
      assert ops + more == ops;
      AllContinueReflexive(PostAll(Blank, ops).entries);
    } else {
      var all := ops + more;
      assert all[..|all| - 1] == ops + more[..|more| - 1];
      StoppedTransactionsNeverChange(ops, more[..|more| - 1]);
      var l := PostAll(Blank, all[..|all| - 1]);
      PostContinues(l, all[|all| - 1]);
      ContinuingIsTransitive(PostAll(Blank, ops).entries, l.entries, Post(l, all[|all| - 1]).entries);
    }
  }

  lemma {:induction false} EntriesAreTheStarts(ops: seq<Op>)
    ensures var entries := PostAll(Blank, ops).entries;
            && |entries| == |Begun(ops)|
            && forall i | 0 <= i < |entries| :: (entries[i].tx.id, entries[i].tx.start) == Begun(ops)[i]
  {
    if ops != [] {
      EntriesAreTheStarts(ops[..|ops| - 1]);
      PostContinues(PostAll(Blank, ops[..|ops| - 1]), ops[|ops| - 1]);
    }
  }

  /** Starts are active, ever stopped or evicted; stops ended a transaction or were unknown. */
  lemma {:induction false} EveryStartAndStopIsAccountedFor(ops: seq<Op>)
    ensures var l := PostAll(Blank, ops);
            && |Begun(ops)| == CountRunning(l.entries) + CountEnded(l.entries) + CountEvicted(l.entries)
            && Stops(ops) == CountEnded(l.entries) + l.unknownStops
            && CountRunning(l.entries) <= MAX_ACTIVE_TRANSACTIONS
  {
    EntriesAreTheStarts(ops);
    LiveCounts(PostAll(Blank, ops).entries, 0);
    if ops != [] {
      var before, op := ops[..|ops| - 1], ops[|ops| - 1];
      EveryStartAndStopIsAccountedFor(before);
      EntriesAreTheStarts(before);
      var l := PostAll(Blank, before);
      hide Begun;
      match op
      case Begin(id, start) =>
        var all := l.entries + [Entry(New(id, start), false)];
        LiveAppend(l.entries, Entry(New(id, start), false));
        if CountRunning(all) > MAX_ACTIVE_TRANSACTIONS { EvictingDropsFirst(all); }
      case Update(id, change) =>
        LiveCounts(l.entries, id);
        UpdatingUpdatesLast(l.entries, id, change);
        UpdatingContinues(l.entries, id, change);
    }
  }

  // ---- the object -----------------------------------------------------------------------

  /** The first index with the status, or the length. */
  method FirstWith(txs: seq<Transaction>, status: Status) returns (index: nat)
    ensures index <= |txs| && (index < |txs| <==> Count(txs, status) > 0)
    ensures index < |txs| ==>
              && txs[..index] + txs[index + 1..] == DropFirst(txs, status)
              && Count(DropFirst(txs, status), status) == Count(txs, status) - 1
  {
    index := 0;
    while index < |txs| && txs[index].status != status
      invariant 0 <= index <= |txs|
      invariant forall k | 0 <= k < index :: txs[k].status != status
    {
      index := index + 1;
    }
    FirstIsDropped(txs, status, index);
  }

  lemma {:induction false} FirstIsDropped(txs: seq<Transaction>, status: Status, index: nat)
    requires index <= |txs| && forall k | 0 <= k < index :: txs[k].status != status
    requires index < |txs| ==> txs[index].status == status
    ensures index < |txs| <==> Count(txs, status) > 0
    ensures index < |txs| ==>
              && txs[..index] + txs[index + 1..] == DropFirst(txs, status)
              && Count(DropFirst(txs, status), status) == Count(txs, status) - 1
  {
    if txs != [] {
      var front := Front(txs);
      if index < |front| {
        FirstIsDropped(front, status, index);
        assert txs[..index] + txs[index + 1..] == (front[..index] + front[index + 1..]) + [Last(txs)];
        SplitLast(DropFirst(front, status), Last(txs));
      } else {
        FirstIsDropped(front, status, |front|);
        if index < |txs| {
          assert txs[..index] + txs[index + 1..] == front;
        }
      }
    }
  }

  /** `iter().filter(..).count()`. */
  method CountWith(txs: seq<Transaction>, status: Status) returns (n: nat)
    ensures n == Count(txs, status)
  {
    n := 0;
    for i := 0 to |txs|
      invariant n == Count(txs[..i], status)
    {
      assert Front(txs[..i + 1]) == txs[..i];
      if txs[i].status == status {
        n := n + 1;
      }
    }
    assert txs[..|txs|] == txs;
  }

  lemma {:induction false} NothingToTrim(txs: seq<Transaction>, cap: nat)
    requires Count(txs, Stopped) <= cap
    ensures Trim(txs, cap) == txs
  {
    if txs != [] {
      NothingToTrim(Front(txs), if Last(txs).status == Stopped then cap - 1 else cap);
    }
  }

  /** Dropping the oldest stopped one while there are too many is trimming. */
  lemma {:induction false} DroppingIsTrimming(txs: seq<Transaction>, cap: nat)
    requires Count(txs, Stopped) > cap
    ensures Trim(DropFirst(txs, Stopped), cap) == Trim(txs, cap)
  {
    var front, last := Front(txs), Last(txs);
    if Count(front, Stopped) > 0 {
      SplitLast(DropFirst(front, Stopped), last);
      if last.status == Active {
        DroppingIsTrimming(front, cap);
      } else if cap > 0 {
        DroppingIsTrimming(front, cap - 1);
      } else {
        DroppingIsTrimming(front, 0);
      }
    }
  }

  class StationState {
    var transactions: seq<Transaction>
    var unknownStops: nat

    ghost function View(): State
      reads this
    {
      State(transactions, unknownStops)
    }

    constructor ()
      ensures View() == Empty
    {
      transactions, unknownStops := [], 0;
    }

    /** `active_mut`: searches from the end. */
    method ActiveIndex(id: int) returns (index: int)
      ensures -1 <= index < |transactions|
      ensures (index >= 0) == HasActive(transactions, id)
      ensures index >= 0 ==> index == LastActive(transactions, id)
      ensures index >= 0 ==> forall change ::
                UpdateLast(transactions, id, change) ==
                transactions[index := Changed(transactions[index], change)]
    {
      index := |transactions| - 1;
      while index >= 0 && !IsActive(transactions[index], id)
        invariant -1 <= index < |transactions|
        invariant forall k | index < k < |transactions| :: !IsActive(transactions[k], id)
      {
        index := index - 1;
      }
      forall change ensures index >= 0 ==>
        UpdateLast(transactions, id, change) == transactions[index := Changed(transactions[index], change)]
      {
        LastIsUpdated(transactions, id, change, index);
      }
      LastIsUpdated(transactions, id, Meter(Reading(None, None, None)), index);
    }

    method OnStart(id: int, start: StartInfo, cap: nat)
      modifies this
      ensures View() == Step(old(View()), Begin(id, start), cap)
    {
      transactions := transactions + [New(id, start)];
      var active := CountWith(transactions, Active);
      if active > MAX_ACTIVE_TRANSACTIONS {
        var oldest := FirstWith(transactions, Active);
        transactions := transactions[..oldest] + transactions[oldest + 1..];
      }
    }

    method OnStop(id: int, info: StopInfo, cap: nat)
      modifies this
      ensures View() == Step(old(View()), Update(id, Stop(info)), cap)
    {
      var index := ActiveIndex(id);
      if index < 0 {
        unknownStops := unknownStops + 1;
        return;
      }
      hide LastActive, HasActive;
      assert UpdateLast(transactions, id, Stop(info)) ==
             transactions[index := Changed(transactions[index], Stop(info))];
      hide UpdateLast;
      transactions := transactions[index := transactions[index].(status := Stopped, stop := Some(info))];
      ghost var marked := transactions;
      var stopped := CountWith(transactions, Stopped);
      while stopped > cap
        invariant stopped == Count(transactions, Stopped)
        invariant Trim(transactions, cap) == Trim(marked, cap)
        invariant unknownStops == old(unknownStops)
      {
        DroppingIsTrimming(transactions, cap);
        var oldest := FirstWith(transactions, Stopped);
        transactions := transactions[..oldest] + transactions[oldest + 1..];
        stopped := stopped - 1;
      }
      NothingToTrim(transactions, cap);
    }

    method OnMeter(id: int, reading: Reading, cap: nat) returns (changed: bool)
      modifies this
      ensures View() == Step(old(View()), Update(id, Meter(reading)), cap)
      ensures changed <==> HasActive(old(transactions), id) && reading.at.Some?
    {
      var index := ActiveIndex(id);
      if index < 0 {
        return false;
      }
      var tx := transactions[index];
      if reading.energyWh.Some? { tx := tx.(energyWh := reading.energyWh); }
      if reading.powerW.Some? { tx := tx.(powerW := reading.powerW); }
      if reading.at.Some? { tx := tx.(lastMeterAt := reading.at); }
      transactions := transactions[index := tx];
      return reading.at.Some?;
    }
  }

  lemma {:induction false} LastIsUpdated(txs: seq<Transaction>, id: int, change: Change, index: int)
    requires -1 <= index < |txs| && forall k | index < k < |txs| :: !IsActive(txs[k], id)
    requires index >= 0 ==> IsActive(txs[index], id)
    ensures (index >= 0) == HasActive(txs, id)
    ensures index >= 0 ==> UpdateLast(txs, id, change) == txs[index := Changed(txs[index], change)]
  {
    if txs != [] && index < |txs| - 1 {
      LastIsUpdated(Front(txs), id, change, index);
      if index >= 0 {
        var changed := Changed(txs[index], change);
        assert Front(txs)[index := changed] + [Last(txs)] == txs[index := changed];
      }
    } else if txs != [] {
      assert Front(txs) + [Changed(Last(txs), change)] == txs[index := Changed(txs[index], change)];
    }
  }
}
