/** What a transaction holds: its start, the last reading of each kind that was meant for it, and its
    stop. Told for every run by the operations alone. */
module Readings {
  import opened Options
  import opened Transactions

  datatype Kind = Energy | Power | Time

  function ValueIn(change: Change, kind: Kind): Option<int> {
    if change.Stop? then None else
    match kind
    case Energy => change.reading.energyWh
    case Power => change.reading.powerW
    case Time => change.reading.at
  }

  /** The last value of the kind that is one. */
  function LastValue(changes: seq<Change>, kind: Kind): Option<int> {
    if changes == [] then None else
    var value := ValueIn(changes[|changes| - 1], kind);
    if value.Some? then value else LastValue(changes[..|changes| - 1], kind)
  }

  /** The transaction is what its start and these changes make of it; a stop can only be the last. */
  ghost predicate Holds(tx: Transaction, id: int, start: StartInfo, changes: seq<Change>) {
    && tx.id == id && tx.start == start
    && tx.energyWh == LastValue(changes, Energy)
    && tx.powerW == LastValue(changes, Power)
    && tx.lastMeterAt == LastValue(changes, Time)
    && (forall i | 0 <= i < |changes| - 1 :: !changes[i].Stop?)
    && var stopped := changes != [] && changes[|changes| - 1].Stop?;
       && tx.status == (if stopped then Stopped else Active)
       && tx.stop == if stopped then Some(changes[|changes| - 1].info) else None
  }

  lemma LastAppend(changes: seq<Change>, change: Change, kind: Kind)
    ensures LastValue(changes + [change], kind) ==
            if ValueIn(change, kind).Some? then ValueIn(change, kind) else LastValue(changes, kind)
  {
    assert (changes + [change])[..|changes|] == changes;
  }

  lemma NewHolds(id: int, start: StartInfo)
    ensures Holds(New(id, start), id, start, [])
  {
  }

  lemma OneMoreChange(tx: Transaction, id: int, start: StartInfo, changes: seq<Change>, change: Change)
    requires Holds(tx, id, start, changes) && tx.status == Active
    ensures Holds(Changed(tx, change), id, start, changes + [change])
  {
    LastAppend(changes, change, Energy);
    LastAppend(changes, change, Power);
    LastAppend(changes, change, Time);
    hide LastValue;
  }

  /** The latest entry with the id that still runs. */
  function LatestRunning(entries: seq<Entry>, id: int): (r: Option<nat>)
    ensures r.Some? ==> r.value < |entries| && Running(entries[r.value]) && entries[r.value].tx.id == id
    ensures forall k | (if r.Some? then r.value + 1 else 0) <= k < |entries| ::
              !(Running(entries[k]) && entries[k].tx.id == id)
  {
    if entries == [] then None else
    var last := entries[|entries| - 1];
    if Running(last) && last.tx.id == id then Some(|entries| - 1) else LatestRunning(entries[..|entries| - 1], id)
  }

  /** The changes meant for the `i`-th start: those that named its id when it was the latest that ran
      under it. */
  function MeantFor(ops: seq<Op>, i: nat): seq<Change> {
    if ops == [] then [] else
    var before, op := ops[..|ops| - 1], ops[|ops| - 1];
    MeantFor(before, i) +
    if op.Update? && LatestRunning(PostAll(Blank, before).entries, op.id) == Some(i) then [op.change] else []
  }

  lemma {:induction false} UpdatingChangesTheLatest(entries: seq<Entry>, id: int, change: Change)
    ensures var r := LatestRunning(entries, id);
            && HasRunning(entries, id) == r.Some?
            && UpdateEntry(entries, id, change) ==
               if r.None? then entries
               else entries[r.value := entries[r.value].(tx := Changed(entries[r.value].tx, change))]
  {
    if entries != [] {
      var front, last := entries[..|entries| - 1], entries[|entries| - 1];
      assert entries == front + [last];
      if !(Running(last) && last.tx.id == id) {
        UpdatingChangesTheLatest(front, id, change);
      }
    }
  }

  /** Dropping one as too many changes no transaction. */
  lemma {:induction false} EvictingKeepsTransactions(entries: seq<Entry>)
    ensures |EvictFirst(entries)| == |entries|
    ensures forall i | 0 <= i < |entries| :: EvictFirst(entries)[i].tx == entries[i].tx
  {
    if entries != [] {
      EvictingKeepsTransactions(entries[..|entries| - 1]);
    }
  }

  lemma LastOperation(ops: seq<Op>, i: nat)
    requires ops != []
    ensures var before, op := ops[..|ops| - 1], ops[|ops| - 1];
            && PostAll(Blank, ops) == Post(PostAll(Blank, before), op)
            && Begun(ops) == Begun(before) + (if op.Begin? then [(op.id, op.start)] else [])
            && MeantFor(ops, i) == MeantFor(before, i) +
               if op.Update? && LatestRunning(PostAll(Blank, before).entries, op.id) == Some(i) then [op.change] else []
  {
    hide Post, LatestRunning;
  }

  /** What one operation does to the transactions of the ledger. */
  lemma PostChanges(l: Ledger, op: Op)
    ensures var after := Post(l, op).entries;
            if op.Begin? then
              && |after| == |l.entries| + 1 && after[|l.entries|].tx == New(op.id, op.start)
              && forall i | 0 <= i < |l.entries| :: after[i].tx == l.entries[i].tx
            else
              && |after| == |l.entries|
              && forall i | 0 <= i < |after| :: after[i].tx ==
                   if LatestRunning(l.entries, op.id) == Some(i) then Changed(l.entries[i].tx, op.change)
                   else l.entries[i].tx
  {
    hide EvictFirst, UpdateEntry, LatestRunning, Changed, CountRunning, HasRunning;
    match op
    case Begin(id, start) => EvictingKeepsTransactions(l.entries + [Entry(New(id, start), false)]);
    case Update(id, change) => UpdatingChangesTheLatest(l.entries, id, change);
  }

  /** In every run, the `i`-th transaction ever started holds its start, the last reading of each kind
      that was meant for it, and its stop if one was. */
  lemma {:induction false} TransactionsHoldTheirReadings(ops: seq<Op>, i: nat)
    requires i < |PostAll(Blank, ops).entries|
    ensures i < |Begun(ops)|
    ensures Holds(PostAll(Blank, ops).entries[i].tx, Begun(ops)[i].0, Begun(ops)[i].1, MeantFor(ops, i))
  {
    if ops == [] {
    } else {
      var before, op := ops[..|ops| - 1], ops[|ops| - 1];
      var l := PostAll(Blank, before);
      EntriesAreTheStarts(ops);
      EntriesAreTheStarts(before);
      LastOperation(ops, i);
      PostChanges(l, op);
      NothingMeantYet(before, i);
      hide *;
      if i == |l.entries| {
        NewHolds(op.id, op.start);
        assert MeantFor(ops, i) == [] && Begun(ops)[i] == (op.id, op.start);
      } else {
        TransactionsHoldTheirReadings(before, i);
        assert Begun(ops)[i] == Begun(before)[i];
        if op.Update? && LatestRunning(l.entries, op.id) == Some(i) {
          RunningIsActive(l.entries[i]);
          OneMoreChange(l.entries[i].tx, Begun(before)[i].0, Begun(before)[i].1, MeantFor(before, i), op.change);
        } else {
          assert MeantFor(ops, i) == MeantFor(before, i);
        }
      }
    }
  }

  lemma RunningIsActive(e: Entry)
    requires Running(e)
    ensures e.tx.status == Active
  {
  }

  lemma {:induction false} NothingMeantYet(ops: seq<Op>, i: nat)
    ensures i >= |PostAll(Blank, ops).entries| ==> MeantFor(ops, i) == []
  {
    if ops != [] {
      var before, op := ops[..|ops| - 1], ops[|ops| - 1];
      LastOperation(ops, i);
      PostChanges(PostAll(Blank, before), op);
      hide *;
      NothingMeantYet(before, i);
    }
  }

  /** A start in a list with at most 256 active transactions. With fewer it is added at the end; with
      256 the active one that was started first goes as well, and nothing else does. */
  lemma StartsMakeRoom(s: State, id: int, start: StartInfo, cap: nat) returns (i: nat)
    requires Count(s.transactions, Active) <= 256
    ensures var tx := Transaction(id, start, Active, None, None, None, None);
            var txs, s' := s.transactions, Step(s, Begin(id, start), cap);
            && s'.unknownStops == s.unknownStops
            && (Count(txs, Active) < 256 ==> s'.transactions == txs + [tx])
            && (Count(txs, Active) == 256 ==>
                  && i < |txs| && txs[i].status == Active && (forall k | 0 <= k < i :: txs[k].status != Active)
                  && s'.transactions == txs[..i] + txs[i + 1..] + [tx])
  {
    i := 0;
    var txs, tx := s.transactions, New(id, start);
    SplitLast(txs, tx);
    if Count(txs, Active) == 256 {
      i := FirstActive(txs);
      FirstIsDropped(txs, Active, i);
      assert DropFirst(txs + [tx], Active) == DropFirst(txs, Active) + [tx];
      hide DropFirst, Count;
    }
  }

  lemma {:induction false} FirstActive(txs: seq<Transaction>) returns (i: nat)
    requires Count(txs, Active) > 0
    ensures i < |txs| && txs[i].status == Active && forall k | 0 <= k < i :: txs[k].status != Active
  {
    if Count(Front(txs), Active) > 0 {
      i := FirstActive(Front(txs));
    } else {
      i := |txs| - 1;
      NoneActive(Front(txs));
    }
  }

  lemma {:induction false} NoneActive(txs: seq<Transaction>)
    requires Count(txs, Active) == 0
    ensures forall k | 0 <= k < |txs| :: txs[k].status != Active
  {
    if txs != [] {
      NoneActive(Front(txs));
    }
  }
}
