/** What the engine keeps per station: bounded counters of received actions and a bounded
    history of frames. Both are specified against the unbounded list they summarise. */
module StationRecords {
  import opened Windows

  const MAX_ACTION_KEYS := 64
  const MAX_ACTION_KEY_CHARS := 64
  const OTHER_ACTION := "other"

  datatype Direction = In | Out

  /** A frame as the record sees it. `jsonSize` is the length of its JSON text and `cutSize` that
      of the marker frame that replaces it when it is too big for the history. */
  datatype Frame =
    | Call(id: string, action: string, jsonSize: nat, cutSize: nat)
    | CallResult(id: string, jsonSize: nat, cutSize: nat)
    | CallError(id: string, jsonSize: nat, cutSize: nat)

  // ---- counters of received actions -------------------------------------------------

  /** The key an action is counted under. */
  function KeyFor(byAction: map<string, nat>, action: string): string {
    if |action| <= MAX_ACTION_KEY_CHARS && (action in byAction || |byAction| < MAX_ACTION_KEYS)
    then action else OTHER_ACTION
  }

  function Get(m: map<string, nat>, key: string): nat {
    if key in m then m[key] else 0
  }

  function CountAction(byAction: map<string, nat>, action: string): map<string, nat> {
    var key := KeyFor(byAction, action);
    byAction[key := Get(byAction, key) + 1]
  }

  /** The counters after receiving `actions`, in that order. */
  function Counters(actions: seq<string>): map<string, nat> {
    if actions == [] then map[]
    else CountAction(Counters(actions[..|actions| - 1]), actions[|actions| - 1])
  }

  /** How often `action` was received. */
  function Occurrences(actions: seq<string>, action: string): nat {
    if actions == [] then 0
    else Occurrences(actions[..|actions| - 1], action) + if actions[|actions| - 1] == action then 1 else 0
  }

  /** How many of the received actions are not counted under their own name in `m`. */
  function Unnamed(actions: seq<string>, m: map<string, nat>): nat {
    if actions == [] then 0 else
      var a := actions[|actions| - 1];
      Unnamed(actions[..|actions| - 1], m) + if a in m && a != OTHER_ACTION then 0 else 1
  }

  /** Sum of all counters. */
  ghost function Sum(m: map<string, nat>): nat
    decreases |m|
  {
    if m == map[] then 0 else
      var k :| k in m;
      assert |m - {k}| < |m| by { assert (m - {k}).Keys == m.Keys - {k}; }
      m[k] + Sum(m - {k})
  }

  lemma {:induction false} SumSplits(m: map<string, nat>, key: string)
    requires key in m
    ensures Sum(m) == m[key] + Sum(m - {key})
    decreases |m|
  {
    var k :| k in m && Sum(m) == m[k] + Sum(m - {k});
    if k != key {
      assert |m - {k}| < |m| by { assert (m - {k}).Keys == m.Keys - {k}; }
      assert |m - {key}| < |m| by { assert (m - {key}).Keys == m.Keys - {key}; }
      SumSplits(m - {k}, key);
      SumSplits(m - {key}, k);
      assert m - {k} - {key} == m - {key} - {k};
    }
  }

  lemma SumAfterCount(m: map<string, nat>, key: string)
    ensures Sum(m[key := Get(m, key) + 1]) == Sum(m) + 1
  {
    var m' := m[key := Get(m, key) + 1];
    SumSplits(m', key);
    assert m' - {key} == m - {key};
    if key in m {
      SumSplits(m, key);
    } else {
      assert m - {key} == m;
    }
  }

  lemma {:induction false} UnnamedIgnoresOtherNames(actions: seq<string>, m: map<string, nat>, m': map<string, nat>)
    requires forall a | a in actions && a != OTHER_ACTION :: a in m <==> a in m'
    ensures Unnamed(actions, m') == Unnamed(actions, m)
  {
    if actions != [] {
      UnnamedIgnoresOtherNames(actions[..|actions| - 1], m, m');
    }
  }

  lemma {:induction false} AbsentOccursNever(actions: seq<string>, action: string)
    requires action !in actions
    ensures Occurrences(actions, action) == 0
  {
    if actions != [] {
      AbsentOccursNever(actions[..|actions| - 1], action);
    }
  }

  /** The counters add up to the number of CALLs. */
  lemma {:induction false} CountersAddUp(actions: seq<string>)
    ensures Sum(Counters(actions)) == |actions|
  {
    hide Counters, Sum, KeyFor, Get;
    if actions == [] {
      NothingToCount();
    } else {
      var m := Counters(actions[..|actions| - 1]);
      CountersAddUp(actions[..|actions| - 1]);
      LastIsCounted(actions);
      SumAfterCount(m, KeyFor(m, actions[|actions| - 1]));
    }
  }

  lemma NothingToCount()
    ensures Counters([]) == map[] && Sum(map[]) == 0
  {
  }

  lemma LastIsCounted(actions: seq<string>)
    requires actions != []
    ensures Counters(actions) == CountAction(Counters(actions[..|actions| - 1]), actions[|actions| - 1])
  {
    hide CountAction;
  }

  /** There are at most 65 counters, and an action without one came when all were taken. */
  lemma {:induction false} CountersAreBounded(actions: seq<string>)
    ensures |Counters(actions)| <= 65
    ensures |Counters(actions)| == 65 ==> "other" in Counters(actions)
    ensures forall k | k in Counters(actions) :: |k| <= 64
    ensures forall a | a in actions && |a| <= 64 && a !in Counters(actions) :: |Counters(actions)| >= 64
  {
    if actions != [] {
      var before, a := actions[..|actions| - 1], actions[|actions| - 1];
      CountersAreBounded(before);
      var m := Counters(before);
      assert Counters(actions).Keys == m.Keys + {KeyFor(m, a)};
      assert forall x | x in actions :: x in before || x == a;
    }
  }

  /** Every counter other than `other` is the exact number of CALLs with that action. */
  lemma {:induction false} NamedCountersAreExact(actions: seq<string>, k: string)
    requires k in Counters(actions) && k != OTHER_ACTION
    ensures Counters(actions)[k] == Occurrences(actions, k)
  {
    var before, a := actions[..|actions| - 1], actions[|actions| - 1];
    CountersAreBounded(before);
    if k in Counters(before) {
      NamedCountersAreExact(before, k);
    } else {
      AbsentOccursNever(before, k);
    }
  }

  /** `other` counts exactly the CALLs that have no counter of their own. */
  lemma {:induction false} OtherIsTheRest(actions: seq<string>)
    ensures Get(Counters(actions), OTHER_ACTION) == Unnamed(actions, Counters(actions))
  {
    if actions != [] {
      var before, a := actions[..|actions| - 1], actions[|actions| - 1];
      OtherIsTheRest(before);
      CountersAreBounded(before);
      UnnamedIgnoresOtherNames(before, Counters(before), Counters(actions));
    }
  }

  // ---- frame history ----------------------------------------------------------------

  /** One stored frame; `cut` says that the marker is stored in its place. */
  datatype FrameEntry = FrameEntry(direction: Direction, frame: Frame, cut: bool)

  /** Its size is that of the stored frame as JSON text. */
  type HistoryItem = Sized<FrameEntry>

  /** What is stored of a frame: a frame over the byte cap is replaced by its marker. */
  function Stored(direction: Direction, frame: Frame, bytesCap: nat): HistoryItem {
    if frame.jsonSize > bytesCap
    then Sized(FrameEntry(direction, frame, true), frame.cutSize)
    else Sized(FrameEntry(direction, frame, false), frame.jsonSize)
  }

  /** A stored frame counts as what is stored; it fits the cap unless its marker does not. */
  lemma StoredIsTheFrameOrItsMarker(direction: Direction, frame: Frame, bytesCap: nat)
    ensures var item := Stored(direction, frame, bytesCap);
            && item.value.direction == direction && item.value.frame == frame
            && (item.value.cut <==> bytesCap < frame.jsonSize)
            && item.bytes == (if item.value.cut then frame.cutSize else frame.jsonSize)
            && (bytesCap < item.bytes <==> bytesCap < frame.jsonSize && bytesCap < frame.cutSize)
  {
  }

  /** Drops the oldest frames until `item` fits or nothing is left. */
  method MakeRoom(history: seq<HistoryItem>, historyBytes: nat, bytes: nat, cap: nat, bytesCap: nat,
                  ghost recorded: seq<HistoryItem>, ghost item: HistoryItem)
    returns (history': seq<HistoryItem>, historyBytes': nat)
    requires cap > 0 && bytes == item.bytes
    requires Evicting(recorded, history, item, cap, bytesCap) && historyBytes == Total(history)
    ensures Evicting(recorded, history', item, cap, bytesCap) && historyBytes' == Total(history')
    ensures !NoRoom(history', item, cap, bytesCap) || history' == []
  {
    hide Evicting, Total;
    history', historyBytes' := history, historyBytes;
    while |history'| >= cap || (historyBytes' + bytes > bytesCap && history' != [])
      invariant Evicting(recorded, history', item, cap, bytesCap) && historyBytes' == Total(history')
      decreases |history'|
    {
      EvictOne(recorded, history', item, cap, bytesCap);
      historyBytes' := historyBytes' - history'[0].bytes;
      history' := history'[1..];
    }
  }

  /** `history` and `historyBytes` after one more frame. `recorded` is every item ever offered. */
  method AppendHistory(history: seq<HistoryItem>, historyBytes: nat, direction: Direction, frame: Frame,
                       cap: nat, bytesCap: nat, ghost recorded: seq<HistoryItem>)
    returns (history': seq<HistoryItem>, historyBytes': nat)
    requires LongestTail(recorded, history, cap, bytesCap)
    requires historyBytes == Total(history)
    ensures LongestTail(recorded + [Stored(direction, frame, bytesCap)], history', cap, bytesCap)
    ensures historyBytes' == Total(history')
  {
    assert cap == 0 ==> history == [];
    hide Evicting, LongestTail, Total;
    ghost var item := Stored(direction, frame, bytesCap);
    history', historyBytes' := history, historyBytes;
    StartEvicting(recorded, history, item, cap, bytesCap);
    if cap > 0 {
      var bytes, cut := frame.jsonSize, false;
      if bytes > bytesCap {
        bytes, cut := frame.cutSize, true;
      }
      history', historyBytes' := MakeRoom(history, historyBytes, bytes, cap, bytesCap, recorded, item);
      EvictingEnds(recorded, history', item, cap, bytesCap);
      if historyBytes' + bytes <= bytesCap {
        historyBytes' := historyBytes' + bytes;
        history' := history' + [Sized(FrameEntry(direction, frame, cut), bytes)];
      }
    } else {
      EvictingEnds(recorded, history', item, cap, bytesCap);
    }
  }

  // ---- both together ----------------------------------------------------------------

  /** The bounded part of a record. */
  datatype Log = Log(receivedCalls: nat, byAction: map<string, nat>, history: seq<HistoryItem>, historyBytes: nat)

  /** Everything a record was ever told. */
  datatype Past = Past(actions: seq<string>, recorded: seq<HistoryItem>)

  const EmptyLog := Log(0, map[], [], 0)
  const NoPast := Past([], [])

  function AfterFrame(past: Past, direction: Direction, frame: Frame, bytesCap: nat): Past {
    Past(if direction == In && frame.Call? then past.actions + [frame.action] else past.actions,
         past.recorded + [Stored(direction, frame, bytesCap)])
  }

  ghost predicate Summarises(log: Log, past: Past, cap: nat, bytesCap: nat) {
    && log.receivedCalls == |past.actions|
    && log.byAction == Counters(past.actions)
    && LongestTail(past.recorded, log.history, cap, bytesCap)
    && log.historyBytes == Total(log.history)
  }

  lemma EmptySummarises(cap: nat, bytesCap: nat)
    ensures Summarises(EmptyLog, NoPast, cap, bytesCap)
  {
  }

  method CountCall(log: Log, action: string, ghost actions: seq<string>) returns (log': Log)
    requires log.receivedCalls == |actions| && log.byAction == Counters(actions)
    ensures log'.receivedCalls == |actions| + 1 && log'.byAction == Counters(actions + [action])
    ensures log'.byAction == log.byAction[action := Get(log.byAction, action) + 1]
            || log'.byAction == log.byAction["other" := Get(log.byAction, "other") + 1]
    ensures log'.history == log.history && log'.historyBytes == log.historyBytes
  {
    var key := KeyFor(log.byAction, action);
    log' := log.(receivedCalls := log.receivedCalls + 1, byAction := log.byAction[key := Get(log.byAction, key) + 1]);
    assert (actions + [action])[..|actions|] == actions;
  }

  /** The part of `record_frame` that works on the record: the counters, then the history. */
  method LogFrame(log: Log, direction: Direction, frame: Frame, cap: nat, bytesCap: nat, ghost past: Past)
    returns (log': Log)
    requires Summarises(log, past, cap, bytesCap)
    ensures Summarises(log', AfterFrame(past, direction, frame, bytesCap), cap, bytesCap)
    ensures direction == In && frame.Call? ==>
      && log'.receivedCalls == log.receivedCalls + 1
      && (log'.byAction == log.byAction[frame.action := Get(log.byAction, frame.action) + 1]
          || log'.byAction == log.byAction["other" := Get(log.byAction, "other") + 1])
    ensures !(direction == In && frame.Call?) ==>
      log'.receivedCalls == log.receivedCalls && log'.byAction == log.byAction
  {
    log' := log;
    if direction == In && frame.Call? {
      log' := CountCall(log, frame.action, past.actions);
    }
    var history, historyBytes := AppendHistory(
      log.history, log.historyBytes, direction, frame, cap, bytesCap, past.recorded);
    log' := log'.(history := history, historyBytes := historyBytes);
  }
}
