/** The CALLs a script remembers, and how its steps consume them.

    `Memory.all` is every CALL ever remembered; the program holds `all[first..]`. `taken` is the
    history of consumed CALLs. */
module Script {
  import opened Options
  import opened Windows
  import Json

  const SEEN_CAP := 10_000

  datatype Seen = Seen(station: string, action: string, payload: Json.Value, consumed: bool)

  /** An inbound CALL; `text` is the length of its payload as text. */
  datatype Call = Call(station: string, action: string, payload: Json.Value, text: nat)

  /** What a `wait_call` step asks for. */
  datatype Wish = Wish(station: Option<string>, action: string, contains: Option<Json.Value>)

  datatype Memory = Memory(all: seq<Sized<Seen>>, first: nat, taken: seq<nat>)

  const Empty := Memory([], 0, [])

  predicate Matches(seen: Seen, wish: Wish) {
    && !seen.consumed
    && seen.action == wish.action
    && (wish.station.Some? ==> seen.station == wish.station.value)
    && (wish.contains.Some? ==> Json.Subset(wish.contains.value, seen.payload))
  }

  /** The oldest CALL from `from` on that matches. */
  function FirstMatch(calls: seq<Sized<Seen>>, wish: Wish, from: nat): (r: Option<nat>)
    requires from <= |calls|
    ensures r.Some? ==> from <= r.value < |calls| && Matches(calls[r.value].value, wish)
    ensures r.Some? ==> forall i | from <= i < r.value :: !Matches(calls[i].value, wish)
    ensures r.None? ==> forall i | from <= i < |calls| :: !Matches(calls[i].value, wish)
    decreases |calls| - from
  {
    if from == |calls| then None
    else if Matches(calls[from].value, wish) then Some(from)
    else FirstMatch(calls, wish, from + 1)
  }

  /** `weak` asks for no more than `strong`. */
  predicate Weaker(weak: Wish, strong: Wish) {
    && weak.action == strong.action
    && (weak.station.Some? ==> weak.station == strong.station)
    && (weak.contains.Some? ==> strong.contains.Some? && Json.Subset(weak.contains.value, strong.contains.value))
  }

  /** Asking for less succeeds whenever asking for more does, at the same CALL or an earlier one. */
  lemma WeakerWishesSucceedEarlier(calls: seq<Sized<Seen>>, weak: Wish, strong: Wish, from: nat)
    requires from <= |calls| && Weaker(weak, strong) && FirstMatch(calls, strong, from).Some?
    ensures FirstMatch(calls, weak, from).Some?
    ensures FirstMatch(calls, weak, from).value <= FirstMatch(calls, strong, from).value
  {
    var i := FirstMatch(calls, strong, from).value;
    if weak.contains.Some? {
      Json.SubsetIsTransitive(weak.contains.value, strong.contains.value, calls[i].value.payload);
    }
    assert Matches(calls[i].value, weak);
  }

  // ---- steps -----------------------------------------------------------------------------------

  /** What is remembered of a CALL: the payload only if some step matches on it. */
  function Remembered(call: Call, needsPayload: bool): Sized<Seen> {
    Sized(Seen(call.station, call.action, if needsPayload then call.payload else Json.Null, false),
          |call.station| + |call.action| + 64 + if needsPayload then call.text else 0)
  }

  datatype Op = Record(call: Call) | Take(wish: Wish)

  datatype Limits = Limits(wanted: map<string, bool>, maxBytes: nat)

  function Shrink(all: seq<Sized<Seen>>, first: nat, maxBytes: nat): (r: nat)
    requires first <= |all|
    ensures r <= |all|
    decreases |all| - first
  {
    if first + 1 < |all| && !Fits(all[first..], SEEN_CAP, maxBytes) then Shrink(all, first + 1, maxBytes) else first
  }

  function Consume(all: seq<Sized<Seen>>, i: nat): (r: seq<Sized<Seen>>)
    requires i < |all|
    ensures |r| == |all|
  {
    all[i := all[i].(value := all[i].value.(consumed := true))]
  }

  function Step(m: Memory, op: Op, limits: Limits): (r: Memory)
    requires m.first <= |m.all|
    ensures r.first <= |r.all|
  {
    match op
    case Record(call) =>
      if call.action !in limits.wanted then m
      else
        var all := m.all + [Remembered(call, limits.wanted[call.action])];
        Memory(all, Shrink(all, m.first, limits.maxBytes), m.taken)
    case Take(wish) =>
      match FirstMatch(m.all, wish, m.first)
      case None => m
      case Some(i) => Memory(Consume(m.all, i), m.first, m.taken + [i])
  }

  ghost predicate Windowed(m: Memory, limits: Limits) {
    NewestWindow(m.all, 0, m.first, SEEN_CAP, limits.maxBytes)
  }

  /** The consumed CALLs are exactly the taken ones, and none was taken twice. */
  ghost predicate TakenOnce(m: Memory) {
    && (forall i | 0 <= i < |m.all| :: m.all[i].value.consumed <==> i in m.taken)
    && (forall i | i in m.taken :: i < |m.all|)
    && forall i, j | 0 <= i < j < |m.taken| :: m.taken[i] != m.taken[j]
  }

  function Run(m: Memory, ops: seq<Op>, limits: Limits): (r: Memory)
    requires m.first <= |m.all|
    ensures r.first <= |r.all|
    decreases |ops|
  {
    if ops == [] then m else Run(Step(m, ops[0], limits), ops[1..], limits)
  }

  lemma {:induction false} ShrinkEndsWindowed(all: seq<Sized<Seen>>, first: nat, maxBytes: nat)
    requires Overfull(all, 0, first, SEEN_CAP, maxBytes)
    ensures NewestWindow(all, 0, Shrink(all, first, maxBytes), SEEN_CAP, maxBytes)
    decreases |all| - first
  {
    if first + 1 < |all| && !Fits(all[first..], SEEN_CAP, maxBytes) {
      DropOverfull(all, 0, first, SEEN_CAP, maxBytes);
      ShrinkEndsWindowed(all, first + 1, maxBytes);
    }
  }

  lemma RecordingKeepsInv(m: Memory, call: Call, limits: Limits)
    requires Windowed(m, limits) && TakenOnce(m)
    ensures Windowed(Step(m, Record(call), limits), limits) && TakenOnce(Step(m, Record(call), limits))
  {
    if call.action in limits.wanted {
      var item := Remembered(call, limits.wanted[call.action]);
      AppendOverfull(m.all, item, 0, m.first, SEEN_CAP, limits.maxBytes);
      ShrinkEndsWindowed(m.all + [item], m.first, limits.maxBytes);
      hide Shrink, Overfull, NewestWindow;
    }
  }

  lemma TakingKeepsTakenOnce(m: Memory, i: nat)
    requires TakenOnce(m) && i < |m.all| && !m.all[i].value.consumed
    ensures TakenOnce(Memory(Consume(m.all, i), m.first, m.taken + [i]))
  {
  }

  lemma TakingKeepsInv(m: Memory, wish: Wish, limits: Limits)
    requires Windowed(m, limits) && TakenOnce(m)
    ensures Windowed(Step(m, Take(wish), limits), limits) && TakenOnce(Step(m, Take(wish), limits))
  {
    var r := FirstMatch(m.all, wish, m.first);
    hide NewestWindow, TakenOnce;
    if r.Some? {
      assert !m.all[r.value].value.consumed;
      EditKeepsWindow(m.all, Consume(m.all, r.value), 0, m.first, SEEN_CAP, limits.maxBytes);
      TakingKeepsTakenOnce(m, r.value);
    }
  }

  lemma StepKeepsInv(m: Memory, op: Op, limits: Limits)
    requires Windowed(m, limits) && TakenOnce(m)
    ensures Windowed(Step(m, op, limits), limits) && TakenOnce(Step(m, op, limits))
  {
    match op
    case Record(call) => RecordingKeepsInv(m, call, limits);
    case Take(wish) => TakingKeepsInv(m, wish, limits);
  }

  /** In every run the memory is the longest tail that fits (or the newest CALL alone), and each
      remembered CALL is consumed at most once. */
  lemma {:induction false} EveryCallIsTakenAtMostOnce(m: Memory, ops: seq<Op>, limits: Limits)
    requires Windowed(m, limits) && TakenOnce(m)
    ensures Windowed(Run(m, ops, limits), limits) && TakenOnce(Run(m, ops, limits))
    ensures NewestWindow(Run(m, ops, limits).all, 0, Run(m, ops, limits).first, 10_000, limits.maxBytes)
    decreases |ops|
  {
    if ops != [] {
      StepKeepsInv(m, ops[0], limits);
      EveryCallIsTakenAtMostOnce(Step(m, ops[0], limits), ops[1..], limits);
    }
  }

  /** A CALL once taken stays taken, and is never what a later step takes. */
  lemma TakingIsFinal(m: Memory, ops: seq<Op>, limits: Limits)
    requires Windowed(m, limits) && TakenOnce(m)
    ensures m.taken <= Run(m, ops, limits).taken
    decreases |ops|
  {
    if ops != [] {
      StepKeepsInv(m, ops[0], limits);
      TakingIsFinal(Step(m, ops[0], limits), ops[1..], limits);
    }
  }

  // ---- what a run remembers and takes, told by its operations --------------------------------------

  /** The CALLs some step waits for, in order. */
  function Wished(ops: seq<Op>, wanted: map<string, bool>): seq<Call> {
    if ops == [] then [] else
    var op := ops[|ops| - 1];
    Wished(ops[..|ops| - 1], wanted) + if op.Record? && op.call.action in wanted then [op.call] else []
  }

  /** Entry `seen` stands for `call`: its payload is kept only if a step looks at it. */
  predicate StandsFor(seen: Sized<Seen>, call: Call, wanted: map<string, bool>) {
    && call.action in wanted
    && seen.value.station == call.station && seen.value.action == call.action
    && seen.value.payload == (if wanted[call.action] then call.payload else Json.Null)
    && seen.bytes == |call.station| + |call.action| + 64 + if wanted[call.action] then call.text else 0
  }

  lemma RunAppend(m: Memory, ops: seq<Op>, op: Op, limits: Limits)
    requires m.first <= |m.all|
    ensures Run(m, ops + [op], limits) == Step(Run(m, ops, limits), op, limits)
    decreases |ops|
  {
    hide Step;
    if ops == [] {
      assert [] + [op] == [op] && [op][1..] == [];
      assert Run(Step(m, op, limits), [], limits) == Step(m, op, limits);
    } else {
      assert (ops + [op])[0] == ops[0] && (ops + [op])[1..] == ops[1..] + [op];
      RunAppend(Step(m, ops[0], limits), ops[1..], op, limits);
    }
  }

  /** Entry `i` is the `i`-th CALL that some step waits for. */
  lemma {:induction false} CallsAreRemembered(ops: seq<Op>, limits: Limits)
    ensures var all, calls := Run(Empty, ops, limits).all, Wished(ops, limits.wanted);
            |all| == |calls| && forall i | 0 <= i < |all| :: StandsFor(all[i], calls[i], limits.wanted)
  {
    if ops == [] {
    } else {
      var before, op := ops[..|ops| - 1], ops[|ops| - 1];
      CallsAreRemembered(before, limits);
      assert ops == before + [op];
      RunAppend(Empty, before, op, limits);
      StepRemembers(Run(Empty, before, limits), op, limits);
      var m, all := Run(Empty, before, limits), Run(Empty, ops, limits).all;
      hide Run, Step, StandsFor;
      forall i | 0 <= i < |all| ensures |all| == |Wished(ops, limits.wanted)|
        ensures StandsFor(all[i], Wished(ops, limits.wanted)[i], limits.wanted)
      {
        if i < |m.all| {
          SameEntry(m.all[i], all[i], Wished(before, limits.wanted)[i], limits.wanted);
        }
      }
    }
  }

  /** An entry changes in nothing but being consumed. */
  predicate Same(before: Sized<Seen>, after: Sized<Seen>) {
    before.(value := before.value.(consumed := after.value.consumed)) == after
  }

  lemma SameEntry(before: Sized<Seen>, after: Sized<Seen>, call: Call, wanted: map<string, bool>)
    requires Same(before, after) && StandsFor(before, call, wanted)
    ensures StandsFor(after, call, wanted)
  {
  }

  lemma StepRemembers(m: Memory, op: Op, limits: Limits)
    requires m.first <= |m.all|
    ensures var all := Step(m, op, limits).all;
            && |all| == |m.all| + (if op.Record? && op.call.action in limits.wanted then 1 else 0)
            && (|all| > |m.all| ==> op.Record? && StandsFor(all[|m.all|], op.call, limits.wanted))
            && forall i | 0 <= i < |m.all| :: Same(m.all[i], all[i])
  {
  }

  /** Entry `i` is held, was never taken, and is what the step waits for. */
  predicate Suits(m: Memory, wish: Wish, i: nat) {
    && m.first <= i < |m.all| && i !in m.taken
    && var call := m.all[i].value;
       && call.action == wish.action
       && (wish.station.None? || call.station == wish.station.value)
       && (wish.contains.None? || Json.Subset(wish.contains.value, call.payload))
  }

  /** A step takes the oldest CALL that suits it, and nothing if none does. */
  lemma TheOldestIsTaken(m: Memory, wish: Wish, limits: Limits)
    requires Windowed(m, limits) && TakenOnce(m)
    ensures var m' := Step(m, Take(wish), limits);
            && (forall i: nat | Suits(m, wish, i) && (forall j: nat | j < i :: !Suits(m, wish, j)) ::
                  m'.taken == m.taken + [i])
            && ((forall i: nat :: !Suits(m, wish, i)) ==> m' == m)
            && m'.first == m.first && |m'.all| == |m.all|
            && forall i | 0 <= i < |m.all| :: Same(m.all[i], m'.all[i])
  {
    StepRemembers(m, Take(wish), limits);
    forall i: nat | m.first <= i < |m.all| ensures Matches(m.all[i].value, wish) <==> Suits(m, wish, i) {
    }
    hide Windowed, NewestWindow, TakenOnce, Matches, Json.Subset;
    var r := FirstMatch(m.all, wish, m.first);
    if r.Some? {
      assert Suits(m, wish, r.value);
    }
  }

  lemma SameTotal(all: seq<Sized<Seen>>, first: nat, i: nat)
    requires first + i < |all|
    ensures var calls := all[first..];
            && Consume(all, first + i)[first..] == Consume(calls, i)
            && Total(Consume(all, first + i)[first..]) == Total(calls)
  {
    SameSizesSameTotal(all[first..], Consume(all, first + i)[first..]);
  }

  lemma WindowOf(m: Memory, limits: Limits)
    requires Windowed(m, limits)
    ensures NewestWindow(m.all, 0, m.first, SEEN_CAP, limits.maxBytes)
  {
  }

  // ---- what is worth remembering -----------------------------------------------------------------

  /** The actions some step waits for, and whether one of those steps looks at the payload. */
  function Wanted(wishes: seq<Wish>): map<string, bool> {
    if wishes == [] then map[] else
    var before, w := Wanted(wishes[..|wishes| - 1]), wishes[|wishes| - 1];
    before[w.action := (w.action in before && before[w.action]) || w.contains.Some?]
  }

  lemma {:induction false} WantedKnowsEveryWish(wishes: seq<Wish>, wish: Wish)
    requires wish in wishes
    ensures wish.action in Wanted(wishes) && (wish.contains.Some? ==> Wanted(wishes)[wish.action])
  {
    var n := |wishes| - 1;
    if wish != wishes[n] {
      assert wishes == wishes[..n] + [wishes[n]];
      WantedKnowsEveryWish(wishes[..n], wish);
    }
  }

  /** The collected actions are exactly those of the steps, with the payload exactly if one of the steps
      for the action looks at it. */
  lemma {:induction false} WantedIsExact(wishes: seq<Wish>, action: string)
    ensures action in Wanted(wishes) <==> exists w :: w in wishes && w.action == action
    ensures action in Wanted(wishes) ==>
              (Wanted(wishes)[action] <==> exists w :: w in wishes && w.action == action && w.contains.Some?)
  {
    if wishes == [] {
    } else {
      var n := |wishes| - 1;
      WantedIsExact(wishes[..n], action);
      assert forall w :: w in wishes <==> w in wishes[..n] || w == wishes[n];
      assert wishes[n] in wishes;
    }
  }

  /** No step of the script can tell what is remembered of a CALL from the CALL itself. */
  lemma RememberedIsEnough(wishes: seq<Wish>, wish: Wish, call: Call)
    requires wish in wishes
    ensures var whole := Seen(call.station, call.action, call.payload, false);
            if call.action in Wanted(wishes)
            then Matches(Remembered(call, Wanted(wishes)[call.action]).value, wish) <==> Matches(whole, wish)
            else !Matches(whole, wish)
  {
    WantedKnowsEveryWish(wishes, wish);
  }

  method CollectWanted(wishes: seq<Wish>) returns (wanted: map<string, bool>)
    ensures wanted == Wanted(wishes)
  {
    wanted := map[];
    for i := 0 to |wishes|
      invariant wanted == Wanted(wishes[..i])
    {
      assert wishes[..i + 1][..i] == wishes[..i];
      var w := wishes[i];
      wanted := wanted[w.action := (w.action in wanted && wanted[w.action]) || w.contains.Some?];
    }
    assert wishes[..|wishes|] == wishes;
  }

  // ---- the program's store ---------------------------------------------------------------------

  class Backlog {
    const limits: Limits
    var calls: seq<Sized<Seen>>
    var bytes: nat
    ghost var memory: Memory

    ghost predicate Mirrors()
      reads this
    {
      memory.first <= |memory.all| && calls == memory.all[memory.first..] && bytes == Total(calls)
    }

    ghost predicate Valid()
      reads this
    {
      Mirrors() && Windowed(memory, limits) && TakenOnce(memory)
    }

    constructor (wanted: map<string, bool>, maxBytes: nat)
      ensures Valid() && memory == Empty && limits == Limits(wanted, maxBytes)
    {
      limits := Limits(wanted, maxBytes);
      calls, bytes, memory := [], 0, Empty;
      new;
      assert Empty.all[0..] == [];
    }

    method RecordCall(call: Call)
      requires Valid()
      modifies this
      ensures Valid() && memory == Step(old(memory), Record(call), limits)
    {
      hide Windowed, NewestWindow, TakenOnce, Overfull, Total;
      RecordingKeepsInv(memory, call, limits);
      if call.action !in limits.wanted {
        return;
      }
      var item := Remembered(call, limits.wanted[call.action]);
      ghost var all, goal := memory.all + [item], Step(memory, Record(call), limits);
      assert NewestWindow(memory.all, 0, memory.first, SEEN_CAP, limits.maxBytes) by { WindowOf(memory, limits); }
      AppendOverfull(memory.all, item, 0, memory.first, SEEN_CAP, limits.maxBytes);
      bytes := bytes + item.bytes;
      calls := calls + [item];
      memory := memory.(all := all);
      while |calls| > 1 && (|calls| > SEEN_CAP || bytes > limits.maxBytes)
        invariant Mirrors() && memory.all == all && memory.taken == old(memory.taken)
        invariant Overfull(all, 0, memory.first, SEEN_CAP, limits.maxBytes)
        invariant Shrink(all, memory.first, limits.maxBytes) == goal.first
        decreases |calls|
      {
        DropOverfull(all, 0, memory.first, SEEN_CAP, limits.maxBytes);
        assert calls[0] == all[memory.first];
        bytes := bytes - calls[0].bytes;
        calls := calls[1..];
        memory := memory.(first := memory.first + 1);
      }
      assert memory == goal;
    }

    /** The oldest CALL held that matches. */
    method Find(wish: Wish) returns (r: Option<nat>)
      requires Mirrors()
      ensures match r
        case None => FirstMatch(memory.all, wish, memory.first) == None
        case Some(i) => i < |calls| && FirstMatch(memory.all, wish, memory.first) == Some(memory.first + i)
    {
      hide Matches, Total;
      var i := 0;
      while i < |calls|
        invariant i <= |calls|
        invariant FirstMatch(memory.all, wish, memory.first) == FirstMatch(memory.all, wish, memory.first + i)
      {
        assert calls[i] == memory.all[memory.first + i];
        if Matches(calls[i].value, wish) {
          return Some(i);
        }
        i := i + 1;
      }
      return None;
    }

    /** Marks the CALL that `Find` gives as taken, if there is one. */
    method TakeCall(wish: Wish) returns (taken: bool)
      requires Valid()
      modifies this
      ensures Valid() && memory == Step(old(memory), Take(wish), limits)
      ensures taken <==> FirstMatch(old(memory.all), wish, old(memory.first)).Some?
    {
      hide Windowed, NewestWindow, TakenOnce, Total, Matches, FirstMatch, Consume;
      TakingKeepsInv(memory, wish, limits);
      var found := Find(wish);
      if found.None? {
        return false;
      }
      var i := found.value;
      SameTotal(memory.all, memory.first, i);
      calls := Consume(calls, i);
      memory := Memory(Consume(memory.all, memory.first + i), memory.first, memory.taken + [memory.first + i]);
      return true;
    }
  }
}
