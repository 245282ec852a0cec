/** How the engine decides the reply to an inbound CALL: scripted faults first, then the schema,
    then a responder, then the default answer, which may consume a transaction id. */
module Faults {
  import opened Options

  datatype Reply = Result(payload: nat) | Error(code: nat, description: string) | Silence | Close

  datatype Fault = Fault(action: string, reply: Reply, remaining: nat)

  type Int32 = x: int | -0x8000_0000 <= x < 0x8000_0000

  datatype Policy = Fixed(id: Int32) | Incrementing(first: Int32)

  datatype Allocator = Allocator(policy: Policy, next: Int32)

  /** What the parts outside this model say about one CALL: the schema's complaint, the answer of
      a responder if there is one, and which of the two action lists the name is in. */
  datatype Facts = Facts(violation: Option<Reply>, responder: Option<Reply>, chargePoint: bool, known: bool)

  datatype Decision =
    | FromFault(reply: Reply)
    | Violates(reply: Reply)
    | FromResponder(reply: Reply)
    | NotSupported
    | NotImplemented
    | Default(transactionId: Option<Int32>)

  datatype State = State(faults: seq<Fault>, txIds: Allocator)

  const START_TRANSACTION := "StartTransaction"

  // ---- the decision -------------------------------------------------------------------

  /** Two's complement in 32 bits. */
  function Wrap(x: int): Int32 {
    (x + 0x8000_0000) % 0x1_0000_0000 - 0x8000_0000
  }

  function AllocatorFor(policy: Policy): Allocator {
    Allocator(policy, match policy case Fixed(id) => id case Incrementing(first) => first)
  }

  function Allocate(a: Allocator): (Int32, Allocator) {
    match a.policy
    case Fixed(id) => (id, a)
    case Incrementing(_) => (a.next, a.(next := Wrap(a.next + 1)))
  }

  function Applies(fault: Fault, action: string): bool {
    fault.action == action && fault.remaining > 0
  }

  /** The faults after the first one that applies was used once. */
  function UseFirst(faults: seq<Fault>, action: string): seq<Fault> {
    if faults == [] then []
    else if Applies(faults[0], action) then
      Retain([faults[0].(remaining := faults[0].remaining - 1)] + faults[1..])
    else if faults[0].remaining > 0 then [faults[0]] + UseFirst(faults[1..], action)
    else UseFirst(faults[1..], action)
  }

  function Retain(faults: seq<Fault>): seq<Fault> {
    if faults == [] then []
    else (if faults[0].remaining > 0 then [faults[0]] else []) + Retain(faults[1..])
  }

  function FirstReply(faults: seq<Fault>, action: string): Option<Reply> {
    if faults == [] then None
    else if Applies(faults[0], action) then Some(faults[0].reply)
    else FirstReply(faults[1..], action)
  }

  function Decide(s: State, action: string, facts: Facts): (State, Decision) {
    if FirstReply(s.faults, action).Some? then
      (s.(faults := UseFirst(s.faults, action)), FromFault(FirstReply(s.faults, action).value))
    else if facts.violation.Some? then (s, Violates(facts.violation.value))
    else if facts.responder.Some? then (s, FromResponder(facts.responder.value))
    else if !facts.chargePoint then (s, if facts.known then NotSupported else NotImplemented)
    else if action == START_TRANSACTION then
      var (id, txIds) := Allocate(s.txIds);
      (s.(txIds := txIds), Default(Some(id)))
    else (s, Default(None))
  }

  datatype Op = Inject(fault: Fault) | Clear | Call(action: string, facts: Facts)

  function Step(s: State, op: Op): State {
    match op
    case Inject(fault) => if fault.remaining > 0 then s.(faults := s.faults + [fault]) else s
    case Clear => s.(faults := [])
    case Call(action, facts) => Decide(s, action, facts).0
  }

  function Run(s: State, ops: seq<Op>): State
    decreases |ops|
  {
    if ops == [] then s else Run(Step(s, ops[0]), ops[1..])
  }

  function FaultsRemaining(faults: seq<Fault>): nat {
    if faults == [] then 0 else faults[0].remaining + FaultsRemaining(faults[1..])
  }

  // ---- reference: one queue of replies per action -----------------------------------------

  function Repeat(reply: Reply, n: nat): seq<Reply> {
    if n == 0 then [] else [reply] + Repeat(reply, n - 1)
  }

  /** The replies the script still holds for `action`, in order. */
  function Queue(faults: seq<Fault>, action: string): seq<Reply> {
    if faults == [] then []
    else (if faults[0].action == action then Repeat(faults[0].reply, faults[0].remaining) else [])
         + Queue(faults[1..], action)
  }

  /** What is left for `action` after the operations, played on a plain queue of replies. */
  function Played(queue: seq<Reply>, ops: seq<Op>, action: string): seq<Reply>
    decreases |ops|
  {
    if ops == [] then queue else
      var next := match ops[0]
        case Inject(fault) => if fault.action == action then queue + Repeat(fault.reply, fault.remaining) else queue
        case Clear => []
        case Call(called, _) => if called == action && queue != [] then queue[1..] else queue;
      Played(next, ops[1..], action)
  }

  datatype Occurrence = Occurrence(action: string, reply: Reply)

  /** The whole script, one entry for each occurrence. */
  function Flat(faults: seq<Fault>): seq<Occurrence> {
    if faults == [] then [] else FlatOne(faults[0].action, faults[0].reply, faults[0].remaining) + Flat(faults[1..])
  }

  function FlatOne(action: string, reply: Reply, n: nat): seq<Occurrence> {
    if n == 0 then [] else [Occurrence(action, reply)] + FlatOne(action, reply, n - 1)
  }

  function RepliesFor(script: seq<Occurrence>, action: string): seq<Reply> {
    if script == [] then []
    else (if script[0].action == action then [script[0].reply] else []) + RepliesFor(script[1..], action)
  }

  lemma {:induction false} RepliesConcat(a: seq<Occurrence>, b: seq<Occurrence>, action: string)
    ensures RepliesFor(a + b, action) == RepliesFor(a, action) + RepliesFor(b, action)
  {
    hide RepliesFor;
    if a == [] {
      assert a + b == b;
      NoReplies(action);
    } else {
      FirstOccurrence(a, action);
      FirstOccurrence(a + b, action);
      assert (a + b)[0] == a[0] && (a + b)[1..] == a[1..] + b;
      RepliesConcat(a[1..], b, action);
    }
  }

  lemma NoReplies(action: string)
    ensures RepliesFor([], action) == []
  {
  }

  lemma FirstOccurrence(script: seq<Occurrence>, action: string)
    requires script != []
    ensures RepliesFor(script, action) ==
            (if script[0].action == action then [script[0].reply] else []) + RepliesFor(script[1..], action)
  {
  }

  lemma {:induction false} FlatOneRepeats(action: string, reply: Reply, n: nat, wanted: string)
    ensures |FlatOne(action, reply, n)| == n
    ensures RepliesFor(FlatOne(action, reply, n), wanted) == if action == wanted then Repeat(reply, n) else []
  {
    if n > 0 {
      FlatOneRepeats(action, reply, n - 1, wanted);
      assert FlatOne(action, reply, n)[1..] == FlatOne(action, reply, n - 1);
    }
  }

  /** `faults_remaining` is the length of the whole script, of which the queues are the parts. */
  lemma {:induction false} RemainingIsTheTotalLength(faults: seq<Fault>, action: string)
    ensures FaultsRemaining(faults) == |Flat(faults)|
    ensures Queue(faults, action) == RepliesFor(Flat(faults), action)
  {
    if faults != [] {
      var f := faults[0];
      RemainingIsTheTotalLength(faults[1..], action);
      FlatOneRepeats(f.action, f.reply, f.remaining, action);
      hide FlatOne, RepliesFor, Repeat;
      RepliesConcat(FlatOne(f.action, f.reply, f.remaining), Flat(faults[1..]), action);
    }
  }

  ghost predicate AllLeft(faults: seq<Fault>) {
    forall f | f in faults :: f.remaining > 0
  }

  lemma {:induction false} QueueAppend(faults: seq<Fault>, fault: Fault, action: string)
    ensures Queue(faults + [fault], action) ==
            Queue(faults, action) + if fault.action == action then Repeat(fault.reply, fault.remaining) else []
  {
    if faults == [] {
      assert [] + [fault] == [fault] && Queue([fault][1..], action) == [];
    } else {
      assert (faults + [fault])[1..] == faults[1..] + [fault];
      QueueAppend(faults[1..], fault, action);
    }
  }

  lemma {:induction false} RetainKeepsQueues(faults: seq<Fault>, action: string)
    ensures Queue(Retain(faults), action) == Queue(faults, action)
    ensures AllLeft(Retain(faults)) && FaultsRemaining(Retain(faults)) == FaultsRemaining(faults)
  {
    if faults != [] {
      RetainKeepsQueues(faults[1..], action);
      if faults[0].remaining > 0 {
        assert Retain(faults)[1..] == Retain(faults[1..]);
      } else {
        assert Retain(faults) == Retain(faults[1..]);
      }
    }
  }

  /** Using the first fault that applies pops the action's queue and leaves the others alone. */
  lemma {:induction false} UseFirstPops(faults: seq<Fault>, action: string, other: string)
    requires AllLeft(faults)
    ensures AllLeft(UseFirst(faults, action))
    ensures FirstReply(faults, action) == (if Queue(faults, action) == [] then None else Some(Queue(faults, action)[0]))
    ensures Queue(UseFirst(faults, action), action) ==
            if Queue(faults, action) == [] then [] else Queue(faults, action)[1..]
    ensures other != action ==> Queue(UseFirst(faults, action), other) == Queue(faults, other)
    ensures FaultsRemaining(UseFirst(faults, action)) ==
            FaultsRemaining(faults) - if Queue(faults, action) == [] then 0 else 1
  {
    if faults == [] {
    } else {
      var f, rest := faults[0], faults[1..];
      UsingFirst(f, rest, action);
      FirstFault(f, rest, action);
      FirstFault(f, rest, other);
      hide UseFirst, Queue, Retain, FaultsRemaining, FirstReply, Repeat;
      assert faults == [f] + rest;
      if Applies(f, action) {
        UsedOnce(f, rest, action);
        UsedOnce(f, rest, other);
        RetainKeepsQueues([f.(remaining := f.remaining - 1)] + rest, action);
        RetainKeepsQueues([f.(remaining := f.remaining - 1)] + rest, other);
      } else {
        UseFirstPops(rest, action, other);
        FirstFault(f, UseFirst(rest, action), action);
        FirstFault(f, UseFirst(rest, action), other);
      }
    }
  }

  lemma UsingFirst(f: Fault, rest: seq<Fault>, action: string)
    requires f.remaining > 0
    ensures FirstReply([f] + rest, action) == if f.action == action then Some(f.reply) else FirstReply(rest, action)
    ensures UseFirst([f] + rest, action) ==
            if f.action == action then Retain([f.(remaining := f.remaining - 1)] + rest)
            else [f] + UseFirst(rest, action)
  {
    assert ([f] + rest)[1..] == rest;
    hide Retain;
  }

  lemma UsedOnce(f: Fault, rest: seq<Fault>, action: string)
    requires f.remaining > 0
    ensures var used := [f.(remaining := f.remaining - 1)] + rest;
            && Queue([f] + rest, action) ==
               (if f.action == action then [f.reply] + Queue(used, action) else Queue(used, action))
            && FaultsRemaining([f] + rest) == FaultsRemaining(used) + 1
  {
    var used := f.(remaining := f.remaining - 1);
    FirstFault(f, rest, action);
    FirstFault(used, rest, action);
    assert Repeat(f.reply, f.remaining) == [f.reply] + Repeat(f.reply, used.remaining);
    hide Queue, FaultsRemaining, Repeat;
    var more := Repeat(f.reply, used.remaining);
    assert [f.reply] + more + Queue(rest, action) == [f.reply] + (more + Queue(rest, action));
  }

  lemma FirstFault(f: Fault, rest: seq<Fault>, action: string)
    ensures Queue([f] + rest, action) ==
            (if f.action == action then Repeat(f.reply, f.remaining) else []) + Queue(rest, action)
    ensures FaultsRemaining([f] + rest) == f.remaining + FaultsRemaining(rest)
  {
    assert ([f] + rest)[1..] == rest;
  }

  /** One CALL: it takes the head of its action's queue if there is one, and otherwise is decided
      without the script, which stays as it is. */
  lemma CallTakesTheHead(s: State, action: string, facts: Facts)
    requires AllLeft(s.faults)
    ensures var (s', d) := Decide(s, action, facts); var queue := Queue(s.faults, action);
            && (d.FromFault? <==> queue != [])
            && (queue != [] ==> d.reply == queue[0] && s'.txIds == s.txIds)
            && (queue == [] ==> s'.faults == s.faults)
            && (s'.txIds != s.txIds ==> action == START_TRANSACTION && d.Default?)
  {
    hide UseFirst, Queue, FirstReply, AllLeft;
    UseFirstPops(s.faults, action, action);
  }

  /** A CALL without a scripted fault. The schema is asked first, then the responder; then a charge
      point must be allowed to send the action; and only a StartTransaction that gets the default
      answer takes a transaction id. */
  lemma DecidedInOrder(s: State, action: string, facts: Facts)
    requires AllLeft(s.faults) && Queue(s.faults, action) == []
    ensures var (s', d) := Decide(s, action, facts);
            var asked := facts.violation == None && facts.responder == None;
            && s'.faults == s.faults
            && (forall v :: d == Violates(v) <==> facts.violation == Some(v))
            && (forall r :: d == FromResponder(r) <==> facts.violation == None && facts.responder == Some(r))
            && (d == NotSupported <==> asked && !facts.chargePoint && facts.known)
            && (d == NotImplemented <==> asked && !facts.chargePoint && !facts.known)
            && (d.Default? <==> asked && facts.chargePoint)
            && (d.Default? ==> (d.transactionId.Some? <==> action == "StartTransaction"))
            && (!(d.Default? && d.transactionId.Some?) ==> s'.txIds == s.txIds)
  {
    hide UseFirst, Queue, FirstReply, AllLeft;
    UseFirstPops(s.faults, action, action);
  }

  lemma StepKeepsAllLeft(s: State, op: Op)
    requires AllLeft(s.faults)
    ensures AllLeft(Step(s, op).faults)
  {
    hide UseFirst, Queue, FirstReply, FaultsRemaining;
    if op.Call? {
      UseFirstPops(s.faults, op.action, op.action);
    }
  }

  /** Over any interleaving of injections and CALLs the script is one FIFO per action. */
  lemma {:induction false} ScriptIsOneQueuePerAction(s: State, ops: seq<Op>, action: string)
    requires AllLeft(s.faults)
    ensures Queue(Run(s, ops).faults, action) == Played(Queue(s.faults, action), ops, action)
    ensures AllLeft(Run(s, ops).faults)
    decreases |ops|
  {
    if ops != [] {
      match ops[0] {
        case Inject(fault) =>
          if fault.remaining > 0 {
            QueueAppend(s.faults, fault, action);
            assert Queue(s.faults, action) + [] == Queue(s.faults, action);
          } else {
            assert Queue(s.faults, action) + Repeat(fault.reply, 0) == Queue(s.faults, action);
          }
        case Clear =>
        case Call(called, facts) =>
          CallTakesTheHead(s, called, facts);
          UseFirstPops(s.faults, called, action);
      }
      StepKeepsAllLeft(s, ops[0]);
      ScriptIsOneQueuePerAction(Step(s, ops[0]), ops[1..], action);
    }
  }

  /** Occurrences injected by `ops`, and CALLs that a fault answered. */
  function Injected(ops: seq<Op>): nat {
    if ops == [] then 0 else (if ops[0].Inject? then ops[0].fault.remaining else 0) + Injected(ops[1..])
  }

  function Faulted(s: State, ops: seq<Op>): nat
    decreases |ops|
  {
    if ops == [] then 0 else
      (if ops[0].Call? && Decide(s, ops[0].action, ops[0].facts).1.FromFault? then 1 else 0)
      + Faulted(Step(s, ops[0]), ops[1..])
  }

  /** Occurrences dropped by clearing the script. */
  function Cleared(s: State, ops: seq<Op>): nat
    decreases |ops|
  {
    if ops == [] then 0 else
      (if ops[0].Clear? then FaultsRemaining(s.faults) else 0) + Cleared(Step(s, ops[0]), ops[1..])
  }

  lemma {:induction false} RemainingAppend(faults: seq<Fault>, fault: Fault)
    ensures FaultsRemaining(faults + [fault]) == FaultsRemaining(faults) + fault.remaining
  {
    if faults == [] {
      assert [] + [fault] == [fault];
    } else {
      assert (faults + [fault])[1..] == faults[1..] + [fault];
      RemainingAppend(faults[1..], fault);
    }
  }

  /** Nothing is lost or used twice: injected occurrences are left, answered a CALL or were cleared. */
  lemma {:induction false} FaultsAreConserved(s: State, ops: seq<Op>)
    requires AllLeft(s.faults)
    ensures FaultsRemaining(s.faults) + Injected(ops) ==
            FaultsRemaining(Run(s, ops).faults) + Faulted(s, ops) + Cleared(s, ops)
    decreases |ops|
  {
    if ops != [] {
      match ops[0] {
        case Inject(fault) => RemainingAppend(s.faults, fault);
        case Clear =>
        case Call(action, facts) =>
          CallTakesTheHead(s, action, facts);
          UseFirstPops(s.faults, action, action);
      }
      StepKeepsAllLeft(s, ops[0]);
      FaultsAreConserved(Step(s, ops[0]), ops[1..]);
    }
  }

  // ---- transaction ids ------------------------------------------------------------------

  /** The transaction id that an operation gives out, if it does. */
  function IssuedBy(s: State, op: Op): seq<Int32> {
    var d := if op.Call? then Decide(s, op.action, op.facts).1 else NotSupported;
    if d.Default? && d.transactionId.Some? then [d.transactionId.value] else []
  }

  /** The transaction ids given out by default answers, in order. */
  function Issued(s: State, ops: seq<Op>): seq<Int32>
    decreases |ops|
  {
    if ops == [] then [] else IssuedBy(s, ops[0]) + Issued(Step(s, ops[0]), ops[1..])
  }

  lemma OneStepIssues(s: State, op: Op)
    ensures || (IssuedBy(s, op) == [] && Step(s, op).txIds == s.txIds)
            || (IssuedBy(s, op) == [Allocate(s.txIds).0] && Step(s, op).txIds == Allocate(s.txIds).1)
  {
    hide UseFirst, FirstReply;
  }

  /** The StartTransaction CALLs that the default answer gets to see: those that find the queue of their
      action empty, no complaint and no responder, and are a charge point's to send. */
  function Starts(queue: seq<Reply>, ops: seq<Op>): nat
    decreases |ops|
  {
    if ops == [] then 0 else
      (match ops[0]
       case Call(action, facts) =>
         if action == "StartTransaction" && queue == [] && facts.violation == None && facts.responder == None
            && facts.chargePoint then 1 else 0
       case _ => 0)
      + Starts(Played(queue, [ops[0]], "StartTransaction"), ops[1..])
  }

  /** In every run exactly those take an id. */
  lemma {:induction false} EveryStartTakesAnId(s: State, ops: seq<Op>)
    requires AllLeft(s.faults)
    ensures |Issued(s, ops)| == Starts(Queue(s.faults, "StartTransaction"), ops)
    decreases |ops|
  {
    if ops != [] {
      var op, queue := ops[0], Queue(s.faults, "StartTransaction");
      StepKeepsAllLeft(s, op);
      ScriptIsOneQueuePerAction(s, [op], "StartTransaction");
      assert Run(s, [op]) == Run(Step(s, op), []) == Step(s, op);
      StartsOne(s, op);
      hide AllLeft, Queue, Step, IssuedBy, Played, Run;
      EveryStartTakesAnId(Step(s, op), ops[1..]);
    }
  }

  lemma StartsOne(s: State, op: Op)
    requires AllLeft(s.faults)
    ensures |IssuedBy(s, op)| ==
            if op.Call? && op.action == "StartTransaction" && Queue(s.faults, op.action) == []
               && op.facts.violation == None && op.facts.responder == None && op.facts.chargePoint then 1 else 0
  {
    if op.Call? {
      CallTakesTheHead(s, op.action, op.facts);
      hide Decide, Queue, AllLeft;
      if Queue(s.faults, op.action) == [] {
        DecidedInOrder(s, op.action, op.facts);
      }
    }
  }

  lemma WrapOfWrap(x: int, k: int)
    ensures Wrap(Wrap(x) + k) == Wrap(x + k)
  {
  }

  /** The k-th default-answered StartTransaction gets `first + k`, wrapped to 32 bits; no other
      CALL consumes an id. With a fixed policy all get the same. */
  lemma {:induction false} IssuedIdsAreSequential(s: State, ops: seq<Op>, k: nat)
    requires k < |Issued(s, ops)|
    requires s.txIds.policy.Fixed? ==> s.txIds.next == s.txIds.policy.id
    ensures Issued(s, ops)[k] == if s.txIds.policy.Fixed? then s.txIds.policy.id else Wrap(s.txIds.next + k)
    decreases |ops|
  {
    if ops == [] {
    } else {
      OneStepIssues(s, ops[0]);
      hide Step, IssuedBy, Issued, Wrap;
      FirstIssued(s, ops);
      var s1 := Step(s, ops[0]);
      if IssuedBy(s, ops[0]) == [] {
        assert Issued(s, ops) == Issued(s1, ops[1..]);
        IssuedIdsAreSequential(s1, ops[1..], k);
      } else if k > 0 {
        assert Issued(s, ops)[k] == Issued(s1, ops[1..])[k - 1];
        IssuedIdsAreSequential(s1, ops[1..], k - 1);
        WrapOfWrap(s.txIds.next + 1, k - 1);
      } else {
        WrapOfInt32(s.txIds.next);
      }
    }
  }

  lemma WrapOfInt32(x: Int32)
    ensures Wrap(x) == x
  {
  }

  lemma FirstIssued(s: State, ops: seq<Op>)
    requires ops != []
    ensures Issued(s, ops) == IssuedBy(s, ops[0]) + Issued(Step(s, ops[0]), ops[1..])
  {
  }

  /** Incrementing ids repeat exactly every 2^32 transactions. */
  lemma IncrementingIdsRepeatAfterWrap(first: Int32, ops: seq<Op>, i: nat, j: nat)
    requires var ids := Issued(State([], AllocatorFor(Incrementing(first))), ops); i < |ids| && j < |ids|
    ensures var ids := Issued(State([], AllocatorFor(Incrementing(first))), ops);
            ids[i] == ids[j] <==> (i - j) % 0x1_0000_0000 == 0
  {
    var s := State([], AllocatorFor(Incrementing(first)));
    IssuedIdsAreSequential(s, ops, i);
    IssuedIdsAreSequential(s, ops, j);
    hide Issued;
    WrapsEqual(first + i, first + j);
  }

  lemma WrapsEqual(x: int, y: int)
    ensures Wrap(x) == Wrap(y) <==> (x - y) % 0x1_0000_0000 == 0
  {
  }

  // ---- the object ---------------------------------------------------------------------

  class FaultScript {
    var faults: seq<Fault>
    var txIds: Allocator

    ghost predicate Valid()
      reads this
    {
      AllLeft(faults)
    }

    constructor (policy: Policy)
      ensures Valid() && faults == [] && txIds == AllocatorFor(policy)
    {
      faults, txIds := [], AllocatorFor(policy);
    }

    method InjectFault(fault: Fault)
      requires Valid()
      modifies this
      ensures Valid() && State(faults, txIds) == Step(old(State(faults, txIds)), Inject(fault))
    {
      if fault.remaining > 0 {
        faults := faults + [fault];
      }
    }

    method ClearFaults()
      modifies this
      ensures Valid() && State(faults, txIds) == Step(old(State(faults, txIds)), Clear)
    {
      faults := [];
    }

    /** `decide`: finds the first fault that applies, uses it once and drops it when used up. */
    method DecideReply(action: string, facts: Facts) returns (decision: Decision)
      requires Valid()
      modifies this
      ensures Valid()
      ensures (State(faults, txIds), decision) == Decide(old(State(faults, txIds)), action, facts)
    {
      hide UseFirst, Queue, FirstReply, AllLeft, Retain, FaultsRemaining;
      UseFirstPops(faults, action, action);
      var i := 0;
      while i < |faults| && !Applies(faults[i], action)
        invariant 0 <= i <= |faults|
        invariant forall k | 0 <= k < i :: !Applies(faults[k], action)
      {
        i := i + 1;
      }
      FirstApplies(faults, action, i);
      if i < |faults| {
        decision := FromFault(faults[i].reply);
        faults := faults[i := faults[i].(remaining := faults[i].remaining - 1)];
        DropUsedUp();
        return;
      }
      if facts.violation.Some? {
        return Violates(facts.violation.value);
      }
      if facts.responder.Some? {
        return FromResponder(facts.responder.value);
      }
      if !facts.chargePoint {
        return if facts.known then NotSupported else NotImplemented;
      }
      if action == START_TRANSACTION {
        var id := AllocateId();
        return Default(Some(id));
      }
      return Default(None);
    }

    method DropUsedUp()
      modifies this`faults
      ensures faults == Retain(old(faults))
    {
      var kept, left := [], faults;
      while left != []
        invariant kept + Retain(left) == Retain(faults)
        decreases |left|
      {
        if left[0].remaining > 0 {
          kept := kept + [left[0]];
        }
        left := left[1..];
      }
      faults := kept;
    }

    method AllocateId() returns (id: Int32)
      modifies this`txIds
      ensures (id, txIds) == Allocate(old(txIds))
    {
      match txIds.policy {
        case Fixed(fixed) => id := fixed;
        case Incrementing(_) =>
          id := txIds.next;
          txIds := txIds.(next := if id == 0x7fff_ffff then -0x8000_0000 else id + 1);
      }
    }
  }

  lemma {:induction false} FirstApplies(faults: seq<Fault>, action: string, i: nat)
    requires i <= |faults| && forall k | 0 <= k < i :: !Applies(faults[k], action)
    requires i < |faults| ==> Applies(faults[i], action)
    ensures FirstReply(faults, action) == (if i < |faults| then Some(faults[i].reply) else None)
    ensures i < |faults| ==>
              UseFirst(faults, action) == Retain(faults[i := faults[i].(remaining := faults[i].remaining - 1)])
  {
    if i > 0 {
      FirstApplies(faults[1..], action, i - 1);
      if i < |faults| {
        var used := faults[i := faults[i].(remaining := faults[i].remaining - 1)];
        assert used[1..] == faults[1..][i - 1 := used[i]];
      }
    } else if faults != [] {
      assert faults[0 := faults[0].(remaining := faults[0].remaining - 1)] ==
             [faults[0].(remaining := faults[0].remaining - 1)] + faults[1..];
    }
  }
}
