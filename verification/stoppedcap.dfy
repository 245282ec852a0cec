/** The cap on stopped transactions, seen from the transaction that has just been stopped.

    The cap drops what was started first, not what was stopped first. */
module StoppedCap {
  import opened Transactions

  /** Trimming a list in two parts: the later part goes first, what it leaves over is for the earlier. */
  lemma {:induction false} TrimSplit(a: seq<Transaction>, b: seq<Transaction>, cap: nat)
    ensures Trim(a + b, cap) ==
            Trim(a, if Count(b, Stopped) < cap then cap - Count(b, Stopped) else 0) + Trim(b, cap)
    decreases |b|
  {
    if b == [] {
      assert a + b == a;
    } else {
      var last, c := Last(b), if Last(b).status == Stopped && cap > 0 then cap - 1 else cap;
      assert Front(a + b) == a + Front(b) && Last(a + b) == last;
      TrimSplit(a, Front(b), c);
    }
  }

  lemma {:induction false} TrimAddsNothing(txs: seq<Transaction>, cap: nat)
    ensures forall tx | tx in Trim(txs, cap) :: tx in txs
  {
    if txs != [] {
      TrimAddsNothing(Front(txs), if Last(txs).status == Stopped && cap > 0 then cap - 1 else cap);
    }
  }

  /** What is kept around a stopped transaction, and when it is kept itself. */
  lemma TrimAround(txs: seq<Transaction>, i: nat, tx: Transaction, cap: nat)
    requires i < |txs| && tx.status == Stopped
    ensures var front, back, kept := txs[..i], txs[i + 1..], Trim(txs[i := tx], cap);
            var n := Count(back, Stopped);
            && kept == (if n < cap then Trim(front, cap - n - 1) + [tx] + Trim(back, cap)
                        else Trim(front, 0) + Trim(back, cap))
            && (tx !in front + back ==> (tx in kept <==> n < cap))
  {
    hide Trim, Count;
    var front, back := txs[..i], txs[i + 1..];
    assert txs[i := tx] == front + [tx] + back;
    TrimSplit(front + [tx], back, cap);
    var left := if Count(back, Stopped) < cap then cap - Count(back, Stopped) else 0;
    TrimStoppedLast(front, tx, left);
    TrimAddsNothing(front, if left > 0 then left - 1 else 0);
    TrimAddsNothing(back, cap);
  }

  /** A stop in a list of any shape. The transaction that is stopped stays exactly if fewer than `cap`
      of the listed ones that were started after it are stopped. */
  lemma StopKeepsExactlyWhen(s: State, id: int, info: StopInfo, cap: nat)
    requires HasActive(s.transactions, id)
    ensures var i := LastActive(s.transactions, id);
            var front, back := s.transactions[..i], s.transactions[i + 1..];
            var tx, n := Changed(s.transactions[i], Stop(info)), Count(back, Stopped);
            var after := Step(s, Update(id, Stop(info)), cap).transactions;
            && after == (if n < cap then Trim(front, cap - n - 1) + [tx] + Trim(back, cap)
                         else Trim(front, 0) + Trim(back, cap))
            && (tx !in front + back ==> (tx in after <==> n < cap))
  {
    StopTrims(s, id, info, cap);
    hide *;
    var i := LastActive(s.transactions, id);
    TrimAround(s.transactions, i, Changed(s.transactions[i], Stop(info)), cap);
  }

  lemma StopTrims(s: State, id: int, info: StopInfo, cap: nat)
    requires HasActive(s.transactions, id)
    ensures var i := LastActive(s.transactions, id);
            var tx := Changed(s.transactions[i], Stop(info));
            && tx.status == Stopped
            && Step(s, Update(id, Stop(info)), cap).transactions == Trim(s.transactions[i := tx], cap)
  {
    LastIsUpdated(s.transactions, id, Stop(info), LastActive(s.transactions, id));
    hide Trim, LastActive, HasActive, UpdateLast;
  }

  lemma TrimStoppedLast(front: seq<Transaction>, tx: Transaction, cap: nat)
    requires tx.status == Stopped
    ensures Trim(front + [tx], cap) == if cap > 0 then Trim(front, cap - 1) + [tx] else Trim(front, 0)
  {
    SplitLast(front, tx);
  }

  lemma StopWithinTheCap(s: State, id: int, info: StopInfo, cap: nat)
    requires HasActive(s.transactions, id) && Count(s.transactions, Stopped) <= cap
    ensures var i := LastActive(s.transactions, id);
            var front, back := s.transactions[..i], s.transactions[i + 1..];
            var tx, n := Changed(s.transactions[i], Stop(info)), Count(back, Stopped);
            var after := Step(s, Update(id, Stop(info)), cap).transactions;
            && n <= cap
            && (n == cap ==> after == front + back)
            && (n < cap ==> after == Trim(front, cap - n - 1) + [tx] + back)
  {
    var txs, i := s.transactions, LastActive(s.transactions, id);
    var front, back := txs[..i], txs[i + 1..];
    StopKeepsExactlyWhen(s, id, info, cap);
    assert txs == front + [txs[i]] + back;
    hide Trim, Count, Step, LastActive;
    CountConcat(front + [txs[i]], back);
    CountConcat(front, [txs[i]]);
    NothingToTrim(back, cap);
    if Count(back, Stopped) == cap {
      NothingToTrim(front, 0);
    }
  }

  /** In every run the list respects the cap already, so the transaction just stopped is the one that
      goes exactly if `cap` stopped ones were started after it; and then nothing else goes. */
  lemma JustStoppedGoesExactlyWhen(ops: seq<Op>, cap: nat, id: int, info: StopInfo)
    requires HasActive(Run(Empty, ops, cap).transactions, id)
    ensures var s := Run(Empty, ops, cap);
            var i := LastActive(s.transactions, id);
            var front, back := s.transactions[..i], s.transactions[i + 1..];
            var tx, n := Changed(s.transactions[i], Stop(info)), Count(back, Stopped);
            var after := Step(s, Update(id, Stop(info)), cap).transactions;
            && n <= cap
            && (n == cap ==> after == front + back)
            && (n < cap ==> after == Trim(front, cap - n - 1) + [tx] + back)
  {
    ListIsAViewOfTheLedger(ops, cap);
    TrimRespectsTheCap(Live(PostAll(Blank, ops).entries), cap);
    hide *;
    StopWithinTheCap(Run(Empty, ops, cap), id, info, cap);
  }

  lemma {:induction false} TrimRespectsTheCap(txs: seq<Transaction>, cap: nat)
    ensures Count(Trim(txs, cap), Stopped) <= cap
  {
    if txs != [] {
      var c := if Last(txs).status == Stopped && cap > 0 then cap - 1 else cap;
      TrimRespectsTheCap(Front(txs), c);
      SplitLast(Trim(Front(txs), c), Last(txs));
    }
  }

  lemma {:induction false} CountConcat(a: seq<Transaction>, b: seq<Transaction>)
    ensures Count(a + b, Stopped) == Count(a, Stopped) + Count(b, Stopped)
    decreases |b|
  {
    if b == [] {
      assert a + b == a;
    } else {
      assert Front(a + b) == a + Front(b) && Last(a + b) == Last(b);
      CountConcat(a, Front(b));
    }
  }

  lemma {:induction false} CountIsAtMostTheLength(txs: seq<Transaction>, status: Status)
    ensures Count(txs, status) <= |txs|
  {
    if txs != [] {
      CountIsAtMostTheLength(Front(txs), status);
    }
  }

  lemma StartInAShortList(s: State, id: int, start: StartInfo, cap: nat)
    requires |s.transactions| < MAX_ACTIVE_TRANSACTIONS
    ensures Step(s, Begin(id, start), cap) == s.(transactions := s.transactions + [New(id, start)])
  {
    CountIsAtMostTheLength(s.transactions + [New(id, start)], Active);
  }

  lemma RunNext(ops: seq<Op>, op: Op, cap: nat)
    ensures Run(Empty, ops + [op], cap) == Step(Run(Empty, ops, cap), op, cap)
  {
    assert (ops + [op])[..|ops|] == ops;
    hide Step;
  }

  /** With room for one stopped transaction: of two that run, the later is stopped first; the earlier
      one is gone as soon as it is stopped. */
  lemma JustStoppedMayGo(first: StartInfo, second: StartInfo, info: StopInfo)
    ensures var ops := [Begin(1, first), Begin(2, second), Update(2, Stop(info)), Update(1, Stop(info))];
            Run(Empty, ops, 1).transactions == [Changed(New(2, second), Stop(info))]
  {
    var ops := [Begin(1, first), Begin(2, second), Update(2, Stop(info)), Update(1, Stop(info))];
    var two := [Begin(1, first), Begin(2, second)];
    TwoThatRun(first, second, 1);
    LaterStops(New(1, first), New(2, second), info);
    EarlierStops(New(1, first), Changed(New(2, second), Stop(info)), info);
    hide Run, Step;
    RunNext(two, Update(2, Stop(info)), 1);
    RunNext(two + [Update(2, Stop(info))], Update(1, Stop(info)), 1);
    assert ops == two + [Update(2, Stop(info))] + [Update(1, Stop(info))];
  }

  lemma OneThatRuns(start: StartInfo, cap: nat)
    ensures Run(Empty, [Begin(1, start)], cap) == State([New(1, start)], 0)
  {
    assert Run(Empty, [], cap) == Empty;
    StartInAShortList(Empty, 1, start, cap);
    RunNext([], Begin(1, start), cap);
    hide Run, Step;
    assert [] + [New(1, start)] == [New(1, start)];
    assert [] + [Begin(1, start)] == [Begin(1, start)];
  }

  lemma TwoThatRun(first: StartInfo, second: StartInfo, cap: nat)
    ensures Run(Empty, [Begin(1, first), Begin(2, second)], cap) == State([New(1, first), New(2, second)], 0)
  {
    hide Run, Step;
    OneThatRuns(first, cap);
    StartInAShortList(State([New(1, first)], 0), 2, second, cap);
    RunNext([Begin(1, first)], Begin(2, second), cap);
    assert [New(1, first)] + [New(2, second)] == [New(1, first), New(2, second)];
    assert [Begin(1, first)] + [Begin(2, second)] == [Begin(1, first), Begin(2, second)];
  }

  lemma LaterStops(a: Transaction, b: Transaction, info: StopInfo)
    requires a.status == Active && IsActive(b, 2)
    ensures Step(State([a, b], 0), Update(2, Stop(info)), 1) == State([a, Changed(b, Stop(info))], 0)
  {
    var b' := Changed(b, Stop(info));
    assert Front([a, b]) == [a] && Front([a, b']) == [a] && Front([a]) == [];
    assert UpdateLast([a, b], 2, Stop(info)) == [a, b'];
    assert Last([a]) == a && Trim([a], 0) == Trim([], 0) + [a] == [a];
    assert Last([a, b']) == b' && Trim([a, b'], 1) == Trim([a], 0) + [b'] == [a, b'];
    hide Trim, UpdateLast;
  }

  lemma EarlierStops(a: Transaction, b: Transaction, info: StopInfo)
    requires IsActive(a, 1) && b.status == Stopped
    ensures Step(State([a, b], 0), Update(1, Stop(info)), 1) == State([b], 0)
  {
    var a' := Changed(a, Stop(info));
    assert Front([a, b]) == [a] && Front([a', b]) == [a'] && Front([a']) == [] && Front([a]) == [];
    assert UpdateLast([a], 1, Stop(info)) == [a'];
    assert UpdateLast([a, b], 1, Stop(info)) == [a', b] && HasActive([a], 1);
    assert Last([a']) == a' && Trim([a'], 0) == Trim([], 0) == [];
    assert Last([a', b]) == b && Trim([a', b], 1) == Trim([a'], 0) + [b] == [b];
    hide Trim, UpdateLast;
  }
}
