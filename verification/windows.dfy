/** Bounded tails: what a buffer that drops its oldest items first still holds.

    Three buffers of the program (a station's frame history, the log, the script backlog)
    append at the back and drop from the front while they are over a count or a byte cap.
    What each of them must hold is stated here once, without a loop: the longest tail of
    everything ever appended that respects both caps. */
module Windows {

  /** Something kept in a bounded buffer, with the size it is accounted for. */
  datatype Sized<+T> = Sized(value: T, bytes: nat)

  /** Sum of the sizes of `items`. */
  function Total<T>(items: seq<Sized<T>>): nat {
    if items == [] then 0 else items[0].bytes + Total(items[1..])
  }

  predicate Fits<T>(items: seq<Sized<T>>, count: nat, budget: nat) {
    |items| <= count && Total(items) <= budget
  }

  /** The last `n` items. */
  function Tail<T>(items: seq<Sized<T>>, n: nat): seq<Sized<T>>
    requires n <= |items|
  {
    items[|items| - n..]
  }

  /** One item more than the last `n` does not fit. */
  ghost predicate FullBeyond<T>(all: seq<Sized<T>>, n: nat, count: nat, budget: nat) {
    n < |all| ==> !Fits(Tail(all, n + 1), count, budget)
  }

  /** `kept` is a tail of `all` that fits, and one more item would not. */
  ghost predicate LongestTail<T>(all: seq<Sized<T>>, kept: seq<Sized<T>>, count: nat, budget: nat) {
    && |kept| <= |all|
    && kept == Tail(all, |kept|)
    && Fits(kept, count, budget)
    && FullBeyond(all, |kept|, count, budget)
  }

  /** The variant of a buffer that never drops its newest item, over a list that is never cut:
      `all[first..]` is held, and `start` is the first item it might hold. */
  ghost predicate NewestWindow<T>(all: seq<Sized<T>>, start: nat, first: nat, count: nat, budget: nat) {
    && start <= first <= |all|
    && (start < |all| ==> first < |all|)
    && (Fits(all[first..], count, budget) || first + 1 == |all|)
    && (first > start ==> !Fits(all[first - 1..], count, budget))
  }

  lemma {:induction false} TotalAppend<T>(items: seq<Sized<T>>, x: Sized<T>)
    ensures Total(items + [x]) == Total(items) + x.bytes
  {
    if items == [] {
      assert [] + [x] == [x];
    } else {
      assert (items + [x])[1..] == items[1..] + [x];
      TotalAppend(items[1..], x);
    }
  }

  lemma {:induction false} TotalConcat<T>(a: seq<Sized<T>>, b: seq<Sized<T>>)
    ensures Total(a + b) == Total(a) + Total(b)
  {
    if a == [] {
      assert a + b == b;
    } else {
      assert (a + b)[1..] == a[1..] + b;
      TotalConcat(a[1..], b);
    }
  }

  /** A tail of a list that fits fits as well. */
  lemma FitsIsMonotone<T>(items: seq<Sized<T>>, n: nat, count: nat, budget: nat)
    requires n <= |items| && Fits(items, count, budget)
    ensures Fits(Tail(items, n), count, budget)
  {
    assert items == items[..|items| - n] + Tail(items, n);
    TotalConcat(items[..|items| - n], Tail(items, n));
  }

  /** The name is earned: no fitting tail is longer. */
  lemma LongestTailIsMaximal<T>(all: seq<Sized<T>>, kept: seq<Sized<T>>, n: nat, count: nat, budget: nat)
    requires n <= |all| && LongestTail(all, kept, count, budget)
    ensures Fits(Tail(all, n), count, budget) <==> n <= |kept|
  {
    if n <= |kept| {
      FitsIsMonotone(kept, n, count, budget);
      assert Tail(kept, n) == Tail(all, n);
    } else {
      assert Tail(Tail(all, n), |kept| + 1) == Tail(all, |kept| + 1);
      if Fits(Tail(all, n), count, budget) {
        FitsIsMonotone(Tail(all, n), |kept| + 1, count, budget);
      }
    }
  }

  /** Any later start that fits is inside the window, and the window fits unless it is one item. */
  lemma NewestWindowIsMaximal<T>(all: seq<Sized<T>>, start: nat, first: nat, k: nat, count: nat, budget: nat)
    requires NewestWindow(all, start, first, count, budget) && start <= k < |all|
    ensures Fits(all[k..], count, budget) ==> first <= k
    ensures first <= k && first + 1 < |all| ==> Fits(all[k..], count, budget)
  {
    if k < first {
      assert Tail(all[k..], |all| - first + 1) == all[first - 1..];
      if Fits(all[k..], count, budget) {
        FitsIsMonotone(all[k..], |all| - first + 1, count, budget);
      }
    } else if first + 1 < |all| {
      FitsIsMonotone(all[first..], |all| - k, count, budget);
      assert Tail(all[first..], |all| - k) == all[k..];
    }
  }

  /** A tail that was already full stays full when an item is appended. */
  lemma FullAfterAppend<T>(all: seq<Sized<T>>, x: Sized<T>, n: nat, count: nat, budget: nat)
    requires n <= |all| && FullBeyond(all, n, count, budget)
    ensures FullBeyond(all + [x], n + 1, count, budget)
  {
    if n < |all| {
      TailAppend(all, x, n + 1);
    }
  }

  lemma TailAppend<T>(all: seq<Sized<T>>, x: Sized<T>, n: nat)
    requires n <= |all|
    ensures Tail(all + [x], n + 1) == Tail(all, n) + [x]
    ensures Total(Tail(all + [x], n + 1)) == Total(Tail(all, n)) + x.bytes
  {
    assert Tail(all + [x], n + 1) == Tail(all, n) + [x];
    TotalAppend(Tail(all, n), x);
  }

  lemma TailDrop<T>(all: seq<Sized<T>>, n: nat)
    requires 0 < n <= |all|
    ensures Tail(all, n)[1..] == Tail(all, n - 1)
    ensures Total(Tail(all, n)) == Tail(all, n)[0].bytes + Total(Tail(all, n - 1))
  {
    assert Tail(all, n)[1..] == Tail(all, n - 1);
  }

  // ---- appending: evict from the front while the new item does not fit ---------------------

  /** The state of an eviction loop that makes room for `x`: `kept` is still a fitting tail of
      `all`, and no tail that ends in `x` and is longer than `kept + [x]` fits. */
  ghost predicate Evicting<T>(all: seq<Sized<T>>, kept: seq<Sized<T>>, x: Sized<T>, count: nat, budget: nat) {
    && |kept| <= |all|
    && kept == Tail(all, |kept|)
    && Fits(kept, count, budget)
    && FullBeyond(all + [x], |kept| + 1, count, budget)
  }

  predicate NoRoom<T>(kept: seq<Sized<T>>, x: Sized<T>, count: nat, budget: nat) {
    |kept| >= count || Total(kept) + x.bytes > budget
  }

  lemma StartEvicting<T>(all: seq<Sized<T>>, kept: seq<Sized<T>>, x: Sized<T>, count: nat, budget: nat)
    requires LongestTail(all, kept, count, budget)
    ensures Evicting(all, kept, x, count, budget)
  {
    FullAfterAppend(all, x, |kept|, count, budget);
  }

  lemma EvictOne<T>(all: seq<Sized<T>>, kept: seq<Sized<T>>, x: Sized<T>, count: nat, budget: nat)
    requires Evicting(all, kept, x, count, budget) && kept != []
    requires NoRoom(kept, x, count, budget)
    ensures Evicting(all, kept[1..], x, count, budget)
    ensures Total(kept) == kept[0].bytes + Total(kept[1..])
  {
    hide Total;
    TailAppend(all, x, |kept|);
    TailDrop(all, |kept|);
  }

  lemma EvictingEnds<T>(all: seq<Sized<T>>, kept: seq<Sized<T>>, x: Sized<T>, count: nat, budget: nat)
    requires Evicting(all, kept, x, count, budget)
    requires !NoRoom(kept, x, count, budget) || kept == []
    ensures Total(kept + [x]) == Total(kept) + x.bytes
    ensures LongestTail(all + [x], if NoRoom(kept, x, count, budget) then [] else kept + [x], count, budget)
  {
    TailAppend(all, x, |kept|);
  }

  // ---- appending first, then evicting: the newest item always stays -------------------------

  ghost predicate Overfull<T>(all: seq<Sized<T>>, start: nat, first: nat, count: nat, budget: nat) {
    start <= first < |all| && (first > start ==> !Fits(all[first - 1..], count, budget))
  }

  lemma AppendOverfull<T>(all: seq<Sized<T>>, x: Sized<T>, start: nat, first: nat, count: nat, budget: nat)
    requires NewestWindow(all, start, first, count, budget)
    ensures Overfull(all + [x], start, first, count, budget)
    ensures (all + [x])[first..] == all[first..] + [x]
    ensures Total((all + [x])[first..]) == Total(all[first..]) + x.bytes
  {
    assert (all + [x])[first..] == all[first..] + [x];
    TotalAppend(all[first..], x);
    if first > start {
      assert (all + [x])[first - 1..] == all[first - 1..] + [x];
      TotalAppend(all[first - 1..], x);
    }
  }

  lemma DropOverfull<T>(all: seq<Sized<T>>, start: nat, first: nat, count: nat, budget: nat)
    requires Overfull(all, start, first, count, budget) && first + 1 < |all| && !Fits(all[first..], count, budget)
    ensures Overfull(all, start, first + 1, count, budget)
    ensures all[first..][1..] == all[first + 1..]
    ensures Total(all[first..]) == all[first].bytes + Total(all[first + 1..])
  {
    assert all[first..][1..] == all[first + 1..];
  }

  lemma {:induction false} SameSizesSameTotal<T>(a: seq<Sized<T>>, b: seq<Sized<T>>)
    requires |a| == |b| && forall i | 0 <= i < |a| :: a[i].bytes == b[i].bytes
    ensures Total(a) == Total(b)
  {
    if a != [] {
      SameSizesSameTotal(a[1..], b[1..]);
    }
  }

  /** Editing items without changing their sizes keeps the window. */
  lemma EditKeepsWindow<T>(all: seq<Sized<T>>, all': seq<Sized<T>>, start: nat, first: nat, count: nat, budget: nat)
    requires NewestWindow(all, start, first, count, budget)
    requires |all| == |all'| && forall i | 0 <= i < |all| :: all[i].bytes == all'[i].bytes
    ensures NewestWindow(all', start, first, count, budget)
    ensures Total(all'[first..]) == Total(all[first..])
  {
    SameSizesSameTotal(all[first..], all'[first..]);
    if first > start {
      SameSizesSameTotal(all[first - 1..], all'[first - 1..]);
    }
  }
}
