/** Shortened file names do collide: there are more long ids than hashes. */
module Collisions {
  import opened Fnv1a
  import opened StateFiles
  import Fleet

  lemma {:induction false} Pigeonhole(s: seq<nat>, n: nat) returns (i: nat, j: nat)
    requires |s| > n && forall k | 0 <= k < |s| :: s[k] < n
    ensures i < j < |s| && s[i] == s[j]
    decreases n
  {
    assert s[0] < n;
    if k :| 0 <= k < |s| && s[k] == n - 1 {
      if m :| 0 <= m < |s| && m != k && s[m] == n - 1 {
        i, j := if k < m then k else m, if k < m then m else k;
      } else {
        var rest := s[..k] + s[k + 1..];
        i, j := Pigeonhole(rest, n - 1);
        i, j := if i < k then i else i + 1, if j < k then j else j + 1;
      }
    } else {
      i, j := Pigeonhole(s, n - 1);
    }
  }

  /** An id of plain bytes that is one hundred bytes and a number long. */
  function LongId(number: nat): Bytes { seq(MAX_ESCAPED, _ => 0x61) + Fleet.Padded(number, 0) }

  lemma LongIdsAreLong(number: nat)
    ensures !Short(LongId(number)) && LongId(number)[..Keep(LongId(number))] == seq(MAX_ESCAPED, _ => 0x61)
    ensures forall b | b in LongId(number) :: Plain(b)
  {
    var id := LongId(number);
    Fleet.PaddedDenotesItsNumber(number, 0);
    assert forall b | b in id :: Plain(b);
    hide Fleet.Padded;
    KeepsAHundred(id);
  }

  lemma PlainIsUnescaped(id: Bytes, k: nat)
    requires k <= |id| && forall b | b in id :: Plain(b)
    ensures Escape(true, id[..k]) == id[..k]
  {
    assert forall i | 0 <= i < k :: id[..k][i] in id;
    assert Unescaped(id[..k], true);
    hide Escape, Plain;
    UnescapedStay(true, id[..k]);
  }

  lemma KeepsAHundred(id: Bytes)
    requires |id| > MAX_ESCAPED && forall b | b in id :: Plain(b)
    ensures !Short(id) && Keep(id) == MAX_ESCAPED
  {
    PlainIsUnescaped(id, MAX_ESCAPED);
    PlainIsUnescaped(id, MAX_ESCAPED + 1);
    PlainIsUnescaped(id, |id|);
    assert id[..|id|] == id;
    hide Escape, Keep, Plain;
    KeepIsLongest(id, MAX_ESCAPED);
    KeepIsLongest(id, MAX_ESCAPED + 1);
  }

  // ---- collisions --------------------------------------------------------------------------------

  /** Two different long ids of plain bytes with one state file. */
  lemma SomeLongIdsShareAFile() returns (a: Bytes, b: Bytes)
    ensures a != b && StateName(a) == StateName(b)
    ensures !Short(a) && !Short(b) && forall c | c in a || c in b :: Plain(c)
  {
    hide Fnv, StateName, Short, Keep, Plain, LongId;
    var hashes: seq<nat> := seq(MODULUS + 1, n requires 0 <= n => Fnv(LongId(n)));
    var i, j := Pigeonhole(hashes, MODULUS);
    a, b := LongId(i), LongId(j);
    LongIdsAreLong(i);
    LongIdsAreLong(j);
    LongIdsDiffer(i, j);
    SharedFiles(a, b);
  }

  lemma LongIdsDiffer(m: nat, n: nat)
    requires m != n
    ensures LongId(m) != LongId(n)
  {
    if LongId(m) == LongId(n) {
      assert Fleet.Padded(m, 0) == LongId(m)[MAX_ESCAPED..] && Fleet.Padded(n, 0) == LongId(n)[MAX_ESCAPED..];
      Fleet.PaddedIsInjective(m, n, 0);
    }
  }
}
