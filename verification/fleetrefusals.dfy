/** Which fleet specifications are refused and why, told without the parser: by how a template is
    spelled and where its first fault is. */
module FleetRefusals {
  import opened Options
  import opened Fnv1a
  import opened Fleet

  // ---- widths ------------------------------------------------------------------------------------

  lemma {:induction false} NumberDetermines(ds: Bytes, es: Bytes)
    requires |ds| == |es| && Number(ds) == Number(es)
    requires forall i | 0 <= i < |ds| :: IsDigit(ds[i]) && IsDigit(es[i])
    ensures ds == es
  {
    if ds != [] {
      var n := |ds| - 1;
      assert ds == ds[..n] + [ds[n]] && es == es[..n] + [es[n]];
      assert Number(ds) == 10 * Number(ds[..n]) + DigitOf(ds[n]) && Number(es) == 10 * Number(es[..n]) + DigitOf(es[n]);
      assert IsDigit(ds[n]) && IsDigit(es[n]);
      DigitOfDetermines(ds[n], es[n]);
      hide Number, DigitOf, IsDigit;
      NumberDetermines(ds[..n], es[..n]);
    }
  }

  lemma DigitOfDetermines(a: bv8, b: bv8)
    requires IsDigit(a) && IsDigit(b) && DigitOf(a) == DigitOf(b)
    ensures a == b
  {
  }

  /** A placeholder says the width `w` exactly if it is `n`, for none, or `n:` and `w` in decimal with
      any number of leading zeros, where `w` is at most nine. */
  lemma WidthsAreExactlyTheirSpellings(inner: Bytes, w: nat)
    ensures Width(inner) == Ok(w) <==>
      || (inner == [0x6E] && w == 0)
      || (|inner| > 2 && w <= 9 && inner == [0x6E, 0x3A] + Padded(w, |inner| - 2))
    ensures Width(inner) == Err(UnknownPlaceholder(inner)) <==> !([0x6E] <= inner)
    ensures Width(inner).Err? && [0x6E] <= inner ==> Width(inner) == Err(NotAPlaceholder(inner))
  {
    if |inner| > 2 {
      var ds := inner[2..];
      PaddedDenotesItsNumber(w, |ds|);
      hide Padded, Number, IsDigit;
      if Width(inner) == Ok(w) {
        assert |Padded(w, |ds|)| == |ds| by { OneDigit(w); }
        forall i | 0 <= i < |ds| ensures IsDigit(ds[i]) && IsDigit(Padded(w, |ds|)[i]) {
          assert ds[i] in ds && Padded(w, |ds|)[i] in Padded(w, |ds|);
        }
        NumberDetermines(ds, Padded(w, |ds|));
        assert inner == [inner[0], inner[1]] + ds;
      }
      if inner == [0x6E, 0x3A] + Padded(w, |ds|) {
        assert ds == Padded(w, |ds|);
      }
    }
  }

  lemma OneDigit(w: nat)
    requires w <= 9
    ensures |Decimal.Digits(w)| == 1
  {
  }

  // ---- the first fault of a template -------------------------------------------------------------

  /** The text begins with a fault: a closing brace alone, an opening one that is never closed, or a
      placeholder that is none. */
  ghost predicate FailsWith(bad: Bytes, e: Error) {
    match e
    case Unmatched => [0x7D] <= bad && !([0x7D, 0x7D] <= bad)
    case Unclosed => [0x7B] <= bad && !([0x7B, 0x7B] <= bad) && 0x7D !in bad
    case UnknownPlaceholder(inner) =>
      0x7D !in inner && !([0x7B] <= inner) && [0x7B] + inner + [0x7D] <= bad && !([0x6E] <= inner)
    case NotAPlaceholder(inner) =>
      0x7D !in inner && [0x7B] + inner + [0x7D] <= bad && [0x6E] <= inner && forall w :: Width(inner) != Ok(w)
    case _ => false
  }

  /** A template that is refused is well-formed up to that fault, ... */
  lemma {:induction false} RefusedTemplatesHaveAFault(t: Bytes) returns (ts: Tokens, bad: Bytes)
    requires Scan(t).Err?
    ensures Proper(ts) && t == Spell(ts) + bad && FailsWith(bad, Scan(t).error)
    decreases |t|
  {
    var first := FirstToken(t);
    hide Scan, FailsWith, Spell, Width;
    if first.None? {
      ts, bad := Done, t;
      assert Spell(Done) == [] by { SpellDone(); }
      assert t == [] + t;
    } else {
      var rest := t[first.value.1..];
      ts, bad := RefusedTemplatesHaveAFault(rest);
      SpellOn(first.value.0, ts, bad);
      ts := Followed(first.value.0, ts);
    }
  }

  /** One token, which stands alone. */
  function Followed(first: Tokens, rest: Tokens): Tokens {
    match first
    case Done => rest
    case Lit(b, _) => Lit(b, rest)
    case Hole(inner, _) => Hole(inner, rest)
  }

  /** The first token of a refused template and its length, unless the fault is at its start. */
  lemma FirstToken(t: Bytes) returns (r: Option<(Tokens, nat)>)
    requires Scan(t).Err?
    ensures r.None? ==> FailsWith(t, Scan(t).error)
    ensures r.Some? ==>
      && 0 < r.value.1 <= |t| && !r.value.0.Done? && Proper(r.value.0) && Followed(r.value.0, Done) == r.value.0
      && t == Spell(r.value.0) + t[r.value.1..]
      && Scan(t[r.value.1..]) == Scan(t)
  {
    if t[0] == OPEN && !(|t| > 1 && t[1] == OPEN) {
      r := FirstPlaceholder(t);
    } else if t[0] == OPEN || (t[0] == CLOSE && |t| > 1 && t[1] == CLOSE) {
      assert t == [t[0], t[0]] + t[2..];
      r := Some((Lit(t[0], Done), 2));
      assert Spell(r.value.0) == [t[0], t[0]] + [];
    } else if t[0] != CLOSE {
      assert t == [t[0]] + t[1..];
      r := Some((Lit(t[0], Done), 1));
      assert Spell(r.value.0) == [t[0]] + [];
    } else {
      r := None;
      AloneClosing(t);
    }
  }

  lemma AloneClosing(t: Bytes)
    requires t != [] && t[0] == CLOSE && !(|t| > 1 && t[1] == CLOSE)
    ensures Scan(t) == Err(Unmatched) && FailsWith(t, Unmatched)
  {
  }

  lemma FirstPlaceholder(t: Bytes) returns (r: Option<(Tokens, nat)>)
    requires Scan(t).Err? && t != [] && t[0] == OPEN && !(|t| > 1 && t[1] == OPEN)
    ensures r.None? ==> FailsWith(t, Scan(t).error)
    ensures r.Some? ==>
      && 0 < r.value.1 <= |t| && r.value.0.Hole? && r.value.0.rest == Done && Proper(r.value.0)
      && t == Spell(r.value.0) + t[r.value.1..]
      && Scan(t[r.value.1..]) == Scan(t)
  {
    var close := FindClose(t[1..]);
    r := None;
    if close.None? {
      assert 0x7D !in t by { assert t == [t[0]] + t[1..]; }
    } else {
      var i := close.value;
      var inner := t[1..i + 1];
      HoleText(t, i);
      WidthErrors(inner);
      assert inner == t[1..][..i];
      hide Width, FindClose;
      if Width(inner).Ok? {
        r := Some((Hole(inner, Done), i + 2));
        assert Spell(r.value.0) == [OPEN] + inner + [CLOSE] + [];
      } else {
        assert [0x7B] + inner + [0x7D] <= t;
        assert inner != [] ==> inner[0] == t[1];
      }
    }
  }

  lemma SpellDone()
    ensures Spell(Done) == []
  {
  }

  lemma SpellOn(first: Tokens, ts: Tokens, bad: Bytes)
    requires !first.Done? && Followed(first, Done) == first
    ensures Spell(Followed(first, ts)) + bad == Spell(first) + (Spell(ts) + bad)
    ensures Proper(first) && Proper(ts) ==> Proper(Followed(first, ts))
  {
    hide Width;
    assert Spell(Followed(first, ts)) == Spell(first) + Spell(ts);
  }

  lemma WidthErrors(inner: Bytes)
    ensures Width(inner).Err? <==> forall w :: Width(inner) != Ok(w)
    ensures Width(inner).Err? ==>
      Width(inner) == Err(if [0x6E] <= inner then NotAPlaceholder(inner) else UnknownPlaceholder(inner))
  {
    WidthsAreExactlyTheirSpellings(inner, 0);
    hide Width;
    if Width(inner).Ok? {
      assert Width(inner) == Ok(Width(inner).value);
    }
  }

  lemma FaultAtTheStart(bad: Bytes, e: Error)
    requires FailsWith(bad, e)
    ensures Scan(bad) == Err(e)
  {
    match e
    case Unmatched =>
    case Unclosed =>
    case UnknownPlaceholder(inner) => BadPlaceholder(bad, inner);
    case NotAPlaceholder(inner) => BadPlaceholder(bad, inner);
  }

  lemma BadPlaceholder(bad: Bytes, inner: Bytes)
    requires 0x7D !in inner && !([0x7B] <= inner) && [0x7B] + inner + [0x7D] <= bad
    requires !([0x6E] <= inner) || forall w :: Width(inner) != Ok(w)
    ensures Scan(bad) == Err(if [0x6E] <= inner then NotAPlaceholder(inner) else UnknownPlaceholder(inner))
  {
    var rest := bad[|inner| + 2..];
    assert bad == [OPEN] + inner + [CLOSE] + rest;
    FindCloseAfter(inner, rest);
    WidthErrors(inner);
    WidthsAreExactlyTheirSpellings(inner, 0);
    assert bad[1..] == inner + [CLOSE] + rest && bad[1..|inner| + 1] == inner;
    hide Width, FindClose;
  }

  /** ... and any template with a fault is refused for the first. */
  lemma {:induction false} FaultsAreRefused(ts: Tokens, bad: Bytes, e: Error)
    requires Proper(ts) && FailsWith(bad, e)
    ensures Scan(Spell(ts) + bad) == Err(e)
  {
    hide FailsWith, Width, FindClose, Scan;
    match ts
    case Done =>
      FaultAtTheStart(bad, e);
      assert Spell(Done) + bad == bad;
    case Lit(b, rest) =>
      FaultsAreRefused(rest, bad, e);
      ScanLit(b, Spell(rest) + bad);
      assert Spell(ts) + bad == (if b == OPEN || b == CLOSE then [b, b] else [b]) + (Spell(rest) + bad);
    case Hole(inner, rest) =>
      FaultsAreRefused(rest, bad, e);
      PlaceholdersHaveNoBraces(inner);
      ScanHole(inner, Spell(rest) + bad);
      assert Spell(ts) + bad == [OPEN] + inner + [CLOSE] + (Spell(rest) + bad);
  }

  lemma ScanLit(b: bv8, rest: Bytes)
    ensures Scan((if b == OPEN || b == CLOSE then [b, b] else [b]) + rest) == PrependLit(b, Scan(rest))
  {
    var t := (if b == OPEN || b == CLOSE then [b, b] else [b]) + rest;
    assert t[if b == OPEN || b == CLOSE then 2 else 1..] == rest;
  }

  // ---- specifications ----------------------------------------------------------------------------

  /** One to a thousand stations, whose last index is a 32-bit number. */
  predicate InRange(spec: Spec) {
    1 <= spec.count <= 1000 && spec.firstIndex + spec.count <= 0x1_0000_0000
  }

  /** A specification out of range is refused for its count first; otherwise a well-formed template is
      accepted exactly if it has a placeholder or there is one station. */
  lemma SpecsAreAcceptedExactlyWhen(spec: Spec, ts: Tokens)
    requires Proper(ts) && spec.template == Spell(ts)
    ensures Refusal(spec) ==
      if !(1 <= spec.count <= 1000) then Some(CountOutOfRange(spec.count))
      else if !InRange(spec) then Some(IndexOverflow(spec.firstIndex, spec.count))
      else if spec.count > 1 && !HasHole(ts) then Some(NoPlaceholder(spec.template, spec.count))
      else None
  {
    TemplatesAreExactlyTheSpellings(spec.template, ts);
    hide Scan, Spell, HasHole;
  }

  /** A template with a fault is refused for its first one, unless the range is refused. */
  lemma FaultySpecsAreRefused(spec: Spec, ts: Tokens, bad: Bytes, e: Error)
    requires Proper(ts) && FailsWith(bad, e) && spec.template == Spell(ts) + bad
    ensures Refusal(spec) ==
      if !(1 <= spec.count <= 1000) then Some(CountOutOfRange(spec.count))
      else if !InRange(spec) then Some(IndexOverflow(spec.firstIndex, spec.count))
      else Some(e)
  {
    FaultsAreRefused(ts, bad, e);
    hide Scan, Spell, HasHole;
  }

  /** `CP-{n:02}` from index 9 on. */
  lemma KnownFleet()
    ensures var template := [0x43, 0x50, 0x2D, 0x7B, 0x6E, 0x3A, 0x30, 0x32, 0x7D];
            var spec := Spec(template, 9, 2);
            && Refusal(spec) == None
            && FleetIds(spec) == [[0x43, 0x50, 0x2D, 0x30, 0x39], [0x43, 0x50, 0x2D, 0x31, 0x30]]
  {
    var inner := [0x6E, 0x3A, 0x30, 0x32];
    var ts := Lit(0x43, Lit(0x50, Lit(0x2D, Hole(inner, Done))));
    WidthOfTwo();
    KnownSpelling(inner);
    var spec := Spec(Spell(ts), 9, 2);
    SpecsAreAcceptedExactlyWhen(spec, ts);
    TemplatesAreExactlyTheSpellings(spec.template, ts);
    hide Scan, Spell, Width;
    KnownExpansion(inner);
    assert FleetIds(spec) == [Expand(ts, 9), Expand(ts, 10)];
  }

  lemma WidthOfTwo()
    ensures Width([0x6E, 0x3A, 0x30, 0x32]) == Ok(2)
  {
    assert Decimal.Digits(2) == [2];
    assert Padded(2, 2) == [0x30, 0x32];
    WidthsAreExactlyTheirSpellings([0x6E, 0x3A, 0x30, 0x32], 2);
    hide Width;
  }

  lemma KnownSpelling(inner: Bytes)
    requires inner == [0x6E, 0x3A, 0x30, 0x32]
    ensures Spell(Lit(0x43, Lit(0x50, Lit(0x2D, Hole(inner, Done))))) ==
            [0x43, 0x50, 0x2D, 0x7B, 0x6E, 0x3A, 0x30, 0x32, 0x7D]
  {
    var hole := Hole(inner, Done);
    assert Spell(hole) == [0x7B] + inner + [0x7D] + [];
    assert Spell(Lit(0x2D, hole)) == [0x2D] + Spell(hole);
    assert Spell(Lit(0x50, Lit(0x2D, hole))) == [0x50] + Spell(Lit(0x2D, hole));
  }

  lemma KnownExpansion(inner: Bytes)
    requires Width(inner) == Ok(2)
    ensures Expand(Lit(0x43, Lit(0x50, Lit(0x2D, Hole(inner, Done)))), 9) == [0x43, 0x50, 0x2D, 0x30, 0x39]
    ensures Expand(Lit(0x43, Lit(0x50, Lit(0x2D, Hole(inner, Done)))), 10) == [0x43, 0x50, 0x2D, 0x31, 0x30]
  {
    hide Width;
    assert Decimal.Digits(1) == [1] && Decimal.Digits(9) == [9] && Decimal.Digits(10) == [1, 0];
    assert Padded(9, 2) == [0x30, 0x39] && Padded(10, 2) == [0x31, 0x30];
    hide Padded;
    forall n: nat
      ensures Expand(Lit(0x43, Lit(0x50, Lit(0x2D, Hole(inner, Done)))), n) == [0x43, 0x50, 0x2D] + Padded(n, 2)
    {
      var hole := Hole(inner, Done);
      assert Expand(hole, n) == Padded(n, 2) + [];
      assert Expand(Lit(0x2D, hole), n) == [0x2D] + Padded(n, 2);
      assert Expand(Lit(0x50, Lit(0x2D, hole)), n) == [0x50, 0x2D] + Padded(n, 2);
    }
  }
}
