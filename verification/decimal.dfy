/** Decimal numbers as text. */
module Decimal {

  type Digit = d: nat | d < 10

  const DIGITS := "0123456789"

  /** The decimal digits of `n`, most significant first, without leading zeros. */
  function Digits(n: nat): (ds: seq<Digit>)
    ensures ds != []
  {
    if n < 10 then [n] else Digits(n / 10) + [n % 10]
  }

  /** The number that digits denote. */
  function Value(ds: seq<Digit>): nat {
    if ds == [] then 0 else 10 * Value(ds[..|ds| - 1]) + ds[|ds| - 1]
  }

  lemma {:induction false} ValueOfDigits(n: nat)
    ensures Value(Digits(n)) == n
  {
    if n < 10 {
      assert Value([n]) == 10 * Value([]) + n;
    } else {
      ValueOfDigits(n / 10);
      assert Digits(n)[..|Digits(n)| - 1] == Digits(n / 10);
    }
  }

  /** A larger number is at least as long. */
  lemma {:induction false} DigitsAreMonotone(m: nat, n: nat)
    requires m <= n
    ensures |Digits(m)| <= |Digits(n)|
    decreases n
  {
    if m >= 10 {
      DigitsAreMonotone(m / 10, n / 10);
    }
  }

  /** Digits of equal number and value are the same. */
  lemma {:induction false} ValueDetermines(ds: seq<Digit>, es: seq<Digit>)
    requires |ds| == |es| && Value(ds) == Value(es)
    ensures ds == es
  {
    if ds != [] {
      var n := |ds| - 1;
      ValueDetermines(ds[..n], es[..n]);
      assert ds == ds[..n] + [ds[n]] && es == es[..n] + [es[n]];
    }
  }

  /** Without the last two digits it is the number of hundreds. */
  lemma Hundreds(ds: seq<Digit>)
    requires |ds| >= 2
    ensures Value(ds[..|ds| - 2]) == Value(ds) / 100
  {
    var front := ds[..|ds| - 1];
    assert front[..|front| - 1] == ds[..|ds| - 2];
    assert Value(ds) == 10 * (10 * Value(ds[..|ds| - 2]) + front[|front| - 1]) + ds[|ds| - 1];
  }

  /** Without the last four it is the number of ten thousands. */
  lemma TenThousands(ds: seq<Digit>)
    requires |ds| >= 4
    ensures Value(ds[..|ds| - 4]) == Value(ds) / 10000
  {
    hide Value;
    var front := ds[..|ds| - 2];
    assert front[..|front| - 2] == ds[..|ds| - 4];
    Hundreds(ds);
    Hundreds(front);
  }

  function Text(ds: seq<Digit>): string {
    seq(|ds|, i requires 0 <= i < |ds| => DIGITS[ds[i]])
  }

  lemma DecimalIsInjective(m: nat, n: nat)
    requires Text(Digits(m)) == Text(Digits(n))
    ensures m == n
  {
    var a, b := Digits(m), Digits(n);
    forall i | 0 <= i < |a| ensures |a| == |b| && a[i] == b[i] {
      assert Text(a)[i] == DIGITS[a[i]] && Text(b)[i] == DIGITS[b[i]];
    }
    assert |Text(a)| == |a| && |Text(b)| == |b|;
    assert a == b;
    ValueOfDigits(m);
    ValueOfDigits(n);
  }
}
