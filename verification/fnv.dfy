/** The hash in shortened file names: FNV-1a, 64 bit, and its hexadecimal digits. */
module Fnv1a {
  type Bytes = seq<bv8>

  const MODULUS := 0x1_0000_0000_0000_0000
  const PRIME := 0x100_0000_01b3
  const INVERSE := 0xce96_5057_aff6_957b

  /** A 64-bit number. */
  type Hash = h: nat | h < 0x1_0000_0000_0000_0000

  function XorLow(low: nat, b: bv8): (r: nat)
    requires low < 256
    ensures r < 256
  {
    ((low as bv8) ^ b) as nat
  }

  lemma Aligned(h: Hash)
    ensures 0 <= h - h % 256 <= 0x1_0000_0000_0000_0000 - 256
  {
  }

  /** On 64-bit words: exclusive or with a widened byte keeps the upper 56 bits and is the exclusive
      or of bytes on the lowest eight. `XorByte` says the same of numbers. */
  lemma XorReachesTheLowByteOnly(word: bv64, b: bv8)
    ensures (word ^ (b as bv64)) >> 8 == word >> 8
    ensures ((word ^ (b as bv64)) & 0xFF) as bv8 == (word & 0xFF) as bv8 ^ b
  {
  }

  function XorByte(h: Hash, b: bv8): Hash {
    Aligned(h);
    h - h % 256 + XorLow(h % 256, b)
  }

  function Times(x: nat): Hash { x * PRIME % MODULUS }

  function Mix(hash: Hash, b: bv8): Hash { Times(XorByte(hash, b)) }

  /** FNV-1a, 64 bit. */
  function Fnv(bytes: Bytes): Hash {
    if bytes == [] then 0xcbf2_9ce4_8422_2325 else Mix(Fnv(bytes[..|bytes| - 1]), bytes[|bytes| - 1])
  }

  lemma FirstXor()
    ensures XorByte(0xcbf2_9ce4_8422_2325, 0x61) == 0xcbf2_9ce4_8422_2344
  {
  }

  /** Two values of the published hash: of nothing, and of "a". */
  lemma KnownHashes()
    ensures Fnv([]) == 0xcbf2_9ce4_8422_2325 && Fnv([0x61]) == 0xaf63_dc4c_8601_ec8c
  {
    FirstXor();
    hide XorByte;
    assert [0x61 as bv8][..0] == [];
  }

  /** The multiplier is odd, so multiplying by it modulo 2^64 can be undone. */
  lemma MultiplyingIsInvertible(x: Hash)
    ensures Times(x) * INVERSE % MODULUS == x
  {
    hide Times;
    Undone(x);
    TimesIs(x);
  }

  lemma TimesIs(x: nat)
    ensures Times(x) == x * 0x100_0000_01b3 % 0x1_0000_0000_0000_0000
  {
  }

  lemma Undone(x: nat)
    requires x < 0x1_0000_0000_0000_0000
    ensures (x * 0x100_0000_01b3 % 0x1_0000_0000_0000_0000) * 0xce96_5057_aff6_957b % 0x1_0000_0000_0000_0000 == x
  {
    var q, t := x * 0x100_0000_01b3 / 0x1_0000_0000_0000_0000, x * 0x100_0000_01b3 % 0x1_0000_0000_0000_0000;
    assert t == x * 0x100_0000_01b3 - 0x1_0000_0000_0000_0000 * q;
    Remainder(x, 0xce9650590f * x - 0xce96_5057_aff6_957b * q, t * 0xce96_5057_aff6_957b);
  }

  lemma Remainder(x: nat, k: int, y: int)
    requires x < 0x1_0000_0000_0000_0000 && y == x + 0x1_0000_0000_0000_0000 * k
    ensures y % 0x1_0000_0000_0000_0000 == x
  {
  }

  lemma NarrowingIsInjective(x: bv8, y: bv8)
    requires x as nat == y as nat
    ensures x == y
  {
  }

  lemma NextByte(x: bv8)
    requires x as nat < 255
    ensures (x + 1) as nat == x as nat + 1
  {
  }

  lemma NarrowingUndone(x: bv8)
    ensures (x as nat) as bv8 == x
  {
  }

  lemma {:induction false} WideningUndone(l: nat)
    requires l < 256
    ensures (l as bv8) as nat == l
  {
    if l > 0 {
      WideningUndone(l - 1);
      NextByte((l - 1) as bv8);
      NarrowingUndone((l - 1) as bv8 + 1);
    }
  }

  lemma XorIsInvertible(x: bv8, y: bv8)
    ensures x ^ (x ^ y) == y && (x ^ y) ^ y == x
  {
  }

  lemma XorTellsBytesApart(low: nat, b: bv8, c: bv8)
    requires low < 256 && XorLow(low, b) == XorLow(low, c)
    ensures b == c
  {
    NarrowingIsInjective((low as bv8) ^ b, (low as bv8) ^ c);
    XorIsInvertible(low as bv8, b);
    XorIsInvertible(low as bv8, c);
  }

  lemma XorTellsLowsApart(low: nat, mow: nat, b: bv8)
    requires low < 256 && mow < 256 && XorLow(low, b) == XorLow(mow, b)
    ensures low == mow
  {
    NarrowingIsInjective((low as bv8) ^ b, (mow as bv8) ^ b);
    XorIsInvertible(low as bv8, b);
    XorIsInvertible(mow as bv8, b);
    WideningUndone(low);
    WideningUndone(mow);
  }


  lemma TimesIsInjective(x: Hash, y: Hash)
    requires Times(x) == Times(y)
    ensures x == y
  {
    MultiplyingIsInvertible(x);
    MultiplyingIsInvertible(y);
    hide Times;
  }

  /** The upper 56 bits stay. */
  lemma XorKeepsTheTop(h: Hash, b: bv8)
    ensures XorByte(h, b) - XorByte(h, b) % 256 == h - h % 256 && XorByte(h, b) % 256 == XorLow(h % 256, b)
  {
    hide XorLow;
  }

  lemma SameByteSameHash(g: Hash, h: Hash, b: bv8)
    requires Mix(g, b) == Mix(h, b)
    ensures g == h
  {
    hide XorByte, Times, XorLow;
    TimesIsInjective(XorByte(g, b), XorByte(h, b));
    XorKeepsTheTop(g, b);
    XorKeepsTheTop(h, b);
    XorTellsLowsApart(g % 256, h % 256, b);
  }

  /** Equal endings neither create nor remove a collision. */
  lemma {:induction false} EqualEndingsKeepHashes(a: Bytes, b: Bytes, ending: Bytes)
    ensures Fnv(a + ending) == Fnv(b + ending) <==> Fnv(a) == Fnv(b)
  {
    hide Mix;
    if ending == [] {
      assert a + [] == a && b + [] == b;
    } else {
      var n := |ending| - 1;
      EqualEndingsKeepHashes(a, b, ending[..n]);
      assert (a + ending)[..|a + ending| - 1] == a + ending[..n];
      assert (b + ending)[..|b + ending| - 1] == b + ending[..n];
      if Fnv(a + ending) == Fnv(b + ending) {
        SameByteSameHash(Fnv(a + ending[..n]), Fnv(b + ending[..n]), ending[n]);
      }
    }
  }

  // ---- changes of up to four adjacent bytes ------------------------------------------------------

  /** A byte moves a hash by less than 256, up or down. */
  predicate Small(d: int, bytes: nat) { -255 * bytes <= d <= 255 * bytes }

  lemma XorMovesALittle(h: Hash, b: bv8)
    ensures Small(XorByte(h, b) - h, 1)
  {
    hide XorByte, XorLow;
    XorKeepsTheTop(h, b);
  }

  /** Modulo 2^64, the difference `next` is the prime times the difference `d`, moved by `e`. */
  predicate Follows(next: int, d: int, e: int, k: int) { next == PRIME * d + e + MODULUS * k }

  lemma DifferencesGrow(u: Hash, v: Hash, a: bv8, b: bv8) returns (e: int, k: int)
    ensures Follows(XorByte(Times(u), a) - XorByte(Times(v), b), u - v, e, k) && Small(e, 2)
  {
    hide XorByte, Times;
    XorMovesALittle(Times(u), a);
    XorMovesALittle(Times(v), b);
    e := (XorByte(Times(u), a) - Times(u)) - (XorByte(Times(v), b) - Times(v));
    k := DifferencesScale(u, v);
  }

  lemma DifferencesScale(u: Hash, v: Hash) returns (k: int)
    ensures Follows(Times(u) - Times(v), u - v, 0, k)
  {
    k := v * PRIME / MODULUS - u * PRIME / MODULUS;
  }

  /** The prime is 2^40 + 435. */
  lemma ThreeSteps(d: int, e: int, f: int, k: int)
    ensures PRIME * (PRIME * (PRIME * d + e) + f) + MODULUS * k
         == 0x100_0000_0000 * (567675 * d + 870 * e + f + 0x100_0000 * (0x100_0000_0519_0000 * d + 0x1_0000 * e + k))
          + (82312875 * d + 189225 * e + 435 * f)
  {
  }

  lemma SmallAndAligned(x: int, t: int)
    requires x == 0x100_0000_0000 * t && -0x100_0000_0000 < x < 0x100_0000_0000
    ensures x == 0
  {
  }

  /** What is left of a difference after three bytes is a multiple of 2^40 and a small number; that it
      is less than 256 forces both to be zero. */
  lemma ThreeStepsAreNotSmall(d: int, e: int, f: int, r: int, t: int)
    requires Small(d, 1) && Small(e, 2) && Small(f, 2) && Small(r, 1)
    requires r == 0x100_0000_0000 * (567675 * d + 870 * e + f + 0x100_0000 * t) + (82312875 * d + 189225 * e + 435 * f)
    ensures d == 0
  {
    SmallAndAligned(r - (82312875 * d + 189225 * e + 435 * f), 567675 * d + 870 * e + f + 0x100_0000 * t);
    assert r == 435 * (189225 * d + 435 * e + f);
    assert 189225 * d + 435 * e + f == 0;
    assert -1 <= d <= 1;
    assert 435 * (870 * d + e) + 0x100_0000 * t == 0;
  }

  lemma EqualXorsAreClose(g: Hash, h: Hash, a: bv8, b: bv8)
    requires XorByte(g, a) == XorByte(h, b)
    ensures Small(g - h, 1)
  {
    hide XorByte, XorLow;
    XorKeepsTheTop(g, a);
    XorKeepsTheTop(h, b);
  }

  lemma DifferentBytesMoveApart(g: Hash, a: bv8, b: bv8)
    ensures Small(XorByte(g, a) - XorByte(g, b), 1)
    ensures XorByte(g, a) == XorByte(g, b) ==> a == b
  {
    hide XorByte, XorLow;
    XorKeepsTheTop(g, a);
    XorKeepsTheTop(g, b);
    if XorByte(g, a) == XorByte(g, b) {
      XorTellsBytesApart(g % 256, a, b);
    }
  }

  lemma ThreeDifferences(d: int, d1: int, d2: int, r: int, e: int, k: int, f: int, l: int, m: int)
    requires Small(d, 1) && Small(e, 2) && Small(f, 2) && Small(r, 1)
    requires Follows(d1, d, e, k) && Follows(d2, d1, f, l) && Follows(r, d2, 0, m)
    ensures d == 0
  {
    var n := PRIME * PRIME * k + PRIME * l + m;
    assert r == PRIME * (PRIME * (PRIME * d + e) + f) + MODULUS * n;
    ThreeSteps(d, e, f, n);
    ThreeStepsAreNotSmall(d, e, f, r, 0x100_0000_0519_0000 * d + 0x1_0000 * e + n);
  }

  /** A difference in the first of four bytes survives the other three. */
  lemma FirstOfFourStays(g: Hash, a0: bv8, a1: bv8, a2: bv8, a3: bv8, b0: bv8, b1: bv8, b2: bv8, b3: bv8)
    requires Mix(Mix(Mix(Mix(g, a0), a1), a2), a3) == Mix(Mix(Mix(Mix(g, b0), b1), b2), b3)
    ensures a0 == b0
  {
    hide XorByte, Times, Follows, Small;
    var u0: Hash, v0: Hash := XorByte(g, a0), XorByte(g, b0);
    var u1: Hash, v1: Hash := XorByte(Times(u0), a1), XorByte(Times(v0), b1);
    var u2: Hash, v2: Hash := XorByte(Times(u1), a2), XorByte(Times(v1), b2);
    DifferentBytesMoveApart(g, a0, b0);
    var e, k := DifferencesGrow(u0, v0, a1, b1);
    var f, l := DifferencesGrow(u1, v1, a2, b2);
    var m := DifferencesScale(u2, v2);
    TimesIsInjective(XorByte(Times(u2), a3), XorByte(Times(v2), b3));
    EqualXorsAreClose(Times(u2), Times(v2), a3, b3);
    ThreeDifferences(u0 - v0, u1 - v1, u2 - v2, Times(u2) - Times(v2), e, k, f, l, m);
  }

  lemma FourMixes(front: Bytes, w: Bytes)
    requires |w| == 4
    ensures Fnv(front + w) == Mix(Mix(Mix(Mix(Fnv(front), w[0]), w[1]), w[2]), w[3])
  {
    hide Mix;
    assert front + w == front + [w[0]] + [w[1]] + [w[2]] + [w[3]];
    FnvNext(front, w[0]);
    FnvNext(front + [w[0]], w[1]);
    FnvNext(front + [w[0]] + [w[1]], w[2]);
    FnvNext(front + [w[0]] + [w[1]] + [w[2]], w[3]);
  }

  lemma FnvNext(front: Bytes, b: bv8)
    ensures Fnv(front + [b]) == Mix(Fnv(front), b)
  {
    assert (front + [b])[..|front|] == front;
  }

  lemma FourBytesChangeTheHash(front: Bytes, x: Bytes, y: Bytes)
    requires |x| == |y| == 4 && x[0] != y[0]
    ensures Fnv(front + x) != Fnv(front + y)
  {
    hide Mix, Fnv;
    FourMixes(front, x);
    FourMixes(front, y);
    if Fnv(front + x) == Fnv(front + y) {
      FirstOfFourStays(Fnv(front), x[0], x[1], x[2], x[3], y[0], y[1], y[2], y[3]);
    }
  }

  /** Changing up to four adjacent bytes changes the hash. */
  lemma {:induction false} FewBytesChangeTheHash(front: Bytes, x: Bytes, y: Bytes, ending: Bytes)
    requires |x| == |y| <= 4 && x != y
    ensures Fnv(front + x + ending) != Fnv(front + y + ending)
    decreases |x|
  {
    hide Fnv;
    EqualEndingsKeepHashes(front + x, front + y, ending);
    if x[0] == y[0] {
      assert x == [x[0]] + x[1..] && y == [x[0]] + y[1..];
      FewBytesChangeTheHash(front + [x[0]], x[1..], y[1..], []);
      assert front + [x[0]] + x[1..] + [] == front + x && front + [x[0]] + y[1..] + [] == front + y;
    } else {
      var zeros := seq(4 - |x|, _ => 0);
      FourBytesChangeTheHash(front, x + zeros, y + zeros);
      assert front + (x + zeros) == front + x + zeros && front + (y + zeros) == front + y + zeros;
      EqualEndingsKeepHashes(front + x, front + y, zeros);
    }
  }

  // ---- hexadecimal digits -------------------------------------------------------------------

  /** The hexadecimal digit of a number below sixteen. */
  function Lower(n: nat): bv8 {
    if n == 0 then 0x30 else if n == 1 then 0x31 else if n == 2 then 0x32 else if n == 3 then 0x33
    else if n == 4 then 0x34 else if n == 5 then 0x35 else if n == 6 then 0x36 else if n == 7 then 0x37
    else if n == 8 then 0x38 else if n == 9 then 0x39 else if n == 10 then 0x61 else if n == 11 then 0x62
    else if n == 12 then 0x63 else if n == 13 then 0x64 else if n == 14 then 0x65 else 0x66
  }

  /** The lowest digits of a number, lower-case hexadecimal. */
  function Hex(h: nat, digits: nat): (r: Bytes)
    ensures |r| == digits
  {
    if digits == 0 then [] else Hex(h / 16, digits - 1) + [Lower(h % 16)]
  }

  function Hex16(h: Hash): (r: Bytes)
    ensures |r| == 16
  {
    Hex(h, 16)
  }

  /** What a hexadecimal digit stands for. */
  function HexValue(c: bv8): nat {
    if c == 0x30 then 0 else if c == 0x31 then 1 else if c == 0x32 then 2 else if c == 0x33 then 3
    else if c == 0x34 then 4 else if c == 0x35 then 5 else if c == 0x36 then 6 else if c == 0x37 then 7
    else if c == 0x38 then 8 else if c == 0x39 then 9 else if c == 0x61 then 10 else if c == 0x62 then 11
    else if c == 0x63 then 12 else if c == 0x64 then 13 else if c == 0x65 then 14 else 15
  }

  function HexNumber(ds: Bytes): nat {
    if ds == [] then 0 else 16 * HexNumber(ds[..|ds| - 1]) + HexValue(ds[|ds| - 1])
  }

  lemma LowerDenotes(n: nat)
    requires n < 16
    ensures HexValue(Lower(n)) == n
  {
  }

  function Power(n: nat): nat { if n == 0 then 1 else 16 * Power(n - 1) }

  lemma {:induction false} HexDenotes(h: nat, digits: nat)
    requires h < Power(digits)
    ensures HexNumber(Hex(h, digits)) == h
  {
    hide Lower, HexValue;
    if digits > 0 {
      var ds := Hex(h, digits);
      assert ds[..digits - 1] == Hex(h / 16, digits - 1) && ds[digits - 1] == Lower(h % 16);
      HexDenotes(h / 16, digits - 1);
      LowerDenotes(h % 16);
    }
  }

  lemma SixteenDigits()
    ensures Power(16) == MODULUS
  {
    assert Power(4) == 0x1_0000;
    assert Power(8) == 0x1_0000_0000;
    assert Power(12) == 0x1_0000_0000_0000;
  }

  /** The sixteen digits are the hash in hexadecimal, ... */
  lemma Hex16Denotes(h: Hash)
    ensures HexNumber(Hex16(h)) == h
  {
    hide Hex, Power, HexNumber;
    SixteenDigits();
    HexDenotes(h, 16);
  }

  /** ... so they determine it. */
  lemma Hex16IsInjective(g: Hash, h: Hash)
    requires Hex16(g) == Hex16(h)
    ensures g == h
  {
    hide Hex16, HexNumber;
    Hex16Denotes(g);
    Hex16Denotes(h);
  }
}
