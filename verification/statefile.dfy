/** Names of the files a station's state is kept in.

    Ids and names are byte strings; an id is the UTF-8 encoding of the charge point id. */
module StateFiles {
  import opened Fnv1a

  const PERCENT: bv8 := 0x25
  const DOT: bv8 := 0x2E
  const TILDE: bv8 := 0x7E
  const MAX_ESCAPED := 100

  // ---- escaping ------------------------------------------------------------------------------

  predicate Plain(b: bv8) {
    0x41 <= b <= 0x5A || 0x61 <= b <= 0x7A || 0x30 <= b <= 0x39 || b == 0x5F || b == 0x2D
  }

  function Upper(n: bv8): bv8 { if n < 10 then n + 0x30 else n + 0x37 }

  /** How one byte is written; a dot is kept unless it comes first. */
  function Piece(first: bool, b: bv8): (r: Bytes)
    ensures 1 <= |r| <= 3
  {
    if Plain(b) || (b == DOT && !first) then [b] else [PERCENT, Upper(b >> 4), Upper(b & 15)]
  }

  function Escape(first: bool, id: Bytes): Bytes {
    if id == [] then [] else Piece(first, id[0]) + Escape(false, id[1..])
  }

  function Digit(c: bv8): bv8 { if c <= 0x39 then c - 0x30 else c - 0x37 }

  function Decode(name: Bytes): Bytes {
    if name == [] then []
    else if name[0] == PERCENT && |name| >= 3 then [(Digit(name[1]) << 4) | Digit(name[2])] + Decode(name[3..])
    else [name[0]] + Decode(name[1..])
  }

  lemma DecodePiece(first: bool, b: bv8, rest: Bytes)
    ensures Decode(Piece(first, b) + rest) == [b] + Decode(rest)
  {
    var p := Piece(first, b);
    var name := p + rest;
    assert name[|p|..] == rest;
    if |p| == 3 {
      assert name[0] == PERCENT && name[1] == Upper(b >> 4) && name[2] == Upper(b & 15);
      NibblesRebuild(b);
    } else {
      assert name[0] == b != PERCENT;
    }
  }

  lemma NibblesRebuild(b: bv8)
    ensures (Digit(Upper(b >> 4)) << 4) | Digit(Upper(b & 15)) == b
  {
  }

  /** Escaping can be undone, so it is injective. */
  lemma {:induction false} DecodeEscaped(first: bool, id: Bytes)
    ensures Decode(Escape(first, id)) == id
  {
    if id != [] {
      DecodePiece(first, id[0], Escape(false, id[1..]));
      DecodeEscaped(false, id[1..]);
    }
  }

  lemma {:induction false} EscapeConcat(first: bool, a: Bytes, b: Bytes)
    ensures Escape(first, a + b) == Escape(first, a) + Escape(first && a == [], b)
  {
    if a == [] {
      assert a + b == b;
    } else {
      assert (a + b)[1..] == a[1..] + b;
      EscapeConcat(false, a[1..], b);
    }
  }

  /** One byte more adds its piece. */
  lemma EscapeNext(id: Bytes, i: nat)
    requires i < |id|
    ensures Escape(true, id[..i + 1]) == Escape(true, id[..i]) + Piece(i == 0, id[i])
  {
    assert id[..i + 1] == id[..i] + [id[i]];
    EscapeConcat(true, id[..i], [id[i]]);
    assert Escape(i == 0, [id[i]]) == Piece(i == 0, id[i]) + [];
  }

  // ---- names -----------------------------------------------------------------------------------

  predicate Short(id: Bytes) { |Escape(true, id)| <= MAX_ESCAPED }

  /** The length of the longest prefix whose escape fits. */
  function Keep(id: Bytes): (k: nat)
    ensures k <= |id|
  {
    if Short(id) then |id| else Keep(id[..|id| - 1])
  }

  function Kept(id: Bytes): Bytes { Escape(true, id[..Keep(id)]) }

  function EmptyName(): (r: Bytes)
    ensures |r| == 8 && TILDE !in r
  {
    [0x25, 0x30, 0x30, 0x65, 0x6D, 0x70, 0x74, 0x79]
  }

  /** The id whose escape is the name of the empty id: NUL and "empty". */
  const NUL_EMPTY: Bytes := [0, 0x65, 0x6D, 0x70, 0x74, 0x79]

  /** The name without its suffix. */
  function Stem(id: Bytes): Bytes {
    if !Short(id) then Kept(id) + ([TILDE] + Hex16(Fnv(id)))
    else if id == [] then EmptyName()
    else Escape(true, id)
  }

  /** ".station.json" */
  function Suffix(): (r: Bytes)
    ensures |r| == 13
  {
    [0x2E, 0x73, 0x74, 0x61, 0x74, 0x69, 0x6F, 0x6E, 0x2E, 0x6A, 0x73, 0x6F, 0x6E]
  }

  /** ".station.secrets.json" */
  function SecretsSuffix(): (r: Bytes)
    ensures |r| == 21
  {
    [0x2E, 0x73, 0x74, 0x61, 0x74, 0x69, 0x6F, 0x6E, 0x2E, 0x73, 0x65, 0x63, 0x72, 0x65, 0x74, 0x73,
     0x2E, 0x6A, 0x73, 0x6F, 0x6E]
  }

  function StateName(id: Bytes): Bytes { Stem(id) + Suffix() }

  lemma PrefixesGrow(id: Bytes, i: nat, j: nat)
    requires i <= j <= |id|
    ensures |Escape(true, id[..i])| <= |Escape(true, id[..j])|
  {
    assert id[..j] == id[..i] + id[i..j];
    EscapeConcat(true, id[..i], id[i..j]);
  }

  /** The kept prefix fits, and no longer one does. */
  lemma {:induction false} KeepIsLongest(id: Bytes, k: nat)
    requires k <= |id|
    ensures |Escape(true, id[..k])| <= MAX_ESCAPED <==> k <= Keep(id)
    decreases |id|
  {
    assert id[..|id|] == id;
    if Short(id) {
      PrefixesGrow(id, k, |id|);
    } else if k < |id| {
      var shorter := id[..|id| - 1];
      KeepIsLongest(shorter, k);
      assert shorter[..k] == id[..k];
    }
  }

  /** A shortened name keeps 98 to 100 bytes, and never part of an escape: what is kept decodes to a
      prefix of the id, and one byte more would not fit. */
  lemma KeptIsAWholeEscape(id: Bytes)
    requires !Short(id)
    ensures Keep(id) < |id| && Decode(Kept(id)) == id[..Keep(id)]
    ensures 98 <= |Kept(id)| <= 100 < |Escape(true, id[..Keep(id) + 1])|
  {
    KeepIsLongest(id, Keep(id));
    KeepIsLongest(id, |id|);
    assert id[..|id|] == id;
    KeepIsLongest(id, Keep(id) + 1);
    EscapeNext(id, Keep(id));
    DecodeEscaped(true, id[..Keep(id)]);
  }

  predicate SafeByte(b: bv8) { Plain(b) || b == DOT || b == PERCENT }

  lemma {:induction false} EscapesAreSafe(first: bool, id: Bytes)
    ensures forall b | b in Escape(first, id) :: SafeByte(b)
    ensures id != [] && first ==> Escape(first, id)[0] != DOT
    ensures |Escape(first, id)| >= |id|
  {
    if id != [] {
      EscapesAreSafe(false, id[1..]);
      PieceIsSafe(first, id[0]);
    }
  }

  lemma PieceIsSafe(first: bool, b: bv8)
    ensures forall c | c in Piece(first, b) :: SafeByte(c)
    ensures first ==> Piece(first, b)[0] != DOT
  {
    UpperIsPlain(b >> 4);
    UpperIsPlain(b & 15);
  }

  lemma UpperIsPlain(n: bv8)
    requires n < 16
    ensures Plain(Upper(n))
  {
  }

  lemma NoTildeInEscapes(first: bool, id: Bytes)
    ensures TILDE !in Escape(first, id)
  {
    EscapesAreSafe(first, id);
  }

  /** Bytes that are written as they are. */
  predicate Unescaped(id: Bytes, first: bool) {
    forall i | 0 <= i < |id| :: Plain(id[i]) || (id[i] == DOT && !(first && i == 0))
  }

  lemma {:induction false} UnescapedStay(first: bool, id: Bytes)
    ensures |Escape(first, id)| >= |id|
    ensures if Unescaped(id, first) then Escape(first, id) == id else |Escape(first, id)| > |id|
  {
    if id != [] {
      UnescapedStay(false, id[1..]);
      assert id == [id[0]] + id[1..];
      assert Unescaped(id, first) <==> |Piece(first, id[0])| == 1 && Unescaped(id[1..], false) by {
        assert forall i | 0 <= i < |id| - 1 :: id[1..][i] == id[i + 1];
        assert forall i | 0 < i < |id| :: id[i] == id[1..][i - 1];
      }
    }
  }

  /** Of the ids that fit, exactly those of plain bytes and inner dots are their own names. */
  lemma PlainIdsKeepTheirNames(id: Bytes)
    ensures Unescaped(id, true) && |id| <= MAX_ESCAPED ==> Short(id)
    ensures Short(id) ==> (Stem(id) == id <==> id != [] && Unescaped(id, true))
  {
    UnescapedStay(true, id);
    hide Escape, Unescaped;
  }

  /** The digits, letters, `-` and `_`, one by one. */
  predicate IsKept(b: bv8) {
    || b == 0x2D || b == 0x30 || b == 0x31 || b == 0x32 || b == 0x33 || b == 0x34 || b == 0x35 || b == 0x36
    || b == 0x37 || b == 0x38 || b == 0x39 || b == 0x41 || b == 0x42 || b == 0x43 || b == 0x44 || b == 0x45
    || b == 0x46 || b == 0x47 || b == 0x48 || b == 0x49 || b == 0x4A || b == 0x4B || b == 0x4C || b == 0x4D
    || b == 0x4E || b == 0x4F || b == 0x50 || b == 0x51 || b == 0x52 || b == 0x53 || b == 0x54 || b == 0x55
    || b == 0x56 || b == 0x57 || b == 0x58 || b == 0x59 || b == 0x5A || b == 0x5F || b == 0x61 || b == 0x62
    || b == 0x63 || b == 0x64 || b == 0x65 || b == 0x66 || b == 0x67 || b == 0x68 || b == 0x69 || b == 0x6A
    || b == 0x6B || b == 0x6C || b == 0x6D || b == 0x6E || b == 0x6F || b == 0x70 || b == 0x71 || b == 0x72
    || b == 0x73 || b == 0x74 || b == 0x75 || b == 0x76 || b == 0x77 || b == 0x78 || b == 0x79 || b == 0x7A
  }

  /** How each byte is written: as it is if it is one of those or a dot that does not come first, and
      otherwise as `%` and two hexadecimal digits, capital letters included. */
  lemma PiecesInWords(first: bool, high: bv8, low: bv8)
    requires high < 16 && low < 16
    ensures var b := (high << 4) | low;
            Piece(first, b) ==
            if IsKept(b) || (b == 0x2E && !first) then [b] else [0x25, CapitalDigit(high), CapitalDigit(low)]
  {
    PlainIsKept((high << 4) | low);
    NibblesOf(high, low);
    hide Plain, IsKept;
  }

  lemma PlainIsKept(b: bv8)
    ensures Plain(b) <==> IsKept(b)
  {
  }

  lemma NibblesOf(high: bv8, low: bv8)
    requires high < 16 && low < 16
    ensures ((high << 4) | low) >> 4 == high && ((high << 4) | low) & 15 == low
    ensures Upper(high) == CapitalDigit(high) && Upper(low) == CapitalDigit(low)
  {
  }

  function CapitalDigit(n: bv8): bv8 {
    if n < 10 then 0x30 + n else 0x41 + (n - 10)
  }

  /** `CP-001`, `./` and an e with an acute accent, and the empty id. */
  lemma KnownNames()
    ensures StateName([0x43, 0x50, 0x2D, 0x30, 0x30, 0x31]) ==
            [0x43, 0x50, 0x2D, 0x30, 0x30, 0x31,
             0x2E, 0x73, 0x74, 0x61, 0x74, 0x69, 0x6F, 0x6E, 0x2E, 0x6A, 0x73, 0x6F, 0x6E]
    ensures StateName([0x2E, 0x2F, 0xC3, 0xA9]) ==
            [0x25, 0x32, 0x45, 0x25, 0x32, 0x46, 0x25, 0x43, 0x33, 0x25, 0x41, 0x39,
             0x2E, 0x73, 0x74, 0x61, 0x74, 0x69, 0x6F, 0x6E, 0x2E, 0x6A, 0x73, 0x6F, 0x6E]
    ensures StateName([]) ==
            [0x25, 0x30, 0x30, 0x65, 0x6D, 0x70, 0x74, 0x79,
             0x2E, 0x73, 0x74, 0x61, 0x74, 0x69, 0x6F, 0x6E, 0x2E, 0x6A, 0x73, 0x6F, 0x6E]
  {
    var plain := [0x43, 0x50, 0x2D, 0x30, 0x30, 0x31];
    PlainIdsKeepTheirNames(plain);
    KnownEscape();
    hide Escape;
    assert Unescaped(plain, true);
    NothingIsShort();
  }

  lemma NothingIsShort()
    ensures Short([])
  {
  }

  lemma KnownEscape()
    ensures var id := [0x2E, 0x2F, 0xC3, 0xA9];
            Escape(true, id) == [0x25, 0x32, 0x45, 0x25, 0x32, 0x46, 0x25, 0x43, 0x33, 0x25, 0x41, 0x39] && Short(id)
  {
    var id: Bytes := [0x2E, 0x2F, 0xC3, 0xA9];
    assert Piece(true, 0x2E) == [0x25, 0x32, 0x45] && Piece(false, 0x2F) == [0x25, 0x32, 0x46];
    assert Piece(false, 0xC3) == [0x25, 0x43, 0x33] && Piece(false, 0xA9) == [0x25, 0x41, 0x39];
    assert Escape(false, id[4..]) == [];
    assert Escape(false, id[3..]) == [0x25, 0x41, 0x39];
    assert Escape(false, id[2..]) == [0x25, 0x43, 0x33, 0x25, 0x41, 0x39];
    assert Escape(false, id[1..]) == [0x25, 0x32, 0x46, 0x25, 0x43, 0x33, 0x25, 0x41, 0x39];
  }

  // ---- when two ids share a file -----------------------------------------------------------------

  /** The two short ids with one name. */
  predicate EmptyPair(a: Bytes, b: Bytes) {
    (a == [] && b == NUL_EMPTY) || (a == NUL_EMPTY && b == [])
  }

  lemma NulEmptyEscape()
    ensures Escape(true, NUL_EMPTY) == EmptyName()
  {
    assert Escape(false, NUL_EMPTY[6..]) == [];
    assert Escape(false, NUL_EMPTY[5..]) == [0x79];
    assert Escape(false, NUL_EMPTY[4..]) == [0x74, 0x79];
    assert Escape(false, NUL_EMPTY[3..]) == [0x70, 0x74, 0x79];
    assert Escape(false, NUL_EMPTY[2..]) == [0x6D, 0x70, 0x74, 0x79];
    assert Escape(false, NUL_EMPTY[1..]) == [0x65, 0x6D, 0x70, 0x74, 0x79];
    assert Piece(true, 0) == [0x25, 0x30, 0x30];
  }

  lemma EscapeIsInjective(a: Bytes, b: Bytes)
    ensures Escape(true, a) == Escape(true, b) <==> a == b
  {
    DecodeEscaped(true, a);
    DecodeEscaped(true, b);
  }

  lemma ShortNamesAreDistinct(a: Bytes, b: Bytes)
    requires Short(a) && Short(b)
    ensures Stem(a) == Stem(b) <==> a == b || EmptyPair(a, b)
  {
    NulEmptyEscape();
    EscapeIsInjective(a, b);
    EscapeIsInjective(a, NUL_EMPTY);
    EscapeIsInjective(b, NUL_EMPTY);
    EscapesAreSafe(true, a);
    EscapesAreSafe(true, b);
  }

  lemma LongNamesAreDistinct(a: Bytes, b: Bytes)
    requires !Short(a) && !Short(b)
    ensures Stem(a) == Stem(b) <==> a[..Keep(a)] == b[..Keep(b)] && Fnv(a) == Fnv(b)
  {
    hide Escape, Keep, Fnv, Hex16;
    if Stem(a) == Stem(b) {
      var s, n := Stem(a), |Stem(a)| - 17;
      assert s[..n] == Kept(a) && s[..n] == Kept(b);
      assert s[n..][1..] == Hex16(Fnv(a)) && s[n..][1..] == Hex16(Fnv(b));
      Hex16IsInjective(Fnv(a), Fnv(b));
      EscapeIsInjective(a[..Keep(a)], b[..Keep(b)]);
    }
  }

  lemma LongNamesHaveATilde(id: Bytes)
    ensures 0x7E in Stem(id) <==> !Short(id)
  {
    NoTildeInEscapes(true, id);
    hide Escape, Keep, Fnv, Hex16;
    if !Short(id) {
      assert Stem(id)[|Kept(id)|] == TILDE;
    }
  }

  /** Exactly when two ids share a state file, for all ids. */
  lemma SharedFiles(a: Bytes, b: Bytes)
    ensures StateName(a) == StateName(b) <==>
      || a == b
      || EmptyPair(a, b)
      || (!Short(a) && !Short(b) && a[..Keep(a)] == b[..Keep(b)] && Fnv(a) == Fnv(b))
  {
    hide Escape, Keep, Fnv, Hex16;
    assert StateName(a) == StateName(b) <==> Stem(a) == Stem(b) by {
      if StateName(a) == StateName(b) {
        assert StateName(a)[..|StateName(a)| - 13] == Stem(a);
        assert StateName(b)[..|StateName(b)| - 13] == Stem(b);
      }
    }
    EmptyPairIsShort();
    LongNamesHaveATilde(a);
    LongNamesHaveATilde(b);
    if Short(a) && Short(b) {
      ShortNamesAreDistinct(a, b);
    } else if !Short(a) && !Short(b) {
      LongNamesAreDistinct(a, b);
    }
  }

  /** Among the ids a station's configuration accepts, which are not empty, only those with shortened
      names can share a file. */
  lemma SharedFilesOfNonEmptyIds(a: Bytes, b: Bytes)
    requires a != [] && b != []
    ensures StateName(a) == StateName(b) <==>
      || a == b
      || (!Short(a) && !Short(b) && a[..Keep(a)] == b[..Keep(b)] && Fnv(a) == Fnv(b))
  {
    hide StateName, Keep, Fnv, Short;
    SharedFiles(a, b);
  }

  lemma EmptyPairIsShort()
    ensures Short([]) && Short(NUL_EMPTY)
  {
    NulEmptyEscape();
  }

  /** Not every id has a name of its own. */
  lemma EmptyIdSharesItsFile()
    ensures [] != NUL_EMPTY && StateName([]) == StateName(NUL_EMPTY)
  {
    SharedFiles([], NUL_EMPTY);
  }

  /** Ids that differ in up to four adjacent bytes have different files, however long they are. */
  lemma FewBytesChangeTheName(front: Bytes, x: Bytes, y: Bytes, ending: Bytes)
    requires |x| == |y| <= 4 && x != y
    ensures StateName(front + x + ending) != StateName(front + y + ending)
  {
    var a, b := front + x + ending, front + y + ending;
    hide Escape, Keep, Hex16, Fnv;
    FewBytesChangeTheHash(front, x, y, ending);
    assert a[|front|..|front| + |x|] == x && b[|front|..|front| + |x|] == y;
    EmptyPairLengths(a, b);
    SharedFiles(a, b);
  }

  lemma EmptyPairLengths(a: Bytes, b: Bytes)
    ensures EmptyPair(a, b) ==> |a| != |b|
  {
  }

  // ---- what a name looks like --------------------------------------------------------------------

  ghost predicate NameBytes(s: Bytes) { forall b | b in s :: SafeByte(b) || b == 0x7E }

  lemma ConstantsAreNameBytes()
    ensures NameBytes(Suffix()) && NameBytes(EmptyName()) && EmptyName()[0] == PERCENT
  {
  }

  /** A name holds only safe bytes and the tilde, does not start with a dot, and is at most 130 bytes. */
  lemma NamesAreSafe(id: Bytes)
    ensures NameBytes(StateName(id)) && StateName(id)[0] != DOT && |StateName(id)| <= 130
  {
    hide Escape, Keep, Fnv, Hex16, Plain, Suffix, EmptyName;
    EscapesAreSafe(true, id[..Keep(id)]);
    EscapesAreSafe(true, id);
    HexDigitsArePlain(Fnv(id));
    if !Short(id) {
      KeptIsAWholeEscape(id);
    }
    ConstantsAreNameBytes();
  }

  predicate HexDigit(b: bv8) { 0x30 <= b <= 0x39 || 0x61 <= b <= 0x66 }

  /** The hash is written in lower-case hexadecimal digits. */
  lemma HexDigitsArePlain(h: Hash)
    ensures forall b | b in Hex16(h) :: HexDigit(b) && Plain(b)
  {
    HexIsHexadecimal(h, 16);
    hide Hex;
  }

  lemma {:induction false} HexIsHexadecimal(h: nat, digits: nat)
    ensures forall b | b in Hex(h, digits) :: HexDigit(b)
  {
    if digits > 0 {
      HexIsHexadecimal(h / 16, digits - 1);
      LowerIsHex(h % 16);
    }
  }

  lemma LowerIsHex(n: nat)
    requires n < 16
    ensures HexDigit(Lower(n))
  {
  }

  // ---- the secrets file ----------------------------------------------------------------------------

  predicate EndsWith(text: Bytes, ending: Bytes) {
    |ending| <= |text| && text[|text| - |ending|..] == ending
  }

  function SecretsPath(path: Bytes): Bytes {
    (if EndsWith(path, Suffix()) then path[..|path| - |Suffix()|] else path) + SecretsSuffix()
  }

  /** The secrets file lies beside the state file and is told apart by its suffix alone. */
  lemma SecretsLieBesideTheState(directory: Bytes, id: Bytes)
    ensures SecretsPath(directory + StateName(id)) == directory + Stem(id) + SecretsSuffix()
  {
    hide Stem, Suffix, SecretsSuffix;
    var path := directory + StateName(id);
    assert path == directory + Stem(id) + Suffix();
    assert path[|directory + Stem(id)|..] == Suffix();
  }

  /** Whatever the ids and directories, no state file is a secrets file. */
  lemma SecretsAreNeverState(directory: Bytes, a: Bytes, path: Bytes)
    ensures directory + StateName(a) != SecretsPath(path)
  {
    var base := if EndsWith(path, Suffix()) then path[..|path| - |Suffix()|] else path;
    var x, y := directory + Stem(a) + Suffix(), base + SecretsSuffix();
    SuffixesDiffer();
    hide Suffix, SecretsSuffix, Stem;
    assert directory + StateName(a) == x;
    assert x[|x| - 11] == Suffix()[2];
    assert y[|y| - 11] == SecretsSuffix()[10];
  }

  lemma SuffixesDiffer()
    ensures Suffix()[2] != SecretsSuffix()[10]
  {
  }

  /** Two ids share a secrets file exactly when they share a state file. */
  lemma SecretsAreSharedWithTheState(directory: Bytes, a: Bytes, b: Bytes)
    ensures SecretsPath(directory + StateName(a)) == SecretsPath(directory + StateName(b)) <==>
            StateName(a) == StateName(b)
  {
    SecretsLieBesideTheState(directory, a);
    SecretsLieBesideTheState(directory, b);
    hide Stem, Suffix, SecretsSuffix, SecretsPath;
    var x, y := directory + Stem(a) + SecretsSuffix(), directory + Stem(b) + SecretsSuffix();
    assert x[|directory|..|x| - 21] == Stem(a) && y[|directory|..|y| - 21] == Stem(b);
    assert StateName(a)[..|StateName(a)| - 13] == Stem(a) && StateName(b)[..|StateName(b)| - 13] == Stem(b);
  }

  // ---- the program's loop --------------------------------------------------------------------------

  method FileName(id: Bytes) returns (name: Bytes)
    ensures name == StateName(id)
  {
    assert Escape(true, id[..0]) == [];
    hide Escape, Keep, Kept, Short, Stem, Piece, Fnv, Hex16, EmptyName, Suffix, Scanned;
    name := [];
    var kept: nat, truncated := 0, false;
    StartScanning(id);
    for index := 0 to |id|
      invariant Scanned(id[..index], name, kept, truncated)
    {
      var piece := Piece(index == 0, id[index]);
      ScanByte(id, index, name, kept, truncated);
      if truncated || |name| + |piece| > MAX_ESCAPED {
        if !truncated {
          kept := |name|;
          truncated := true;
        }
      } else {
        name := name + piece;
      }
    }
    assert id[..|id|] == id;
    EndScanning(id, name, kept, truncated);
    if truncated {
      name := name[..kept];
      name := name + ([TILDE] + Hex16(Fnv(id)));
    }
    if name == [] {
      name := name + EmptyName();
    }
    name := name + Suffix();
  }

  /** The state of the loop after the bytes `id`. */
  ghost predicate Scanned(id: Bytes, name: Bytes, kept: nat, truncated: bool) {
    if truncated then !Short(id) && name == Kept(id) && kept == |name|
    else Short(id) && name == Escape(true, id)
  }

  lemma StartScanning(id: Bytes)
    ensures Scanned(id[..0], [], 0, false)
  {
  }

  lemma ScanByte(id: Bytes, i: nat, name: Bytes, kept: nat, truncated: bool)
    requires i < |id| && Scanned(id[..i], name, kept, truncated)
    ensures var piece := Piece(i == 0, id[i]);
            if truncated || |name| + |piece| > MAX_ESCAPED
            then Scanned(id[..i + 1], name, if truncated then kept else |name|, true)
            else Scanned(id[..i + 1], name + piece, kept, false)
  {
    NextByte(id, i);
    hide Escape, Kept, Piece;
  }

  lemma EndScanning(id: Bytes, name: Bytes, kept: nat, truncated: bool)
    requires Scanned(id, name, kept, truncated)
    ensures truncated ==> kept == |name| && name[..kept] == name
    ensures Stem(id) ==
      if truncated then name + ([TILDE] + Hex16(Fnv(id))) else if name == [] then EmptyName() else name
  {
    NothingEscapesToNothing(id);
    hide Escape, Keep, Kept, Fnv, Hex16, EmptyName;
  }

  lemma NothingEscapesToNothing(id: Bytes)
    ensures Escape(true, id) == [] <==> id == []
  {
    EscapesAreSafe(true, id);
  }

  lemma NextByte(id: Bytes, i: nat)
    requires i < |id|
    ensures Escape(true, id[..i + 1]) == Escape(true, id[..i]) + Piece(i == 0, id[i])
    ensures !Short(id[..i + 1]) && Short(id[..i]) ==> Kept(id[..i + 1]) == Escape(true, id[..i])
    ensures !Short(id[..i]) ==> !Short(id[..i + 1]) && Kept(id[..i + 1]) == Kept(id[..i])
  {
    EscapeNext(id, i);
    var longer := id[..i + 1];
    assert longer[..i] == id[..i];
    assert id[..i][..i] == id[..i];
    hide Escape, Piece;
    if !Short(longer) {
      var k := Keep(id[..i]);
      assert Keep(longer) == k;
      assert longer[..k] == id[..i][..k];
    }
  }
}
