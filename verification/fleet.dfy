/** Names of the stations of a fleet: one template, expanded for consecutive indices.

    Texts are their UTF-8 encodings; every character the template parser looks at is one byte. */
module Fleet {
  import opened Options
  import opened Fnv1a
  import Decimal
  import StateFiles

  const OPEN: bv8 := 0x7B
  const CLOSE: bv8 := 0x7D
  const COLON: bv8 := 0x3A
  const LETTER_N: bv8 := 0x6E
  const MAX_WIDTH := 9
  const MAX_COUNT := 1000

  type U32 = n: nat | n < 0x1_0000_0000

  datatype Error =
    | CountOutOfRange(count: U32)
    | IndexOverflow(firstIndex: U32, count: U32)
    | NoPlaceholder(template: Bytes, count: U32)
    | Unmatched | Unclosed | NotAPlaceholder(inner: Bytes) | UnknownPlaceholder(inner: Bytes)

  // ---- numbers -------------------------------------------------------------------------------

  function DigitByte(d: Decimal.Digit): bv8 {
    match d
    case 0 => 0x30 case 1 => 0x31 case 2 => 0x32 case 3 => 0x33 case 4 => 0x34
    case 5 => 0x35 case 6 => 0x36 case 7 => 0x37 case 8 => 0x38 case _ => 0x39
  }

  predicate IsDigit(b: bv8) { 0x30 <= b <= 0x39 }

  function DigitOf(b: bv8): Decimal.Digit {
    if b == 0x30 then 0 else if b == 0x31 then 1 else if b == 0x32 then 2 else if b == 0x33 then 3
    else if b == 0x34 then 4 else if b == 0x35 then 5 else if b == 0x36 then 6 else if b == 0x37 then 7
    else if b == 0x38 then 8 else 9
  }

  function Number(ds: Bytes): nat {
    if ds == [] then 0 else 10 * Number(ds[..|ds| - 1]) + DigitOf(ds[|ds| - 1])
  }

  function AsBytes(ds: seq<Decimal.Digit>): (r: Bytes)
    ensures |r| == |ds| && forall i | 0 <= i < |ds| :: r[i] == DigitByte(ds[i])
  {
    seq(|ds|, i requires 0 <= i < |ds| => DigitByte(ds[i]))
  }

  function Zeros(n: nat): seq<Decimal.Digit> { seq(n, _ => 0) }

  function PaddedDigits(n: nat, width: nat): seq<Decimal.Digit> {
    var ds := Decimal.Digits(n);
    Zeros(if |ds| < width then width - |ds| else 0) + ds
  }

  /** `n` in decimal, padded with zeros to at least `width` digits. */
  function Padded(n: nat, width: nat): (r: Bytes)
    ensures r != []
    ensures |r| == if |Decimal.Digits(n)| < width then width else |Decimal.Digits(n)|
  {
    AsBytes(PaddedDigits(n, width))
  }

  lemma {:induction false} LeadingZeros(k: nat, ds: seq<Decimal.Digit>)
    ensures Decimal.Value(Zeros(k) + ds) == Decimal.Value(ds)
    decreases k + |ds|
  {
    var all := Zeros(k) + ds;
    if ds != [] {
      assert all[..|all| - 1] == Zeros(k) + ds[..|ds| - 1];
      LeadingZeros(k, ds[..|ds| - 1]);
    } else if k > 0 {
      assert all[..|all| - 1] == Zeros(k - 1) + [];
      LeadingZeros(k - 1, []);
    }
  }

  lemma {:induction false} BytesDenote(ds: seq<Decimal.Digit>)
    ensures Number(AsBytes(ds)) == Decimal.Value(ds) && forall b | b in AsBytes(ds) :: IsDigit(b)
  {
    if ds != [] {
      var front := ds[..|ds| - 1];
      BytesDenote(front);
      assert AsBytes(ds)[..|ds| - 1] == AsBytes(front);
      assert DigitOf(DigitByte(ds[|ds| - 1])) == ds[|ds| - 1];
    }
  }

  /** What is written are digits, and they are those of the number. */
  lemma PaddedDenotesItsNumber(n: nat, width: nat)
    ensures Number(Padded(n, width)) == n && forall b | b in Padded(n, width) :: IsDigit(b)
  {
    PaddedDigitsDenote(n, width);
    BytesDenote(PaddedDigits(n, width));
  }

  lemma PaddedDigitsDenote(n: nat, width: nat)
    ensures Decimal.Value(PaddedDigits(n, width)) == n
  {
    var ds := Decimal.Digits(n);
    LeadingZeros(if |ds| < width then width - |ds| else 0, ds);
    Decimal.ValueOfDigits(n);
  }

  lemma PaddedIsInjective(m: nat, n: nat, width: nat)
    requires Padded(m, width) == Padded(n, width)
    ensures m == n
  {
    PaddedDenotesItsNumber(m, width);
    PaddedDenotesItsNumber(n, width);
  }

  // ---- templates -----------------------------------------------------------------------------

  /** What a template says, byte by byte and placeholder by placeholder. */
  datatype Tokens = Done | Lit(b: bv8, rest: Tokens) | Hole(inner: Bytes, rest: Tokens)

  /** The width in a placeholder, `n` or `n:WIDTH`. */
  function Width(inner: Bytes): Result<nat, Error> {
    if inner == [] || inner[0] != LETTER_N then Err(UnknownPlaceholder(inner))
    else if inner == [LETTER_N] then Ok(0)
    else if inner[1] == COLON && |inner| > 2 && (forall b | b in inner[2..] :: IsDigit(b))
            && Number(inner[2..]) <= MAX_WIDTH
    then Ok(Number(inner[2..]))
    else Err(NotAPlaceholder(inner))
  }

  function FindClose(t: Bytes): (r: Option<nat>)
    ensures r.Some? ==> r.value < |t| && t[r.value] == CLOSE && CLOSE !in t[..r.value]
    ensures r.None? ==> CLOSE !in t
  {
    if t == [] then None
    else if t[0] == CLOSE then Some(0)
    else match FindClose(t[1..])
      case None => None
      case Some(i) => assert t[..i + 1] == [t[0]] + t[1..][..i]; Some(i + 1)
  }

  function Scan(t: Bytes): Result<Tokens, Error>
    decreases |t|
  {
    if t == [] then Ok(Done)
    else if t[0] == OPEN then
      if |t| > 1 && t[1] == OPEN then PrependLit(OPEN, Scan(t[2..]))
      else match FindClose(t[1..])
        case None => Err(Unclosed)
        case Some(i) =>
          match Width(t[1..i + 1])
          case Err(e) => Err(e)
          case Ok(_) => PrependHole(t[1..i + 1], Scan(t[i + 2..]))
    else if t[0] == CLOSE then
      if |t| > 1 && t[1] == CLOSE then PrependLit(CLOSE, Scan(t[2..])) else Err(Unmatched)
    else PrependLit(t[0], Scan(t[1..]))
  }

  function PrependLit(b: bv8, r: Result<Tokens, Error>): Result<Tokens, Error> {
    match r
    case Ok(ts) => Ok(Lit(b, ts))
    case Err(e) => Err(e)
  }

  function PrependHole(inner: Bytes, r: Result<Tokens, Error>): Result<Tokens, Error> {
    match r
    case Ok(ts) => Ok(Hole(inner, ts))
    case Err(e) => Err(e)
  }

  /** The text of a template. */
  function Spell(ts: Tokens): Bytes {
    match ts
    case Done => []
    case Lit(b, rest) => (if b == OPEN || b == CLOSE then [b, b] else [b]) + Spell(rest)
    case Hole(inner, rest) => [OPEN] + inner + [CLOSE] + Spell(rest)
  }

  ghost predicate Proper(ts: Tokens) {
    match ts
    case Done => true
    case Lit(_, rest) => Proper(rest)
    case Hole(inner, rest) => Width(inner).Ok? && Proper(rest)
  }

  lemma PlaceholdersHaveNoBraces(inner: Bytes)
    requires Width(inner).Ok?
    ensures CLOSE !in inner && inner != [] && inner[0] != OPEN
  {
    if |inner| >= 2 {
      assert inner == [LETTER_N, COLON] + inner[2..];
      assert !IsDigit(CLOSE);
    }
  }

  /** Every well-formed template is read as it was written, ... */
  lemma {:induction false} ScanIsComplete(ts: Tokens)
    requires Proper(ts)
    ensures Scan(Spell(ts)) == Ok(ts)
  {
    match ts
    case Done =>
    case Lit(b, rest) =>
      ScanIsComplete(rest);
      var t := Spell(ts);
      assert b == OPEN || b == CLOSE ==> t[2..] == Spell(rest);
      assert b != OPEN && b != CLOSE ==> t[1..] == Spell(rest);
    case Hole(inner, rest) =>
      ScanIsComplete(rest);
      PlaceholdersHaveNoBraces(inner);
      ScanHole(inner, Spell(rest));
  }

  lemma ScanHole(inner: Bytes, rest: Bytes)
    requires Width(inner).Ok? && CLOSE !in inner && inner != [] && inner[0] != OPEN
    ensures Scan([OPEN] + inner + [CLOSE] + rest) == PrependHole(inner, Scan(rest))
  {
    var t := [OPEN] + inner + [CLOSE] + rest;
    FindCloseAfter(inner, rest);
    assert t[1..] == inner + [CLOSE] + rest;
    assert t[1..|inner| + 1] == inner && t[|inner| + 2..] == rest;
    hide Width, FindClose;
  }

  lemma {:induction false} FindCloseAfter(inner: Bytes, rest: Bytes)
    requires CLOSE !in inner
    ensures FindClose(inner + [CLOSE] + rest) == Some(|inner|)
  {
    if inner != [] {
      assert (inner + [CLOSE] + rest)[1..] == inner[1..] + [CLOSE] + rest;
      FindCloseAfter(inner[1..], rest);
    }
  }

  /** ... and nothing else is accepted. */
  lemma {:induction false} ScanIsSound(t: Bytes)
    requires Scan(t).Ok?
    ensures Proper(Scan(t).value) && Spell(Scan(t).value) == t
    decreases |t|
  {
    if t == [] {
    } else if t[0] == OPEN && !(|t| > 1 && t[1] == OPEN) {
      hide Width, FindClose;
      var i := FindClose(t[1..]).value;
      ScanIsSound(t[i + 2..]);
      HoleText(t, i);
    } else if t[0] == OPEN || t[0] == CLOSE {
      ScanIsSound(t[2..]);
      assert t == [t[0], t[0]] + t[2..];
    } else {
      ScanIsSound(t[1..]);
      assert t == [t[0]] + t[1..];
    }
  }

  lemma HoleText(t: Bytes, i: nat)
    requires i + 1 < |t| && t[0] == OPEN && t[1..][i] == CLOSE
    ensures t == [OPEN] + t[1..i + 1] + [CLOSE] + t[i + 2..]
  {
  }

  lemma TemplatesAreExactlyTheSpellings(t: Bytes, ts: Tokens)
    ensures Scan(t) == Ok(ts) <==> Proper(ts) && t == Spell(ts)
  {
    if Scan(t) == Ok(ts) {
      ScanIsSound(t);
    }
    if Proper(ts) {
      ScanIsComplete(ts);
    }
  }

  // ---- expansion -----------------------------------------------------------------------------

  function WidthOf(inner: Bytes): nat { if Width(inner).Ok? then Width(inner).value else 0 }

  function Expand(ts: Tokens, n: nat): Bytes {
    match ts
    case Done => []
    case Lit(b, rest) => [b] + Expand(rest, n)
    case Hole(inner, rest) => Padded(n, WidthOf(inner)) + Expand(rest, n)
  }

  predicate HasHole(ts: Tokens) {
    match ts
    case Done => false
    case Lit(_, rest) => HasHole(rest)
    case Hole(_, _) => true
  }

  lemma {:induction false} ExpansionsGrow(ts: Tokens, m: nat, n: nat)
    requires m <= n
    ensures |Expand(ts, m)| <= |Expand(ts, n)|
  {
    match ts
    case Done =>
    case Lit(_, rest) => ExpansionsGrow(rest, m, n);
    case Hole(_, rest) =>
      ExpansionsGrow(rest, m, n);
      Decimal.DigitsAreMonotone(m, n);
  }

  /** Whatever literals, widths and placeholders are mixed, different indices give different ids. */
  lemma {:induction false} ExpansionIsInjective(ts: Tokens, m: nat, n: nat)
    requires HasHole(ts) && m <= n && Expand(ts, m) == Expand(ts, n)
    ensures m == n
  {
    match ts
    case Done =>
    case Lit(b, rest) =>
      assert Expand(ts, m)[1..] == Expand(rest, m) && Expand(ts, n)[1..] == Expand(rest, n);
      ExpansionIsInjective(rest, m, n);
    case Hole(inner, rest) =>
      ExpansionsGrow(rest, m, n);
      Decimal.DigitsAreMonotone(m, n);
      var w := WidthOf(inner);
      var x, y := Padded(m, w), Padded(n, w);
      hide Padded, WidthOf;
      assert |x| == |y|;
      assert Expand(ts, m)[..|x|] == x && Expand(ts, n)[..|y|] == y;
      PaddedIsInjective(m, n, w);
  }

  /** Without a placeholder there is only one id. */
  lemma {:induction false} OneIdWithoutHole(ts: Tokens, m: nat, n: nat)
    requires !HasHole(ts)
    ensures Expand(ts, m) == Expand(ts, n)
  {
    if ts.Lit? {
      OneIdWithoutHole(ts.rest, m, n);
    }
  }

  // ---- the parts the program keeps -----------------------------------------------------------

  datatype Part = Literal(text: Bytes) | Index(width: nat)

  function Flush(literal: Bytes): seq<Part> { if literal == [] then [] else [Literal(literal)] }

  /** Runs of literal bytes are one part. */
  function Parts(literal: Bytes, ts: Tokens): seq<Part>
    decreases ts
  {
    match ts
    case Done => Flush(literal)
    case Lit(b, rest) => Parts(literal + [b], rest)
    case Hole(inner, rest) => Flush(literal) + [Index(WidthOf(inner))] + Parts([], rest)
  }

  function ExpandPart(p: Part, n: nat): Bytes {
    match p
    case Literal(text) => text
    case Index(width) => Padded(n, width)
  }

  function ExpandParts(ps: seq<Part>, n: nat): Bytes {
    if ps == [] then [] else ExpandParts(ps[..|ps| - 1], n) + ExpandPart(ps[|ps| - 1], n)
  }

  predicate HasPlaceholder(ps: seq<Part>) { exists i | 0 <= i < |ps| :: ps[i].Index? }

  lemma {:induction false} ExpandPartsConcat(a: seq<Part>, b: seq<Part>, n: nat)
    ensures ExpandParts(a + b, n) == ExpandParts(a, n) + ExpandParts(b, n)
  {
    hide ExpandPart;
    if b == [] {
      assert a + b == a;
    } else {
      assert (a + b)[..|a + b| - 1] == a + b[..|b| - 1];
      ExpandPartsConcat(a, b[..|b| - 1], n);
    }
  }

  lemma ExpandOne(p: Part, n: nat)
    ensures ExpandParts([p], n) == ExpandPart(p, n)
  {
    assert ExpandParts([p][..0], n) == [];
    hide ExpandPart;
  }

  lemma ExpandFlushed(literal: Bytes, n: nat)
    ensures ExpandParts(Flush(literal), n) == literal
  {
    if literal != [] {
      ExpandOne(Literal(literal), n);
    }
  }

  /** Collecting literals keeps the meaning. */
  lemma {:induction false} PartsKeepTheMeaning(literal: Bytes, ts: Tokens, n: nat)
    ensures ExpandParts(Parts(literal, ts), n) == literal + Expand(ts, n)
    ensures HasPlaceholder(Parts(literal, ts)) <==> HasHole(ts)
    decreases ts
  {
    hide ExpandPart, ExpandParts, WidthOf, Padded;
    match ts
    case Done => ExpandFlushed(literal, n);
    case Lit(b, rest) => PartsKeepTheMeaning(literal + [b], rest, n);
    case Hole(inner, rest) =>
      var p, parts := Index(WidthOf(inner)), Parts([], rest);
      PartsKeepTheMeaning([], rest, n);
      ExpandFlushed(literal, n);
      ExpandOne(p, n);
      ExpandPartsConcat(Flush(literal) + [p], parts, n);
      ExpandPartsConcat(Flush(literal), [p], n);
      HoleMeaning(inner, n);
      assert (Flush(literal) + [p] + parts)[|Flush(literal)|] == p;
  }

  lemma HoleMeaning(inner: Bytes, n: nat)
    ensures ExpandPart(Index(WidthOf(inner)), n) == Padded(n, WidthOf(inner))
  {
  }

  /** The state of the parser's loop: `parts` and `literal` stand for what was read. */
  ghost predicate Halfway(whole: Bytes, parts: seq<Part>, literal: Bytes, left: Bytes) {
    && (Scan(left).Err? ==> Scan(whole) == Err(Scan(left).error))
    && (Scan(left).Ok? ==> Scan(whole).Ok? && Parts([], Scan(whole).value) == parts + Parts(literal, Scan(left).value))
  }

  lemma ReadLit(whole: Bytes, parts: seq<Part>, literal: Bytes, left: Bytes, b: bv8, rest: Bytes)
    requires Halfway(whole, parts, literal, left) && Scan(left) == PrependLit(b, Scan(rest))
    ensures Halfway(whole, parts, literal + [b], rest)
  {
    hide Scan;
  }

  lemma ReadHole(whole: Bytes, parts: seq<Part>, literal: Bytes, left: Bytes, inner: Bytes, rest: Bytes)
    requires Halfway(whole, parts, literal, left) && Scan(left) == PrependHole(inner, Scan(rest))
    ensures Halfway(whole, parts + Flush(literal) + [Index(WidthOf(inner))], [], rest)
  {
    hide Scan, WidthOf;
    if Scan(rest).Ok? {
      var more := Parts([], Scan(rest).value);
      assert parts + (Flush(literal) + [Index(WidthOf(inner))] + more)
          == parts + Flush(literal) + [Index(WidthOf(inner))] + more;
    }
  }

  lemma HalfwayFails(whole: Bytes, parts: seq<Part>, literal: Bytes, left: Bytes)
    requires Halfway(whole, parts, literal, left) && Scan(left).Err?
    ensures Scan(whole) == Err(Scan(left).error)
  {
  }

  lemma HalfwayEnds(whole: Bytes, parts: seq<Part>, literal: Bytes)
    requires Halfway(whole, parts, literal, [])
    ensures Scan(whole).Ok? && Parts([], Scan(whole).value) == parts + Flush(literal)
  {
  }

  lemma ScanOpen(left: Bytes, inner: Bytes)
    requires left != [] && left[0] == OPEN && !(|left| > 1 && left[1] == OPEN)
    requires FindClose(left[1..]) == Some(|inner|) && inner == left[1..|inner| + 1]
    ensures Width(inner).Err? ==> Scan(left) == Err(Width(inner).error)
    ensures Width(inner).Ok? ==> Scan(left) == PrependHole(inner, Scan(left[|inner| + 2..]))
  {
    hide Width, FindClose;
  }

  /** The bytes up to the next closing brace. */
  method ReadInner(template: Bytes, from: nat) returns (inner: Option<Bytes>)
    requires from <= |template|
    ensures FindClose(template[from..]).None? ==> inner == None
    ensures FindClose(template[from..]).Some? ==>
      inner == Some(template[from..from + FindClose(template[from..]).value])
  {
    var bytes, i := [], from;
    while i < |template|
      invariant from <= i <= |template| && bytes == template[from..i] && CLOSE !in bytes
    {
      if template[i] == CLOSE {
        assert template[from..] == bytes + [CLOSE] + template[i + 1..];
        FindCloseAfter(bytes, template[i + 1..]);
        return Some(bytes);
      }
      bytes := bytes + [template[i]];
      i := i + 1;
    }
    assert template[from..] == bytes;
    return None;
  }

  /** What stands at `i`, if it is not a placeholder. */
  lemma ScanAt(template: Bytes, i: nat)
    requires i < |template|
    ensures var c, left := template[i], template[i..];
            var double := i + 1 < |template| && template[i + 1] == c;
            if (c == OPEN || c == CLOSE) && double then Scan(left) == PrependLit(c, Scan(template[i + 2..]))
            else if c == CLOSE then Scan(left) == Err(Unmatched)
            else c == OPEN || Scan(left) == PrependLit(c, Scan(template[i + 1..]))
  {
    var left := template[i..];
    assert left[1..] == template[i + 1..];
    assert |left| >= 2 ==> left[2..] == template[i + 2..];
    hide Width, FindClose;
  }

  /** Reads the placeholder at `i`: its width, and where the text after it begins. */
  method ReadPlaceholder(template: Bytes, i: nat) returns (r: Result<(nat, nat), Error>, ghost inner: Bytes)
    requires i < |template| && template[i] == OPEN && !(i + 1 < |template| && template[i + 1] == OPEN)
    ensures r.Err? ==> Scan(template[i..]) == Err(r.error)
    ensures r.Ok? ==>
      && i < r.value.1 <= |template| && r.value.0 == WidthOf(inner)
      && Scan(template[i..]) == PrependHole(inner, Scan(template[r.value.1..]))
  {
    ghost var left := template[i..];
    assert left[1..] == template[i + 1..];
    hide Width, FindClose;
    var bytes := ReadInner(template, i + 1);
    if bytes == None {
      inner := [];
      return Err(Unclosed), inner;
    }
    inner := bytes.value;
    hide Scan;
    ScanOpen(left, inner);
    assert left[|inner| + 2..] == template[i + |inner| + 2..];
    var width := Width(bytes.value);
    if width.Err? {
      return Err(width.error), inner;
    }
    return Ok((width.value, i + |bytes.value| + 2)), inner;
  }

  method Parse(template: Bytes) returns (r: Result<seq<Part>, Error>)
    ensures Scan(template).Err? ==> r == Err(Scan(template).error)
    ensures Scan(template).Ok? ==> r == Ok(Parts([], Scan(template).value))
  {
    var parts, literal, i := [], [], 0;
    assert template[0..] == template;
    hide Halfway, Parts, Width, WidthOf, FindClose, Scan;
    HalfwayStarts(template);
    while i < |template|
      invariant i <= |template| && Halfway(template, parts, literal, template[i..])
    {
      var c := template[i];
      ScanAt(template, i);
      if (c == OPEN || c == CLOSE) && i + 1 < |template| && template[i + 1] == c {
        ReadLit(template, parts, literal, template[i..], c, template[i + 2..]);
        literal := literal + [c];
        i := i + 2;
      } else if c == CLOSE {
        HalfwayFails(template, parts, literal, template[i..]);
        return Err(Unmatched);
      } else if c == OPEN {
        var placeholder, inner := ReadPlaceholder(template, i);
        if placeholder.Err? {
          HalfwayFails(template, parts, literal, template[i..]);
          return Err(placeholder.error);
        }
        ReadHole(template, parts, literal, template[i..], inner, template[placeholder.value.1..]);
        parts := parts + Flush(literal) + [Index(placeholder.value.0)];
        literal := [];
        i := placeholder.value.1;
      } else {
        ReadLit(template, parts, literal, template[i..], c, template[i + 1..]);
        literal := literal + [c];
        i := i + 1;
      }
    }
    assert template[i..] == [];
    HalfwayEnds(template, parts, literal);
    return Ok(parts + Flush(literal));
  }

  lemma HalfwayStarts(whole: Bytes)
    ensures Halfway(whole, [], [], whole)
  {
    hide Scan, Parts;
    if Scan(whole).Ok? {
      assert [] + Parts([], Scan(whole).value) == Parts([], Scan(whole).value);
    }
  }

  method ExpandTemplate(parts: seq<Part>, n: nat) returns (out: Bytes)
    ensures out == ExpandParts(parts, n)
  {
    hide Padded;
    out := [];
    for i := 0 to |parts|
      invariant out == ExpandParts(parts[..i], n)
    {
      assert parts[..i + 1][..i] == parts[..i];
      match parts[i] {
        case Literal(text) => out := out + text;
        case Index(width) => out := out + Padded(n, width);
      }
    }
    assert parts[..|parts|] == parts;
  }

  // ---- the ids of a fleet --------------------------------------------------------------------

  datatype Spec = Spec(template: Bytes, firstIndex: U32, count: U32)

  /** What is wrong with a spec, checked in the program's order. */
  function Refusal(spec: Spec): Option<Error> {
    if !(1 <= spec.count <= MAX_COUNT) then Some(CountOutOfRange(spec.count))
    else if spec.firstIndex + (spec.count - 1) >= 0x1_0000_0000 then Some(IndexOverflow(spec.firstIndex, spec.count))
    else if Scan(spec.template).Err? then Some(Scan(spec.template).error)
    else if spec.count > 1 && !HasHole(Scan(spec.template).value) then Some(NoPlaceholder(spec.template, spec.count))
    else None
  }

  /** The ids, in order. */
  function FleetIds(spec: Spec): (ids: seq<Bytes>)
    requires Refusal(spec) == None
    ensures |ids| == spec.count
  {
    seq(spec.count, i requires 0 <= i < spec.count => Expand(Scan(spec.template).value, spec.firstIndex + i))
  }

  method Ids(spec: Spec) returns (r: Result<seq<Bytes>, Error>)
    ensures Refusal(spec).Some? ==> r == Err(Refusal(spec).value)
    ensures Refusal(spec).None? ==> r == Ok(FleetIds(spec))
  {
    if !(1 <= spec.count <= MAX_COUNT) {
      return Err(CountOutOfRange(spec.count));
    }
    var last := spec.firstIndex + (spec.count - 1);
    if last >= 0x1_0000_0000 {
      return Err(IndexOverflow(spec.firstIndex, spec.count));
    }
    var parsed := Parse(spec.template);
    if parsed.Err? {
      return Err(parsed.error);
    }
    ghost var ts := Scan(spec.template).value;
    PartsKeepTheMeaning([], ts, 0);
    hide Scan, Parts, HasPlaceholder, Expand, HasHole;
    if spec.count > 1 && !HasPlaceholder(parsed.value) {
      return Err(NoPlaceholder(spec.template, spec.count));
    }
    var ids := ExpandAll(parsed.value, ts, spec.firstIndex, spec.count);
    assert ids == FleetIds(spec);
    return Ok(ids);
  }

  method ExpandAll(parts: seq<Part>, ghost ts: Tokens, first: nat, count: nat) returns (ids: seq<Bytes>)
    requires parts == Parts([], ts)
    ensures |ids| == count && forall i | 0 <= i < count :: ids[i] == Expand(ts, first + i)
  {
    hide Parts, Expand, ExpandParts;
    ids := [];
    for k := 0 to count
      invariant |ids| == k && forall i | 0 <= i < k :: ids[i] == Expand(ts, first + i)
    {
      PartsKeepTheMeaning([], ts, first + k);
      var id := ExpandTemplate(parts, first + k);
      ids := ids + [id];
    }
  }

  /** A fleet's ids are pairwise distinct. */
  lemma FleetIdsAreDistinct(spec: Spec, i: nat, j: nat)
    requires Refusal(spec) == None && i < j < spec.count
    ensures FleetIds(spec)[i] != FleetIds(spec)[j]
  {
    var ts := Scan(spec.template).value;
    hide Scan;
    if Expand(ts, spec.firstIndex + i) == Expand(ts, spec.firstIndex + j) {
      ExpansionIsInjective(ts, spec.firstIndex + i, spec.firstIndex + j);
    }
  }

  lemma {:induction false} HolesAreNotEmpty(ts: Tokens, n: nat)
    requires HasHole(ts)
    ensures Expand(ts, n) != []
  {
    if ts.Lit? {
      HolesAreNotEmpty(ts.rest, n);
    }
  }

  /** Two stations of a fleet share a state file only if both names are shortened, keep the same
      prefix and have the same hash; in particular ids with short escapes have files of their own. */
  lemma FleetFilesAreDistinct(spec: Spec, i: nat, j: nat)
    requires Refusal(spec) == None && i < j < spec.count
    ensures var a, b := FleetIds(spec)[i], FleetIds(spec)[j];
            StateFiles.StateName(a) == StateFiles.StateName(b) <==>
              && !StateFiles.Short(a) && !StateFiles.Short(b)
              && a[..StateFiles.Keep(a)] == b[..StateFiles.Keep(b)] && Fnv(a) == Fnv(b)
  {
    var a, b := FleetIds(spec)[i], FleetIds(spec)[j];
    FleetIdsAreDistinct(spec, i, j);
    HolesAreNotEmpty(Scan(spec.template).value, spec.firstIndex + i);
    HolesAreNotEmpty(Scan(spec.template).value, spec.firstIndex + j);
    assert a != [] && b != [];
    hide Expand, Scan, StateFiles.Short, StateFiles.Keep, Fnv, StateFiles.StateName;
    StateFiles.SharedFiles(a, b);
  }

  // ---- fleets whose files never meet -----------------------------------------------------------

  predicate OneHole(ts: Tokens) {
    match ts
    case Done => false
    case Lit(_, rest) => OneHole(rest)
    case Hole(_, rest) => !HasHole(rest)
  }

  lemma {:induction false} AroundTheHole(ts: Tokens) returns (before: Bytes, width: nat, after: Bytes)
    requires OneHole(ts)
    ensures forall n: nat :: Expand(ts, n) == before + Padded(n, width) + after
  {
    hide Padded, WidthOf;
    match ts
    case Done =>
    case Lit(b, rest) =>
      var front;
      front, width, after := AroundTheHole(rest);
      before := [b] + front;
      forall n: nat ensures Expand(ts, n) == before + Padded(n, width) + after {
        assert [b] + (front + Padded(n, width) + after) == [b] + front + Padded(n, width) + after;
      }
    case Hole(inner, rest) =>
      before, width, after := [], WidthOf(inner), Expand(rest, 0);
      forall n: nat ensures Expand(ts, n) == before + Padded(n, width) + after {
        OneIdWithoutHole(rest, n, 0);
        assert [] + Padded(n, width) == Padded(n, width);
      }
  }

  /** Numbers of equal length in the same ten thousand differ in their last four digits at most. */
  lemma SameTenThousandSameFront(m: nat, n: nat, width: nat)
    requires |Padded(m, width)| == |Padded(n, width)| >= 4 && m / 10000 == n / 10000
    ensures var k := |Padded(m, width)| - 4; Padded(m, width)[..k] == Padded(n, width)[..k]
  {
    var x, y := PaddedDigits(m, width), PaddedDigits(n, width);
    var k := |x| - 4;
    PaddedDigitsDenote(m, width);
    PaddedDigitsDenote(n, width);
    hide PaddedDigits;
    Decimal.TenThousands(x);
    Decimal.TenThousands(y);
    Decimal.ValueDetermines(x[..k], y[..k]);
    forall i | 0 <= i < k ensures Padded(m, width)[i] == Padded(n, width)[i] {
      assert x[..k][i] == y[..k][i];
    }
  }

  lemma PaddedNamesDiffer(before: Bytes, x: Bytes, y: Bytes, after: Bytes)
    requires |x| == |y| && x != y && (|x| >= 4 ==> x[..|x| - 4] == y[..|x| - 4])
    ensures StateFiles.StateName(before + x + after) != StateFiles.StateName(before + y + after)
  {
    hide StateFiles.StateName;
    var k := if |x| < 4 then 0 else |x| - 4;
    assert x == x[..k] + x[k..] && y == x[..k] + y[k..];
    assert before + x + after == before + x[..k] + x[k..] + after;
    assert before + y + after == before + x[..k] + y[k..] + after;
    StateFiles.FewBytesChangeTheName(before + x[..k], x[k..], y[k..], after);
  }

  lemma NeighboursExpandApart(ts: Tokens, m: nat, n: nat)
    requires OneHole(ts) && m != n && m / 10000 == n / 10000 && |Expand(ts, m)| == |Expand(ts, n)|
    ensures StateFiles.StateName(Expand(ts, m)) != StateFiles.StateName(Expand(ts, n))
  {
    hide StateFiles.StateName, PaddedDigits;
    var before, width, after := AroundTheHole(ts);
    var x, y := Padded(m, width), Padded(n, width);
    assert Expand(ts, m) == before + x + after && Expand(ts, n) == before + y + after;
    hide Expand;
    if |x| >= 4 {
      SameTenThousandSameFront(m, n, width);
    }
    if x == y {
      PaddedIsInjective(m, n, width);
    }
    PaddedNamesDiffer(before, x, y, after);
  }

  /** With one placeholder, stations of the same ten thousand whose ids are equally long have files of
      their own, however long the ids are. */
  lemma NeighboursHaveTheirOwnFiles(spec: Spec, i: nat, j: nat)
    requires Refusal(spec) == None && i < j < spec.count && OneHole(Scan(spec.template).value)
    requires (spec.firstIndex + i) / 10000 == (spec.firstIndex + j) / 10000
    requires |FleetIds(spec)[i]| == |FleetIds(spec)[j]|
    ensures StateFiles.StateName(FleetIds(spec)[i]) != StateFiles.StateName(FleetIds(spec)[j])
  {
    hide Scan, Expand, OneHole, StateFiles.StateName;
    NeighboursExpandApart(Scan(spec.template).value, spec.firstIndex + i, spec.firstIndex + j);
  }

  lemma LongerNumbersLongerIds(ts: Tokens, m: nat, n: nat)
    requires OneHole(ts) && m <= n
    ensures |Expand(ts, m)| <= |Expand(ts, n)|
  {
    hide PaddedDigits;
    var before, width, after := AroundTheHole(ts);
    assert Expand(ts, m) == before + Padded(m, width) + after && Expand(ts, n) == before + Padded(n, width) + after;
    Decimal.DigitsAreMonotone(m, n);
  }

  /** A fleet of one placeholder within one ten thousand, whose first and last ids are equally long,
      gives every station a file of its own. */
  lemma OneTenThousandHasItsOwnFiles(spec: Spec)
    requires Refusal(spec) == None && OneHole(Scan(spec.template).value)
    requires spec.firstIndex / 10000 == (spec.firstIndex + spec.count - 1) / 10000
    requires |FleetIds(spec)[0]| == |FleetIds(spec)[spec.count - 1]|
    ensures forall i, j | 0 <= i < j < spec.count ::
              StateFiles.StateName(FleetIds(spec)[i]) != StateFiles.StateName(FleetIds(spec)[j])
  {
    hide Scan, Expand, OneHole, StateFiles.StateName;
    var ts, first, last := Scan(spec.template).value, spec.firstIndex, spec.firstIndex + spec.count - 1;
    forall k: nat | k < spec.count ensures |FleetIds(spec)[k]| == |FleetIds(spec)[0]| {
      LongerNumbersLongerIds(ts, first, first + k);
      LongerNumbersLongerIds(ts, first + k, last);
    }
    forall i, j | 0 <= i < j < spec.count
      ensures StateFiles.StateName(FleetIds(spec)[i]) != StateFiles.StateName(FleetIds(spec)[j])
    {
      NeighboursHaveTheirOwnFiles(spec, i, j);
    }
  }
}
