/** Rebuilding PEM blocks (RFC 7468, section 2) from text whose line breaks may be gone. */
module Pem {
  import opened Options
  import opened Text

  const LINE := 64

  function Begin(): (r: string)
    ensures r != "" && r[0] == '-' && Safe(r)
  {
    "-----BEGIN "
  }

  function Dashes(): (r: string)
    ensures r != "" && r[0] == '-' && r[|r| - 1] == '-' && Safe(r)
  {
    "-----"
  }

  function Footer(title: string): (r: string)
    ensures r != "" && r[0] == '-' && r[|r| - 1] == '-' && (Safe(title) ==> Safe(r))
  {
    "-----END " + title + Dashes()
  }

  datatype Error = Required | ExpectedBegin | UnterminatedBegin | MissingFooter(title: string) | NotBase64 | TooLong

  datatype Block = Block(title: string, data: string)

  datatype Blocks = Nil | Cons(head: Block, tail: Blocks)

  predicate IsBase64(c: char) {
    'a' <= c <= 'z' || 'A' <= c <= 'Z' || '0' <= c <= '9' || c == '+' || c == '/' || c == '='
  }

  predicate Data(s: string) { s != "" && forall c | c in s :: IsBase64(c) }

  /** A title and data that a block can carry. */
  ghost predicate Valid(b: Block) { EndsFirst(b.title, Dashes()) && Data(b.data) }

  // ---- reading -----------------------------------------------------------------------------

  datatype Reading = Failed(error: Error) | Read(block: Block, tail: string)

  function ReadBlock(rest: string): (r: Reading)
    ensures r.Read? ==> |r.tail| < |rest|
  {
    if !(Begin() <= rest) then Failed(ExpectedBegin) else
    match SplitOnce(rest[|Begin()|..], Dashes())
    case NotFound => Failed(UnterminatedBegin)
    case Found(title, bodyAndTail) =>
      match SplitOnce(bodyAndTail, Footer(title))
      case NotFound => Failed(MissingFooter(title))
      case Found(body, tail) => if Data(Strip(body)) then Read(Block(title, Strip(body)), tail) else Failed(NotBase64)
  }

  function Parse(rest: string): Result<Blocks, Error>
    decreases |rest|
  {
    if rest == "" then Ok(Nil) else
    match ReadBlock(rest)
    case Failed(e) => Err(e)
    case Read(b, tail) => Prepend(b, Parse(TrimStart(tail)))
  }

  function Prepend(b: Block, r: Result<Blocks, Error>): Result<Blocks, Error> {
    match r
    case Ok(blocks) => Ok(Cons(b, blocks))
    case Err(e) => Err(e)
  }

  // ---- writing -----------------------------------------------------------------------------

  /** A block with some body. */
  function SpellOne(b: Block, body: string): (s: string)
    ensures s != "" && s[0] == '-' && s[|s| - 1] == '-'
  {
    Begin() + (b.title + Dashes() + (body + Footer(b.title)))
  }

  function Lines(data: string): string
    decreases |data|
  {
    if |data| <= LINE then data + "\n" else data[..LINE] + "\n" + Lines(data[LINE..])
  }

  function PrintBlock(b: Block): string {
    SpellOne(b, "\n" + Lines(b.data)) + "\n"
  }

  function Print(blocks: Blocks): string {
    match blocks
    case Nil => ""
    case Cons(b, rest) => PrintBlock(b) + Print(rest)
  }

  function Normalize(text: string, max: nat): Result<string, Error> {
    var rest := Trim(text);
    if rest == "" then Err(Required) else
    match Parse(rest)
    case Err(e) => Err(e)
    case Ok(blocks) => if |Print(blocks)| > max then Err(TooLong) else Ok(Print(blocks))
  }

  // ---- layouts: every way to spell a list of blocks --------------------------------------------

  /** Blocks as they stand in a text: `body` is a block's data with white space anywhere, `gap` the
      white space after the block. */
  datatype Layout = End | Piece(block: Block, body: string, gap: string, rest: Layout)

  ghost predicate Proper(l: Layout) {
    l.Piece? ==> Valid(l.block) && Strip(l.body) == l.block.data && Spaces(l.gap) && Proper(l.rest)
  }

  function Spell(l: Layout): (s: string)
    ensures s != "" ==> !IsSpace(s[0])
  {
    match l
    case End => ""
    case Piece(b, body, gap, rest) => SpellOne(b, body) + (gap + Spell(rest))
  }

  function BlocksOf(l: Layout): Blocks {
    match l
    case End => Nil
    case Piece(b, _, _, rest) => Cons(b, BlocksOf(rest))
  }

  lemma Associate(a: string, b: string, c: string, d: string, e: string, f: string)
    ensures (a + (b + c + (d + e))) + f == a + (b + c + (d + e + f))
  {
  }

  lemma ReadSpelled(b: Block, body: string, rest: string)
    requires Valid(b) && Strip(body) == b.data
    ensures ReadBlock(SpellOne(b, body) + rest) == Read(b, rest)
  {
    assert '-' !in body;
    hide Begin, Dashes, Footer, SplitOnce, EndsFirst, Strip, Data;
    var footer := Footer(b.title);
    OtherFirstCharEndsFirst(body, footer);
    SplitFindsFirst(body, footer, rest);
    SplitFindsFirst(b.title, Dashes(), body + footer + rest);
    Associate(Begin(), b.title, Dashes(), body, footer, rest);
    var afterBegin := b.title + Dashes() + (body + footer + rest);
    var text := Begin() + afterBegin;
    assert SpellOne(b, body) + rest == text;
    assert Begin() <= text && text[|Begin()|..] == afterBegin;
  }

  /** Whatever spells a list of blocks is read as that list. */
  lemma {:induction false} ParseIsComplete(l: Layout)
    requires Proper(l)
    ensures Parse(Spell(l)) == Ok(BlocksOf(l))
  {
    if l.Piece? {
      hide Parse, ReadBlock, SpellOne, TrimStart, Strip, Valid, Spaces;
      var rest := Spell(l.rest);
      ReadSpelled(l.block, l.body, l.gap + rest);
      ParseStep(SpellOne(l.block, l.body) + (l.gap + rest), l.block, l.gap + rest);
      TrimStartSkips(l.gap, rest);
      TrimStartKeeps(rest);
      ParseIsComplete(l.rest);
    }
  }

  lemma ParseStep(text: string, b: Block, tail: string)
    requires ReadBlock(text) == Read(b, tail)
    ensures Parse(text) == Prepend(b, Parse(TrimStart(tail)))
  {
    hide ReadBlock, TrimStart;
  }

  /** Whatever is read as a list of blocks spells it. */
  lemma {:induction false} ParseIsSound(text: string) returns (l: Layout)
    requires Parse(text).Ok?
    ensures Proper(l) && Spell(l) == text && BlocksOf(l) == Parse(text).value
    decreases |text|
  {
    if text == "" {
      l := End;
    } else {
      hide Begin, Dashes, Footer, SpellOne, Valid;
      var b, tail := ReadBlock(text).block, ReadBlock(text).tail;
      var body := ReadIsSpelled(text);
      var rest := TrimStart(tail);
      var others := ParseIsSound(rest);
      var gap := tail[..|tail| - |rest|];
      TrimStartCutsSpaces(tail);
      l := Piece(b, body, gap, others);
      hide ReadBlock, TrimStart;
      assert tail == gap + rest;
    }
  }

  lemma ReadIsSpelled(text: string) returns (body: string)
    requires ReadBlock(text).Read?
    ensures Valid(ReadBlock(text).block) && Strip(body) == ReadBlock(text).block.data
    ensures text == SpellOne(ReadBlock(text).block, body) + ReadBlock(text).tail
  {
    hide Begin, Dashes, Footer, SplitOnce, EndsFirst, Strip, Data;
    var afterBegin := text[|Begin()|..];
    SplitIsFirst(afterBegin, Dashes());
    var first := SplitOnce(afterBegin, Dashes());
    var second := SplitOnce(first.after, Footer(first.before));
    body := second.before;
    var b := Block(first.before, Strip(body));
    assert ReadBlock(text) == Read(b, second.after) && Data(b.data);
    assert text == Begin() + (first.before + Dashes() + (body + Footer(first.before) + second.after));
    Associate(Begin(), first.before, Dashes(), body, Footer(first.before), second.after);
  }

  // ---- trimming and flattening a layout ------------------------------------------------------

  function WithoutLastGap(l: Layout): Layout {
    match l
    case End => End
    case Piece(b, body, gap, rest) => if rest.End? then l.(gap := "") else l.(rest := WithoutLastGap(rest))
  }

  lemma {:induction false} TrimLayout(l: Layout) returns (trail: string)
    requires Proper(l) && l.Piece?
    ensures Proper(WithoutLastGap(l)) && BlocksOf(WithoutLastGap(l)) == BlocksOf(l)
    ensures Spaces(trail) && Spell(l) == Spell(WithoutLastGap(l)) + trail
    ensures var s := Spell(WithoutLastGap(l)); s != "" && s[|s| - 1] == '-'
  {
    hide SpellOne, Valid, Strip;
    if l.rest.End? {
      trail := l.gap;
    } else {
      trail := TrimLayout(l.rest);
    }
  }

  function FlattenBodies(l: Layout): Layout {
    match l
    case End => End
    case Piece(b, body, gap, rest) => Piece(b, Flatten(body), Flatten(gap), FlattenBodies(rest))
  }

  /** No title holds a character that flattening would change. */
  ghost predicate SafeTitles(blocks: Blocks) {
    blocks.Cons? ==> Safe(blocks.head.title) && SafeTitles(blocks.tail)
  }

  lemma FlattenSpelled(b: Block, body: string)
    requires Valid(b) && Strip(body) == b.data && Safe(b.title)
    ensures Strip(Flatten(body)) == b.data
    ensures Flatten(SpellOne(b, body)) == SpellOne(b, Flatten(body))
  {
    assert forall c | c in body :: IsSpace(c) || IsBase64(c);
    FlattenKeepsStripped(body);
    hide Begin, Dashes, Footer, Flatten, Strip, Valid;
    var footer := Footer(b.title);
    FlattenKeepsSafe(Begin());
    FlattenKeepsSafe(b.title);
    FlattenKeepsSafe(Dashes());
    FlattenKeepsSafe(footer);
    hide Safe;
    FlattenConcat(Begin(), b.title + Dashes() + (body + footer));
    FlattenConcat(b.title + Dashes(), body + footer);
    FlattenConcat(b.title, Dashes());
    FlattenConcat(body, footer);
  }

  lemma {:induction false} FlattenLayout(l: Layout)
    requires Proper(l) && SafeTitles(BlocksOf(l))
    ensures Proper(FlattenBodies(l)) && BlocksOf(FlattenBodies(l)) == BlocksOf(l)
    ensures Spell(FlattenBodies(l)) == Flatten(Spell(l))
  {
    if l.Piece? {
      FlattenSpelled(l.block, l.body);
      FlattenLayout(l.rest);
      FlattenKeepsSpaces(l.gap);
      hide SpellOne, Flatten, Strip, Valid;
      FlattenConcat(SpellOne(l.block, l.body), l.gap + Spell(l.rest));
      FlattenConcat(l.gap, Spell(l.rest));
    }
  }

  // ---- what normalising does -------------------------------------------------------------------

  /** Any text that spells blocks, with white space around it, is normalised to their print. */
  lemma LayoutIsNormalized(lead: string, l: Layout, max: nat)
    requires Spaces(lead) && Proper(l) && l.Piece?
    ensures Parse(Trim(lead + Spell(l))) == Ok(BlocksOf(l))
    ensures Normalize(lead + Spell(l), max)
         == if |Print(BlocksOf(l))| > max then Err(TooLong) else Ok(Print(BlocksOf(l)))
  {
    SpellingStartsSolid(l);
    hide Spell, Parse, Print, TrimEnd, TrimStart, Proper, BlocksOf, Spaces, WithoutLastGap;
    TrimStartSkips(lead, Spell(l));
    var trail := TrimLayout(l);
    var trimmed := WithoutLastGap(l);
    TrimEndSkips(Spell(trimmed), trail);
    ParseIsComplete(trimmed);
  }

  lemma SpellingStartsSolid(l: Layout)
    requires Proper(l) && l.Piece?
    ensures TrimStart(Spell(l)) == Spell(l) != ""
  {
    hide Proper;
  }

  /** A text whose trimmed form is parsed is white space around a layout. */
  lemma ParsedIsALayout(text: string) returns (lead: string, l: Layout)
    requires Trim(text) != "" && Parse(Trim(text)).Ok?
    ensures Spaces(lead) && Proper(l) && l.Piece? && text == lead + Spell(l)
    ensures Parse(Trim(text)).value == BlocksOf(l)
  {
    hide Trim, Parse, Spaces;
    var trail;
    lead, trail := TrimSplits(text);
    var trimmed := ParseIsSound(Trim(text));
    l := WithTrail(trimmed, trail);
  }

  lemma AcceptedIsParsed(text: string, max: nat)
    ensures Normalize(text, max).Ok? || Normalize(text, max) == Err(TooLong) <==>
            Trim(text) != "" && Parse(Trim(text)).Ok?
    ensures Normalize(text, max).Ok? ==> Normalize(text, max).value == Print(Parse(Trim(text)).value)
  {
    hide Trim, Print;
    if Parse(Trim(text)).Err? {
      ParseIsNeverTooLong(Trim(text));
    }
    hide Parse;
  }

  lemma {:induction false} ParseIsNeverTooLong(text: string)
    requires Parse(text).Err?
    ensures Parse(text).error != TooLong
    decreases |text|
  {
    if ReadBlock(text).Read? {
      ParseStep(text, ReadBlock(text).block, ReadBlock(text).tail);
      hide TrimStart, ReadBlock;
      ParseIsNeverTooLong(TrimStart(ReadBlock(text).tail));
    } else {
      hide SplitOnce, Begin, Footer, Data;
    }
  }

  /** An accepted text is white space around a layout, and its result is the print of that layout. */
  lemma NormalizedIsALayout(text: string, max: nat) returns (lead: string, l: Layout)
    requires Normalize(text, max).Ok?
    ensures Spaces(lead) && Proper(l) && l.Piece? && text == lead + Spell(l)
    ensures Normalize(text, max) == Ok(Print(BlocksOf(l)))
  {
    hide *;
    AcceptedIsParsed(text, max);
    lead, l := ParsedIsALayout(text);
  }

  lemma {:induction false} WithTrail(l: Layout, trail: string) returns (l': Layout)
    requires Proper(l) && l.Piece? && Spaces(trail)
    ensures Proper(l') && l'.Piece? && BlocksOf(l') == BlocksOf(l) && Spell(l') == Spell(l) + trail
  {
    hide SpellOne, Valid, Strip;
    if l.rest.End? {
      l' := l.(gap := l.gap + trail);
    } else {
      var rest := WithTrail(l.rest, trail);
      l' := l.(rest := rest);
      assert Spell(l') == SpellOne(l.block, l.body) + (l.gap + (Spell(l.rest) + trail));
    }
  }

  /** `text` holds blocks, laid out as `l`, and nothing but white space around them. */
  ghost predicate Holds(text: string, lead: string, l: Layout) {
    Spaces(lead) && Proper(l) && l.Piece? && text == lead + Spell(l)
  }

  ghost predicate IsPem(text: string) { exists lead, l :: Holds(text, lead, l) }

  /** The parser accepts PEM text and nothing else; only then is the length looked at. */
  lemma AcceptsExactlyPem(text: string, max: nat)
    ensures Normalize(text, max).Ok? || Normalize(text, max) == Err(TooLong) <==> IsPem(text)
  {
    hide Normalize, Trim, Parse, Proper, Spell, Spaces, Print;
    AcceptedIsParsed(text, max);
    if Trim(text) != "" && Parse(Trim(text)).Ok? {
      var lead, l := ParsedIsALayout(text);
      assert Holds(text, lead, l);
    }
    if IsPem(text) {
      var lead, l :| Holds(text, lead, l);
      LayoutIsNormalized(lead, l, max);
    }
  }

  /** A line break after every 64 characters and at the end, and nowhere else. */
  lemma {:induction false} LinesBreakEvery64(data: string)
    requires Data(data)
    ensures var s := Lines(data);
            && |s| == |data| + (|data| + 63) / 64
            && forall i | 0 <= i < |s| :: s[i] == '\n' <==> i % 65 == 64 || i == |s| - 1
    decreases |data|
  {
    if |data| > LINE {
      var line, rest := data[..LINE], data[LINE..];
      assert Data(rest);
      assert forall i | 0 <= i < LINE :: data[i] in data;
      assert '\n' !in data;
      hide Data;
      LinesBreakEvery64(rest);
      var s := Lines(data);
      assert s == line + "\n" + Lines(rest);
      hide Lines;
      forall i | 0 <= i < |s| ensures s[i] == '\n' <==> i % (LINE + 1) == LINE || i == |s| - 1 {
        if i > LINE {
          assert s[i] == Lines(rest)[i - LINE - 1];
          assert i % (LINE + 1) == (i - LINE - 1) % (LINE + 1);
        } else if i < LINE {
          assert s[i] == data[i];
        }
      }
    } else {
      forall i | 0 <= i < |data| ensures data[i] != '\n' {
        assert data[i] in data;
      }
    }
  }

  lemma {:induction false} LinesHoldTheData(data: string)
    requires Data(data)
    ensures Strip(Lines(data)) == data
    decreases |data|
  {
    if |data| <= LINE {
      StripOfDense(data);
      StripConcat(data, "\n");
    } else {
      var line, rest := data[..LINE], data[LINE..];
      assert Lines(data) == line + "\n" + Lines(rest);
      assert data == line + rest;
      assert Data(line) && Data(rest);
      StripOfDense(line);
      hide Strip, Data, Lines;
      LinesHoldTheData(rest);
      StripConcat(line + "\n", Lines(rest));
      StripConcat(line, "\n");
      assert Strip("\n") == "" by { NewlineIsSpace(); }
    }
  }

  lemma NewlineIsSpace()
    ensures Strip("\n") == ""
  {
  }

  /** The printed form as a layout. */
  function Printed(blocks: Blocks): Layout {
    match blocks
    case Nil => End
    case Cons(b, rest) => Piece(b, "\n" + Lines(b.data), "\n", Printed(rest))
  }

  lemma Regroup(a: string, b: string, c: string)
    ensures a + b + c == a + (b + c)
  {
  }

  ghost predicate AllValid(blocks: Blocks) {
    blocks.Cons? ==> Valid(blocks.head) && AllValid(blocks.tail)
  }

  lemma {:induction false} PrintIsALayout(blocks: Blocks)
    requires AllValid(blocks)
    ensures Proper(Printed(blocks)) && BlocksOf(Printed(blocks)) == blocks
    ensures Spell(Printed(blocks)) == Print(blocks)
  {
    if blocks.Cons? {
      var b := blocks.head;
      LinesHoldTheData(b.data);
      hide SpellOne, Lines, Strip, Valid;
      NewlineIsSpace();
      StripConcat("\n", Lines(b.data));
      PrintIsALayout(blocks.tail);
      Regroup(SpellOne(b, "\n" + Lines(b.data)), "\n", Print(blocks.tail));
    }
  }

  lemma {:induction false} ProperBlocksAreValid(l: Layout)
    requires Proper(l)
    ensures AllValid(BlocksOf(l))
  {
    if l.Piece? {
      ProperBlocksAreValid(l.rest);
    }
  }

  /** Printing undoes parsing and parsing undoes printing: a normalised text is its own normal form. */
  lemma NormalizeIsIdempotent(text: string, max: nat)
    requires Normalize(text, max).Ok?
    ensures var out := Normalize(text, max).value; Normalize(out, max) == Ok(out)
  {
    hide Parse, Print, Spell, AllValid, Proper;
    var _, l := NormalizedIsALayout(text, max);
    ProperBlocksAreValid(l);
    PrintIsALayout(BlocksOf(l));
    LayoutIsNormalized("", Printed(BlocksOf(l)), max);
    assert "" + Print(BlocksOf(l)) == Print(BlocksOf(l));
  }

  /** Pasting an accepted text into a single-line field loses nothing when its titles are safe. */
  lemma PasteIsUndone(text: string, max: nat)
    requires Normalize(text, max).Ok? && SafeTitles(Parse(Trim(text)).value)
    ensures Normalize(Flatten(text), max) == Normalize(text, max)
  {
    var lead, l := NormalizedIsALayout(text, max);
    LayoutIsNormalized(lead, l, max);
    FlattenLayout(l);
    FlattenConcat(lead, Spell(l));
    FlattenKeepsSpaces(lead);
    LayoutIsNormalized(Flatten(lead), FlattenBodies(l), max);
  }

  /** The blocks of an accepted text can be read off its normal form. */
  lemma NormalFormDeterminesBlocks(text: string, max: nat)
    requires Normalize(text, max).Ok?
    ensures Parse(Trim(text)).Ok?
    ensures Parse(Trim(Normalize(text, max).value)) == Parse(Trim(text))
  {
    var out := Normalize(text, max).value;
    var lead, l := NormalizedIsALayout(text, max);
    LayoutIsNormalized(lead, l, max);
    ProperBlocksAreValid(l);
    PrintIsALayout(BlocksOf(l));
    LayoutIsNormalized("", Printed(BlocksOf(l)), max);
    assert "" + out == out;
  }

  /** For every accepted text the condition is exact. */
  lemma PasteIsUndoneExactlyForSafeTitles(text: string, max: nat)
    requires Normalize(text, max).Ok?
    ensures Normalize(Flatten(text), max) == Normalize(text, max) <==> SafeTitles(Parse(Trim(text)).value)
  {
    NormalFormDeterminesBlocks(text, max);
    if SafeTitles(Parse(Trim(text)).value) {
      PasteIsUndone(text, max);
    }
    if Normalize(Flatten(text), max) == Normalize(text, max) {
      NormalFormDeterminesBlocks(Flatten(text), max);
      var lead', l' := NormalizedIsALayout(Flatten(text), max);
      LayoutIsNormalized(lead', l', max);
      SpelledTitlesAreSafe(l', lead');
    }
  }

  /** There are accepted texts with an unsafe title, and a paste changes them. */
  lemma UnsafeTitlesAreAccepted(max: nat)
    requires max >= 100
    ensures exists text :: Normalize(text, max).Ok? && Normalize(Flatten(text), max) != Normalize(text, max)
  {
    var b := Block("\t", "A");
    var l := Piece(b, "A", "", End);
    TabIsATitle(b);
    LayoutIsNormalized("", l, max);
    hide Normalize, Parse, Trim, Spell, Print;
    PasteIsUndoneExactlyForSafeTitles("" + Spell(l), max);
  }

  lemma TabIsATitle(b: Block)
    requires b == Block("\t", "A")
    ensures Valid(b) && Strip("A") == "A" && !Safe(b.title) && |Print(Cons(b, Nil))| <= 100
  {
    StripOfDense("A");
    OtherFirstCharEndsFirst(b.title, Dashes());
    assert '\t' in b.title;
    assert Lines("A") == "A\n";
  }

  lemma {:induction false} SpelledTitlesAreSafe(l: Layout, lead: string)
    requires Safe(lead + Spell(l))
    ensures SafeTitles(BlocksOf(l))
  {
    if l.Piece? {
      var all := lead + Spell(l);
      assert forall c | c in l.block.title :: c in all;
      SpelledTitlesAreSafe(l.rest, lead + SpellOne(l.block, l.body) + l.gap);
    }
  }

  // ---- the program's loop ---------------------------------------------------------------------

  /** The state of the loop: what is written is the print of what was read. */
  ghost predicate Halfway(whole: string, out: string, rest: string) {
    match Parse(rest)
    case Err(e) => Parse(whole) == Err(e)
    case Ok(blocks) => Parse(whole).Ok? && Print(Parse(whole).value) == out + Print(blocks)
  }

  lemma OneBlockFurther(whole: string, out: string, rest: string)
    requires Halfway(whole, out, rest) && rest != ""
    ensures ReadBlock(rest).Failed? ==> Parse(whole) == Err(ReadBlock(rest).error)
    ensures ReadBlock(rest).Read? ==>
      Halfway(whole, out + PrintBlock(ReadBlock(rest).block), TrimStart(ReadBlock(rest).tail))
  {
    hide ReadBlock, TrimStart, PrintBlock;
    if ReadBlock(rest).Read? && Parse(rest).Ok? {
      var b, others := ReadBlock(rest).block, Parse(TrimStart(ReadBlock(rest).tail)).value;
      assert out + (PrintBlock(b) + Print(others)) == out + PrintBlock(b) + Print(others);
    }
  }

  lemma HalfwayStarts(whole: string)
    ensures Halfway(whole, "", whole)
  {
    hide Parse, Print;
    if Parse(whole).Ok? {
      assert "" + Print(Parse(whole).value) == Print(Parse(whole).value);
    }
  }

  lemma HalfwayEnds(whole: string, out: string)
    requires Halfway(whole, out, "")
    ensures Parse(whole).Ok? && Print(Parse(whole).value) == out
  {
  }

  method NormalizePem(text: string, max: nat) returns (r: Result<string, Error>)
    ensures r == Normalize(text, max)
  {
    hide Trim, TrimStart, PrintBlock, Parse, Print, Halfway, ReadBlock;
    var out := "";
    var rest := Trim(text);
    if rest == "" {
      return Err(Required);
    }
    ghost var whole := rest;
    HalfwayStarts(whole);
    while rest != ""
      invariant Halfway(whole, out, rest)
      decreases |rest|
    {
      OneBlockFurther(whole, out, rest);
      var reading := ReadOne(rest);
      if reading.Failed? {
        return Err(reading.error);
      }
      out := WriteBlock(out, reading.block);
      rest := TrimStart(reading.tail);
    }
    HalfwayEnds(whole, out);
    if |out| > max {
      return Err(TooLong);
    }
    return Ok(out);
  }

  /** The loop's reading of one block, error branches first. */
  method ReadOne(rest: string) returns (r: Reading)
    ensures r == ReadBlock(rest)
    ensures r.Read? ==> r.block.data != ""
  {
    hide Begin, Dashes, Footer, Strip, SplitOnce;
    if !(Begin() <= rest) {
      return Failed(ExpectedBegin);
    }
    var first := SplitOnce(rest[|Begin()|..], Dashes());
    if first.NotFound? {
      return Failed(UnterminatedBegin);
    }
    var title := first.before;
    var second := SplitOnce(first.after, Footer(title));
    if second.NotFound? {
      return Failed(MissingFooter(title));
    }
    var data := Strip(second.before);
    if !Data(data) {
      return Failed(NotBase64);
    }
    return Read(Block(title, data), second.after);
  }

  /** The loop's output for one block, appended to what was written before. */
  method WriteBlock(before: string, b: Block) returns (out: string)
    requires b.data != ""
    ensures out == before + PrintBlock(b)
  {
    hide Begin, Dashes, Footer, Lines;
    var footer := Footer(b.title);
    out := before + (Begin() + b.title + Dashes() + "\n");
    var lines := WriteLines(b.data);
    out := out + lines;
    out := out + footer;
    out := out + "\n";
    AssociateBlock(before, Begin(), b.title, Dashes(), "\n", lines, footer);
  }

  lemma AssociateBlock(out: string, a: string, b: string, c: string, nl: string, d: string, e: string)
    ensures out + (a + b + c + nl) + d + e + nl == out + (a + (b + c + (nl + d + e)) + nl)
  {
  }

  method WriteLines(data: string) returns (out: string)
    requires data != ""
    ensures out == Lines(data)
  {
    out := "";
    var i := 0;
    while i < |data|
      invariant i <= |data|
      invariant i < |data| ==> Lines(data) == out + Lines(data[i..])
      invariant i == |data| ==> Lines(data) == out
    {
      var line := data[i..];
      var j: nat := if i + LINE < |data| then i + LINE else |data|;
      assert line[..j - i] == data[i..j] && line[j - i..] == data[j..];
      out := out + data[i..j] + "\n";
      i := j;
    }
  }
}
