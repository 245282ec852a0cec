/** Which texts the PEM normaliser refuses and with what complaint, told without its reader: by the
    blocks that are in order and how the next one is broken. */
module PemErrors {
  import opened Options
  import opened Text
  import opened Pem

  ghost predicate Lacks(s: string, p: string) { forall i: nat :: !At(s, p, i) }

  /** How a block is broken: `title`, `body` and `rest` are the parts that can be made out. */
  datatype Broken =
    | NoHeader(rest: string)
    | OpenHeader(rest: string)
    | NoFooter(title: string, rest: string)
    | BadBody(title: string, body: string, rest: string)

  function Header(title: string): string { "-----BEGIN " + title + "-----" }

  function Ending(title: string): string { "-----END " + title + "-----" }

  function SpellBroken(b: Broken): string {
    match b
    case NoHeader(rest) => rest
    case OpenHeader(rest) => "-----BEGIN " + rest
    case NoFooter(title, rest) => Header(title) + rest
    case BadBody(title, body, rest) => Header(title) + (body + Ending(title) + rest)
  }

  /** The characters of base64 (RFC 4648, section 4), by their code points. */
  predicate InAlphabet(c: char) {
    var n := c as int;
    0x41 <= n <= 0x5A || 0x61 <= n <= 0x7A || 0x30 <= n <= 0x39 || n == 0x2B || n == 0x2F || n == 0x3D
  }

  /** No header where one must be, a header that does not end, a footer that is missing, or a body that
      is empty or holds something besides white space and base64. */
  ghost predicate IsBroken(b: Broken) {
    match b
    case NoHeader(rest) => rest != "" && !("-----BEGIN " <= rest)
    case OpenHeader(rest) => Lacks(rest, "-----")
    case NoFooter(title, rest) => EndsFirst(title, "-----") && Lacks(rest, Ending(title))
    case BadBody(title, body, _) =>
      && EndsFirst(title, "-----") && EndsFirst(body, Ending(title))
      && (Spaces(body) || exists c :: c in body && !IsSpace(c) && !InAlphabet(c))
  }

  function Complaint(b: Broken): Error {
    match b
    case NoHeader(_) => ExpectedBegin
    case OpenHeader(_) => UnterminatedBegin
    case NoFooter(title, _) => MissingFooter(title)
    case BadBody(_, _, _) => NotBase64
  }

  lemma SplitLacks(s: string, p: string)
    ensures Lacks(s, p) <==> SplitOnce(s, p).NotFound?
  {
  }

  lemma BadData(body: string)
    ensures Data(Strip(body)) <==> !(Spaces(body) || exists c :: c in body && !IsSpace(c) && !InAlphabet(c))
  {
    var data := Strip(body);
    if data == "" {
      assert forall c | c in body :: IsSpace(c) by {
        forall c | c in body ensures IsSpace(c) { assert c in data <==> c in body && !IsSpace(c); }
      }
    } else {
      assert data[0] in data;
    }
  }

  lemma HeaderIsBegin(title: string, after: string)
    ensures Header(title) + after == Begin() + (title + "-----" + after) && Ending(title) == Footer(title)
  {
  }

  lemma ReadsHeader(rest: string)
    ensures var text, first := Begin() + rest, SplitOnce(rest, Dashes());
            && (first.NotFound? ==> ReadBlock(text) == Failed(UnterminatedBegin))
            && (first.Found? ==>
                  var second := SplitOnce(first.after, Footer(first.before));
                  ReadBlock(text) ==
                    if second.NotFound? then Failed(MissingFooter(first.before))
                    else if !Data(Strip(second.before)) then Failed(NotBase64)
                    else Read(Block(first.before, Strip(second.before)), second.after))
  {
    assert (Begin() + rest)[|Begin()|..] == rest;
    hide SplitOnce, Strip, Data, Begin, Dashes, Footer;
  }

  lemma BrokenIsNotRead(b: Broken)
    requires IsBroken(b)
    ensures ReadBlock(SpellBroken(b)) == Failed(Complaint(b)) && SpellBroken(b) != ""
  {
    match b
    case NoHeader(rest) =>
    case OpenHeader(rest) =>
      SplitLacks(rest, "-----");
      ReadsHeader(rest);
      hide SplitOnce;
    case NoFooter(title, rest) =>
      WithoutFooter(title, rest);
    case BadBody(title, body, rest) =>
      BadData(body);
      WithBadBody(title, body, rest);
  }

  lemma WithoutFooter(title: string, rest: string)
    requires EndsFirst(title, "-----") && Lacks(rest, Ending(title))
    ensures ReadBlock(Header(title) + rest) == Failed(MissingFooter(title))
  {
    HeaderIsBegin(title, rest);
    ReadsHeader(title + "-----" + rest);
    SplitFindsFirst(title, "-----", rest);
    SplitLacks(rest, Ending(title));
    hide SplitOnce, ReadBlock, Header, Ending, EndsFirst, Lacks;
  }

  lemma WithBadBody(title: string, body: string, rest: string)
    requires EndsFirst(title, "-----") && EndsFirst(body, Ending(title)) && !Data(Strip(body))
    ensures ReadBlock(Header(title) + (body + Ending(title) + rest)) == Failed(NotBase64)
  {
    var after := body + Ending(title) + rest;
    HeaderIsBegin(title, after);
    ReadsHeader(title + "-----" + after);
    SplitFindsFirst(title, "-----", after);
    SplitFindsFirst(body, Ending(title), rest);
    hide SplitOnce, ReadBlock, Header, Ending, EndsFirst, Data, Strip;
  }

  lemma NotReadIsBroken(text: string) returns (b: Broken)
    requires text != "" && ReadBlock(text).Failed?
    ensures IsBroken(b) && SpellBroken(b) == text && Complaint(b) == ReadBlock(text).error
  {
    if !("-----BEGIN " <= text) {
      b := NoHeader(text);
    } else {
      var after := text[|Begin()|..];
      assert text == Begin() + after;
      ReadsHeader(after);
      SplitLacks(after, "-----");
      if SplitOnce(after, "-----").NotFound? {
        b := OpenHeader(after);
      } else {
        SplitIsFirst(after, "-----");
        hide ReadBlock, EndsFirst, Data, Strip;
        b := NotReadFurther(text, SplitOnce(after, "-----").before, SplitOnce(after, "-----").after);
      }
    }
  }

  lemma NotReadFurther(text: string, title: string, after: string) returns (b: Broken)
    requires EndsFirst(title, "-----") && text == Begin() + (title + "-----" + after)
    requires var second := SplitOnce(after, Footer(title));
             ReadBlock(text) == if second.NotFound? then Failed(MissingFooter(title))
                                else if !Data(Strip(second.before)) then Failed(NotBase64)
                                else Read(Block(title, Strip(second.before)), second.after)
    requires ReadBlock(text).Failed?
    ensures IsBroken(b) && SpellBroken(b) == text && Complaint(b) == ReadBlock(text).error
  {
    hide ReadBlock, EndsFirst, Data, Strip, Lacks, SplitOnce, Header, Ending, Begin, Footer;
    HeaderIsBegin(title, after);
    var second := SplitOnce(after, Ending(title));
    SplitLacks(after, Ending(title));
    if second.NotFound? {
      b := NoFooter(title, after);
    } else {
      SplitIsFirst(after, Ending(title));
      b := BadBody(title, second.before, second.after);
      BadData(second.before);
    }
  }

  lemma SpellPiece(l: Layout, bad: string)
    requires l.Piece?
    ensures Spell(l) + bad == SpellOne(l.block, l.body) + (l.gap + (Spell(l.rest) + bad))
    ensures Proper(l) <==> Valid(l.block) && Strip(l.body) == l.block.data && Spaces(l.gap) && Proper(l.rest)
  {
    hide SpellOne, Valid, Strip, Spaces;
    Reassociate(SpellOne(l.block, l.body), l.gap, Spell(l.rest), bad);
  }

  lemma Reassociate(a: string, b: string, c: string, d: string)
    ensures a + (b + c) + d == a + (b + (c + d))
  {
  }

  lemma ParseFails(text: string)
    requires text != "" && ReadBlock(text).Failed?
    ensures Parse(text) == Err(ReadBlock(text).error)
  {
    hide ReadBlock;
  }

  /** Blocks in order and then a broken one: the text is refused with the complaint about that one. */
  lemma {:induction false} FirstBrokenBlockIsNamed(l: Layout, b: Broken)
    requires Proper(l) && IsBroken(b) && !IsSpace(SpellBroken(b)[0])
    ensures Parse(Spell(l) + SpellBroken(b)) == Err(Complaint(b))
  {
    var bad := SpellBroken(b);
    BrokenIsNotRead(b);
    if l.End? {
      ParseFails(bad);
      assert Spell(l) + bad == bad;
    } else {
      SpellPiece(l, bad);
      hide *;
      var rest := Spell(l.rest) + bad;
      ReadSpelled(l.block, l.body, l.gap + rest);
      ParseStep(SpellOne(l.block, l.body) + (l.gap + rest), l.block, l.gap + rest);
      TrimStartSkips(l.gap, rest);
      TrimStartKeeps(rest);
      FirstBrokenBlockIsNamed(l.rest, b);
    }
  }

  /** Every text that is refused is of this form. */
  lemma {:induction false} RefusedTextsHaveABrokenBlock(text: string) returns (l: Layout, b: Broken)
    requires Parse(text).Err? && (text != "" ==> !IsSpace(text[0]))
    ensures Proper(l) && IsBroken(b) && text == Spell(l) + SpellBroken(b) && Parse(text) == Err(Complaint(b))
    decreases |text|
  {
    NothingIsFine(text);
    hide *;
    if ReadBlock(text).Failed? {
      l := End;
      b := NotReadIsBroken(text);
      ParseFails(text);
      SpellEnd(text);
    } else {
      var block, tail := ReadBlock(text).block, ReadBlock(text).tail;
      ParseStep(text, block, tail);
      PrependFails(block, Parse(TrimStart(tail)));
      var others;
      others, b := RefusedTextsHaveABrokenBlock(TrimStart(tail));
      l := OneBlockAhead(text, others, SpellBroken(b));
    }
  }

  lemma SpellEnd(text: string)
    ensures Spell(End) + text == text && Proper(End)
  {
  }

  lemma OneBlockAhead(text: string, others: Layout, bad: string) returns (l: Layout)
    requires ReadBlock(text).Read? && Proper(others) && TrimStart(ReadBlock(text).tail) == Spell(others) + bad
    ensures Proper(l) && text == Spell(l) + bad
  {
    hide *;
    var block, tail := ReadBlock(text).block, ReadBlock(text).tail;
    var body := ReadIsSpelled(text);
    var rest := TrimStart(tail);
    var gap := tail[..|tail| - |rest|];
    TrimStartCutsSpaces(tail);
    l := Piece(block, body, gap, others);
    SpellPiece(l, bad);
    assert tail == gap + rest;
  }

  lemma NothingIsFine(text: string)
    requires Parse(text).Err?
    ensures text != ""
  {
  }

  lemma PrependFails(b: Block, r: Result<Blocks, Error>)
    ensures Prepend(b, r).Err? ==> r.Err? && Prepend(b, r).error == r.error
  {
  }

  /** A text of white space alone is refused as missing. */
  lemma BlankTextsAreRequired(text: string, max: nat)
    ensures Normalize(text, max) == Err(Required) <==> Spaces(text)
  {
    hide TrimStart, TrimEnd, Parse, Print;
    var lead, trail := TrimSplits(text);
    BlankIsTrimmed(text);
    if Trim(text) != "" {
      TrimmedIsSolid(text);
      if Parse(Trim(text)).Err? {
        NothingElseIsRequired(Trim(text));
      }
    }
  }

  lemma BlankIsTrimmed(text: string)
    ensures Spaces(text) ==> Trim(text) == ""
  {
    NothingToTrim();
    hide TrimStart, TrimEnd, Spaces;
    if Spaces(text) {
      TrimStartSkips(text, "");
      assert text + "" == text;
    }
  }

  lemma NothingToTrim()
    ensures TrimStart("") == "" && TrimEnd("") == ""
  {
  }

  lemma TrimmedIsSolid(text: string)
    ensures Trim(text) != "" ==> !IsSpace(Trim(text)[0])
  {
  }

  lemma NothingElseIsRequired(text: string)
    requires Parse(text).Err? && (text != "" ==> !IsSpace(text[0]))
    ensures Parse(text).error != Required
  {
    var l, b := RefusedTextsHaveABrokenBlock(text);
    hide Parse;
  }

  /** A block as it is written. */
  lemma KnownBlock()
    ensures PrintBlock(Block("A", "AB==")) == "-----BEGIN A-----\nAB==\n-----END A-----\n"
  {
    assert Lines("AB==") == "AB==\n";
    hide Lines;
    var b := Block("A", "AB==");
    assert Begin() + "A" == "-----BEGIN A" && Footer("A") == "-----END A-----";
    hide Begin, Footer;
    assert SpellOne(b, "\nAB==\n") == Begin() + "A" + "-----" + ("\nAB==\n" + Footer("A"));
  }
}
