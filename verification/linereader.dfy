/** Splitting input into lines of bounded length, however the reads cut it up. */
module LineReader {
  import opened Options

  const NEWLINE: bv8 := 10

  type Bytes = seq<bv8>

  /** What one read of the input gives; after the last one, and from an empty chunk on, it is at its
      end. */
  datatype Read = Chunk(bytes: Bytes) | Interrupted | Failed

  datatype Item = Line(bytes: Bytes) | TooLong

  /** What the reads bring before the input ends or fails. */
  datatype Input = Input(bytes: Bytes, failed: bool)

  function InputOf(readings: seq<Read>): Input {
    if readings == [] then Input([], false) else
    match readings[0]
    case Interrupted => InputOf(readings[1..])
    case Failed => Input([], true)
    case Chunk(b) =>
      if b == [] then Input([], false)
      else Input(b + InputOf(readings[1..]).bytes, InputOf(readings[1..]).failed)
  }

  function FindNewline(s: Bytes): (r: Option<nat>)
    ensures r.Some? ==> r.value < |s| && s[r.value] == NEWLINE && NEWLINE !in s[..r.value]
    ensures r.None? ==> NEWLINE !in s
  {
    if s == [] then None
    else if s[0] == NEWLINE then Some(0)
    else match FindNewline(s[1..])
      case None => None
      case Some(i) => assert s[..i + 1] == [s[0]] + s[1..][..i]; Some(i + 1)
  }

  /** The pieces between newlines; the last one is what follows the last newline. */
  function Pieces(s: Bytes): (ps: seq<Bytes>)
    ensures ps != []
    decreases |s|
  {
    match FindNewline(s)
    case None => [s]
    case Some(i) => [s[..i]] + Pieces(s[i + 1..])
  }

  function Joined(ps: seq<Bytes>): Bytes {
    if ps == [] then [] else if |ps| == 1 then ps[0] else ps[0] + [NEWLINE] + Joined(ps[1..])
  }

  function ItemOf(piece: Bytes, limit: nat): Item { if |piece| > limit then TooLong else Line(piece) }

  /** The items of an input: one for each terminated piece, and one for a last piece that is not
      empty, unless the input failed before that piece was complete. */
  function Items(s: Bytes, failed: bool, limit: nat): seq<Item> {
    ItemsOf(Pieces(s), failed, limit)
  }

  function ItemsOf(ps: seq<Bytes>, failed: bool, limit: nat): seq<Item>
    requires ps != []
  {
    if |ps| == 1 then (if failed || ps[0] == [] then [] else [ItemOf(ps[0], limit)])
    else [ItemOf(ps[0], limit)] + ItemsOf(ps[1..], failed, limit)
  }

  lemma {:induction false} FindNewlineAfter(before: Bytes, after: Bytes)
    requires NEWLINE !in before
    ensures FindNewline(before + [NEWLINE] + after) == Some(|before|)
  {
    if before != [] {
      assert (before + [NEWLINE] + after)[1..] == before[1..] + [NEWLINE] + after;
      FindNewlineAfter(before[1..], after);
    }
  }

  lemma PiecesAfterNewline(before: Bytes, after: Bytes)
    requires NEWLINE !in before
    ensures Pieces(before + [NEWLINE] + after) == [before] + Pieces(after)
  {
    FindNewlineAfter(before, after);
    var s := before + [NEWLINE] + after;
    assert s[..|before|] == before && s[|before| + 1..] == after;
  }

  lemma PiecesWithoutNewline(s: Bytes)
    requires NEWLINE !in s
    ensures Pieces(s) == [s]
  {
  }

  /** Splitting loses nothing: the pieces hold no newline and joined with newlines they are the
      input. */
  lemma {:induction false} PiecesJoin(s: Bytes)
    ensures Joined(Pieces(s)) == s && forall p | p in Pieces(s) :: NEWLINE !in p
    decreases |s|
  {
    var r := FindNewline(s);
    if r.Some? {
      PiecesJoin(s[r.value + 1..]);
      var ps := Pieces(s);
      assert ps[1..] == Pieces(s[r.value + 1..]);
      assert s == s[..r.value] + [NEWLINE] + s[r.value + 1..];
    }
  }

  /** It is the only way to split the input. */
  lemma {:induction false} PiecesAreUnique(ps: seq<Bytes>)
    requires ps != [] && forall p | p in ps :: NEWLINE !in p
    ensures Pieces(Joined(ps)) == ps
  {
    if |ps| > 1 {
      PiecesAreUnique(ps[1..]);
      PiecesAfterNewline(ps[0], Joined(ps[1..]));
    } else {
      assert ps == [ps[0]];
      PiecesWithoutNewline(ps[0]);
    }
  }

  /** A line of at most `limit` bytes as it is, a longer one as the notice that it was too long. */
  predicate TellsLine(item: Item, line: Bytes, limit: nat) {
    if |line| <= limit then item == Line(line) else item == TooLong
  }

  ghost predicate TellLines(items: seq<Item>, lines: seq<Bytes>, limit: nat) {
    |items| == |lines| && forall i | 0 <= i < |items| :: TellsLine(items[i], lines[i], limit)
  }

  /** What the items of an input are, line by line: every terminated line, empty ones too, and then the
      rest after the last newline if there is one and the input did not fail. So an input that ends
      counts an unterminated last line as if it were terminated. */
  lemma {:induction false} EveryLineIsTold(lines: seq<Bytes>, rest: Bytes, failed: bool, limit: nat)
    requires (forall l | l in lines :: NEWLINE !in l) && NEWLINE !in rest
    ensures TellLines(Items(Joined(lines + [rest]), failed, limit),
                      if failed || rest == [] then lines else lines + [rest], limit)
    decreases |lines|
  {
    PiecesAreUnique(lines + [rest]);
    ToldPieces(lines, rest, failed, limit);
  }

  lemma {:induction false} ToldPieces(lines: seq<Bytes>, rest: Bytes, failed: bool, limit: nat)
    ensures TellLines(ItemsOf(lines + [rest], failed, limit),
                      if failed || rest == [] then lines else lines + [rest], limit)
    decreases |lines|
  {
    if lines == [] {
      assert [] + [rest] == [rest];
    } else {
      var more := if failed || rest == [] then lines[1..] else lines[1..] + [rest];
      assert (lines + [rest])[1..] == lines[1..] + [rest] && (lines + [rest])[0] == lines[0];
      ToldPieces(lines[1..], rest, failed, limit);
      assert (if failed || rest == [] then lines else lines + [rest]) == [lines[0]] + more;
    }
  }

  /** The input is what the chunks bring up to the first empty one, which is the end, or up to the first
      failure; interrupted reads bring nothing. */
  lemma {:induction false} InputIsWhatIsRead(chunks: seq<Bytes>, rest: seq<Read>)
    requires forall i | 0 <= i < |chunks| :: chunks[i] != []
    ensures InputOf(Reading(chunks)) == Input(Concatenated(chunks), false)
    ensures InputOf(Reading(chunks) + [Chunk([])] + rest) == Input(Concatenated(chunks), false)
    ensures InputOf(Reading(chunks) + [Failed] + rest) == Input(Concatenated(chunks), true)
    decreases |chunks|
  {
    if chunks == [] {
      assert [] + [Chunk([])] + rest == [Chunk([])] + rest && [] + [Failed] + rest == [Failed] + rest;
    } else {
      var more := Reading(chunks[1..]);
      InputIsWhatIsRead(chunks[1..], rest);
      ReadOn(chunks[0], more);
      ReadOn(chunks[0], more + [Chunk([])] + rest);
      ReadOn(chunks[0], more + [Failed] + rest);
      hide InputOf;
      var both := [Chunk(chunks[0]), Interrupted];
      assert Reading(chunks) == both + more;
      assert both + more + [Chunk([])] + rest == both + (more + [Chunk([])] + rest);
      assert both + more + [Failed] + rest == both + (more + [Failed] + rest);
    }
  }

  lemma ReadOn(chunk: Bytes, rest: seq<Read>)
    requires chunk != []
    ensures InputOf([Chunk(chunk), Interrupted] + rest) == Input(chunk + InputOf(rest).bytes, InputOf(rest).failed)
  {
    var all := [Chunk(chunk), Interrupted] + rest;
    assert all[1..] == [Interrupted] + rest && ([Interrupted] + rest)[1..] == rest;
  }

  /** Each chunk, with a read after it that was interrupted. */
  function Reading(chunks: seq<Bytes>): seq<Read> {
    if chunks == [] then [] else [Chunk(chunks[0]), Interrupted] + Reading(chunks[1..])
  }

  function Concatenated(chunks: seq<Bytes>): Bytes {
    if chunks == [] then [] else chunks[0] + Concatenated(chunks[1..])
  }

  /** Where a read ends is not part of the input: cutting a chunk in two, or interrupting the reader,
      changes nothing. */
  lemma {:induction false} CutsDoNotMatter(front: seq<Read>, x: Bytes, y: Bytes, rest: seq<Read>)
    requires x != [] && y != []
    ensures InputOf(front + [Chunk(x + y)] + rest) == InputOf(front + [Chunk(x), Interrupted, Chunk(y)] + rest)
  {
    var a, b := front + [Chunk(x + y)] + rest, front + [Chunk(x), Interrupted, Chunk(y)] + rest;
    if front == [] {
      assert a[1..] == rest;
      assert b[1..] == [Interrupted, Chunk(y)] + rest;
      assert b[1..][1..] == [Chunk(y)] + rest;
      assert b[1..][1..][1..] == rest;
      var more := InputOf(rest).bytes;
      assert x + y + more == x + (y + more);
      assert InputOf(b[1..]) == InputOf(b[1..][1..]);
    } else {
      assert a[1..] == front[1..] + [Chunk(x + y)] + rest;
      assert b[1..] == front[1..] + [Chunk(x), Interrupted, Chunk(y)] + rest;
      CutsDoNotMatter(front[1..], x, y, rest);
    }
  }

  /** What the consumer gets when it refuses the item numbered `stop`, if there is one. */
  function Until(items: seq<Item>, stop: Option<nat>): seq<Item> {
    if stop.Some? && stop.value < |items| then items[..stop.value + 1] else items
  }

  /** The loop's state: `sent` are the items so far, `piece` is what was read since the last newline,
      and the rest of the input is `left`. */
  ghost predicate Halfway(input: Input, sent: seq<Item>, piece: Bytes, left: Input, limit: nat) {
    && NEWLINE !in piece
    && left.failed == input.failed
    && Items(input.bytes, input.failed, limit) == sent + Items(piece + left.bytes, left.failed, limit)
  }

  /** The buffer is the piece, or nothing once the piece is too long. */
  ghost predicate Buffers(line: Bytes, tooLong: bool, piece: Bytes, limit: nat) {
    (tooLong <==> |piece| > limit) && line == if tooLong then [] else piece
  }

  /** The input still to come: the rest of the current chunk and the reads after it. */
  ghost function Left(chunk: Bytes, later: seq<Read>): Input {
    Input(chunk + InputOf(later).bytes, InputOf(later).failed)
  }

  lemma ItemsAfterNewline(before: Bytes, after: Bytes, failed: bool, limit: nat)
    requires NEWLINE !in before
    ensures Items(before + [NEWLINE] + after, failed, limit) == [ItemOf(before, limit)] + Items(after, failed, limit)
  {
    PiecesAfterNewline(before, after);
    assert ([before] + Pieces(after))[1..] == Pieces(after);
    hide Pieces;
  }

  lemma TakePart(input: Input, sent: seq<Item>, piece: Bytes, part: Bytes, rest: Input, limit: nat)
    requires Halfway(input, sent, piece, Input(part + rest.bytes, rest.failed), limit) && NEWLINE !in part
    ensures Halfway(input, sent, piece + part, rest, limit)
  {
    hide Items;
    assert piece + (part + rest.bytes) == piece + part + rest.bytes;
  }

  lemma TakeLine(input: Input, sent: seq<Item>, piece: Bytes, part: Bytes, rest: Input, limit: nat)
    requires Halfway(input, sent, piece, Input(part + [NEWLINE] + rest.bytes, rest.failed), limit) && NEWLINE !in part
    ensures Halfway(input, sent + [ItemOf(piece + part, limit)], [], rest, limit)
    ensures |sent| < |Items(input.bytes, input.failed, limit)|
    ensures Items(input.bytes, input.failed, limit)[..|sent| + 1] == sent + [ItemOf(piece + part, limit)]
  {
    var item, more := ItemOf(piece + part, limit), Items(rest.bytes, rest.failed, limit);
    hide Items, ItemOf;
    Regroup(piece, part, [NEWLINE], rest.bytes);
    ItemsAfterNewline(piece + part, rest.bytes, rest.failed, limit);
    assert Items(input.bytes, input.failed, limit) == sent + ([item] + more);
    RegroupItems(sent, item, more);
    assert [] + rest.bytes == rest.bytes;
  }

  lemma Regroup(a: Bytes, b: Bytes, c: Bytes, d: Bytes)
    ensures a + (b + c + d) == a + b + c + d
  {
  }

  lemma RegroupItems(a: seq<Item>, b: Item, c: seq<Item>)
    ensures a + ([b] + c) == a + [b] + c
    ensures (a + [b] + c)[..|a| + 1] == a + [b]
  {
  }

  /** At the end of the input only the last piece is missing. */
  lemma TakeLast(input: Input, sent: seq<Item>, piece: Bytes, failed: bool, limit: nat)
    requires Halfway(input, sent, piece, Input([], failed), limit)
    ensures Items(input.bytes, input.failed, limit)
         == sent + if failed || piece == [] then [] else [ItemOf(piece, limit)]
  {
    assert piece + [] == piece;
    PiecesWithoutNewline(piece);
    hide Pieces;
  }

  lemma Begin(readings: seq<Read>, limit: nat)
    ensures Halfway(InputOf(readings), [], [], Left([], readings), limit)
  {
    var input := InputOf(readings);
    assert [] + ([] + input.bytes) == input.bytes;
    hide Items;
  }

  /** What reading on does to the input still to come. */
  lemma NextRead(readings: seq<Read>, i: nat)
    requires i <= |readings|
    ensures var left := Left([], readings[i..]);
            if i == |readings| then left == Input([], false)
            else match readings[i]
              case Interrupted => left == Left([], readings[i + 1..])
              case Failed => left == Input([], true)
              case Chunk(b) => left == if b == [] then Input([], false) else Left(b, readings[i + 1..])
  {
    if i < |readings| {
      assert readings[i..][1..] == readings[i + 1..];
    }
  }

  /** The chunk up to and with its first newline. */
  lemma CutChunk(chunk: Bytes, later: seq<Read>)
    ensures FindNewline(chunk).Some? ==>
      var n := FindNewline(chunk).value;
      var rest := Left(chunk[n + 1..], later);
      Left(chunk, later) == Input(chunk[..n] + [NEWLINE] + rest.bytes, rest.failed)
    ensures FindNewline(chunk).None? ==>
      var rest := Left([], later);
      Left(chunk, later) == Input(chunk + rest.bytes, rest.failed)
  {
    var r := FindNewline(chunk);
    hide FindNewline, InputOf;
    if r.Some? {
      assert chunk == chunk[..r.value] + [NEWLINE] + chunk[r.value + 1..];
    }
  }

  /** `read_lines`. The consumer takes every item, or refuses the one numbered `stop`. `peak` is the
      most that was ever buffered. */
  method ReadLines(readings: seq<Read>, limit: nat, stop: Option<nat>) returns (sent: seq<Item>, ghost peak: nat)
    ensures sent == Until(Items(InputOf(readings).bytes, InputOf(readings).failed, limit), stop)
    ensures peak <= limit
  {
    hide Items, Halfway, InputOf, FindNewline, Left;
    sent, peak := [], 0;
    var line: Bytes, tooLong := [], false;
    ghost var piece: Bytes, input := [], InputOf(readings);
    var chunk: Bytes, i := [], 0;
    Begin(readings, limit);
    assert readings[0..] == readings;
    while true
      invariant i <= |readings| && peak <= limit && |line| <= limit
      invariant Halfway(input, sent, piece, Left(chunk, readings[i..]), limit)
      invariant Buffers(line, tooLong, piece, limit)
      invariant stop.Some? ==> |sent| <= stop.value
      decreases |readings| - i, |chunk|
    {
      if chunk == [] {
        NextRead(readings, i);
        if i < |readings| {
          i := i + 1;
          match readings[i - 1] {
            case Interrupted => continue;
            case Failed =>
              TakeLast(input, sent, piece, true, limit);
              return;
            case Chunk(bytes) => chunk := bytes;
          }
        }
        if chunk == [] {
          TakeLast(input, sent, piece, false, limit);
          if tooLong {
            sent := sent + [TooLong];
          } else if line != [] {
            sent := sent + [Line(line)];
          }
          return;
        }
      }
      var at := FindNewline(chunk);
      var part, ended := if at.Some? then chunk[..at.value] else chunk, at.Some?;
      CutChunk(chunk, readings[i..]);
      if !tooLong {
        if |line| + |part| > limit {
          tooLong := true;
          line := [];
        } else {
          line := line + part;
        }
      }
      peak := if |line| > peak then |line| else peak;
      chunk := if ended then chunk[at.value + 1..] else [];
      if ended {
        var item := if tooLong then TooLong else Line(line);
        TakeLine(input, sent, piece, part, Left(chunk, readings[i..]), limit);
        line, tooLong := [], false;
        sent := sent + [item];
        piece := [];
        if stop == Some(|sent| - 1) {
          return;
        }
      } else {
        TakePart(input, sent, piece, part, Left(chunk, readings[i..]), limit);
        piece := piece + part;
      }
    }
  }
}
