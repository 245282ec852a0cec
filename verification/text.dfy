/** Searching, trimming and flattening text. */
module Text {
  import opened Options

  /** The characters Unicode calls White_Space. */
  predicate IsSpace(c: char) {
    var n := c as int;
    || 0x9 <= n <= 0xD || n == 0x20 || n == 0x85 || n == 0xA0 || n == 0x1680 || 0x2000 <= n <= 0x200A
    || n == 0x2028 || n == 0x2029 || n == 0x202F || n == 0x205F || n == 0x3000
  }

  /** Controls, line and paragraph separators and the bidirectional overrides. */
  predicate IsUnsafe(c: char) {
    var n := c as int;
    || n < 0x20 || 0x7F <= n <= 0x9F || n == 0x2028 || n == 0x2029
    || 0x202A <= n <= 0x202E || 0x2066 <= n <= 0x2069
  }

  ghost predicate Spaces(s: string) { forall c | c in s :: IsSpace(c) }

  ghost predicate Safe(s: string) { forall c | c in s :: !IsUnsafe(c) }

  // ---- searching ---------------------------------------------------------------------------

  predicate At(s: string, p: string, i: nat) {
    i + |p| <= |s| && s[i..i + |p|] == p
  }

  function FindFrom(s: string, p: string, i: nat): (r: Option<nat>)
    requires i <= |s|
    ensures r.Some? ==> i <= r.value && At(s, p, r.value) && forall j: nat | i <= j < r.value :: !At(s, p, j)
    ensures r.None? ==> forall j: nat | i <= j :: !At(s, p, j)
    decreases |s| - i
  {
    if At(s, p, i) then Some(i) else if i == |s| then None else FindFrom(s, p, i + 1)
  }

  datatype Split = NotFound | Found(before: string, after: string)

  function SplitOnce(s: string, p: string): (r: Split)
    ensures r.Found? ==> s == r.before + p + r.after
  {
    match FindFrom(s, p, 0)
    case None => NotFound
    case Some(i) => assert s == s[..i] + p + s[i + |p|..]; Found(s[..i], s[i + |p|..])
  }

  /** The first occurrence of `p` in `before + p` is the one at its end. */
  ghost predicate EndsFirst(before: string, p: string) {
    forall j: nat | j < |before| :: !At(before + p, p, j)
  }

  lemma SplitFindsFirst(before: string, p: string, after: string)
    requires EndsFirst(before, p)
    ensures SplitOnce(before + p + after, p) == Found(before, after)
  {
    var s := before + p + after;
    assert At(s, p, |before|);
    assert s[..|before|] == before && s[|before| + |p|..] == after;
    forall j: nat | j < |before| ensures !At(s, p, j) {
      assert !At(before + p, p, j);
      assert s[j..j + |p|] == (before + p)[j..j + |p|];
    }
  }

  lemma SplitIsFirst(s: string, p: string)
    requires SplitOnce(s, p).Found?
    ensures EndsFirst(SplitOnce(s, p).before, p)
  {
    var before := SplitOnce(s, p).before;
    forall j: nat | j < |before| ensures !At(before + p, p, j) {
      assert !At(s, p, j);
      assert s[j..j + |p|] == (before + p)[j..j + |p|];
    }
  }

  lemma OtherFirstCharEndsFirst(before: string, p: string)
    requires p != "" && p[0] !in before
    ensures EndsFirst(before, p)
  {
    forall j: nat | j < |before| ensures !At(before + p, p, j) {
      assert (before + p)[j..j + |p|][0] == before[j];
    }
  }

  // ---- trimming ----------------------------------------------------------------------------

  function TrimStart(s: string): (r: string)
    ensures |r| <= |s| && r == s[|s| - |r|..]
    ensures r != "" ==> !IsSpace(r[0])
  {
    if s != "" && IsSpace(s[0]) then TrimStart(s[1..]) else s
  }

  function TrimEnd(s: string): (r: string)
    ensures |r| <= |s| && r == s[..|r|]
    ensures r != "" ==> !IsSpace(r[|r| - 1])
  {
    if s != "" && IsSpace(s[|s| - 1]) then TrimEnd(s[..|s| - 1]) else s
  }

  function Trim(s: string): string { TrimEnd(TrimStart(s)) }

  lemma {:induction false} TrimStartCutsSpaces(s: string)
    ensures Spaces(s[..|s| - |TrimStart(s)|])
  {
    if s != "" && IsSpace(s[0]) {
      TrimStartCutsSpaces(s[1..]);
      var n := |s| - |TrimStart(s)|;
      assert s[..n] == [s[0]] + s[1..][..n - 1];
    }
  }

  lemma {:induction false} TrimEndCutsSpaces(s: string)
    ensures Spaces(s[|TrimEnd(s)|..])
  {
    if s != "" && IsSpace(s[|s| - 1]) {
      TrimEndCutsSpaces(s[..|s| - 1]);
      var n := |TrimEnd(s)|;
      assert s[n..] == s[..|s| - 1][n..] + [s[|s| - 1]];
    }
  }

  lemma {:induction false} TrimStartSkips(lead: string, s: string)
    requires Spaces(lead)
    ensures TrimStart(lead + s) == TrimStart(s)
  {
    if lead == "" {
      assert lead + s == s;
    } else {
      assert (lead + s)[1..] == lead[1..] + s;
      TrimStartSkips(lead[1..], s);
    }
  }

  lemma {:induction false} TrimEndSkips(s: string, trail: string)
    requires Spaces(trail) && (s != "" ==> !IsSpace(s[|s| - 1]))
    ensures TrimEnd(s + trail) == s
    decreases |trail|
  {
    if trail == "" {
      assert s + trail == s;
    } else {
      assert (s + trail)[..|s + trail| - 1] == s + trail[..|trail| - 1];
      TrimEndSkips(s, trail[..|trail| - 1]);
    }
  }

  lemma TrimSplits(s: string) returns (lead: string, trail: string)
    ensures Spaces(lead) && Spaces(trail) && s == lead + (Trim(s) + trail)
  {
    hide TrimStart, TrimEnd, Spaces;
    TrimStartCutsSpaces(s);
    var start := TrimStart(s);
    lead := s[..|s| - |start|];
    assert s == lead + start;
    TrimEndCutsSpaces(start);
    trail := start[|TrimEnd(start)|..];
    assert start == TrimEnd(start) + trail;
  }

  lemma TrimStartKeeps(s: string)
    requires s != "" ==> !IsSpace(s[0])
    ensures TrimStart(s) == s
  {
  }

  /** The text without its white space, `split_whitespace().collect()`. */
  function Strip(s: string): (r: string)
    ensures |r| <= |s| && forall c :: c in r <==> c in s && !IsSpace(c)
  {
    if s == "" then "" else (if IsSpace(s[0]) then "" else [s[0]]) + Strip(s[1..])
  }

  lemma {:induction false} StripConcat(a: string, b: string)
    ensures Strip(a + b) == Strip(a) + Strip(b)
  {
    if a == "" {
      assert a + b == b;
    } else {
      assert (a + b)[1..] == a[1..] + b;
      StripConcat(a[1..], b);
    }
  }

  lemma {:induction false} StripOfDense(s: string)
    requires forall c | c in s :: !IsSpace(c)
    ensures Strip(s) == s
  {
    if s != "" {
      StripOfDense(s[1..]);
    }
  }

  // ---- flattening --------------------------------------------------------------------------

  /** Pasting into a single-line field: line breaks and tabs become spaces, other unsafe
      characters are dropped. */
  function Flatten(s: string): (r: string)
    ensures Safe(r)
  {
    if s == "" then "" else FlatChar(s[0]) + Flatten(s[1..])
  }

  function FlatChar(c: char): string {
    if c == '\n' || c == '\r' || c == '\t' then " " else if IsUnsafe(c) then "" else [c]
  }

  /** One character pasted: a line break or a tab leaves a space, any other unsafe character nothing. */
  lemma FlattenOne(c: char)
    ensures Flatten([c]) == if c == '\n' || c == '\r' || c == '\t' then " " else if IsUnsafe(c) then "" else [c]
  {
    assert [c][1..] == "";
  }

  lemma {:induction false} FlattenConcat(a: string, b: string)
    ensures Flatten(a + b) == Flatten(a) + Flatten(b)
  {
    if a == "" {
      assert a + b == b;
    } else {
      assert (a + b)[1..] == a[1..] + b;
      FlattenConcat(a[1..], b);
    }
  }

  lemma {:induction false} FlattenKeepsSafe(s: string)
    requires Safe(s)
    ensures Flatten(s) == s
  {
    if s != "" {
      assert s[0] in s && !IsUnsafe(s[0]);
      FlattenKeepsSafe(s[1..]);
    }
  }

  lemma {:induction false} FlattenKeepsSpaces(s: string)
    requires Spaces(s)
    ensures Spaces(Flatten(s))
  {
    if s != "" {
      FlattenKeepsSpaces(s[1..]);
    }
  }

  /** Where only white space is unsafe, flattening changes nothing but white space. */
  lemma {:induction false} FlattenKeepsStripped(s: string)
    requires forall c | c in s :: IsUnsafe(c) ==> IsSpace(c)
    ensures Strip(Flatten(s)) == Strip(s)
  {
    if s != "" {
      FlattenKeepsStripped(s[1..]);
      StripConcat(FlatChar(s[0]), Flatten(s[1..]));
    }
  }
}
