/** The chunk builder: `chunk_markdown` of ingest_markdown.py. */
module ChunkBuilder {
  import opened Strings
  import opened HeadingScanner

  /** One chunk of the document. Synthetic chunks (the whole headingless document,
      or the text before the first heading) have level 0. */
  datatype Chunk = Chunk(heading: string, level: nat, content: string)

  const DocumentHeading: string := "Document"
  const PreambleHeading: string := "Preamble"

  /** Python's `str.strip()` with no argument: empty exactly for a blank string,
      and otherwise starting and ending with a character that is not whitespace. */
  function Trim(s: string): (r: string)
    ensures r == [] <==> IsBlank(s)
    ensures EndsKept(r, Whitespace)
  {
    StripEmptyIff(s, Whitespace);
    StripEnds(s, Whitespace);
    Strip(s, Whitespace)
  }

  /** What the builder relies on from the scanner: each match starts with a `#`
      inside the text, has a hash run of 1 to 6 and a label inside the text, and
      starts strictly increase. */
  predicate WellFormed(text: string, ms: seq<HeadingMatch>) {
    && (forall i :: 0 <= i < |ms| ==> IsShaped(text, ms[i]))
    && (forall i, j :: 0 <= i < j < |ms| ==> ms[i].start < ms[j].start)
  }

  predicate IsShaped(text: string, m: HeadingMatch) {
    && m.start < |text| && text[m.start] == '#'
    && 1 <= m.level <= 6
    && m.labelStart <= m.end <= |text|
  }

  /** Where the span of heading `i` ends: the next heading's start, or the end of the text. */
  function SpanEnd(text: string, ms: seq<HeadingMatch>, i: nat): (e: nat)
    requires WellFormed(text, ms) && i < |ms|
    ensures ms[i].start < e <= |text|
  {
    if i + 1 < |ms| then ms[i + 1].start else |text|
  }

  /** The untrimmed text that belongs to heading `i`. */
  function Span(text: string, ms: seq<HeadingMatch>, i: nat): (s: string)
    requires WellFormed(text, ms) && i < |ms|
    ensures |s| > 0 && s[0] == '#'
  {
    text[ms[i].start..SpanEnd(text, ms, i)]
  }

  /** The chunk heading `i` stands for, before the emptiness check. Its span starts
      with `#`, which `strip` keeps, so its content is never empty. */
  function HeadingChunk(text: string, ms: seq<HeadingMatch>, i: nat): (c: Chunk)
    requires WellFormed(text, ms) && i < |ms|
    ensures c.content != [] && 1 <= c.level <= 6
  {
    StripKeeps(Span(text, ms, i), Whitespace, 0);
    Chunk(Trim(Label(text, ms[i])), ms[i].level, Trim(Span(text, ms, i)))
  }

  predicate HasContent(c: Chunk) {
    c.content != []
  }

  /** The elements of `s` that satisfy `keep`, in order. */
  function Filter<T>(s: seq<T>, keep: T -> bool): (r: seq<T>)
    ensures |r| <= |s|
    ensures forall x :: x in r ==> x in s && keep(x)
    ensures forall i :: 0 <= i < |s| && keep(s[i]) ==> s[i] in r
  {
    if |s| == 0 then []
    else (if keep(s[0]) then [s[0]] else []) + Filter(s[1..], keep)
  }

  /** Filtering distributes over concatenation: the kept elements stay in the order
      they had in the input. */
  lemma {:induction false} FilterAppend<T>(a: seq<T>, b: seq<T>, keep: T -> bool)
    ensures Filter(a + b, keep) == Filter(a, keep) + Filter(b, keep)
  {
    if |a| == 0 {
      assert a + b == b;
    } else {
      assert (a + b)[1..] == a[1..] + b;
      FilterAppend(a[1..], b, keep);
    }
  }

  /** Filtering a sequence whose elements all pass keeps it whole. */
  lemma {:induction false} FilterKeepsAll<T>(s: seq<T>, keep: T -> bool)
    requires forall i :: 0 <= i < |s| ==> keep(s[i])
    ensures Filter(s, keep) == s
  {
    if |s| > 0 {
      FilterKeepsAll(s[1..], keep);
    }
  }

  /** The heading loop: one candidate chunk per match, in match order, each kept
      when its content is non-empty. The emptiness check never drops a candidate,
      so there is exactly one chunk per match. */
  function HeadingChunks(text: string, ms: seq<HeadingMatch>): (r: seq<Chunk>)
    requires WellFormed(text, ms)
    ensures |r| == |ms|
    ensures forall i :: 0 <= i < |ms| ==> r[i] == HeadingChunk(text, ms, i)
  {
    var candidates := seq(|ms|, i requires 0 <= i < |ms| => HeadingChunk(text, ms, i));
    FilterKeepsAll(candidates, HasContent);
    Filter(candidates, HasContent)
  }

  /** Every heading chunk has content and a level of 1 to 6. */
  lemma HeadingChunksShape(text: string, ms: seq<HeadingMatch>)
    requires WellFormed(text, ms)
    ensures forall c :: c in HeadingChunks(text, ms) ==> HasContent(c) && 1 <= c.level <= 6
  {
    var r := HeadingChunks(text, ms);
    forall c | c in r
      ensures HasContent(c) && 1 <= c.level <= 6
    {
      var i :| 0 <= i < |r| && r[i] == c;
      assert c == HeadingChunk(text, ms, i);
    }
  }

  /** The untrimmed span of every heading, in match order; what they add up to is
      stated by `SpansCoverText`. */
  function Spans(text: string, ms: seq<HeadingMatch>): (r: seq<string>)
    requires WellFormed(text, ms)
    ensures |r| == |ms| && forall i :: 0 <= i < |ms| ==> r[i] == Span(text, ms, i)
  {
    seq(|ms|, i requires 0 <= i < |ms| => Span(text, ms, i))
  }

  /** The preamble: the trimmed text before the first heading. */
  function Preamble(text: string, ms: seq<HeadingMatch>): (p: string)
    requires WellFormed(text, ms) && |ms| > 0
    ensures p == [] <==> forall k :: 0 <= k < ms[0].start ==> text[k] in Whitespace
  {
    Trim(text[..ms[0].start])
  }

  /** The level-0 chunks: for a text without headings the whole stripped text as
      "Document", otherwise the stripped text before the first heading as
      "Preamble"; none when that text is blank. */
  function SyntheticChunks(text: string, ms: seq<HeadingMatch>): (r: seq<Chunk>)
    requires WellFormed(text, ms)
    ensures |r| <= 1
    ensures forall c :: c in r ==> HasContent(c) && c.level == 0
  {
    var body := if |ms| == 0 then Trim(text) else Preamble(text, ms);
    if body == [] then [] else [Chunk(if |ms| == 0 then DocumentHeading else PreambleHeading, 0, body)]
  }

  /** The chunks built from the text and its heading matches. */
  function BuildChunks(text: string, ms: seq<HeadingMatch>): (r: seq<Chunk>)
    requires WellFormed(text, ms)
    ensures |r| == |SyntheticChunks(text, ms)| + |ms|
    ensures forall c :: c in r ==> HasContent(c) && c.level <= 6
  {
    HeadingChunksShape(text, ms);
    SyntheticChunks(text, ms) + HeadingChunks(text, ms)
  }

  /** `chunk_markdown(text)`. */
  function ChunkMarkdown(text: string): (r: seq<Chunk>)
    ensures forall c :: c in r ==> HasContent(c) && c.level <= 6
  {
    var ms := FindHeadings(text);
    assert WellFormed(text, ms);
    BuildChunks(text, ms)
  }

  /** The scanner reports nothing exactly when the pattern matches nowhere. */
  lemma FindHeadingsEmptyIff(text: string)
    ensures FindHeadings(text) == [] <==> forall m :: !IsRegexMatch(text, m)
  {
    var ms := FindHeadings(text);
    if ms != [] {
      assert IsRegexMatch(text, ms[0]);
    }
    if m :| IsRegexMatch(text, m) {
      MatchAtIsGreedy(text, m.start, m);
      assert Covered(ms, m.start);
    }
  }

  /** With no heading anywhere, the whole stripped text is one "Document" chunk of
      level 0, or there is no chunk when the text is only whitespace. */
  lemma ChunkMarkdownWithoutHeadings(text: string)
    requires forall m :: !IsRegexMatch(text, m)
    ensures Trim(text) == [] ==> ChunkMarkdown(text) == []
    ensures Trim(text) != [] ==> ChunkMarkdown(text) == [Chunk(DocumentHeading, 0, Trim(text))]
  {
    FindHeadingsEmptyIff(text);
  }

  /** The chunks when there are headings: first a level-0 "Preamble" chunk holding
      the stripped text before the first heading, exactly when that text is not
      blank, then one chunk per match in match order, whose heading is the
      stripped group 2, whose level is the length of group 1 and whose content is
      the stripped text from this match to the next one (or to the end). */
  lemma BuildChunksWithHeadings(text: string, ms: seq<HeadingMatch>)
    requires WellFormed(text, ms) && |ms| > 0
    ensures var r := BuildChunks(text, ms);
      var p := if Trim(text[..ms[0].start]) == [] then 0 else 1;
      && |r| == p + |ms|
      && (p == 1 ==> r[0] == Chunk(PreambleHeading, 0, Trim(text[..ms[0].start])))
      && forall i :: 0 <= i < |ms| ==>
           && r[p + i].heading == Trim(text[ms[i].labelStart..ms[i].end])
           && r[p + i].level == ms[i].level
           && r[p + i].content == Trim(text[ms[i].start..SpanEnd(text, ms, i)])
  {
    var pre := Trim(text[..ms[0].start]);
    SyntheticWithHeadings(text, ms);
    assert |SyntheticChunks(text, ms)| == if pre == [] then 0 else 1;
    BuildChunksPreamble(text, ms);
    BuildChunksAllAt(text, ms);
  }

  /** With headings, the only synthetic chunk is the "Preamble", present exactly
      when the stripped text before the first heading is not empty. */
  lemma SyntheticWithHeadings(text: string, ms: seq<HeadingMatch>)
    requires WellFormed(text, ms) && |ms| > 0
    ensures var pre := Trim(text[..ms[0].start]);
      SyntheticChunks(text, ms) == if pre == [] then [] else [Chunk(PreambleHeading, 0, pre)]
  {
  }

  /** A synthetic chunk, when there is one, comes first. */
  lemma BuildChunksPreamble(text: string, ms: seq<HeadingMatch>)
    requires WellFormed(text, ms)
    ensures SyntheticChunks(text, ms) != [] ==> BuildChunks(text, ms)[0] == SyntheticChunks(text, ms)[0]
  {
    assert BuildChunks(text, ms) == SyntheticChunks(text, ms) + HeadingChunks(text, ms);
  }

  /** Every match's chunk follows the synthetic chunks, in match order. */
  lemma BuildChunksAllAt(text: string, ms: seq<HeadingMatch>)
    requires WellFormed(text, ms)
    ensures forall i :: 0 <= i < |ms| ==>
      var c := BuildChunks(text, ms)[|SyntheticChunks(text, ms)| + i];
      && c.heading == Trim(text[ms[i].labelStart..ms[i].end])
      && c.level == ms[i].level
      && c.content == Trim(text[ms[i].start..SpanEnd(text, ms, i)])
  {
    forall i | 0 <= i < |ms|
      ensures var c := BuildChunks(text, ms)[|SyntheticChunks(text, ms)| + i];
        && c.heading == Trim(text[ms[i].labelStart..ms[i].end])
        && c.level == ms[i].level
        && c.content == Trim(text[ms[i].start..SpanEnd(text, ms, i)])
    {
      BuildChunksAt(text, ms, i);
    }
  }

  /** The chunk of match `i` follows the synthetic chunks. */
  lemma BuildChunksAt(text: string, ms: seq<HeadingMatch>, i: nat)
    requires WellFormed(text, ms) && i < |ms|
    ensures var c := BuildChunks(text, ms)[|SyntheticChunks(text, ms)| + i];
      && c.heading == Trim(text[ms[i].labelStart..ms[i].end])
      && c.level == ms[i].level
      && c.content == Trim(text[ms[i].start..SpanEnd(text, ms, i)])
  {
    var syn := SyntheticChunks(text, ms);
    var headed := HeadingChunks(text, ms);
    assert BuildChunks(text, ms) == syn + headed;
    assert (syn + headed)[|syn| + i] == headed[i];
  }

  /** A level-0 chunk sits among heading chunks exactly when the text before the
      first heading is not blank: heading chunks all have a level of 1 to 6. */
  lemma PreambleIff(text: string, ms: seq<HeadingMatch>)
    requires WellFormed(text, ms) && |ms| > 0
    ensures (exists c :: c in BuildChunks(text, ms) && c.level == 0) <==> Trim(text[..ms[0].start]) != []
  {
    var syn := SyntheticChunks(text, ms);
    var headed := HeadingChunks(text, ms);
    var r := BuildChunks(text, ms);
    assert r == syn + headed;
    HeadingChunksShape(text, ms);
    if syn != [] {
      assert r[0] == syn[0];
    }
  }

  /** The untrimmed spans of the headings from match `j` on, joined, are the text
      from match `j` on. */
  lemma {:induction false} SpansFrom(text: string, ms: seq<HeadingMatch>, j: nat)
    requires WellFormed(text, ms) && j < |ms|
    ensures Concat(Spans(text, ms)[j..]) == text[ms[j].start..]
    decreases |ms| - j
  {
    var s := Spans(text, ms);
    assert s[j..] == [s[j]] + s[j + 1..];
    assert ([s[j]] + s[j + 1..])[1..] == s[j + 1..];
    if j + 1 < |ms| {
      SpansFrom(text, ms, j + 1);
      assert text[ms[j].start..] == text[ms[j].start..ms[j + 1].start] + text[ms[j + 1].start..];
    } else {
      assert s[j + 1..] == [];
    }
  }

  /** The text before the first heading followed by every heading's span is the
      whole text: the chunks partition the document before stripping. */
  lemma SpansCoverText(text: string, ms: seq<HeadingMatch>)
    requires WellFormed(text, ms) && |ms| > 0
    ensures text[..ms[0].start] + Concat(Spans(text, ms)) == text
  {
    SpansFrom(text, ms, 0);
    assert Spans(text, ms)[0..] == Spans(text, ms);
  }

  /** `chunk_markdown` returns no chunk exactly when the text is blank: any match
      starts with a `#`, which is not whitespace. */
  lemma ChunkMarkdownEmptyIff(text: string)
    ensures ChunkMarkdown(text) == [] <==> Trim(text) == []
  {
    var ms := FindHeadings(text);
    if |ms| > 0 {
      StripKeeps(text, Whitespace, ms[0].start);
    }
  }
}
