/** The heading scanner: `re.compile(r"^(#{1,6})\s+(.+)$", re.MULTILINE).finditer(text)`
    written out as a scanner over the text (ingest_markdown.py, `chunk_markdown`). */
module HeadingScanner {
  import opened Results
  import opened Strings

  /** One match of the heading pattern. Group 1 (the `#` run) is
      `text[start..start + level]`; group 2 (the label) is `text[labelStart..end]`;
      `end` is where the whole match ends. */
  datatype HeadingMatch = HeadingMatch(start: nat, level: nat, labelStart: nat, end: nat)

  /** `^` under MULTILINE: the start of the text or just after a line feed. */
  predicate LineStart(text: string, p: nat) {
    p <= |text| && (p == 0 || text[p - 1] == '\n')
  }

  /** The part of the pattern after the anchor, `(#{1,6})\s+(.+)$`, matches `text`
      with the group boundaries that `m` records. `.` excludes only the line feed
      and `$` holds at the end of the text or before a line feed. */
  predicate MatchesAfterAnchor(text: string, m: HeadingMatch) {
    && 1 <= m.level <= 6
    && m.start + m.level < m.labelStart < m.end <= |text|
    && (forall k :: m.start <= k < m.start + m.level ==> text[k] == '#')
    && (forall k :: m.start + m.level <= k < m.labelStart ==> text[k] in Whitespace)
    && (forall k :: m.labelStart <= k < m.end ==> text[k] != '\n')
    && (m.end == |text| || text[m.end] == '\n')
  }

  /** Some way for the whole pattern, anchor included, to match at `m.start`. */
  predicate IsRegexMatch(text: string, m: HeadingMatch) {
    LineStart(text, m.start) && MatchesAfterAnchor(text, m)
  }

  /** Group 2 of a match: the raw label, before `.strip()`. */
  function Label(text: string, m: HeadingMatch): string
    requires m.labelStart <= m.end <= |text|
  {
    text[m.labelStart..m.end]
  }

  /** The end of the line that `q` lies on: the next line feed, or the end of the text. */
  function LineEnd(text: string, q: nat): (e: nat)
    requires q <= |text|
    ensures q <= e <= |text|
    ensures forall k :: q <= k < e ==> text[k] != '\n'
    ensures e == |text| || text[e] == '\n'
    decreases |text| - q
  {
    if q == |text| || text[q] == '\n' then q else LineEnd(text, q + 1)
  }

  /** Where group 2 starts when `\s+` starts at `from` (a whitespace character).
      Greedy `\s+` first takes all the whitespace, line feeds included; if a
      character follows, `.+` starts there. If the whitespace reaches the end of
      the text, `\s+` gives characters back until `.+` can start on one that is
      not a line feed; with none left to give back, there is no match. */
  function LabelStart(text: string, from: nat): (r: Option<nat>)
    requires from < |text| && text[from] in Whitespace
    ensures r.Some? ==> from < r.value < |text| && text[r.value] != '\n'
    ensures r.Some? ==> forall k :: from <= k < r.value ==> text[k] in Whitespace
  {
    var q := from + RunFrom(text, from, Whitespace);
    if q < |text| then Some(q)
    else
      var e := |text| - RunBefore(text, |text|, {'\n'});
      if e > from + 1 then Some(e - 1) else None
  }

  /** The match a backtracking engine reports when it tries the pattern after the
      anchor at `p`: `#{1,6}` can only stop where the hash run stops, the run must
      be followed by whitespace, and `.+` then takes the rest of the label's line. */
  function MatchAt(text: string, p: nat): (r: Option<HeadingMatch>)
    requires p <= |text|
    ensures r.Some? ==> r.value.start == p && MatchesAfterAnchor(text, r.value)
  {
    var k := RunFrom(text, p, {'#'});
    if k == 0 || k > 6 || p + k == |text| || text[p + k] !in Whitespace then None
    else
      match LabelStart(text, p + k)
      case None => None
      case Some(ls) => Some(HeadingMatch(p, k, ls, LineEnd(text, ls)))
  }

  /** `MatchAt` is the engine's choice among all the ways the pattern can match at
      `p`: it finds one whenever one exists, with the same hash run, and its label
      starts no earlier than any other (greedy `\s+`). */
  lemma MatchAtIsGreedy(text: string, p: nat, other: HeadingMatch)
    requires p <= |text|
    requires other.start == p && MatchesAfterAnchor(text, other)
    ensures MatchAt(text, p).Some?
    ensures MatchAt(text, p).value.level == other.level
    ensures other.labelStart <= MatchAt(text, p).value.labelStart
  {
    var k := RunFrom(text, p, {'#'});
    assert text[p + other.level] in Whitespace;
    assert k == other.level;
    LabelStartIsGreedy(text, p + k, other.labelStart);
  }

  /** `LabelStart` finds the last place group 2 can start. */
  lemma LabelStartIsGreedy(text: string, from: nat, ls: nat)
    requires from < ls < |text| && text[ls] != '\n'
    requires forall k :: from <= k < ls ==> text[k] in Whitespace
    ensures LabelStart(text, from).Some? && ls <= LabelStart(text, from).value
  {
    var q := from + RunFrom(text, from, Whitespace);
    if q < |text| {
      assert text[q] !in Whitespace;
    } else {
      assert text[ls] !in {'\n'};
    }
  }

  /** Position `q` lies inside one of the reported matches. */
  ghost predicate Covered(ms: seq<HeadingMatch>, q: nat) {
    exists i :: 0 <= i < |ms| && ms[i].start <= q < ms[i].end
  }

  /** The scanning loop of `finditer` from `pos`: try the pattern at each
      position in turn; after a match, resume where it ended. */
  function ScanFrom(text: string, pos: nat): seq<HeadingMatch>
    requires pos <= |text|
    decreases |text| - pos
  {
    if pos == |text| then []
    else if LineStart(text, pos) && MatchAt(text, pos).Some? then
      [MatchAt(text, pos).value] + ScanFrom(text, MatchAt(text, pos).value.end)
    else
      ScanFrom(text, pos + 1)
  }

  /** Every match the loop reports from `pos` on starts at or after `pos`. */
  lemma {:induction false} ScanFromStarts(text: string, pos: nat)
    requires pos <= |text|
    ensures forall i :: 0 <= i < |ScanFrom(text, pos)| ==> pos <= ScanFrom(text, pos)[i].start
    decreases |text| - pos
  {
    if pos < |text| {
      var r := ScanFrom(text, pos);
      if LineStart(text, pos) && MatchAt(text, pos).Some? {
        var m := MatchAt(text, pos).value;
        var rest := ScanFrom(text, m.end);
        ScanFromStarts(text, m.end);
        assert r == [m] + rest;
        forall i | 0 < i < |r|
          ensures pos <= r[i].start
        {
          assert r[i] == rest[i - 1];
        }
      } else {
        ScanFromStarts(text, pos + 1);
        ScanFromSkips(text, pos);
      }
    }
  }

  /** Every match the loop reports is the engine's match at its start. */
  lemma {:induction false} ScanFromMatches(text: string, pos: nat)
    requires pos <= |text|
    ensures forall i :: 0 <= i < |ScanFrom(text, pos)| ==>
      && IsRegexMatch(text, ScanFrom(text, pos)[i])
      && MatchAt(text, ScanFrom(text, pos)[i].start) == Some(ScanFrom(text, pos)[i])
    decreases |text| - pos
  {
    if pos < |text| {
      var r := ScanFrom(text, pos);
      if LineStart(text, pos) && MatchAt(text, pos).Some? {
        var m := MatchAt(text, pos).value;
        var rest := ScanFrom(text, m.end);
        ScanFromMatches(text, m.end);
        assert IsRegexMatch(text, m);
        EngineMatchesCons(text, m, rest);
        assert r == [m] + rest;
      } else {
        ScanFromMatches(text, pos + 1);
        ScanFromSkips(text, pos);
      }
    }
  }

  /** Putting an engine match in front of a list of engine matches keeps every
      element an engine match. */
  lemma EngineMatchesCons(text: string, m: HeadingMatch, rest: seq<HeadingMatch>)
    requires IsRegexMatch(text, m) && MatchAt(text, m.start) == Some(m)
    requires forall i :: 0 <= i < |rest| ==>
      IsRegexMatch(text, rest[i]) && MatchAt(text, rest[i].start) == Some(rest[i])
    ensures forall i :: 0 <= i < |[m] + rest| ==>
      IsRegexMatch(text, ([m] + rest)[i]) && MatchAt(text, ([m] + rest)[i].start) == Some(([m] + rest)[i])
  {
    forall i | 0 < i < |[m] + rest|
      ensures ([m] + rest)[i] == rest[i - 1]
    {
    }
  }

  /** The matches the loop reports are disjoint and in order. */
  lemma {:induction false} ScanFromOrdered(text: string, pos: nat)
    requires pos <= |text|
    ensures forall i, j :: 0 <= i < j < |ScanFrom(text, pos)| ==>
      ScanFrom(text, pos)[i].end <= ScanFrom(text, pos)[j].start
    decreases |text| - pos
  {
    if pos < |text| {
      var r := ScanFrom(text, pos);
      if LineStart(text, pos) && MatchAt(text, pos).Some? {
        var m := MatchAt(text, pos).value;
        var rest := ScanFrom(text, m.end);
        ScanFromStarts(text, m.end);
        ScanFromOrdered(text, m.end);
        assert r == [m] + rest;
        forall i, j | 0 <= i < j < |r|
          ensures r[i].end <= r[j].start
        {
          assert r[j] == rest[j - 1];
          if i > 0 {
            assert r[i] == rest[i - 1];
          }
        }
      } else {
        ScanFromOrdered(text, pos + 1);
        ScanFromSkips(text, pos);
      }
    }
  }

  /** The loop misses nothing: every position from `pos` on where the pattern
      could match on its own lies inside a reported match. */
  lemma {:induction false} ScanFromCovers(text: string, pos: nat, q: nat)
    requires pos <= q < |text| && LineStart(text, q) && MatchAt(text, q).Some?
    ensures Covered(ScanFrom(text, pos), q)
    decreases |text| - pos, 1
  {
    if LineStart(text, pos) && MatchAt(text, pos).Some? {
      ScanFromCoversAtMatch(text, pos, q);
    } else {
      ScanFromCoversPastNoMatch(text, pos, q);
    }
  }

  /** `ScanFromCovers` where the pattern matches at `pos`: `q` lies inside that
      match or is covered by the loop that resumes at its end. */
  lemma {:induction false} ScanFromCoversAtMatch(text: string, pos: nat, q: nat)
    requires pos <= q < |text| && LineStart(text, q) && MatchAt(text, q).Some?
    requires LineStart(text, pos) && MatchAt(text, pos).Some?
    ensures Covered(ScanFrom(text, pos), q)
    decreases |text| - pos, 0
  {
    var m := MatchAt(text, pos).value;
    var rest := ScanFrom(text, m.end);
    assert ScanFrom(text, pos) == [m] + rest;
    if q < m.end {
      CoveredByHead(m, rest, q);
    } else {
      ScanFromCovers(text, m.end, q);
      CoveredByTail(m, rest, q);
    }
  }

  /** `ScanFromCovers` where the pattern does not match at `pos`: `q` lies beyond
      `pos`, and the loop moves on by one character. */
  lemma {:induction false} ScanFromCoversPastNoMatch(text: string, pos: nat, q: nat)
    requires pos <= q < |text| && LineStart(text, q) && MatchAt(text, q).Some?
    requires !(LineStart(text, pos) && MatchAt(text, pos).Some?)
    ensures Covered(ScanFrom(text, pos), q)
    decreases |text| - pos, 0
  {
    ScanFromCovers(text, pos + 1, q);
    ScanFromSkips(text, pos);
  }

  /** Where the pattern does not match, the loop moves on by one character. */
  lemma ScanFromSkips(text: string, pos: nat)
    requires pos < |text| && !(LineStart(text, pos) && MatchAt(text, pos).Some?)
    ensures ScanFrom(text, pos) == ScanFrom(text, pos + 1)
  {
  }

  /** `finditer` from `pos`: every reported match is the engine's match at its
      start, and the matches are disjoint and in order. */
  function Scan(text: string, pos: nat): (r: seq<HeadingMatch>)
    requires pos <= |text|
    ensures forall i :: 0 <= i < |r| ==>
              pos <= r[i].start && IsRegexMatch(text, r[i]) && MatchAt(text, r[i].start) == Some(r[i])
    ensures forall i, j :: 0 <= i < j < |r| ==> r[i].end <= r[j].start
  {
    ScanFromStarts(text, pos);
    ScanFromMatches(text, pos);
    ScanFromOrdered(text, pos);
    ScanFrom(text, pos)
  }

  /** `Scan` misses nothing: every position from `pos` on where the pattern could
      match on its own lies inside a reported match (a match that starts inside an
      earlier one is skipped, as `finditer` skips it). */
  lemma ScanCovers(text: string, pos: nat, q: nat)
    requires pos <= q < |text| && LineStart(text, q) && MatchAt(text, q).Some?
    ensures Covered(Scan(text, pos), q)
  {
    ScanFromCovers(text, pos, q);
  }

  lemma CoveredByHead(m: HeadingMatch, rest: seq<HeadingMatch>, q: nat)
    requires m.start <= q < m.end
    ensures Covered([m] + rest, q)
  {
    assert ([m] + rest)[0] == m;
  }

  lemma CoveredByTail(m: HeadingMatch, rest: seq<HeadingMatch>, q: nat)
    requires Covered(rest, q)
    ensures Covered([m] + rest, q)
  {
    var i :| 0 <= i < |rest| && rest[i].start <= q < rest[i].end;
    assert ([m] + rest)[i + 1] == rest[i];
  }

  /** All heading matches of the text, in document order. */
  function FindHeadings(text: string): (r: seq<HeadingMatch>)
    ensures forall i :: 0 <= i < |r| ==> IsRegexMatch(text, r[i]) && text[r[i].start] == '#'
    ensures forall i, j :: 0 <= i < j < |r| ==> r[i].start < r[j].start
    ensures forall q :: 0 <= q < |text| && LineStart(text, q) && MatchAt(text, q).Some? ==> Covered(r, q)
  {
    forall q | 0 <= q < |text| && LineStart(text, q) && MatchAt(text, q).Some?
      ensures Covered(Scan(text, 0), q)
    {
      ScanCovers(text, 0, q);
    }
    Scan(text, 0)
  }
}
