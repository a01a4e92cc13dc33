/** Worked inputs for the heading scanner and the chunk builder. */
module Scenarios {
  import opened Results
  import opened Strings
  import opened HeadingScanner
  import opened ChunkBuilder

  /** `\s+` may cross a line feed: in "#\n## B" the lone `#` line and the next line
      form one level-1 heading whose label is "## B". */
  lemma WhitespaceCrossesLineFeed()
    ensures MatchAt("#\n## B", 0) == Some(HeadingMatch(0, 1, 2, 6))
    ensures ChunkMarkdown("#\n## B") == [Chunk("## B", 1, "#\n## B")]
  {
    var text := "#\n## B";
    assert RunFrom(text, 0, {'#'}) == 1;
    assert RunFrom(text, 1, Whitespace) == 1;
    assert LineEnd(text, 2) == 6;
    var m := HeadingMatch(0, 1, 2, 6);
    assert Scan(text, 0) == [m];
    assert Trim("## B") == "## B" by {
      StripKeptEnds("## B", Whitespace);
    }
    assert Trim(text) == text by {
      StripKeptEnds(text, Whitespace);
    }
  }

  /** Seven `#` are not a heading: `#{1,6}` cannot stop inside the run, so the text
      is one "Document" chunk. */
  lemma SevenHashesAreNoHeading()
    ensures ChunkMarkdown("####### x") == [Chunk(DocumentHeading, 0, "####### x")]
  {
    var text := "####### x";
    forall m: HeadingMatch | LineStart(text, m.start) && 1 <= m.level <= 6 && m.start + m.level < |text|
      ensures text[m.start + m.level] !in Whitespace
    {
      assert m.start == 0;
    }
    assert Trim(text) == text by {
      StripKeptEnds(text, Whitespace);
    }
    ChunkMarkdownWithoutHeadings(text);
  }
}
