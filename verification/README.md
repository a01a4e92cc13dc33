# Markdown ingestion core, modelled in Dafny

This project models the core of a small repository that ingests a markdown file into
a ChromaDB collection (`ingest_markdown.py`), plus the AQI lookup table of its
air-quality script (`air_quality.py`). The ingestion code has three parts:

- **`chunk_markdown`** splits a document into chunks. Each line matched by
  `^(#{1,6})\s+(.+)$` (in `re.MULTILINE` mode, found with `finditer`) starts a chunk
  that runs to the next match. The text before the first match becomes a level-0
  "Preamble" chunk. A document with no match is one level-0 "Document" chunk. All
  contents are `strip()`ed, and empty ones are dropped.
- **`sanitize_collection_name`** turns a file's base name into a collection name.
- **`main`** turns the chunks into three parallel lists for `upsert`: documents,
  metadata and ids.

The modules follow the program's structure:

| file | module | models |
|---|---|---|
| `results.dfy` | `Results` | `Option` and `Result` |
| `strings.dfy` | `Strings` | whitespace, `str.strip(chars)` and character runs |
| `heading_scanner.dfy` | `HeadingScanner` | the heading regex and `finditer` |
| `chunk_builder.dfy` | `ChunkBuilder` | the rest of `chunk_markdown` |
| `collection_name.dfy` | `CollectionName` | `sanitize_collection_name` and its corrected form |
| `numerals.dfy` | `Numerals` | `str(i)` for the chunk index in an id |
| `ingest.dfy` | `Ingest` | the blank-file and no-chunk checks and the record loop of `main` |
| `air_quality.dfy` | `AirQuality` | `AQI_CATEGORIES` and `get_aqi_category` |
| `scenarios.dfy` | `Scenarios` | concrete inputs |

How the regex is modelled:

- The scanner is written out as the matcher a backtracking engine runs.
- `#{1,6}` must take the whole `#` run, and the run must be followed by whitespace.
- The greedy `\s+` takes every whitespace character, **line feeds included**. `.+`
  then takes the rest of the line it lands on, so a heading's label can start on a
  later line than its `#` run (`Scenarios.WhitespaceCrossesLineFeed`).
- If the whitespace reaches the end of the text, `\s+` gives characters back.
  `.+` then starts at the last character that is not a line feed.
- `finditer` resumes where each match ended.

`MatchesAfterAnchor` and `IsRegexMatch` state the pattern declaratively. The lemmas
tie the matcher to that declaration:

- `MatchAtIsGreedy`: the matcher finds a match whenever one exists, and it picks the
  greedy one.
- `Scan`: every match it reports is a real match, in order, and matches do not
  overlap.
- `ScanCovers`: no match is missed.

## Model

| member | source | states |
|---|---|---|
| `Strings.Strip` | ingest_markdown.py:48 | `name.strip("_-")` never lengthens its input. What it returns is pinned down by `StripEmptyIff`, `StripOutside` and `StripEnds` |
| `Strings.StripEmptyIff` | ingest_markdown.py:22-23 | `strip()` returns the empty string exactly when every character is one it removes |
| `Strings.StripKeeps` | ingest_markdown.py:37-38 | a text that holds one kept character does not strip to empty |
| `Strings.StripOutside` | ingest_markdown.py:48 | only removable characters lie before and after the stripped slice |
| `Strings.StripEnds` | ingest_markdown.py:47-48 | a non-empty stripped string starts and ends with a kept character |
| `Strings.StripKeptEnds` | ingest_markdown.py:48 | stripping a string that already starts and ends with kept characters changes nothing |
| `HeadingScanner.LineEnd` | ingest_markdown.py:16 | `.+` followed by `$` ends at the next line feed or at the end of the text, with no line feed before |
| `HeadingScanner.LabelStart` | ingest_markdown.py:16 | where `\s+` hands over to `.+`: the label starts after a run of whitespace, on a character that is not a line feed |
| `HeadingScanner.MatchAt` | ingest_markdown.py:16 | a match reported at a position starts there and fits the pattern: 1 to 6 `#`, whitespace, a label without line feeds, then the end of a line |
| `HeadingScanner.MatchAtIsGreedy` | ingest_markdown.py:16 | whenever the pattern can match at a position, the matcher finds a match there. It has the same `#` run, and its label starts no earlier than any other (greedy `\s+`) |
| `HeadingScanner.LabelStartIsGreedy` | ingest_markdown.py:16 | `\s+` gives back only as many characters as `.+` needs, so the label starts as late as it can |
| `HeadingScanner.Scan` | ingest_markdown.py:18 | every match `finditer` reports is a regex match at a line start and is the engine's match there. The matches are disjoint and in text order |
| `HeadingScanner.ScanCovers` | ingest_markdown.py:18 | `finditer` misses nothing: every line start where the pattern matches lies inside a reported match |
| `HeadingScanner.FindHeadings` | ingest_markdown.py:16-18 | the match list holds only regex matches, each starting with `#`. Their starts strictly increase, and the list covers every place the pattern matches |
| `ChunkBuilder.Trim` | ingest_markdown.py:22 | `text.strip()` is empty exactly when the text is blank, and otherwise starts and ends with a character that is not whitespace |
| `ChunkBuilder.SpanEnd` | ingest_markdown.py:36 | a heading's span ends after its start and within the text |
| `ChunkBuilder.Span` | ingest_markdown.py:35-37 | the raw text of a heading's chunk starts with `#` |
| `ChunkBuilder.HeadingChunk` | ingest_markdown.py:33-37 | the chunk of a match has non-empty content and a level of 1 to 6 |
| `ChunkBuilder.Filter` | ingest_markdown.py:38-39 | the `if content:` filter keeps exactly the elements of its input that pass: nothing that fails, nothing from elsewhere, and every element that passes |
| `ChunkBuilder.FilterAppend` | ingest_markdown.py:38-39 | filtering a concatenation is the concatenation of the filtered parts, so the kept elements stay in their input order |
| `ChunkBuilder.FilterKeepsAll` | ingest_markdown.py:38-39 | a filter whose test every element passes returns its input unchanged |
| `ChunkBuilder.HeadingChunks` | ingest_markdown.py:32-39 | the heading loop gives exactly one chunk per match, in match order: the emptiness test at line 38 never drops one |
| `ChunkBuilder.HeadingChunksShape` | ingest_markdown.py:33-39 | every chunk from the heading loop has content and a level of 1 to 6 |
| `ChunkBuilder.Preamble` | ingest_markdown.py:28 | the preamble is empty exactly when every character before the first heading is whitespace |
| `ChunkBuilder.SyntheticChunks` | ingest_markdown.py:20-30 | at most one synthetic chunk is made, and it has level 0 and non-empty content |
| `ChunkBuilder.BuildChunks` | ingest_markdown.py:20-41 | the count is the synthetic chunks plus one per match. Every chunk has content and a level of at most 6 |
| `ChunkBuilder.ChunkMarkdown` | ingest_markdown.py:11-41 | every chunk of `chunk_markdown` has non-empty content and a level of at most 6 |
| `ChunkBuilder.FindHeadingsEmptyIff` | ingest_markdown.py:18-20 | `matches` is empty exactly when the pattern matches nowhere in the text |
| `ChunkBuilder.ChunkMarkdownWithoutHeadings` | ingest_markdown.py:20-25 | with no heading, the result is the one chunk ("Document", 0, stripped text), or nothing for a blank text |
| `ChunkBuilder.BuildChunksWithHeadings` | ingest_markdown.py:27-39 | with headings, there is a ("Preamble", 0, …) chunk exactly when the stripped prefix is non-empty. Then chunk `i` per match: heading = stripped group 2, level = length of group 1, content = stripped text from the match to the next match or the end |
| `ChunkBuilder.PreambleIff` | ingest_markdown.py:28-30 | among heading chunks, a level-0 chunk occurs exactly when the text before the first heading is not blank |
| `ChunkBuilder.SpansFrom` | ingest_markdown.py:35-36 | the spans from match `j` on, joined, are the text from match `j` on |
| `ChunkBuilder.SpansCoverText` | ingest_markdown.py:28-36 | the prefix before the first heading plus all spans rebuild the text exactly: chunks partition the document before stripping |
| `ChunkBuilder.ChunkMarkdownEmptyIff` | ingest_markdown.py:11-41 | `chunk_markdown` returns no chunk exactly when the text is blank |
| `CollectionName.ReplaceInvalid` | ingest_markdown.py:46 | the substitution keeps length, keeps every character of `[A-Za-z0-9_-]` and turns every other one into `_` |
| `CollectionName.Trimmed` | ingest_markdown.py:46-48 | after substitution and `strip("_-")`, only name characters remain, and the name starts and ends with a letter or digit |
| `CollectionName.TrimmedEmptyIff` | ingest_markdown.py:46-49 | nothing survives the strip exactly when the base name has no ASCII letter or digit |
| `CollectionName.OrDefault` | ingest_markdown.py:49-50 | the result is a clean name: letters, digits, `_` and `-`, with a letter or digit at both ends. That the empty name becomes "documents" is stated by `NoAlnumGivesDefault` |
| `CollectionName.Pad` | ingest_markdown.py:52-53 | padding makes a name at least 3 long, keeps it as a prefix and keeps it clean |
| `CollectionName.Truncate` | ingest_markdown.py:54 | `[:63]` keeps a prefix of at most 63 characters |
| `CollectionName.SanitizeCollectionName` | ingest_markdown.py:44-54 | the result has 3 to 63 characters, all from `[A-Za-z0-9_-]`, and starts with a letter or digit |
| `CollectionName.NoAlnumGivesDefault` | ingest_markdown.py:46-50 | a base name without an ASCII letter or digit (the empty one included) becomes "documents" |
| `CollectionName.KeepsTrimmedPrefix` | ingest_markdown.py:51-54 | otherwise the result starts with as much of the stripped name as fits in 63 characters |
| `CollectionName.FinishEndsAlnumIff` | ingest_markdown.py:49-54 | after the strip, the result ends with a letter or digit exactly when the stripped name fits in 63 characters or its 63rd character is a letter or digit |
| `CollectionName.EndsAlnumIff` | ingest_markdown.py:47-54 | the result ends with a letter or digit exactly when the stripped name has at most 63 characters or its 63rd is a letter or digit |
| `CollectionName.SanitizeResultShaped` | ingest_markdown.py:44-54 | a name shaped like a result comes back unchanged exactly when it ends with a letter or digit |
| `CollectionName.IdempotentIff` | ingest_markdown.py:44-54 | sanitizing a result again leaves it unchanged exactly when it ends with a letter or digit |
| `CollectionName.TruncationLeavesSeparator` | ingest_markdown.py:54 | 62 `a`, then `_b`, gives 62 `a` and `_`: a result ending with `_`, which a second pass changes |
| `CollectionName.Restrip` | ingest_markdown.py:47-54 | stripping trailing separators again after the cut (and padding again) gives a clean name of 3 to 63 characters |
| `CollectionName.SanitizeCollectionNameStrict` | ingest_markdown.py:44-54 | the corrected sanitizer always gives 3 to 63 name characters that start and end with a letter or digit |
| `CollectionName.StrictAgrees` | ingest_markdown.py:44-54 | the corrected sanitizer returns the original result whenever that result already ends with a letter or digit |
| `CollectionName.StrictIdempotent` | ingest_markdown.py:44-54 | sanitizing twice with the corrected sanitizer gives the same name as once |
| `Numerals.Decimal` | ingest_markdown.py:98 | `str(i)` is a non-empty digit string without a leading zero, and it is "0" only for 0 |
| `Numerals.ParseDecimalOfDecimal` | ingest_markdown.py:98 | reading the numeral back gives the index |
| `Numerals.DecimalOfParseDecimal` | ingest_markdown.py:98 | every canonical numeral is the formatting of its own value |
| `Numerals.DecimalInjective` | ingest_markdown.py:98 | different indices give different numerals |
| `Ingest.ChunkId` | ingest_markdown.py:98 | an id is the base name, then "_chunk_", then the canonical numeral of the chunk index, which reads back to the index |
| `Ingest.ChunkIdInjective` | ingest_markdown.py:98 | two chunks of one file never get the same id |
| `Ingest.Records` | ingest_markdown.py:86-98 | the three lists have one entry per chunk |
| `Ingest.RecordsIds` | ingest_markdown.py:92-98 | the ids are pairwise distinct, and each id's numeral equals the `chunk_index` stored beside it |
| `Ingest.AssembleRecords` | ingest_markdown.py:86-98 | the loop builds entry `i` from chunk `i`: the chunk's content, metadata (source, heading, level, `i`), and the id base name + "_chunk_" + `i` |
| `Ingest.PlanIngest` | ingest_markdown.py:70-98 | a blank file stops with the "empty" error and nothing else does. A successful plan holds the records of `chunk_markdown`'s chunks, at least one, under a clean collection name. That name is the one line 80 computes whenever line 80's name is itself clean |
| `Ingest.PlanIngestOkIff` | ingest_markdown.py:70-77 | the "no content" stop can never happen, and the file is written exactly when it is not blank |
| `AirQuality.Band` | air_quality.py:27-31 | every reading falls in one of the six rows |
| `AirQuality.CategoryOf` | air_quality.py:27-31 | the row of a reading is a row of the table: the first whose threshold is at least the reading, or the last row when the reading is above every threshold |
| `AirQuality.ThresholdsIncrease` | air_quality.py:17-24 | the table's thresholds strictly increase |
| `AirQuality.FirstAtLeast` | air_quality.py:28-30 | the first row from a start index whose threshold is at least the reading: every row before it is below the reading |
| `AirQuality.CountBelowSplit` | air_quality.py:28-30 | with sorted thresholds, the number below the reading is the index of the first one at or above it |
| `AirQuality.BandIff` | air_quality.py:27-31 | a reading is in row `i` exactly when it is above the previous threshold and, except in the last row, at most row `i`'s own |
| `AirQuality.GetAqiCategory` | air_quality.py:27-31 | the loop returns the label and description of the first row whose threshold is at least the reading. Above 500 it returns the fallback pair, which equals the last row |
| `AirQuality.GoodUpTo50` | air_quality.py:18-30 | every reading up to 50, negatives included, is "Good" |
| `AirQuality.HazardousAbove300` | air_quality.py:22-31 | every reading above 300 gets the "Hazardous" pair, however large |
| `AirQuality.InclusiveBoundaries` | air_quality.py:17-30 | 100 is "Moderate", 101 "Unhealthy for Sensitive Groups", 300 "Very Unhealthy" and 301 "Hazardous" |
| `AirQuality.BandMonotone` | air_quality.py:17-31 | a higher reading never gets a lower row |
| `AirQuality.LabelsDistinct` | air_quality.py:17-24 | no two rows share a label |
| `Scenarios.WhitespaceCrossesLineFeed` | ingest_markdown.py:16-39 | in "#\n## B", `\s+` crosses the line feed. The text is one level-1 chunk headed "## B" |
| `Scenarios.SevenHashesAreNoHeading` | ingest_markdown.py:16-25 | "####### x" has no heading and becomes one "Document" chunk |

## Left out

- Reading the file, the command-line checks, the exit codes and the printed report
  (ingest_markdown.py:58-68, 71-72, 76-77, 102-108). The text, the base name and the
  file name are parameters of `Ingest.PlanIngest`, and the two stops are its error
  values.
- Path handling: `os.path.basename`, `splitext` and the database path
  (ingest_markdown.py:79, 82, 93) are outside this model.
- The ChromaDB client and the `upsert` call (ingest_markdown.py:83-84, 100). The model
  stops at the collection name and the three lists that would be passed to the
  client.
- `Strings.IsSpace`: only the ASCII whitespace of `str.isspace()` and of `re`'s `\s`
  is modelled. That is tab, line feed, vertical tab, form feed, carriage return,
  U+001C–U+001F and space. The non-ASCII whitespace that Python also strips and
  matches is not part of the model: U+0085, U+00A0, U+1680, U+2000–U+200A, U+2028,
  U+2029, U+202F, U+205F and U+3000.
- The regex engine in general: only the one heading pattern is written out.
- The network fetch, the report formatting and the entry point of air_quality.py
  (lines 34 onward).
- Non-integer AQI values: `get_aqi_category` is modelled for integer readings only,
  because the JSON reading can be a float.
- `Ingest.PlanIngest`: the collection name comes from
  `CollectionName.SanitizeCollectionNameStrict`, not from `sanitize_collection_name`
  as line 80 calls it. The two differ when the stripped base name is longer than 63
  characters and its 63rd character is `_` or `-` (see Findings). There the model
  promises the corrected name, not the one the code would pass to ChromaDB.

## Findings

| source | as written | input that shows it | evidently intended | confidence | as-written member | corrected member |
|---|---|---|---|---|---|---|
| ingest_markdown.py:54 | `return name[:63]` cuts after the `strip("_-")` of line 48, so the cut can end on `_` or `-` | base name of 62 `a` followed by `_b`, giving 62 `a` followed by `_` | the comment at line 47 says the name must end with a letter or digit | high, not executed | `CollectionName.TruncationLeavesSeparator` | `CollectionName.SanitizeCollectionNameStrict` |

The corrected sanitizer strips trailing separators again after the cut. If that
leaves fewer than 3 characters, it pads again. `Ingest.PlanIngest` names the
collection with the corrected sanitizer.
