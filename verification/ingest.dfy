/** The record assembly of `main` in ingest_markdown.py: what is handed to
    `collection.upsert` for a file, as a pure function of the file's text, its base
    name without extension and its file name. Reading the file, the command line,
    the ChromaDB client and the printed report are not part of this model. */
module Ingest {
  import opened Results
  import opened Numerals
  import opened ChunkBuilder
  import opened CollectionName

  /** The metadata stored with each chunk. */
  datatype Metadata = Metadata(source: string, heading: string, headingLevel: nat, chunkIndex: nat)

  /** The three parallel lists passed to `upsert`. */
  datatype Batch = Batch(documents: seq<string>, metadatas: seq<Metadata>, ids: seq<string>)

  /** What `main` would write: the collection's name and the batch. */
  datatype Plan = Plan(collectionName: string, batch: Batch)

  /** Why `main` stops before writing: the file is blank, or it yields no chunk. */
  datatype IngestError = EmptyFile | NoContent

  const ChunkInfix: string := "_chunk_"

  /** `f"{basename}_chunk_{i}"`. The index can be read back from the id: the text
      after the base name and "_chunk_" is the canonical numeral of the index. */
  function ChunkId(basename: string, i: nat): (id: string)
    ensures |id| > |basename| + |ChunkInfix|
    ensures id[..|basename| + |ChunkInfix|] == basename + ChunkInfix
    ensures IsCanonical(id[|basename| + |ChunkInfix|..])
    ensures ParseDecimal(id[|basename| + |ChunkInfix|..]) == i
  {
    var id := basename + ChunkInfix + Decimal(i);
    assert id[|basename| + |ChunkInfix|..] == Decimal(i);
    ParseDecimalOfDecimal(i);
    id
  }

  /** Two chunks of one file never share an id. */
  lemma ChunkIdInjective(basename: string, i: nat, j: nat)
    requires i != j
    ensures ChunkId(basename, i) != ChunkId(basename, j)
  {
    var idi, idj := ChunkId(basename, i), ChunkId(basename, j);
    assert ParseDecimal(idi[|basename| + |ChunkInfix|..]) != ParseDecimal(idj[|basename| + |ChunkInfix|..]);
  }

  /** The batch for the chunks, declaratively: entry `i` of each list comes from
      chunk `i`. */
  function Records(chunks: seq<Chunk>, basename: string, source: string): (b: Batch)
    ensures |b.documents| == |b.metadatas| == |b.ids| == |chunks|
  {
    Batch(
      seq(|chunks|, i requires 0 <= i < |chunks| => chunks[i].content),
      seq(|chunks|, i requires 0 <= i < |chunks| => Metadata(source, chunks[i].heading, chunks[i].level, i)),
      seq(|chunks|, i requires 0 <= i < |chunks| => ChunkId(basename, i)))
  }

  /** The ids of a batch are pairwise distinct, and each names the chunk index its
      metadata records. */
  lemma RecordsIds(chunks: seq<Chunk>, basename: string, source: string)
    ensures var b := Records(chunks, basename, source);
      && (forall i, j :: 0 <= i < j < |chunks| ==> b.ids[i] != b.ids[j])
      && (forall i :: 0 <= i < |chunks| ==>
            ParseDecimal(b.ids[i][|basename| + |ChunkInfix|..]) == b.metadatas[i].chunkIndex == i)
  {
    var b := Records(chunks, basename, source);
    forall i, j | 0 <= i < j < |chunks|
      ensures b.ids[i] != b.ids[j]
    {
      ChunkIdInjective(basename, i, j);
    }
    forall i | 0 <= i < |chunks|
      ensures ParseDecimal(b.ids[i][|basename| + |ChunkInfix|..]) == i
    {
      assert b.ids[i] == ChunkId(basename, i);
    }
  }

  /** The loop of `main` that fills the three lists, one chunk at a time. */
  method AssembleRecords(chunks: seq<Chunk>, basename: string, source: string) returns (b: Batch)
    ensures b == Records(chunks, basename, source)
    ensures forall i :: 0 <= i < |chunks| ==>
      && b.documents[i] == chunks[i].content
      && b.metadatas[i] == Metadata(source, chunks[i].heading, chunks[i].level, i)
      && b.ids[i] == ChunkId(basename, i)
  {
    var documents: seq<string> := [];
    var metadatas: seq<Metadata> := [];
    var ids: seq<string> := [];
    var i := 0;
    while i < |chunks|
      invariant i <= |chunks|
      invariant |documents| == |metadatas| == |ids| == i
      invariant forall k :: 0 <= k < i ==>
        && documents[k] == chunks[k].content
        && metadatas[k] == Metadata(source, chunks[k].heading, chunks[k].level, k)
        && ids[k] == ChunkId(basename, k)
    {
      documents := documents + [chunks[i].content];
      metadatas := metadatas + [Metadata(source, chunks[i].heading, chunks[i].level, i)];
      ids := ids + [ChunkId(basename, i)];
      i := i + 1;
    }
    b := Batch(documents, metadatas, ids);
  }

  /** `main` after reading the file: stop on a blank file, chunk the text, stop when
      there is no chunk, else name the collection and build the batch. The name
      comes from the corrected sanitizer, which always ends with a letter or digit
      and is the name line 80 computes whenever that name is itself clean. */
  function PlanIngest(text: string, basename: string, source: string): (r: Result<Plan, IngestError>)
    ensures r == Err(EmptyFile) <==> Trim(text) == []
    ensures r.Ok? ==> r.value.batch == Records(ChunkMarkdown(text), basename, source)
    ensures r.Ok? ==> |r.value.batch.ids| >= 1
    ensures r.Ok? ==> IsCleanName(r.value.collectionName)
    ensures r.Ok? && IsCleanName(SanitizeCollectionName(basename)) ==>
      r.value.collectionName == SanitizeCollectionName(basename)
  {
    StrictAgrees(basename);
    if Trim(text) == [] then Err(EmptyFile)
    else
      var chunks := ChunkMarkdown(text);
      if chunks == [] then Err(NoContent)
      else Ok(Plan(SanitizeCollectionNameStrict(basename), Records(chunks, basename, source)))
  }

  /** The "no content" stop never happens: a text that is not blank always yields
      a chunk, so `main` writes exactly when the file is not blank. */
  lemma PlanIngestOkIff(text: string, basename: string, source: string)
    ensures PlanIngest(text, basename, source) != Err(NoContent)
    ensures PlanIngest(text, basename, source).Ok? <==> Trim(text) != []
  {
    ChunkMarkdownEmptyIff(text);
  }
}
