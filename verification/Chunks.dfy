/** Retrieval chunks and what every chunker promises about them. */
module Chunks {
  import opened Options
  import opened Text
  import opened Grounding

  const TARGET_WORDS := 350
  const MIN_TURN_WORDS := 25

  datatype Chunk = Chunk(index: nat, speakerLabel: Option<string>, text: string, charStart: nat, charEnd: nat)

  function Last<T>(s: seq<T>): T
    requires s != []
  {
    s[|s| - 1]
  }

  /** A chunk is the slice of the body at its offsets, cut at word boundaries, and holds a word. */
  predicate Verbatim(body: string, c: Chunk) {
    && c.charStart <= c.charEnd <= |body|
    && c.text == body[c.charStart..c.charEnd]
    && AtBoundary(body, c.charStart) && AtBoundary(body, c.charEnd)
    && Words(body, c.charStart, c.charEnd) != []
  }

  /** Chunks are verbatim, numbered from zero, in order and disjoint. */
  predicate Sequenced(body: string, chunks: seq<Chunk>) {
    && (forall k :: 0 <= k < |chunks| ==> Verbatim(body, chunks[k]) && chunks[k].index == k)
    && (forall k :: 1 <= k < |chunks| ==> chunks[k - 1].charEnd <= chunks[k].charStart)
  }

  function WordsOf(body: string, c: Chunk): seq<Span> {
    if c.charStart <= c.charEnd <= |body| then Words(body, c.charStart, c.charEnd) else []
  }

  /** The words of all chunks, one chunk after the other, as offsets into the body. */
  function AllWords(body: string, chunks: seq<Chunk>): seq<Span> {
    if chunks == [] then [] else AllWords(body, chunks[..|chunks| - 1]) + WordsOf(body, Last(chunks))
  }

  lemma AllWordsSnoc(body: string, chunks: seq<Chunk>, c: Chunk)
    ensures AllWords(body, chunks + [c]) == AllWords(body, chunks) + WordsOf(body, c)
  {
    assert (chunks + [c])[..|chunks|] == chunks;
  }

  lemma SequencedSnoc(body: string, chunks: seq<Chunk>, c: Chunk)
    requires Sequenced(body, chunks) && Verbatim(body, c) && c.index == |chunks|
    requires chunks != [] ==> Last(chunks).charEnd <= c.charStart
    ensures Sequenced(body, chunks + [c])
  {
    hide Verbatim;
  }

  /** The chunks so far are in order and hold exactly the words before x. */
  ghost predicate Chunked(body: string, chunks: seq<Chunk>, x: nat) {
    && x <= |body| && AtBoundary(body, x)
    && Sequenced(body, chunks)
    && (chunks != [] ==> Last(chunks).charEnd <= x)
    && AllWords(body, chunks) == Words(body, 0, x)
  }

  lemma SpaceHasNoWords(t: string, lo: nat, hi: nat)
    requires lo <= hi <= |t|
    ensures AllSpace(t, lo, hi) <==> Words(t, lo, hi) == []
  {
    SkipSpaceStops(t, lo, hi);
  }

  lemma ChunkedAdvance(body: string, chunks: seq<Chunk>, x: nat, y: nat)
    requires Chunked(body, chunks, x) && x <= y <= |body| && AllSpace(body, x, y) && AtBoundary(body, y)
    ensures Chunked(body, chunks, y)
  {
    hide Words, Sequenced, AllSpace, AtBoundary, AllWords;
    WordsCut(body, 0, x, y);
    SpaceHasNoWords(body, x, y);
  }

  lemma ChunkedAppend(body: string, chunks: seq<Chunk>, c: Chunk)
    requires Chunked(body, chunks, c.charStart) && Verbatim(body, c) && c.index == |chunks|
    ensures Chunked(body, chunks + [c], c.charEnd) && Last(chunks + [c]) == c
  {
    hide Words, AtBoundary, AllWords, Sequenced;
    AllWordsSnoc(body, chunks, c);
    WordsCut(body, 0, c.charStart, c.charEnd);
    SequencedSnoc(body, chunks, c);
  }

  lemma NothingChunked(body: string)
    ensures Chunked(body, [], 0)
  {
  }

  /**
   Grounding survives chunking: a quote that can be located in a chunk can be
   located in the body the chunk came from.
   */
  lemma ChunkQuoteIsInBody(body: string, c: Chunk, quote: string, lower: Lowering)
    requires Verbatim(body, c) && Locatable(quote, c.text, lower)
    ensures Locatable(quote, body, lower)
  {
    LocatableInWhole(quote, body, c.charStart, c.charEnd, lower);
  }
}
