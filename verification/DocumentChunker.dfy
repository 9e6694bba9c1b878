/** Chunking of prose: paragraphs merged up to a word budget, long ones split at words. */
module DocumentChunker {
  import opened Options
  import opened Text
  import opened Paragraphs
  import opened Chunks

  ghost predicate Long(body: string, p: Span) {
    p.start <= p.end <= |body| && |Words(body, p.start, p.end)| > TARGET_WORDS
  }

  /** The chunk is a piece of one paragraph that is over budget on its own. */
  ghost predicate InLong(body: string, ps: seq<Span>, c: Chunk) {
    exists j :: 0 <= j < |ps| && Long(body, ps[j]) && ps[j].start <= c.charStart && c.charEnd <= ps[j].end
  }

  /** The chunk holds the last words of such a paragraph. */
  ghost predicate EndsLong(body: string, ps: seq<Span>, c: Chunk) {
    exists j :: 0 <= j < |ps| && Long(body, ps[j]) && ps[j].start <= c.charStart && c.charEnd <= ps[j].end
      && AllSpace(body, c.charEnd, ps[j].end)
  }

  /** lo..hi runs from the start of one of the first n paragraphs to the end of one of them. */
  ghost predicate WholeParagraphs(ps: seq<Span>, n: nat, lo: nat, hi: nat) {
    exists i, j :: 0 <= i <= j < n <= |ps| && ps[i].start == lo && ps[j].end == hi
  }

  /** Two neighbours could not have been one chunk, unless the first ends an over-budget paragraph. */
  ghost predicate BreakNeeded(body: string, ps: seq<Span>, c: Chunk, next: nat) {
    |WordsOf(body, c)| + next > TARGET_WORDS || EndsLong(body, ps, c)
  }

  ghost predicate FitsBudget(body: string, ps: seq<Span>, c: Chunk) {
    && |WordsOf(body, c)| <= TARGET_WORDS
    && (InLong(body, ps, c) || WholeParagraphs(ps, |ps|, c.charStart, c.charEnd))
  }

  ghost predicate Tight(body: string, ps: seq<Span>, chunks: seq<Chunk>) {
    && (forall k :: 0 <= k < |chunks| ==> FitsBudget(body, ps, chunks[k]))
    && (forall k :: 1 <= k < |chunks| ==> BreakNeeded(body, ps, chunks[k - 1], |WordsOf(body, chunks[k])|))
  }

  /** The chunks so far hold exactly the words before x. */
  ghost predicate Done(body: string, ps: seq<Span>, chunks: seq<Chunk>, x: nat) {
    Chunked(body, chunks, x) && Tight(body, ps, chunks)
  }

  function Emit(body: string, chunks: seq<Chunk>, start: nat, end: nat): seq<Chunk>
    requires start <= end <= |body|
  {
    if Blank(body[start..end]) then chunks
    else chunks + [Chunk(|chunks|, None, body[start..end], start, end)]
  }

  /** The slice lies in a paragraph of more than 350 words. */
  ghost predicate LiesInLongParagraph(body: string, lo: nat, hi: nat) {
    exists p :: p in ParaSpans(body, 0) && p.start <= lo && hi <= p.end
      && p.start <= p.end <= |body| && |Words(body, p.start, p.end)| > 350
  }

  /** No chunk is over budget, and no two neighbours would fit into one but after a piece of a long paragraph. */
  ghost predicate AsFewAsCanBe(body: string, chunks: seq<Chunk>) {
    && (forall k :: 0 <= k < |chunks| ==> |WordsOf(body, chunks[k])| <= 350)
    && (forall k :: 1 <= k < |chunks| ==>
          || |WordsOf(body, chunks[k - 1])| + |WordsOf(body, chunks[k])| > 350
          || LiesInLongParagraph(body, chunks[k - 1].charStart, chunks[k - 1].charEnd))
  }

  lemma TightMeansFew(body: string, chunks: seq<Chunk>)
    requires Tight(body, ParaSpans(body, 0), chunks)
    ensures AsFewAsCanBe(body, chunks)
  {
    hide Words, WordsOf, ParaSpans, AllSpace;
    forall k | 1 <= k < |chunks| && |WordsOf(body, chunks[k - 1])| + |WordsOf(body, chunks[k])| <= 350
      ensures LiesInLongParagraph(body, chunks[k - 1].charStart, chunks[k - 1].charEnd)
    {
      assert BreakNeeded(body, ParaSpans(body, 0), chunks[k - 1], |WordsOf(body, chunks[k])|);
    }
  }

  lemma Advance(body: string, ps: seq<Span>, chunks: seq<Chunk>, x: nat, y: nat)
    requires Done(body, ps, chunks, x) && x <= y <= |body| && AllSpace(body, x, y) && AtBoundary(body, y)
    ensures Done(body, ps, chunks, y)
  {
    hide Chunked, Tight, AllSpace, AtBoundary;
    ChunkedAdvance(body, chunks, x, y);
  }

  lemma EmitChunk(body: string, ps: seq<Span>, chunks: seq<Chunk>, s: nat, e: nat)
    requires Done(body, ps, chunks, s) && s <= e <= |body| && AtBoundary(body, e)
    requires 0 < |Words(body, s, e)| <= TARGET_WORDS
    requires WholeParagraphs(ps, |ps|, s, e)
      || exists j :: 0 <= j < |ps| && Long(body, ps[j]) && ps[j].start <= s && e <= ps[j].end
    requires chunks != [] ==> BreakNeeded(body, ps, Last(chunks), |Words(body, s, e)|)
    ensures var r := Emit(body, chunks, s, e);
      && r == chunks + [Chunk(|chunks|, None, body[s..e], s, e)]
      && Done(body, ps, r, e)
      && WordsOf(body, Last(r)) == Words(body, s, e)
  {
    hide Words, AllSpace, AtBoundary, AllWords, BreakNeeded, WholeParagraphs, Long, Sequenced, Tight;
    var c := Chunk(|chunks|, None, body[s..e], s, e);
    SpaceHasNoWords(body, s, e);
    BlankSlice(body, s, e);
    ChunkedAppend(body, chunks, c);
    TightSnoc(body, ps, chunks, c);
  }

  lemma TightSnoc(body: string, ps: seq<Span>, chunks: seq<Chunk>, c: Chunk)
    requires Tight(body, ps, chunks) && FitsBudget(body, ps, c)
    requires chunks != [] ==> BreakNeeded(body, ps, Last(chunks), |WordsOf(body, c)|)
    ensures Tight(body, ps, chunks + [c])
  {
    hide FitsBudget, BreakNeeded, WordsOf;
  }

  /** Everything the main loop keeps, after k paragraphs. */
  ghost predicate Running(body: string, ps: seq<Span>, k: nat, chunks: seq<Chunk>, curStart: Option<nat>, curEnd: nat,
          curWords: nat)
    requires k <= |ps|
  {
    var x := if k == 0 then 0 else ps[k - 1].end;
    match curStart
    case None => Done(body, ps, chunks, x) && curWords == 0 && (chunks != [] ==> EndsLong(body, ps, Last(chunks)))
    case Some(s) =>
      && Done(body, ps, chunks, s) && s <= curEnd <= x <= |body|
      && AtBoundary(body, curEnd) && AllSpace(body, curEnd, x)
      && 0 < curWords <= TARGET_WORDS && curWords == |Words(body, s, curEnd)|
      && WholeParagraphs(ps, k, s, curEnd)
      && (chunks != [] ==> BreakNeeded(body, ps, Last(chunks), curWords))
  }

  lemma SkipParagraph(body: string, ps: seq<Span>, k: nat, chunks: seq<Chunk>, curStart: Option<nat>, curEnd: nat,
          curWords: nat)
    requires k < |ps| && WellPlaced(body, ps, 0) && Running(body, ps, k, chunks, curStart, curEnd, curWords)
    requires AllSpace(body, ps[k].start, ps[k].end)
    ensures Running(body, ps, k + 1, chunks, curStart, curEnd, curWords)
  {
    hide Words, AllSpace, AtBoundary, BreakNeeded, EndsLong, Sequenced, Tight, AllWords;
    var p := ps[k];
    if curStart.None? {
      NothingIsSpace(body, if k == 0 then 0 else ps[k - 1].end);
      ReachParagraph(body, ps, k, chunks, if k == 0 then 0 else ps[k - 1].end);
      Advance(body, ps, chunks, p.start, p.end);
    } else if k > 0 {
      AllSpaceJoin(body, curEnd, ps[k - 1].end, p.start);
      AllSpaceJoin(body, curEnd, p.start, p.end);
    } else {
      AllSpaceJoin(body, curEnd, p.start, p.end);
    }
  }

  lemma ReachParagraph(body: string, ps: seq<Span>, k: nat, chunks: seq<Chunk>, x: nat)
    requires k < |ps| && WellPlaced(body, ps, 0) && Done(body, ps, chunks, x)
    requires x <= if k == 0 then 0 else ps[k - 1].end
    requires AllSpace(body, x, if k == 0 then 0 else ps[k - 1].end)
    ensures Done(body, ps, chunks, ps[k].start)
  {
    hide Done, Words, AllSpace;
    if k > 0 {
      AllSpaceJoin(body, x, ps[k - 1].end, ps[k].start);
      Advance(body, ps, chunks, x, ps[k].start);
    } else {
      Advance(body, ps, chunks, x, ps[k].start);
    }
  }

  lemma StartParagraph(body: string, ps: seq<Span>, k: nat, chunks: seq<Chunk>)
    requires k < |ps| && WellPlaced(body, ps, 0) && Done(body, ps, chunks, ps[k].start)
    requires 0 < |Words(body, ps[k].start, ps[k].end)| <= TARGET_WORDS
    requires chunks != [] ==> BreakNeeded(body, ps, Last(chunks), |Words(body, ps[k].start, ps[k].end)|)
    ensures Running(body, ps, k + 1, chunks, Some(ps[k].start), ps[k].end, |Words(body, ps[k].start, ps[k].end)|)
  {
    hide Done, Words, AtBoundary, BreakNeeded;
    NothingIsSpace(body, ps[k].end);
    assert WholeParagraphs(ps, k + 1, ps[k].start, ps[k].end);
  }

  lemma ExtendParagraph(body: string, ps: seq<Span>, k: nat, chunks: seq<Chunk>, s: nat, curEnd: nat, curWords: nat)
    requires k < |ps| && WellPlaced(body, ps, 0) && Running(body, ps, k, chunks, Some(s), curEnd, curWords)
    requires 0 < |Words(body, ps[k].start, ps[k].end)|
    requires curWords + |Words(body, ps[k].start, ps[k].end)| <= TARGET_WORDS
    ensures Running(body, ps, k + 1, chunks, Some(s), ps[k].end, curWords + |Words(body, ps[k].start, ps[k].end)|)
  {
    hide Done, Words, AtBoundary, AllSpace, EndsLong;
    var p := ps[k];
    assert curEnd <= p.start && AllSpace(body, curEnd, p.start) by {
      if k > 0 { AllSpaceJoin(body, curEnd, ps[k - 1].end, p.start); }
    }
    WordsCut(body, s, curEnd, p.end);
    WordsCut(body, curEnd, p.start, p.end);
    SpaceHasNoWords(body, curEnd, p.start);
    NothingIsSpace(body, p.end);
    assert WholeParagraphs(ps, k + 1, s, p.end);
  }

  /** Word offsets relative to the slice they are found in. */
  function WordSpans(text: string, start: nat, end: nat): seq<Span>
    requires start <= end <= |text|
  {
    Words(text[start..end], 0, end - start)
  }

  lemma WordSpansShift(text: string, start: nat, end: nat)
    requires start <= end <= |text|
    ensures |WordSpans(text, start, end)| == |Words(text, start, end)|
    ensures forall k :: 0 <= k < |WordSpans(text, start, end)| ==>
      Words(text, start, end)[k] ==
      Span(start + WordSpans(text, start, end)[k].start, start + WordSpans(text, start, end)[k].end)
  {
    hide Words;
    WordsOfSlice(text, start, end, 0);
    var w := WordSpans(text, start, end);
    forall k | 0 <= k < |w| ensures Shift(w, start)[k] == Span(start + w[k].start, start + w[k].end) {
      ShiftAt(w, start, k);
    }
  }

  lemma {:induction false} ShiftAt(w: seq<Span>, d: nat, k: nat)
    requires k < |w|
    ensures Shift(w, d)[k] == Span(w[k].start + d, w[k].end + d)
  {
    if k > 0 { ShiftAt(w[1..], d, k - 1); }
  }

  lemma SliceStep(body: string, ps: seq<Span>, j: nat, chunks: seq<Chunk>, i: nat, e: nat)
    requires j < |ps| && WellPlaced(body, ps, 0) && Long(body, ps[j]) && AtBoundary(body, ps[j].start)
    requires var w := Words(body, ps[j].start, ps[j].end);
      && i < e <= |w| && e == (if i + TARGET_WORDS < |w| then i + TARGET_WORDS else |w|)
      && (if i == 0 then Done(body, ps, chunks, ps[j].start) else Done(body, ps, chunks, w[i - 1].end))
    requires chunks != [] ==>
      if i == 0 then BreakNeeded(body, ps, Last(chunks), TARGET_WORDS)
      else |WordsOf(body, Last(chunks))| == TARGET_WORDS
    ensures var w := Words(body, ps[j].start, ps[j].end);
      && w[i].start <= w[e - 1].end <= |body|
      && var r := Emit(body, chunks, w[i].start, w[e - 1].end);
         && r != [] && Done(body, ps, r, w[e - 1].end)
         && if e == |w| then EndsLong(body, ps, Last(r)) else |WordsOf(body, Last(r))| == TARGET_WORDS
  {
    hide Words, Done, AtBoundary, AllSpace;
    var p := ps[j];
    var w := Words(body, p.start, p.end);
    var prev := if i == 0 then p.start else w[i - 1].end;
    WordsNext(body, p.start, p.end, i);
    WordStops(body, p.start, p.end, e - 1);
    WordStops(body, p.start, p.end, |w| - 1);
    WordBoundaries(body, p.start, p.end, i);
    WordBoundaries(body, p.start, p.end, e - 1);
    Advance(body, ps, chunks, prev, w[i].start);
    WordsWindow(body, p.start, p.end, i, e);
    WordsInside(body, p.start, p.end);
    assert Long(body, ps[j]) && ps[j].start <= w[i].start && w[e - 1].end <= ps[j].end;
    EmitChunk(body, ps, chunks, w[i].start, w[e - 1].end);
  }

  /** A paragraph over budget becomes slices of TARGET_WORDS words. */
  method SplitParagraph(body: string, ghost ps: seq<Span>, ghost j: nat, p: Span, words: seq<Span>, chunks0: seq<Chunk>)
    returns (chunks: seq<Chunk>)
    requires j < |ps| && WellPlaced(body, ps, 0) && p == ps[j] && Long(body, p) && AtBoundary(body, p.start)
    requires words == WordSpans(body, p.start, p.end)
    requires Done(body, ps, chunks0, p.start)
    requires chunks0 != [] ==> BreakNeeded(body, ps, Last(chunks0), TARGET_WORDS)
    ensures Done(body, ps, chunks, p.end) && chunks != [] && EndsLong(body, ps, Last(chunks))
  {
    hide Words, Done, AtBoundary, AllSpace, WordSpans, EndsLong, BreakNeeded, WordsOf;
    chunks := chunks0;
    var n := |words|;
    WordSpansShift(body, p.start, p.end);
    ghost var w := Words(body, p.start, p.end);
    var i := 0;
    while i < n
      invariant 0 <= i
      invariant var at := if i < n then i else n;
        if at == 0 then chunks == chunks0
        else && Done(body, ps, chunks, w[at - 1].end) && chunks != []
             && if at == n then EndsLong(body, ps, Last(chunks)) else |WordsOf(body, Last(chunks))| == TARGET_WORDS
    {
      var e := if i + TARGET_WORDS < n then i + TARGET_WORDS else n;
      SliceStep(body, ps, j, chunks, i, e);
      chunks := Emit(body, chunks, p.start + words[i].start, p.start + words[e - 1].end);
      i := i + TARGET_WORDS;
    }
    WordStops(body, p.start, p.end, n - 1);
    Advance(body, ps, chunks, w[n - 1].end, p.end);
  }

  lemma NothingRunning(body: string, ps: seq<Span>)
    ensures Running(body, ps, 0, [], None, 0, 0)
  {
    Chunks.NothingChunked(body);
  }

  lemma AfterLong(body: string, ps: seq<Span>, k: nat, chunks: seq<Chunk>, curEnd: nat)
    requires k < |ps| && Done(body, ps, chunks, ps[k].end) && chunks != [] && EndsLong(body, ps, Last(chunks))
    ensures Running(body, ps, k + 1, chunks, None, curEnd, 0)
  {
    hide Done, EndsLong;
  }

  function Flushed(body: string, chunks: seq<Chunk>, curStart: Option<nat>, curEnd: nat): seq<Chunk>
    requires curStart.Some? ==> curStart.value <= curEnd <= |body|
  {
    if curStart.None? then chunks else Emit(body, chunks, curStart.value, curEnd)
  }

  /** Closing the running chunk, if there is one, before paragraph k. */
  lemma FlushBefore(body: string, ps: seq<Span>, k: nat, chunks: seq<Chunk>, curStart: Option<nat>, curEnd: nat,
          curWords: nat)
    requires k < |ps| && WellPlaced(body, ps, 0) && Running(body, ps, k, chunks, curStart, curEnd, curWords)
    ensures curStart.Some? ==> curStart.value <= curEnd <= |body|
    ensures var r := Flushed(body, chunks, curStart, curEnd);
      && Done(body, ps, r, ps[k].start)
      && (forall n: nat :: r != [] && curWords + n > TARGET_WORDS ==> BreakNeeded(body, ps, Last(r), n))
      && (r != [] && curStart.None? ==> forall n: nat :: BreakNeeded(body, ps, Last(r), n))
      && (curStart.Some? <==> 0 < curWords)
  {
    hide Words, AllSpace, AtBoundary, AllWords, WordsOf, WellPlaced, EndsLong, Long, Sequenced, Tight;
    var x := if k == 0 then 0 else ps[k - 1].end;
    if curStart.Some? {
      EmitChunk(body, ps, chunks, curStart.value, curEnd);
      ReachParagraph(body, ps, k, Emit(body, chunks, curStart.value, curEnd), curEnd);
    } else {
      NothingIsSpace(body, x);
      ReachParagraph(body, ps, k, chunks, x);
    }
  }

  lemma Finish(body: string, ps: seq<Span>, chunks: seq<Chunk>, curStart: Option<nat>, curEnd: nat, curWords: nat)
    requires WellPlaced(body, ps, 0) && Running(body, ps, |ps|, chunks, curStart, curEnd, curWords)
    ensures curStart.Some? ==> curStart.value <= curEnd <= |body|
    ensures Done(body, ps, Flushed(body, chunks, curStart, curEnd), |body|)
  {
    hide Done, Words, AllSpace, AllWords, WordsOf, EndsLong, Long, BreakNeeded;
    if curStart.Some? {
      EmitChunk(body, ps, chunks, curStart.value, curEnd);
      Advance(body, ps, Emit(body, chunks, curStart.value, curEnd), curEnd, |body|);
    }
  }

  lemma BlankBody(body: string, ps: seq<Span>)
    requires Blank(body)
    ensures Done(body, ps, [], |body|)
  {
    hide Words, AllWords;
    NothingRunning(body, ps);
    Advance(body, ps, [], 0, |body|);
  }

  /**
   The chunks hold every word of the body once and in order, no chunk is over
   budget, and no two neighbours were split without need.
   */
  method ChunkDocument(body: string) returns (chunks: seq<Chunk>)
    ensures Sequenced(body, chunks)
    ensures AllWords(body, chunks) == Words(body, 0, |body|)
    ensures Tight(body, ParaSpans(body, 0), chunks)
    ensures AsFewAsCanBe(body, chunks)
  {
    hide Words, AllSpace, AtBoundary, AllWords, Sequenced, Tight, WordSpans, EndsLong, ParaSpans, Running, Emit,
         BreakNeeded, AsFewAsCanBe;
    ghost var ps := ParaSpans(body, 0);
    if Blank(body) {
      BlankBody(body, ps);
      TightMeansFew(body, []);
      return [];
    }
    var spans := ParagraphSpans(body);
    ParaSpansWellPlaced(body, 0);
    chunks := [];
    var curStart: Option<nat> := None;
    var curEnd: nat := 0;
    var curWords: nat := 0;
    NothingRunning(body, ps);
    for k := 0 to |spans|
      invariant Running(body, ps, k, chunks, curStart, curEnd, curWords)
    {
      FlushBefore(body, ps, k, chunks, curStart, curEnd, curWords);
      var p := spans[k];
      var words := WordSpans(body, p.start, p.end);
      WordSpansShift(body, p.start, p.end);
      SpaceHasNoWords(body, p.start, p.end);
      if words == [] {
        SkipParagraph(body, ps, k, chunks, curStart, curEnd, curWords);
        continue;
      }
      var n := |words|;
      if n > TARGET_WORDS {
        if curStart.Some? {
          chunks := Emit(body, chunks, curStart.value, curEnd);
          curStart, curWords := None, 0;
        }
        chunks := SplitParagraph(body, ps, k, p, words, chunks);
        AfterLong(body, ps, k, chunks, curEnd);
        continue;
      }
      if curStart.Some? && curWords + n > TARGET_WORDS {
        chunks := Emit(body, chunks, curStart.value, curEnd);
        curStart, curWords := None, 0;
      }
      if curStart.None? {
        StartParagraph(body, ps, k, chunks);
        curStart := Some(p.start);
      } else {
        ExtendParagraph(body, ps, k, chunks, curStart.value, curEnd, curWords);
      }
      curEnd := p.end;
      curWords := curWords + n;
    }
    Finish(body, ps, chunks, curStart, curEnd, curWords);
    if curStart.Some? {
      chunks := Emit(body, chunks, curStart.value, curEnd);
    }
    TightMeansFew(body, chunks);
  }
}
