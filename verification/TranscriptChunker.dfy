/** Chunking of diarized transcripts: whole lines grouped by speaker turn and word budget. */
module TranscriptChunker {
  import opened Options
  import opened Text
  import opened Lines
  import opened Chunks

  /** A non-blank line of the body: its offsets, speaker label and text. */
  datatype Line = Line(start: nat, end: nat, speaker: Option<string>, text: string)

  function WordsIn(l: Line): nat { |Split(l.text)| }

  function Nonblank(body: string, ls: seq<Span>): seq<Line> {
    if ls == [] then []
    else
      var s := ls[|ls| - 1];
      var line := Piece(body, s);
      Nonblank(body, ls[..|ls| - 1])
      + if Blank(line) then [] else [Line(s.start, s.end, SplitLine(line).0, line)]
  }

  function BodyLines(body: string): seq<Line> {
    Nonblank(body, LineSpans(body, 0))
  }

  lemma NonblankOfNone(body: string)
    ensures Nonblank(body, []) == []
  {
  }

  lemma NonblankNext(body: string, ls: seq<Span>, s: Span)
    ensures Nonblank(body, ls + [s]) == Nonblank(body, ls) +
      if Blank(Piece(body, s)) then [] else [Line(s.start, s.end, SplitLine(Piece(body, s)).0, Piece(body, s))]
  {
    assert (ls + [s])[..|ls|] == ls;
  }

  lemma LineAt(body: string, ls: seq<Span>, k: nat)
    requires Lined(body, ls, 0) && k < |ls|
    ensures Texts(body, ls)[k] == Piece(body, ls[k]) && |Piece(body, ls[k])| == ls[k].end - ls[k].start
    ensures ls[k].start <= ls[k].end && (k + 1 < |ls| ==> ls[k + 1].start == ls[k].end + 1)
  {
    TextsAt(body, ls, k);
  }

  method LineRecords(body: string) returns (spans: seq<Line>)
    ensures spans == BodyLines(body)
  {
    hide Blank, SplitLine, LineSpans, Texts, Split, Nonblank;
    spans := [];
    ghost var ls := LineSpans(body, 0);
    LineSpansLined(body, 0);
    var pos := 0;
    var lines := SplitLines(body);
    NonblankOfNone(body);
    for k := 0 to |lines|
      invariant spans == Nonblank(body, ls[..k])
      invariant k < |ls| ==> pos == ls[k].start
    {
      var line := lines[k];
      LineAt(body, ls, k);
      NonblankNext(body, ls[..k], ls[k]);
      hide Lined;
      assert ls[..k + 1] == ls[..k] + [ls[k]];
      var end := pos + |line|;
      if !Blank(line) {
        spans := spans + [Line(pos, end, SplitLine(line).0, line)];
      }
      pos := end + 1;
    }
    assert ls[..|lines|] == ls;
  }

  predicate GoodLine(body: string, l: Line) {
    && l.start <= l.end <= |body| && l.text == body[l.start..l.end]
    && AtBoundary(body, l.start) && AtBoundary(body, l.end)
    && Words(body, l.start, l.end) != []
  }

  /** Only whitespace lies outside the lines, up to x. */
  ghost predicate Placed(body: string, ls: seq<Line>, x: nat) {
    && x <= |body|
    && (forall k :: 0 <= k < |ls| ==> GoodLine(body, ls[k]))
    && (forall j, k :: 0 <= j < k < |ls| && k == j + 1 ==>
          ls[j].end <= ls[k].start && AllSpace(body, ls[j].end, ls[k].start))
    && (ls == [] ==> AllSpace(body, 0, x))
    && (ls != [] ==> AllSpace(body, 0, ls[0].start) && ls[|ls| - 1].end <= x && AllSpace(body, ls[|ls| - 1].end, x))
  }

  lemma PlacedAdvance(body: string, ls: seq<Line>, x: nat, y: nat)
    requires Placed(body, ls, x) && x <= y <= |body| && AllSpace(body, x, y)
    ensures Placed(body, ls, y)
  {
    hide AllSpace, GoodLine;
    if ls == [] { AllSpaceJoin(body, 0, x, y); } else { AllSpaceJoin(body, ls[|ls| - 1].end, x, y); }
  }

  lemma PlacedSnoc(body: string, ls: seq<Line>, l: Line)
    requires l.start <= l.end <= |body| && GoodLine(body, l) && Placed(body, ls, l.start)
      && AllSpace(body, l.end, l.end)
    ensures Placed(body, ls + [l], l.end)
  {
    hide AllSpace, GoodLine;
  }

  lemma LineIsGood(body: string, s: Span)
    requires s.start <= s.end <= |body| && !Blank(body[s.start..s.end])
    requires (s.start == 0 || body[s.start - 1] == '\n') && (s.end == |body| || body[s.end] == '\n')
    ensures GoodLine(body, Line(s.start, s.end, SplitLine(body[s.start..s.end]).0, body[s.start..s.end]))
  {
    hide SplitLine;
    RunsOfSlice(body, s.start, s.end, 0);
    SpaceHasNoWords(body, s.start, s.end);
  }

  lemma BlankLineIsSpace(body: string, s: Span)
    requires s.start <= s.end <= |body| && Blank(body[s.start..s.end])
    ensures AllSpace(body, s.start, s.end)
  {
    RunsOfSlice(body, s.start, s.end, 0);
  }

  lemma {:induction false} NonblankPlaced(body: string, ls: seq<Span>, k: nat)
    requires Lined(body, ls, 0) && k <= |ls|
    ensures Placed(body, Nonblank(body, ls[..k]), if k == 0 then 0 else ls[k - 1].end)
    decreases k
  {
    hide GoodLine, SplitLine, Placed, Blank;
    if k == 0 {
      NothingPlaced(body);
    } else {
      NonblankPlaced(body, ls, k - 1);
      var s := ls[k - 1];
      var before := Nonblank(body, ls[..k - 1]);
      assert ls[..k][..k - 1] == ls[..k - 1] && Piece(body, s) == body[s.start..s.end];
      assert k < |ls| ==> ls[k].start == s.end + 1;
      if k > 1 {
        var j := k - 2;
        assert ls[k - 1].start == ls[j].end + 1;
        NewlineIsSpace(body, ls[j].end);
        PlacedAdvance(body, before, ls[j].end, s.start);
      }
      if Blank(body[s.start..s.end]) {
        BlankLineIsSpace(body, s);
        PlacedAdvance(body, before, s.start, s.end);
        assert Nonblank(body, ls[..k]) == before;
      } else {
        LineIsGood(body, s);
        PlacedSnoc(body, before, Line(s.start, s.end, SplitLine(body[s.start..s.end]).0, body[s.start..s.end]));
      }
    }
  }

  lemma NothingPlaced(body: string)
    ensures Placed(body, [], 0)
  {
  }

  lemma NewlineIsSpace(t: string, i: nat)
    requires i < |t| && t[i] == '\n'
    ensures AllSpace(t, i, i + 1)
  {
  }

  /** The first speaker label among lines lo..hi. */
  function FirstLabel(ls: seq<Line>, lo: nat, hi: nat): Option<string>
    requires lo <= hi <= |ls|
  {
    if lo == hi then None
    else
      var f := FirstLabel(ls, lo, hi - 1);
      if f.Some? then f else ls[hi - 1].speaker
  }

  function Count(ls: seq<Line>, lo: nat, hi: nat): nat
    requires lo <= hi <= |ls|
  {
    if lo == hi then 0 else Count(ls, lo, hi - 1) + WordsIn(ls[hi - 1])
  }

  /** Line i cannot join the lines a..i: a substantial turn by someone else, or no room. */
  predicate MustCut(ls: seq<Line>, a: nat, i: nat)
    requires a < i < |ls|
  {
    || (ls[i].speaker != FirstLabel(ls, a, i) && WordsIn(ls[i]) >= MIN_TURN_WORDS)
    || Count(ls, a, i) + WordsIn(ls[i]) > TARGET_WORDS
  }

  /** Chunk c is lines a..b, all of which belong together. */
  ghost predicate IsGroup(ls: seq<Line>, c: Chunk, a: nat, b: nat) {
    && a < b <= |ls|
    && c.charStart == ls[a].start && c.charEnd == ls[b - 1].end && c.speakerLabel == FirstLabel(ls, a, b)
    && forall i :: a < i < b ==> !MustCut(ls, a, i)
  }

  /** The chunks are the groups between consecutive cuts of the first n lines, each cut a necessary one. */
  ghost predicate Grouped(ls: seq<Line>, chunks: seq<Chunk>, cuts: seq<nat>, n: nat) {
    && |cuts| == |chunks| + 1 && cuts[0] == 0 && cuts[|chunks|] == n <= |ls|
    && (forall c :: 0 <= c < |chunks| ==> IsGroup(ls, chunks[c], cuts[c], cuts[c + 1]))
    && (forall c :: 1 <= c < |chunks| ==> cuts[c - 1] < cuts[c] < |ls| && MustCut(ls, cuts[c - 1], cuts[c]))
  }

  lemma {:induction false} FirstLabelStays(ls: seq<Line>, a: nat, m: nat, b: nat)
    requires a <= m <= b <= |ls| && FirstLabel(ls, a, m).Some?
    ensures FirstLabel(ls, a, b) == FirstLabel(ls, a, m)
    decreases b
  {
    if m < b { FirstLabelStays(ls, a, m, b - 1); }
  }

  /** A labelled line of MIN_TURN_WORDS words or more names the speaker of its whole group. */
  lemma TurnNamesGroup(ls: seq<Line>, c: Chunk, a: nat, b: nat, i: nat)
    requires IsGroup(ls, c, a, b) && a <= i < b
    requires ls[i].speaker.Some? && WordsIn(ls[i]) >= MIN_TURN_WORDS
    ensures c.speakerLabel == ls[i].speaker
  {
    hide WordsIn, Count;
    if i == a {
      FirstLabelStays(ls, a, a + 1, b);
    } else {
      assert !MustCut(ls, a, i);
      FirstLabelStays(ls, a, i, b);
    }
  }

  lemma GroupFitsBudget(ls: seq<Line>, c: Chunk, a: nat, b: nat)
    requires IsGroup(ls, c, a, b)
    ensures Count(ls, a, b) <= TARGET_WORDS || b == a + 1
  {
    if a + 1 < b { assert !MustCut(ls, a, b - 1); }
  }

  lemma {:induction false} GroupWords(body: string, ls: seq<Line>, x: nat, a: nat, b: nat)
    requires Placed(body, ls, x) && a < b <= |ls|
    ensures ls[a].start <= ls[b - 1].end <= |body|
    ensures Count(ls, a, b) == |Words(body, ls[a].start, ls[b - 1].end)| > 0
    decreases b
  {
    hide Words, AllSpace, Split, AtBoundary;
    var l := ls[b - 1];
    assert GoodLine(body, l);
    TextsOfSlice(body, l.start, l.end);
    if a + 1 < b {
      var j, k := b - 2, b - 1;
      GroupWords(body, ls, x, a, b - 1);
      assert ls[j].end <= ls[k].start && AllSpace(body, ls[j].end, ls[k].start);
      assert GoodLine(body, ls[j]);
      WordsCut(body, ls[a].start, ls[j].end, l.end);
      WordsCut(body, ls[j].end, l.start, l.end);
      SpaceHasNoWords(body, ls[j].end, l.start);
    } else {
      assert Count(ls, a, a) == 0;
    }
  }

  function Flush(body: string, chunks: seq<Chunk>, curStart: Option<nat>, curLabel: Option<string>,
          curEnd: nat): seq<Chunk>
    requires curStart.Some? ==> curStart.value <= curEnd <= |body|
  {
    if curStart.None? then chunks
    else chunks + [Chunk(|chunks|, curLabel, body[curStart.value..curEnd], curStart.value, curEnd)]
  }

  /** Everything the loop keeps after i lines; a is the first line of the running group. */
  ghost predicate Running(body: string, ls: seq<Line>, i: nat, chunks: seq<Chunk>, cuts: seq<nat>,
                          curStart: Option<nat>, curEnd: nat, curLabel: Option<string>, curWords: nat)
  {
    && cuts != [] && var a := Last(cuts);
    && a <= i <= |ls| && Grouped(ls, chunks, cuts, a)
    && if i == 0 then curStart.None? && curWords == 0 && chunks == []
       else
         && a < i && curStart == Some(ls[a].start) && curEnd == ls[i - 1].end
         && curLabel == FirstLabel(ls, a, i) && curWords == Count(ls, a, i)
         && (forall m :: a < m < i ==> !MustCut(ls, a, m))
         && (chunks != [] ==> cuts[|chunks| - 1] < a && MustCut(ls, cuts[|chunks| - 1], a))
         && Chunked(body, chunks, ls[a].start)
  }

  /** Closing the running group after i lines. */
  lemma CloseGroup(body: string, ls: seq<Line>, i: nat, chunks: seq<Chunk>, cuts: seq<nat>,
                   curStart: Option<nat>, curEnd: nat, curLabel: Option<string>, curWords: nat)
    requires Placed(body, ls, |body|) && 0 < i
    requires Running(body, ls, i, chunks, cuts, curStart, curEnd, curLabel, curWords)
    ensures curStart.Some? && curStart.value <= curEnd <= |body| && 0 < curWords
    ensures |cuts| == |chunks| + 1 && (i < |ls| ==> Last(cuts) < i)
    ensures var r := Flush(body, chunks, curStart, curLabel, curEnd);
      |r| == |chunks| + 1 && Grouped(ls, r, cuts + [i], i) && Chunked(body, r, curEnd)
  {
    hide Chunked, Placed, MustCut, FirstLabel, Count, Words, AtBoundary;
    var a := Last(cuts);
    GroupWords(body, ls, |body|, a, i);
    GoodAt(body, ls, a);
    GoodAt(body, ls, i - 1);
    var c := Chunk(|chunks|, curLabel, body[curStart.value..curEnd], curStart.value, curEnd);
    ChunkedAppend(body, chunks, c);
    GroupedSnoc(ls, chunks, cuts, a, c, i);
  }

  lemma GoodAt(body: string, ls: seq<Line>, k: nat)
    requires Placed(body, ls, |body|) && k < |ls|
    ensures GoodLine(body, ls[k])
  {
  }

  lemma GroupedSnoc(ls: seq<Line>, chunks: seq<Chunk>, cuts: seq<nat>, a: nat, c: Chunk, i: nat)
    requires Grouped(ls, chunks, cuts, a) && IsGroup(ls, c, a, i)
    requires chunks != [] ==> cuts[|chunks| - 1] < a && MustCut(ls, cuts[|chunks| - 1], a)
    ensures Grouped(ls, chunks + [c], cuts + [i], i)
  {
    hide MustCut;
    var chunks', cuts' := chunks + [c], cuts + [i];
    forall k | 0 <= k < |chunks'| ensures IsGroup(ls, chunks'[k], cuts'[k], cuts'[k + 1]) {
      if k < |chunks| { assert IsGroup(ls, chunks[k], cuts[k], cuts[k + 1]); }
    }
  }

  /** The gap between two consecutive lines is whitespace. */
  lemma NextLine(body: string, ls: seq<Line>, chunks: seq<Chunk>, i: nat)
    requires Placed(body, ls, |body|) && i <= |ls|
    requires Chunked(body, chunks, if i == 0 then 0 else ls[i - 1].end)
    ensures Chunked(body, chunks, if i < |ls| then ls[i].start else |body|)
  {
    hide Chunked, AllSpace, Words;
    var x := if i == 0 then 0 else ls[i - 1].end;
    var y := if i < |ls| then ls[i].start else |body|;
    if 0 < i < |ls| {
      var j := i - 1;
      assert ls[j].end <= ls[i].start && AllSpace(body, ls[j].end, ls[i].start);
    }
    if i < |ls| { GoodAt(body, ls, i); }
    ChunkedAdvance(body, chunks, x, y);
  }

  /** Line i opens a group. */
  lemma OpenGroup(body: string, ls: seq<Line>, i: nat, chunks: seq<Chunk>, cuts: seq<nat>)
    requires i < |ls| && Grouped(ls, chunks, cuts, i) && (i == 0 ==> chunks == [])
    requires chunks != [] ==> cuts[|chunks| - 1] < i && MustCut(ls, cuts[|chunks| - 1], i)
    requires Chunked(body, chunks, ls[i].start)
    ensures Running(body, ls, i + 1, chunks, cuts, Some(ls[i].start), ls[i].end, ls[i].speaker, WordsIn(ls[i]))
  {
    hide Chunked, MustCut, IsGroup;
    assert FirstLabel(ls, i, i) == None && Count(ls, i, i) == 0;
  }

  /** Line i joins the running group. */
  lemma JoinGroup(body: string, ls: seq<Line>, i: nat, chunks: seq<Chunk>, cuts: seq<nat>,
                  curStart: Option<nat>, curEnd: nat, curLabel: Option<string>, curWords: nat)
    requires 0 < i < |ls| && Running(body, ls, i, chunks, cuts, curStart, curEnd, curLabel, curWords)
    requires !(ls[i].speaker != curLabel && WordsIn(ls[i]) >= MIN_TURN_WORDS)
    requires curWords + WordsIn(ls[i]) <= TARGET_WORDS
    ensures Running(body, ls, i + 1, chunks, cuts, curStart, ls[i].end,
                    if ls[i].speaker.Some? && curLabel.None? then ls[i].speaker else curLabel,
                    curWords + WordsIn(ls[i]))
  {
    hide Chunked, Grouped;
  }

  ghost predicate IsLine(ls: seq<Line>, c: Chunk) {
    exists k :: 0 <= k < |ls| && c.charStart == ls[k].start && c.charEnd == ls[k].end
  }

  /** The running chunk holds line l and is attributed to its speaker. */
  ghost predicate SpeaksFor(chunks: seq<Chunk>, l: Line) {
    exists k :: 0 <= k < |chunks|
      && chunks[k].charStart <= l.start && l.end <= chunks[k].charEnd && chunks[k].speakerLabel == l.speaker
  }

  lemma GroupsFitBudget(body: string, ls: seq<Line>, chunks: seq<Chunk>, cuts: seq<nat>, k: nat)
    requires Placed(body, ls, |body|) && Grouped(ls, chunks, cuts, |ls|) && k < |chunks|
    ensures |WordsOf(body, chunks[k])| <= TARGET_WORDS || IsLine(ls, chunks[k])
  {
    hide MustCut, Words, Placed, Count;
    GroupFitsBudget(ls, chunks[k], cuts[k], cuts[k + 1]);
    GroupWords(body, ls, |body|, cuts[k], cuts[k + 1]);
  }

  lemma {:induction false} LinesInOrder(body: string, ls: seq<Line>, i: nat, j: nat)
    requires Placed(body, ls, |body|) && i <= j < |ls|
    ensures ls[i].start <= ls[j].start && ls[i].end <= ls[j].end
    decreases j
  {
    hide AllSpace;
    if i < j {
      var h := j - 1;
      LinesInOrder(body, ls, i, h);
      GoodAt(body, ls, h);
      GoodAt(body, ls, j);
      assert ls[h].end <= ls[j].start;
    }
  }

  lemma GroupedPrefix(ls: seq<Line>, chunks: seq<Chunk>, cuts: seq<nat>, n: nat)
    requires Grouped(ls, chunks, cuts, n) && 0 < n
    ensures |cuts| == |chunks| + 1 >= 2 && n <= |ls|
    ensures var m := |chunks| - 1;
      IsGroup(ls, chunks[m], cuts[m], n) && Grouped(ls, chunks[..m], cuts[..m + 1], cuts[m])
  {
    hide MustCut, FirstLabel, Count;
  }

  lemma {:induction false} TurnsAreNamed(body: string, ls: seq<Line>, chunks: seq<Chunk>, cuts: seq<nat>, n: nat,
          i: nat)
    requires Placed(body, ls, |body|) && Grouped(ls, chunks, cuts, n) && i < n
    requires ls[i].speaker.Some? && WordsIn(ls[i]) >= MIN_TURN_WORDS
    ensures SpeaksFor(chunks, ls[i])
    decreases |chunks|
  {
    hide MustCut, WordsIn, Placed, Grouped, FirstLabel, Count;
    GroupedPrefix(ls, chunks, cuts, n);
    var m := |chunks| - 1;
    var a := cuts[m];
    if i >= a {
      TurnNamesGroup(ls, chunks[m], a, n, i);
      LinesInOrder(body, ls, a, i);
      LinesInOrder(body, ls, i, n - 1);
    } else {
      var earlier := chunks[..m];
      TurnsAreNamed(body, ls, earlier, cuts[..m + 1], a, i);
      var k :| 0 <= k < |earlier| && earlier[k].charStart <= ls[i].start && ls[i].end <= earlier[k].charEnd
        && earlier[k].speakerLabel == ls[i].speaker;
      assert chunks[k] == earlier[k];
    }
  }

  lemma LinesPlaced(body: string)
    ensures Placed(body, BodyLines(body), |body|)
  {
    hide Placed, Nonblank;
    var spans := LineSpans(body, 0);
    LineSpansLined(body, 0);
    NonblankPlaced(body, spans, |spans|);
    assert spans[..|spans|] == spans;
  }

  lemma NothingGrouped(body: string, ls: seq<Line>)
    ensures Running(body, ls, 0, [], [0], None, 0, None, 0) && Chunked(body, [], 0)
    ensures Grouped(ls, [], [0], 0)
  {
  }

  lemma CutHere(ls: seq<Line>, a: nat, i: nat, curLabel: Option<string>, curWords: nat)
    requires a < i < |ls| && curLabel == FirstLabel(ls, a, i) && curWords == Count(ls, a, i)
    ensures MustCut(ls, a, i) <==>
      (ls[i].speaker != curLabel && WordsIn(ls[i]) >= MIN_TURN_WORDS) || curWords + WordsIn(ls[i]) > TARGET_WORDS
  {
  }

  lemma BlankTranscript(body: string)
    requires Blank(body)
    ensures BodyLines(body) == [] && Sequenced(body, []) && AllWords(body, []) == Words(body, 0, |body|)
    ensures Grouped(BodyLines(body), [], [0], 0) && CutsCalledFor(body, BodyLines(body), [])
  {
    hide Words, AllSpace, BodyLines, Placed, AtBoundary;
    LinesPlaced(body);
    NoWordsInside(body, 0, |body|);
    var ls := BodyLines(body);
    if ls != [] {
      GoodAt(body, ls, 0);
      NoWordsInside(body, ls[0].start, ls[0].end);
    }
  }

  lemma NoWordsInside(body: string, lo: nat, hi: nat)
    requires lo <= hi <= |body| && Blank(body)
    ensures Words(body, lo, hi) == []
  {
    SkipSpaceVia(body, 0, lo, |body|);
    SkipSpaceVia(body, lo, hi, |body|);
    SpaceHasNoWords(body, lo, hi);
  }

  /** Each chunk but the first starts with a line that is 25 words or more by someone else, or would be too much. */
  ghost predicate CutsCalledFor(body: string, ls: seq<Line>, chunks: seq<Chunk>) {
    forall k :: 1 <= k < |chunks| ==> CutCalledFor(body, ls, chunks[k - 1], chunks[k])
  }

  ghost predicate CutCalledFor(body: string, ls: seq<Line>, before: Chunk, c: Chunk) {
    exists i :: 0 <= i < |ls| && CallsForCut(body, ls[i], before, c)
  }

  predicate CallsForCut(body: string, l: Line, before: Chunk, c: Chunk) {
    && l.start == c.charStart
    && (|| (|Split(l.text)| >= 25 && l.speaker != before.speakerLabel)
        || |WordsOf(body, before)| + |Split(l.text)| > 350)
  }

  lemma CutsAreCalledFor(body: string, ls: seq<Line>, chunks: seq<Chunk>, cuts: seq<nat>)
    requires Placed(body, ls, |body|) && Grouped(ls, chunks, cuts, |ls|)
    ensures CutsCalledFor(body, ls, chunks)
  {
    hide Words, Placed, Count, Split, FirstLabel;
    forall k | 1 <= k < |chunks|
      ensures CutCalledFor(body, ls, chunks[k - 1], chunks[k])
    {
      assert MustCut(ls, cuts[k - 1], cuts[k]);
      assert IsGroup(ls, chunks[k - 1], cuts[k - 1], cuts[k - 1 + 1]) && IsGroup(ls, chunks[k], cuts[k], cuts[k + 1]);
      GroupWords(body, ls, |body|, cuts[k - 1], cuts[k]);
      assert CallsForCut(body, ls[cuts[k]], chunks[k - 1], chunks[k]);
    }
  }

  lemma Conclude(body: string, ls: seq<Line>, chunks: seq<Chunk>, cuts: seq<nat>)
    requires Placed(body, ls, |body|) && Grouped(ls, chunks, cuts, |ls|) && Chunked(body, chunks, |body|)
    ensures Sequenced(body, chunks) && AllWords(body, chunks) == Words(body, 0, |body|)
    ensures forall k :: 0 <= k < |chunks| ==> |WordsOf(body, chunks[k])| <= TARGET_WORDS || IsLine(ls, chunks[k])
    ensures forall i :: 0 <= i < |ls| && ls[i].speaker.Some? && WordsIn(ls[i]) >= MIN_TURN_WORDS ==>
      SpeaksFor(chunks, ls[i])
    ensures CutsCalledFor(body, ls, chunks)
  {
    hide Placed, Grouped, Words, AllWords, Sequenced, WordsOf, IsLine, SpeaksFor, WordsIn, CutsCalledFor;
    CutsAreCalledFor(body, ls, chunks, cuts);
    forall k | 0 <= k < |chunks| ensures |WordsOf(body, chunks[k])| <= TARGET_WORDS || IsLine(ls, chunks[k]) {
      GroupsFitBudget(body, ls, chunks, cuts, k);
    }
    forall i | 0 <= i < |ls| && ls[i].speaker.Some? && WordsIn(ls[i]) >= MIN_TURN_WORDS
      ensures SpeaksFor(chunks, ls[i])
    {
      TurnsAreNamed(body, ls, chunks, cuts, |ls|, i);
    }
  }

  /**
   The chunks hold every word of the transcript once and in order; they are
   groups of whole lines, cut exactly where a line could not join its group; only
   a single line can be over budget; and every substantial labelled turn is
   attributed to its speaker.
   */
  method ChunkTranscript(body: string) returns (chunks: seq<Chunk>)
    ensures Sequenced(body, chunks)
    ensures AllWords(body, chunks) == Words(body, 0, |body|)
    ensures exists cuts: seq<nat> :: Grouped(BodyLines(body), chunks, cuts, |BodyLines(body)|)
    ensures forall k :: 0 <= k < |chunks| ==>
      |WordsOf(body, chunks[k])| <= TARGET_WORDS || IsLine(BodyLines(body), chunks[k])
    ensures forall i | 0 <= i < |BodyLines(body)| ::
      BodyLines(body)[i].speaker.Some? && WordsIn(BodyLines(body)[i]) >= MIN_TURN_WORDS ==>
        SpeaksFor(chunks, BodyLines(body)[i])
    ensures CutsCalledFor(body, BodyLines(body), chunks)
  {
    hide Words, AllWords, Sequenced, Chunked, Placed, IsLine, SpeaksFor, WordsOf, Grouped, MustCut, FirstLabel, Count,
         WordsIn, Blank, BodyLines, Flush, CutsCalledFor;
    ghost var ls := BodyLines(body);
    LinesPlaced(body);
    if Blank(body) {
      BlankTranscript(body);
      return [];
    }
    var spans := LineRecords(body);
    chunks := [];
    var curStart: Option<nat> := None;
    var curEnd: nat := 0;
    var curLabel: Option<string> := None;
    var curWords: nat := 0;
    ghost var cuts: seq<nat> := [0];
    NothingGrouped(body, ls);
    for i := 0 to |spans|
      invariant Running(body, ls, i, chunks, cuts, curStart, curEnd, curLabel, curWords)
    {
      var l := spans[i];
      var words := WordsIn(l);
      var speakerChanged := curStart.Some? && l.speaker != curLabel && words >= MIN_TURN_WORDS;
      var overBudget := curWords + words > TARGET_WORDS && curWords > 0;
      if i > 0 {
        CloseGroup(body, ls, i, chunks, cuts, curStart, curEnd, curLabel, curWords);
        NextLine(body, ls, Flush(body, chunks, curStart, curLabel, curEnd), i);
        CutHere(ls, Last(cuts), i, curLabel, curWords);
      } else {
        NextLine(body, ls, chunks, 0);
      }
      if speakerChanged || overBudget {
        chunks := Flush(body, chunks, curStart, curLabel, curEnd);
        cuts := cuts + [i];
        curStart, curWords := None, 0;
      }
      if curStart.None? {
        OpenGroup(body, ls, i, chunks, cuts);
        curStart := Some(l.start);
        curLabel := l.speaker;
      } else {
        JoinGroup(body, ls, i, chunks, cuts, curStart, curEnd, curLabel, curWords);
        if l.speaker.Some? && curLabel.None? {
          curLabel := l.speaker;
        }
      }
      curEnd := l.end;
      curWords := curWords + words;
    }
    if spans != [] {
      CloseGroup(body, ls, |spans|, chunks, cuts, curStart, curEnd, curLabel, curWords);
    }
    if curStart.Some? {
      chunks := Flush(body, chunks, curStart, curLabel, curEnd);
      cuts := cuts + [|spans|];
    }
    NextLine(body, ls, chunks, |ls|);
    Conclude(body, ls, chunks, cuts);
  }
}
