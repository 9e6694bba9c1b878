/**
 A transcript of three turns, what the chunker makes of it, and a quote that can
 be located in the evidence of its first and third chunk and nowhere in it.
 */
module Straddling {
  import opened Options
  import opened Text
  import opened Lines
  import opened Grounding
  import opened Chunks
  import opened TranscriptChunker
  import opened Evidence
  import Diarization

  /** A turn of a substantial labelled line each, no two neighbours by the same speaker. */
  ghost predicate Turns(ls: seq<Line>) {
    && (forall k :: 0 <= k < |ls| ==> ls[k].speaker.Some? && WordsIn(ls[k]) >= MIN_TURN_WORDS)
    && (forall j, k :: 0 <= j < k < |ls| && k == j + 1 ==> ls[j].speaker != ls[k].speaker)
  }

  lemma NeighbourMustCut(ls: seq<Line>, k: nat)
    requires Turns(ls) && k + 1 < |ls|
    ensures MustCut(ls, k, k + 1)
  {
    hide WordsIn;
    assert FirstLabel(ls, k, k) == None;
    assert FirstLabel(ls, k, k + 1) == ls[k].speaker;
  }

  /** Then the chunker makes each line a chunk of its own. */
  lemma {:induction false} EachTurnIsAChunk(ls: seq<Line>, chunks: seq<Chunk>, cuts: seq<nat>, n: nat)
    requires Turns(ls) && Grouped(ls, chunks, cuts, |ls|) && n <= |chunks|
    ensures cuts[n] == n
    ensures forall k :: 0 <= k < n ==> k < |ls| && chunks[k].charStart == ls[k].start && chunks[k].charEnd == ls[k].end
    decreases n
  {
    if n > 0 {
      EachTurnIsAChunk(ls, chunks, cuts, n - 1);
      assert IsGroup(ls, chunks[n - 1], n - 1, cuts[n]);
      hide MustCut, Turns;
      if n < |ls| { NeighbourMustCut(ls, n - 1); }
    }
  }

  // The transcript.

  function Rep(word: string, n: nat): (r: seq<string>)
    ensures |r| == n && forall k :: 0 <= k < n ==> r[k] == word
  {
    seq(n, _ => word)
  }

  function Turn(speaker: string, words: seq<string>): string {
    speaker + ": " + Join(" ", words)
  }

  const WORDS_A := Rep("a", 24) + ["x"]
  const WORDS_B := Rep("b", 25)
  const WORDS_C := Rep("c", 25)
  const LINE_A := Turn("Speaker A", WORDS_A)
  const LINE_B := Turn("Speaker B", WORDS_B)
  const LINE_C := Turn("Speaker C", WORDS_C)
  const BODY := Join("\n", [LINE_A, LINE_B, LINE_C])
  const QUOTE_WORDS := ["x", "Speaker", "C:"]
  const QUOTE := Join(" ", QUOTE_WORDS)

  /** What any lower-casing does with the words of the transcript. */
  ghost predicate TellsApart(lower: Lowering) {
    && lower("B:") != lower("C:")
    && forall w :: w in ["a", "b", "c", "Speaker", "A:", "B:", "C:"] ==> lower(w) != lower("x")
  }

  lemma {:induction false} WordEndAtEnd(w: string, i: nat)
    requires i <= |w| && forall k :: 0 <= k < |w| ==> !IsSpace(w[k])
    ensures WordEnd(w, i, |w|) == |w|
    decreases |w| - i
  {
    hide IsSpace;
    if i < |w| { WordEndAtEnd(w, i + 1); }
  }

  lemma OneWord(w: string)
    requires w != "" && forall k :: 0 <= k < |w| ==> !IsSpace(w[k])
    ensures Split(w) == [w]
  {
    hide IsSpace;
    WordEndAtEnd(w, 0);
    assert SkipSpace(w, 0, |w|) == 0;
    assert Words(w, |w|, |w|) == [];
    assert w[0..|w|] == w;
    assert Texts(w, [Span(0, |w|)]) == [w];
  }

  lemma {:induction false} WordsAlone(ws: seq<string>)
    requires forall k :: 0 <= k < |ws| ==> Split(ws[k]) == [ws[k]]
    ensures WordsOfAll(ws) == ws
  {
    hide Split;
    if ws != [] { WordsAlone(ws[1..]); }
  }

  /** The words of a turn: "Speaker", the name and the words said. */
  lemma TurnWords(name: char, words: seq<string>)
    requires !IsSpace(name) && forall k :: 0 <= k < |words| ==> Split(words[k]) == [words[k]]
    ensures Split(Turn("Speaker " + [name], words)) == ["Speaker", [name, ':']] + words
  {
    hide IsSpace, Split, Spacing;
    NoWords();
    SpeakerWords(name);
    SplitOfJoin(" ", words);
    WordsAlone(words);
    SplitAcross("Speaker " + [name, ':'], " ", Join(" ", words));
    assert Turn("Speaker " + [name], words) == ("Speaker " + [name, ':']) + " " + Join(" ", words);
  }

  lemma SpeakerWords(name: char)
    requires !IsSpace(name)
    ensures Split("Speaker " + [name, ':']) == ["Speaker", [name, ':']]
  {
    LettersAreNoSpace();
    hide IsSpace, Split, Spacing;
    OneWord("Speaker");
    OneWord([name, ':']);
    NoWords();
    SplitAcross("Speaker", " ", [name, ':']);
    assert "Speaker " + [name, ':'] == "Speaker" + " " + [name, ':'];
  }

  lemma LettersAreNoSpace()
    ensures forall k :: 0 <= k < |"Speaker"| ==> !IsSpace("Speaker"[k])
    ensures !IsSpace(':') && forall c :: c in "abcxABC" ==> !IsSpace(c)
  {
  }

  const ALL_A := ["Speaker", "A:"] + WORDS_A
  const ALL_B := ["Speaker", "B:"] + WORDS_B
  const ALL_C := ["Speaker", "C:"] + WORDS_C

  lemma LettersAlone()
    ensures forall w :: w in ["a", "b", "c", "x"] ==> Split(w) == [w]
  {
    LettersAreNoSpace();
    hide IsSpace, Split;
    OneWord("a");
    OneWord("b");
    OneWord("c");
    OneWord("x");
  }

  lemma LineWords()
    ensures Split(LINE_A) == ALL_A && Split(LINE_B) == ALL_B && Split(LINE_C) == ALL_C
    ensures |ALL_A| == |ALL_B| == |ALL_C| == 27
  {
    LettersAreNoSpace();
    LettersAlone();
    hide IsSpace, Split, Turn;
    TurnWords('A', WORDS_A);
    TurnWords('B', WORDS_B);
    TurnWords('C', WORDS_C);
    assert "Speaker " + ['A'] == "Speaker A" && "Speaker " + ['B'] == "Speaker B" && "Speaker " + ['C'] == "Speaker C";
    assert ['A', ':'] == "A:" && ['B', ':'] == "B:" && ['C', ':'] == "C:";
  }

  lemma Labels(speaker: string, words: seq<string>)
    requires ':' !in speaker && StartsWith(speaker, "Speaker ") && |speaker| <= MAX_LABEL
    ensures SplitLine(Turn(speaker, words)).0 == Some(speaker)
  {
    hide SplitLine, Join;
    Diarization.SplitRendered(speaker, Join(" ", words));
  }

  lemma NoNewlineInTurn(speaker: string, words: seq<string>)
    requires '\n' !in speaker && forall k :: 0 <= k < |words| ==> '\n' !in words[k]
    ensures '\n' !in Turn(speaker, words)
  {
    JoinHas(" ", words, '\n');
    hide Join;
    assert forall p :: p in words ==> '\n' !in p;
  }

  lemma BodyInLines()
    ensures SplitLines(BODY) == [LINE_A, LINE_B, LINE_C]
    ensures SplitLine(LINE_A).0 == Some("Speaker A") && SplitLine(LINE_B).0 == Some("Speaker B")
      && SplitLine(LINE_C).0 == Some("Speaker C")
  {
    hide SplitLine, SplitLines, Join, Turn;
    Labels("Speaker A", WORDS_A);
    Labels("Speaker B", WORDS_B);
    Labels("Speaker C", WORDS_C);
    NoNewlineInTurn("Speaker A", WORDS_A);
    NoNewlineInTurn("Speaker B", WORDS_B);
    NoNewlineInTurn("Speaker C", WORDS_C);
    SplitJoin([LINE_A, LINE_B, LINE_C]);
  }

  lemma HasWordsIsNotBlank(t: string)
    requires Split(t) != []
    ensures !Blank(t)
  {
    SpaceHasNoWords(t, 0, |t|);
  }

  function Record(line: string, s: Span): Line {
    Line(s.start, s.end, SplitLine(line).0, line)
  }

  lemma ThreeRecords(body: string, a: string, b: string, c: string)
    requires SplitLines(body) == [a, b, c] && !Blank(a) && !Blank(b) && !Blank(c)
    ensures var spans := LineSpans(body, 0);
      |spans| == 3 && BodyLines(body) == [Record(a, spans[0]), Record(b, spans[1]), Record(c, spans[2])]
  {
    var spans := LineSpans(body, 0);
    assert SplitLines(body) == Texts(body, spans);
    hide SplitLine, SplitLines, Texts, Blank, LineSpans, Nonblank, Piece;
    assert |spans| == 3;
    TextsAt(body, spans, 0);
    TextsAt(body, spans, 1);
    TextsAt(body, spans, 2);
    NonblankOfNone(body);
    NonblankNext(body, [], spans[0]);
    NonblankNext(body, [] + [spans[0]], spans[1]);
    NonblankNext(body, [] + [spans[0]] + [spans[1]], spans[2]);
    assert [] + [spans[0]] + [spans[1]] + [spans[2]] == spans;
  }

  lemma ThreeTurns(ls: seq<Line>)
    requires |ls| == 3 && forall k :: 0 <= k < 3 ==> |Split(ls[k].text)| >= MIN_TURN_WORDS
    requires ls[0].speaker == Some("Speaker A") && ls[1].speaker == Some("Speaker B")
      && ls[2].speaker == Some("Speaker C")
    ensures Turns(ls)
  {
    assert "Speaker A"[8] != "Speaker B"[8] && "Speaker B"[8] != "Speaker C"[8];
    hide Split;
  }

  /** The chunker's line records of the transcript. */
  lemma BodyTurns()
    ensures var ls := BodyLines(BODY);
      |ls| == 3 && ls[0].text == LINE_A && ls[1].text == LINE_B && ls[2].text == LINE_C
    ensures Turns(BodyLines(BODY))
  {
    BodyInLines();
    LineWords();
    hide SplitLine, SplitLines, Blank, LineSpans, Join, Turn, Split, BodyLines, Turns;
    HasWordsIsNotBlank(LINE_A);
    HasWordsIsNotBlank(LINE_B);
    HasWordsIsNotBlank(LINE_C);
    ThreeRecords(BODY, LINE_A, LINE_B, LINE_C);
    ThreeTurns(BodyLines(BODY));
  }

  /** Every chunk the chunker may return for the transcript is one of its lines. */
  lemma ChunksAreLines(chunks: seq<Chunk>, cuts: seq<nat>)
    requires Sequenced(BODY, chunks) && Grouped(BodyLines(BODY), chunks, cuts, |BodyLines(BODY)|)
    ensures |chunks| == 3 && chunks[0].text == LINE_A && chunks[1].text == LINE_B && chunks[2].text == LINE_C
  {
    var ls := BodyLines(BODY);
    BodyTurns();
    LinesPlaced(BODY);
    assert forall k :: 0 <= k < |ls| ==> ls[k].text == BODY[ls[k].start..ls[k].end] by { PlacedTexts(BODY, ls); }
    assert forall k :: 0 <= k < |chunks| ==> chunks[k].text == BODY[chunks[k].charStart..chunks[k].charEnd] by {
      SequencedTexts(BODY, chunks);
    }
    EachTurnIsAChunk(ls, chunks, cuts, |chunks|);
    assert cuts[|chunks|] == 3;
  }

  lemma PlacedTexts(body: string, ls: seq<Line>)
    requires Placed(body, ls, |body|)
    ensures forall k :: 0 <= k < |ls| ==>
      ls[k].start <= ls[k].end <= |body| && ls[k].text == body[ls[k].start..ls[k].end]
  {
    hide AllSpace, Words, AtBoundary;
    assert forall k :: 0 <= k < |ls| ==> GoodLine(body, ls[k]);
  }

  lemma SequencedTexts(body: string, chunks: seq<Chunk>)
    requires Sequenced(body, chunks)
    ensures forall k :: 0 <= k < |chunks| ==>
      chunks[k].charStart <= chunks[k].charEnd <= |body|
        && chunks[k].text == body[chunks[k].charStart..chunks[k].charEnd]
  {
    hide Words, AtBoundary;
    assert forall k :: 0 <= k < |chunks| ==> Verbatim(body, chunks[k]);
  }

  // The quote.

  lemma QuoteWords()
    ensures Split(QUOTE) == QUOTE_WORDS && !Blank(QUOTE)
  {
    LettersAlone();
    LettersAreNoSpace();
    NoWords();
    hide Split, Spacing, IsSpace, Blank;
    OneWord("Speaker");
    OneWord("C:");
    SplitOfJoin(" ", QUOTE_WORDS);
    WordsAlone(QUOTE_WORDS);
    HasWordsIsNotBlank(QUOTE);
  }

  lemma TwoParts(a: string, b: string)
    ensures WordsOfAll([a, b]) == Split(a) + Split(b)
  {
    hide Split;
    assert [a, b][1..] == [b] && [b][1..] == [];
    assert WordsOfAll([b][1..]) == [];
  }

  lemma ThreeParts(a: string, b: string, c: string)
    ensures WordsOfAll([a, b, c]) == Split(a) + (Split(b) + Split(c))
  {
    hide Split;
    TwoParts(b, c);
    assert [a, b, c][1..] == [b, c];
  }

  lemma BundleOfTwo(first: Chunk, third: Chunk)
    ensures Split(Bundle([first, third])) == Split(first.text) + Split(third.text)
  {
    NoWords();
    hide Split, Join, Spacing, WordsOfAll;
    assert TextsOf([first, third]) == [first.text, third.text];
    SplitOfJoin("\n\n", [first.text, third.text]);
    TwoParts(first.text, third.text);
  }

  /** A quote made of the end of one text and the start of another is a window of the two. */
  lemma WindowAcross(quote: string, evidence: string, lower: Lowering, a: seq<string>, b: seq<string>, m: nat, n: nat)
    requires Split(evidence) == a + b && m <= |a| && n <= |b| && Split(quote) == a[m..] + b[..n]
    ensures HasWindow(quote, evidence, lower)
  {
    hide Split;
    assert (a + b)[m..m + |Split(quote)|] == a[m..] + b[..n];
    assert WindowAt(quote, evidence, lower, m);
  }

  /** The first chunk's last word and the third's first two make the quote. */
  lemma QuoteInBundle(first: Chunk, third: Chunk, lower: Lowering)
    requires first.text == LINE_A && third.text == LINE_C
    ensures Locatable(QUOTE, Bundle([first, third]), lower)
  {
    hide *;
    LineWords();
    QuoteWords();
    BundleOfTwo(first, third);
    QuoteCut();
    WindowAcross(QUOTE, Bundle([first, third]), lower, ALL_A, ALL_C, 26, 2);
    IsLocatable(QUOTE, Bundle([first, third]), lower);
  }

  lemma QuoteCut()
    ensures |ALL_A| == 27 && |ALL_C| == 27 && QUOTE_WORDS == ALL_A[26..] + ALL_C[..2]
  {
    assert ALL_A[26] == "x" && ALL_C[0] == "Speaker" && ALL_C[1] == "C:";
    assert ALL_A[26..] == ["x"] && ALL_C[..2] == ["Speaker", "C:"];
  }

  lemma IsLocatable(quote: string, evidence: string, lower: Lowering)
    requires !Blank(quote) && HasWindow(quote, evidence, lower)
    ensures Locatable(quote, evidence, lower)
  {
  }

  lemma BodyWords()
    ensures Split(BODY) == ALL_A + (ALL_B + ALL_C)
  {
    LineWords();
    NoWords();
    hide Split, Join, Turn, Spacing, Words, Texts;
    SplitOfJoin("\n", [LINE_A, LINE_B, LINE_C]);
    ThreeParts(LINE_A, LINE_B, LINE_C);
  }

  lemma Said(name: string, words: seq<string>, k: nat)
    requires k < 2 + |words|
    ensures (["Speaker", name] + words)[k] == if k == 0 then "Speaker" else if k == 1 then name else words[k - 2]
  {
  }

  /** Where the transcript has "x", the word after the next names the second speaker. */
  lemma AfterX(lower: Lowering, i: nat)
    requires TellsApart(lower) && i + 3 <= |ALL_A + (ALL_B + ALL_C)|
    requires lower((ALL_A + (ALL_B + ALL_C))[i]) == lower("x")
    ensures (ALL_A + (ALL_B + ALL_C))[i + 2] == "B:"
  {
    if i < 27 {
      Said("A:", WORDS_A, i);
    } else if i < 54 {
      Said("B:", WORDS_B, i - 27);
    } else {
      Said("C:", WORDS_C, i - 54);
    }
    Said("B:", WORDS_B, 1);
  }

  lemma QuoteIsNoWindow(lower: Lowering)
    requires TellsApart(lower)
    ensures !HasWindow(QUOTE, BODY, lower)
  {
    BodyWords();
    QuoteWords();
    hide Split;
    forall i: nat ensures !WindowAt(QUOTE, BODY, lower, i) {
      if WindowAt(QUOTE, BODY, lower, i) {
        NotAfterX(lower, ALL_A + (ALL_B + ALL_C), i);
        AfterX(lower, i);
      }
    }
  }

  lemma NotAfterX(lower: Lowering, ws: seq<string>, i: nat)
    requires i + 3 <= |ws| && Lowered(ws[i..i + 3], lower) == Lowered(QUOTE_WORDS, lower)
    ensures lower(ws[i]) == lower("x") && lower(ws[i + 2]) == lower("C:")
  {
    assert lower(ws[i..i + 3][0]) == lower(QUOTE_WORDS[0]);
    assert lower(ws[i..i + 3][2]) == lower(QUOTE_WORDS[2]);
  }

  lemma OnlyThere(before: string, after: string, x: char, j: nat)
    requires x !in before && x !in after && after != "" && j < |before + [x] + after|
    ensures (before + [x] + after)[j] == x ==> j == |before|
    ensures (before + [x] + after)[|before| + 1] == after[0]
  {
    var t := before + [x] + after;
    assert t[j] == if j < |before| then before[j] else if j == |before| then x else after[j - |before| - 1];
  }

  lemma FirstTwo(t: string, quote: string, j: nat)
    requires OccursAt(t, quote, j) && |quote| >= 2
    ensures j + 1 < |t| && t[j] == quote[0] && t[j + 1] == quote[1]
  {
    assert t[j..j + |quote|][0] == t[j] && t[j..j + |quote|][1] == t[j + 1];
  }

  /** A text in which the quote's first character occurs once and is followed by something else. */
  lemma NoOccurrence(before: string, after: string, quote: string)
    requires |quote| >= 2 && after != "" && after[0] != quote[1] && quote[0] !in before && quote[0] !in after
    ensures !Contains(before + [quote[0]] + after, quote)
  {
    var t := before + [quote[0]] + after;
    forall j: nat ensures !OccursAt(t, quote, j) {
      if OccursAt(t, quote, j) {
        FirstTwo(t, quote, j);
        OnlyThere(before, after, quote[0], j);
      }
    }
  }

  lemma NotInTurn(speaker: string, words: seq<string>, c: char)
    requires c !in speaker && c != ' ' && c != ':' && forall k :: 0 <= k < |words| ==> c !in words[k]
    ensures c !in Turn(speaker, words)
  {
    JoinHas(" ", words, c);
    hide Join;
    assert forall p :: p in words ==> c !in p;
  }

  lemma TurnSnoc(speaker: string, words: seq<string>, word: string)
    requires words != []
    ensures Turn(speaker, words + [word]) == Turn(speaker, words) + " " + word
  {
    JoinSnoc(" ", words, word);
    hide Join;
  }

  lemma ThreeLines(before: string, a: string, b: string, c: string)
    ensures Join("\n", [before + a, b, c]) == before + a + ("\n" + (b + "\n" + c))
  {
    assert [before + a, b, c][1..] == [b, c] && [b, c][1..] == [c];
    assert Join("\n", [b, c]) == b + "\n" + c;
  }

  lemma QuoteStart()
    ensures |QUOTE| >= 2 && QUOTE[0] == 'x' && QUOTE[1] == ' '
  {
    hide Join;
    JoinUnfold(" ", QUOTE_WORDS);
  }

  lemma JoinUnfold(sep: string, parts: seq<string>)
    requires |parts| > 1
    ensures Join(sep, parts) == parts[0] + sep + Join(sep, parts[1..])
  {
  }

  lemma NoXElsewhere()
    ensures 'x' !in Turn("Speaker A", Rep("a", 24)) + " " && 'x' !in "\n" + (LINE_B + "\n" + LINE_C)
  {
    hide Turn;
    NotInTurn("Speaker A", Rep("a", 24), 'x');
    NotInTurn("Speaker B", WORDS_B, 'x');
    NotInTurn("Speaker C", WORDS_C, 'x');
  }

  /** In the transcript the one "x" ends its line. */
  lemma QuoteIsNoSubstring()
    ensures !Contains(BODY, QUOTE)
  {
    QuoteStart();
    NoXElsewhere();
    var before, after := Turn("Speaker A", Rep("a", 24)) + " ", "\n" + (LINE_B + "\n" + LINE_C);
    TurnSnoc("Speaker A", Rep("a", 24), "x");
    hide Turn, Join, Contains;
    ThreeLines(before, "x", LINE_B, LINE_C);
    NoOccurrence(before, after, QUOTE);
  }

  /**
   Whatever chunks the chunker returns for the transcript, and whatever lower-casing does, the quote can be
   located in the evidence of the first and the third chunk and not in the transcript.
   */
  lemma StraddlingQuote(chunks: seq<Chunk>, cuts: seq<nat>, lower: Lowering)
    requires Sequenced(BODY, chunks) && Grouped(BodyLines(BODY), chunks, cuts, |BodyLines(BODY)|) && TellsApart(lower)
    ensures |chunks| == 3
    ensures Locatable(QUOTE, Bundle([chunks[0], chunks[2]]), lower) && !Locatable(QUOTE, BODY, lower)
  {
    hide *;
    ChunksAreLines(chunks, cuts);
    QuoteInBundle(chunks[0], chunks[2], lower);
    QuoteIsNoWindow(lower);
    QuoteIsNoSubstring();
    NotLocatable(QUOTE, BODY, lower);
  }

  lemma NotLocatable(quote: string, evidence: string, lower: Lowering)
    requires !HasWindow(quote, evidence, lower) && !Contains(evidence, quote)
    ensures !Locatable(quote, evidence, lower)
  {
  }

  /** Which is what happens: chunking, a bundle of the two chunks, and the filter keeps the quote. */
  method StraddlingBundle(lower: Lowering) returns (grounded: seq<string>)
    requires TellsApart(lower)
    ensures grounded == [QUOTE] && !Locatable(QUOTE, BODY, lower)
  {
    var chunks := ChunkTranscript(BODY);
    ghost var cuts: seq<nat> :| Grouped(BodyLines(BODY), chunks, cuts, |BodyLines(BODY)|);
    StraddlingQuote(chunks, cuts, lower);
    var dropped;
    grounded, dropped := KeepGrounded([QUOTE], Bundle([chunks[0], chunks[2]]), lower);
    KeepsOne(QUOTE, Bundle([chunks[0], chunks[2]]), lower);
  }

  lemma KeepsOne(quote: string, evidence: string, lower: Lowering)
    requires Locatable(quote, evidence, lower)
    ensures Locatables([quote], evidence, lower) == [quote]
  {
    hide Locatable;
    assert [quote][..0] == [];
  }
}
