/** Assigning speakers to recognised segments by maximal overlap with diarization turns. */
module Diarization {
  import opened Options
  import opened Text
  import opened Lines

  datatype Segment = Segment(start: real, end: real, text: string)
  datatype Turn = Turn(start: real, end: real, raw: string)
  datatype SpeakerLine = SpeakerLine(speaker: string, texts: seq<string>)

  const UNKNOWN := "__unknown__"

  function Digit(d: nat): char
    requires d < 10
  {
    ('0' as int + d) as char
  }

  function Decimal(n: nat): (r: string)
    ensures r != [] && (n >= 10 ==> |r| >= 2)
    ensures forall c :: c in r ==> '0' <= c <= '9'
  {
    if n < 10 then [Digit(n)] else Decimal(n / 10) + [Digit(n % 10)]
  }

  const LETTERS := 26

  /** A to Z, then numbers. */
  function Suffix(k: nat): (r: string)
    ensures r != []
    ensures forall c :: c in r ==> '0' <= c <= '9' || 'A' <= c <= 'Z'
  {
    if k < LETTERS then [('A' as int + k) as char] else Decimal(k + 1)
  }

  /** The k-th speaker's display name. */
  function Name(k: nat): string { "Speaker " + Suffix(k) }

  lemma {:induction false} DecimalInjective(m: nat, n: nat)
    requires Decimal(m) == Decimal(n)
    ensures m == n
    decreases m
  {
    var a, b := Decimal(m), Decimal(n);
    assert a[|a| - 1] == b[|b| - 1];
    if m >= 10 {
      assert a[..|a| - 1] == Decimal(m / 10) && b[..|b| - 1] == Decimal(n / 10);
      DecimalInjective(m / 10, n / 10);
    }
  }

  lemma SuffixHead(k: nat)
    ensures k < LETTERS <==> 'A' <= Suffix(k)[0]
  {
    hide Decimal;
    if k >= LETTERS { assert Suffix(k)[0] in Decimal(k + 1); }
  }

  lemma NameInjective(j: nat, k: nat)
    requires Name(j) == Name(k)
    ensures j == k
  {
    hide Decimal;
    var p := "Speaker ";
    assert Suffix(j) == Name(j)[|p|..] == Name(k)[|p|..] == Suffix(k);
    SuffixHead(j);
    SuffixHead(k);
    if j >= LETTERS {
      DecimalInjective(j + 1, k + 1);
    } else {
      assert Suffix(j)[0] == Suffix(k)[0];
    }
  }

  /** The number a decimal string says. */
  function Reads(s: string): int {
    if s == "" then 0 else 10 * Reads(s[..|s| - 1]) + (s[|s| - 1] as int - '0' as int)
  }

  lemma {:induction false} DecimalReads(n: nat)
    ensures Reads(Decimal(n)) == n
  {
    var d := Decimal(n);
    if n < 10 {
      assert d[..0] == "" && Reads(d[..0]) == 0;
    } else {
      DecimalReads(n / 10);
      assert d[..|d| - 1] == Decimal(n / 10);
    }
  }

  lemma LetterAt(k: nat)
    requires k < 26
    ensures "ABCDEFGHIJKLMNOPQRSTUVWXYZ"[k] as int == 'A' as int + k
  {
  }

  /** The first 26 speakers are called by the letters in order, the others by their number, counted from one. */
  lemma NameTells(k: nat)
    ensures "Speaker " <= Name(k)
    ensures k < 26 ==> Name(k)[8..] == ["ABCDEFGHIJKLMNOPQRSTUVWXYZ"[k]]
    ensures k >= 26 ==> Reads(Name(k)[8..]) == k + 1
  {
    hide Decimal, Reads;
    assert Name(k)[8..] == Suffix(k);
    if k < 26 {
      LetterAt(k);
    } else {
      DecimalReads(k + 1);
    }
  }

  function Overlap(s: Segment, t: Turn): real {
    (if s.end <= t.end then s.end else t.end) - (if s.start >= t.start then s.start else t.start)
  }

  /** The time from lo to hi lies within the segment and within the turn. */
  predicate Shares(s: Segment, t: Turn, lo: real, hi: real) {
    lo < hi && s.start <= lo && t.start <= lo && hi <= s.end && hi <= t.end
  }

  /** Turn j shares time with the segment, no turn shares a longer time, and no earlier turn as long a one. */
  ghost predicate IsBest(s: Segment, turns: seq<Turn>, j: nat) {
    j < |turns| && exists lo, hi :: Shares(s, turns[j], lo, hi) && Longest(s, turns, j, hi - lo)
  }

  ghost predicate Longest(s: Segment, turns: seq<Turn>, j: nat, length: real) {
    && (forall k, lo, hi :: 0 <= k < |turns| && Shares(s, turns[k], lo, hi) ==> hi - lo <= length)
    && (forall k, lo, hi :: 0 <= k < j && k < |turns| && Shares(s, turns[k], lo, hi) ==> hi - lo < length)
  }

  /** No turn shares time with the segment. */
  ghost predicate Uncovered(s: Segment, turns: seq<Turn>) {
    forall k, lo, hi :: 0 <= k < |turns| ==> !Shares(s, turns[k], lo, hi)
  }

  /** The overlap is the length of the longest time shared. */
  lemma OverlapIsLongest(s: Segment, t: Turn, lo: real, hi: real)
    ensures Shares(s, t, lo, hi) ==> hi - lo <= Overlap(s, t)
    ensures Overlap(s, t) > 0.0 ==>
      exists a, b :: Shares(s, t, a, b) && b - a == Overlap(s, t)
  {
    if Overlap(s, t) > 0.0 {
      var a, b := if s.start >= t.start then s.start else t.start, if s.end <= t.end then s.end else t.end;
      assert Shares(s, t, a, b);
    }
  }

  lemma BestByOverlap(s: Segment, turns: seq<Turn>, j: nat)
    requires j < |turns| && Overlap(s, turns[j]) > 0.0
    requires forall k :: 0 <= k < |turns| ==> Overlap(s, turns[k]) <= Overlap(s, turns[j])
    requires forall k :: 0 <= k < j ==> Overlap(s, turns[k]) < Overlap(s, turns[j])
    ensures IsBest(s, turns, j)
  {
    forall k, lo, hi | 0 <= k < |turns| && Shares(s, turns[k], lo, hi)
      ensures hi - lo <= Overlap(s, turns[j]) && (k < j ==> hi - lo < Overlap(s, turns[j]))
    {
      OverlapIsLongest(s, turns[k], lo, hi);
    }
    OverlapIsLongest(s, turns[j], 0.0, 0.0);
    assert Longest(s, turns, j, Overlap(s, turns[j]));
  }

  lemma UncoveredByOverlap(s: Segment, turns: seq<Turn>)
    requires forall k :: 0 <= k < |turns| ==> Overlap(s, turns[k]) <= 0.0
    ensures Uncovered(s, turns)
  {
    forall k, lo, hi | 0 <= k < |turns| && Shares(s, turns[k], lo, hi) ensures false {
      OverlapIsLongest(s, turns[k], lo, hi);
    }
  }

  method BestRaw(s: Segment, turns: seq<Turn>) returns (r: Option<string>)
    ensures r.None? <==> Uncovered(s, turns)
    ensures r.Some? ==> exists j: nat :: IsBest(s, turns, j) && r.value == turns[j].raw
  {
    hide Overlap, IsBest, Uncovered;
    r := None;
    var bestOverlap := 0.0;
    ghost var best: nat := 0;
    for k := 0 to |turns|
      invariant 0.0 <= bestOverlap
      invariant r.None? ==> bestOverlap == 0.0 && forall i :: 0 <= i < k ==> Overlap(s, turns[i]) <= 0.0
      invariant r.Some? ==> (
        && best < k && bestOverlap > 0.0 && Overlap(s, turns[best]) == bestOverlap
        && r.value == turns[best].raw
        && (forall i :: 0 <= i < k ==> Overlap(s, turns[i]) <= bestOverlap)
        && (forall i :: 0 <= i < best ==> Overlap(s, turns[i]) < bestOverlap))
    {
      var overlap := Overlap(s, turns[k]);
      if overlap > bestOverlap {
        bestOverlap, r, best := overlap, Some(turns[k].raw), k;
      }
    }
    if r.Some? {
      BestByOverlap(s, turns, best);
      BestIsCovered(s, turns, best);
    } else {
      UncoveredByOverlap(s, turns);
    }
  }

  lemma BestIsCovered(s: Segment, turns: seq<Turn>, j: nat)
    requires IsBest(s, turns, j)
    ensures !Uncovered(s, turns)
  {
  }

  /** End of t[..hi] with trailing whitespace dropped. */
  function SkipBack(t: string, lo: nat, hi: nat): (e: nat)
    requires lo <= hi <= |t|
    ensures lo <= e <= hi && (lo < e ==> !IsSpace(t[e - 1]))
    decreases hi
  {
    if lo == hi || !IsSpace(t[hi - 1]) then hi else SkipBack(t, lo, hi - 1)
  }

  /** str.strip(). */
  function Strip(t: string): string {
    var s := SkipSpace(t, 0, |t|);
    t[s..SkipBack(t, s, |t|)]
  }

  /** What str.strip() leaves: the text without the whitespace around it. */
  lemma StripTrims(t: string) returns (lo: nat, hi: nat)
    ensures lo <= hi <= |t| && Strip(t) == t[lo..hi]
    ensures forall k :: 0 <= k < lo || hi <= k < |t| ==> IsSpace(t[k])
    ensures lo < hi ==> !IsSpace(t[lo]) && !IsSpace(t[hi - 1])
  {
    lo := SkipSpace(t, 0, |t|);
    hi := SkipBack(t, lo, |t|);
    SkipSpaceStops(t, 0, |t|);
    SkipSpaceVia(t, 0, lo, |t|);
    forall k | 0 <= k < lo ensures IsSpace(t[k]) { AllSpaceAt(t, 0, lo, k); }
    SkippedIsSpace(t, lo, |t|);
  }

  lemma SkippedIsSpace(t: string, lo: nat, hi: nat)
    requires lo <= hi <= |t|
    ensures forall k :: SkipBack(t, lo, hi) <= k < hi ==> IsSpace(t[k])
    decreases hi
  {
  }

  /** The segments that say something, with their text stripped. */
  function Spoken(segments: seq<Segment>): seq<Segment> {
    if segments == [] then []
    else
      var s := segments[|segments| - 1];
      Spoken(segments[..|segments| - 1]) + if Strip(s.text) == "" then [] else [s.(text := Strip(s.text))]
  }

  /**
   The raw label a segment gets: the best turn's, or without any overlap the
   previous segment's, or the unknown bucket at the start.
   */
  ghost predicate Gets(s: Segment, turns: seq<Turn>, previous: Option<string>, raw: string) {
    || (exists j: nat :: IsBest(s, turns, j) && raw == turns[j].raw)
    || (Uncovered(s, turns) && raw == previous.GetOr(UNKNOWN))
  }

  function Before(raws: seq<string>, i: nat): Option<string>
    requires i <= |raws|
  {
    if i == 0 then None else Some(raws[i - 1])
  }

  ghost predicate Attributed(spoken: seq<Segment>, turns: seq<Turn>, raws: seq<string>) {
    && |raws| == |spoken|
    && forall i :: 0 <= i < |raws| ==> Gets(spoken[i], turns, Before(raws, i), raws[i])
  }

  /** The distinct labels in order of first appearance. */
  function FirstAppearances(raws: seq<string>): seq<string> {
    if raws == [] then []
    else
      var r, seen := raws[|raws| - 1], FirstAppearances(raws[..|raws| - 1]);
      if r in seen then seen else seen + [r]
  }

  /** Raw labels are renamed one to one, numbered in order of first appearance. */
  ghost predicate Numbered(labels: map<string, string>, order: seq<string>) {
    && |labels| == |order|
    && (forall r :: r in labels <==> r in order)
    && (forall k :: 0 <= k < |order| ==> order[k] in labels && labels[order[k]] == Name(k))
  }

  /** The (speaker, text) pairs of the lines, one per segment text. */
  function Expand(lines: seq<SpeakerLine>): seq<(string, string)> {
    if lines == [] then []
    else
      var l := lines[|lines| - 1];
      Expand(lines[..|lines| - 1]) + Pairs(l)
  }

  function Pairs(l: SpeakerLine): (r: seq<(string, string)>)
    ensures |r| == |l.texts|
  {
    seq(|l.texts|, i requires 0 <= i < |l.texts| => (l.speaker, l.texts[i]))
  }

  ghost predicate Alternating(lines: seq<SpeakerLine>) {
    && (forall k :: 0 <= k < |lines| ==> lines[k].texts != [])
    && (forall j, k :: 0 <= j < k < |lines| && k == j + 1 ==> lines[j].speaker != lines[k].speaker)
  }

  /** Every spoken segment once and in order, under its speaker's display name. */
  ghost predicate Tells(lines: seq<SpeakerLine>, spoken: seq<Segment>, raws: seq<string>, labels: map<string, string>) {
    && |raws| == |spoken| && |Expand(lines)| == |spoken|
    && forall i :: 0 <= i < |spoken| ==> raws[i] in labels && Expand(lines)[i] == (labels[raws[i]], spoken[i].text)
  }

  lemma ExpandPush(lines: seq<SpeakerLine>, l: SpeakerLine)
    ensures Expand(lines + [l]) == Expand(lines) + Pairs(l)
  {
    assert (lines + [l])[..|lines|] == lines;
  }

  lemma PairsSnoc(l: SpeakerLine, text: string)
    ensures Pairs(l.(texts := l.texts + [text])) == Pairs(l) + [(l.speaker, text)]
  {
  }

  lemma ExpandExtend(init: seq<SpeakerLine>, l: SpeakerLine, text: string)
    ensures Expand(init + [l.(texts := l.texts + [text])]) == Expand(init + [l]) + [(l.speaker, text)]
  {
    hide Expand, Pairs;
    ExpandPush(init, l.(texts := l.texts + [text]));
    ExpandPush(init, l);
    PairsSnoc(l, text);
  }

  function Assign(labels: map<string, string>, raw: string): map<string, string> {
    if raw in labels then labels else labels[raw := Name(|labels|)]
  }

  lemma AssignNumbered(labels: map<string, string>, raws: seq<string>, raw: string)
    requires Numbered(labels, FirstAppearances(raws))
    ensures raw in Assign(labels, raw) && Numbered(Assign(labels, raw), FirstAppearances(raws + [raw]))
    ensures forall r :: r in labels ==> r in Assign(labels, raw) && Assign(labels, raw)[r] == labels[r]
  {
    hide Name, Numbered;
    assert (raws + [raw])[..|raws|] == raws;
    NumberedMore(labels, FirstAppearances(raws), raw);
  }

  lemma NumberedMore(labels: map<string, string>, order: seq<string>, raw: string)
    requires Numbered(labels, order)
    ensures Numbered(Assign(labels, raw), if raw in order then order else order + [raw])
  {
    hide Name;
  }

  /** No two raw labels share a display name. */
  lemma NamesAreDistinct(labels: map<string, string>, order: seq<string>, r1: string, r2: string)
    requires Numbered(labels, order) && r1 in labels && r2 in labels && labels[r1] == labels[r2]
    ensures r1 == r2
  {
    hide Name;
    var j :| 0 <= j < |order| && order[j] == r1;
    var k :| 0 <= k < |order| && order[k] == r2;
    NameInjective(j, k);
  }

  lemma TellsMore(lines: seq<SpeakerLine>, spoken: seq<Segment>, raws: seq<string>, labels: map<string, string>,
                  lines': seq<SpeakerLine>, s: Segment, raw: string)
    requires Tells(lines, spoken, raws, labels)
    requires raw in Assign(labels, raw) && Expand(lines') == Expand(lines) + [(Assign(labels, raw)[raw], s.text)]
    ensures Tells(lines', spoken + [s], raws + [raw], Assign(labels, raw))
  {
    hide Expand, Name;
  }

  lemma AttributedMore(spoken: seq<Segment>, turns: seq<Turn>, raws: seq<string>, s: Segment, raw: string)
    requires Attributed(spoken, turns, raws) && Gets(s, turns, Before(raws, |raws|), raw)
    ensures Attributed(spoken + [s], turns, raws + [raw])
  {
    hide Gets;
    var sp, rs := spoken + [s], raws + [raw];
    forall i | 0 <= i < |rs| ensures Gets(sp[i], turns, Before(rs, i), rs[i]) {
      assert Before(rs, i) == Before(raws, i);
      if i < |raws| { assert sp[i] == spoken[i] && rs[i] == raws[i]; }
    }
  }

  lemma SpokenStep(segments: seq<Segment>, k: nat)
    requires k < |segments|
    ensures Spoken(segments[..k + 1]) ==
      if Strip(segments[k].text) == "" then Spoken(segments[..k])
      else Spoken(segments[..k]) + [segments[k].(text := Strip(segments[k].text))]
  {
    hide Strip;
    assert segments[..k + 1][..k] == segments[..k];
  }

  /** The speaker of a segment: of its best turn, or the current one, or a speaker of no turn at all. */
  method ChooseSpeaker(best: Option<string>, currentSpeaker: Option<string>, before: map<string, string>,
          ghost raw: string)
    returns (speaker: string, labels: map<string, string>)
    requires if best.Some? then raw == best.value
             else if currentSpeaker.Some? then raw in before && before[raw] == currentSpeaker.value
             else raw == UNKNOWN
    ensures labels == Assign(before, raw) && raw in labels && speaker == labels[raw]
  {
    labels := before;
    if best.Some? {
      labels := Assign(labels, best.value);
      speaker := labels[best.value];
    } else if currentSpeaker.Some? {
      speaker := currentSpeaker.value;
    } else {
      labels := Assign(labels, UNKNOWN);
      speaker := labels[UNKNOWN];
    }
  }

  /** One more text of a speaker: on the last line if that is the speaker's, on a new line if not. */
  function Said(lines: seq<SpeakerLine>, speaker: string, text: string): (r: seq<SpeakerLine>)
    ensures r != [] && r[|r| - 1].speaker == speaker
  {
    if lines != [] && lines[|lines| - 1].speaker == speaker
    then lines[..|lines| - 1] + [lines[|lines| - 1].(texts := lines[|lines| - 1].texts + [text])]
    else lines + [SpeakerLine(speaker, [text])]
  }

  lemma SaidTells(lines: seq<SpeakerLine>, speaker: string, text: string)
    ensures Expand(Said(lines, speaker, text)) == Expand(lines) + [(speaker, text)]
    ensures Alternating(lines) ==> Alternating(Said(lines, speaker, text))
  {
    hide Expand;
    if lines != [] && lines[|lines| - 1].speaker == speaker {
      var init, last := lines[..|lines| - 1], lines[|lines| - 1];
      assert init + [last] == lines;
      ExpandExtend(init, last, text);
    } else {
      ExpandPush(lines, SpeakerLine(speaker, [text]));
    }
  }

  method Say(before: seq<SpeakerLine>, currentSpeaker: Option<string>, speaker: string, text: string)
    returns (lines: seq<SpeakerLine>, current: Option<string>)
    requires if before == [] then currentSpeaker == None else currentSpeaker == Some(before[|before| - 1].speaker)
    ensures lines == Said(before, speaker, text) && current == Some(speaker)
  {
    lines, current := before, currentSpeaker;
    if Some(speaker) == current && lines != [] {
      var last := lines[|lines| - 1];
      lines := lines[..|lines| - 1] + [last.(texts := last.texts + [text])];
    } else {
      lines := lines + [SpeakerLine(speaker, [text])];
      current := Some(speaker);
    }
  }

  /** The merge loop: the lines before they are rendered, with the raw label given to each segment. */
  method MergeLines(segments: seq<Segment>, turns: seq<Turn>)
    returns (lines: seq<SpeakerLine>, labels: map<string, string>, ghost raws: seq<string>)
    ensures Attributed(Spoken(segments), turns, raws)
    ensures Numbered(labels, FirstAppearances(raws))
    ensures Tells(lines, Spoken(segments), raws, labels)
    ensures Alternating(lines)
  {
    hide Name, Strip, Expand, Attributed, Numbered, Tells, Assign, Spoken, IsBest, Uncovered, FirstAppearances,
         Alternating, Said;
    lines, labels, raws := [], map[], [];
    var currentSpeaker: Option<string> := None;
    NothingTold(turns);
    for k := 0 to |segments|
      invariant Attributed(Spoken(segments[..k]), turns, raws)
      invariant Numbered(labels, FirstAppearances(raws))
      invariant Tells(lines, Spoken(segments[..k]), raws, labels)
      invariant Alternating(lines)
      invariant lines == [] <==> currentSpeaker == None
      invariant lines == [] <==> raws == []
      invariant lines != [] ==> currentSpeaker == Some(lines[|lines| - 1].speaker)
      invariant raws != [] ==> raws[|raws| - 1] in labels && currentSpeaker == Some(labels[raws[|raws| - 1]])
    {
      var s := segments[k];
      SpokenStep(segments, k);
      var text := Strip(s.text);
      if text == "" {
        continue;
      }
      var seg := s.(text := text);
      var best := BestRaw(seg, turns);
      ghost var raw := if best.Some? then best.value else if raws == [] then UNKNOWN else raws[|raws| - 1];
      AssignNumbered(labels, raws, raw);
      AttributedMore(Spoken(segments[..k]), turns, raws, seg, raw);
      ghost var lines0, labels0, raws0 := lines, labels, raws;
      var speaker: string;
      speaker, labels := ChooseSpeaker(best, currentSpeaker, labels, raw);
      SaidTells(lines, speaker, text);
      lines, currentSpeaker := Say(lines, currentSpeaker, speaker, text);
      raws := raws + [raw];
      TellsMore(lines0, Spoken(segments[..k]), raws0, labels0, lines, seg, raw);
    }
    assert segments[..|segments|] == segments;
  }

  lemma NothingTold(turns: seq<Turn>)
    ensures Attributed([], turns, []) && Numbered(map[], FirstAppearances([])) && Tells([], [], [], map[])
      && Spoken([]) == [] && Alternating([])
  {
  }

  function Render(l: SpeakerLine): string {
    l.speaker + ": " + Join(" ", l.texts)
  }

  function RenderAll(lines: seq<SpeakerLine>): (r: seq<string>)
    ensures |r| == |lines|
    ensures forall k :: 0 <= k < |lines| ==> r[k] == Render(lines[k])
  {
    seq(|lines|, k requires 0 <= k < |lines| => Render(lines[k]))
  }

  /**
   The text is the rendering of lines that tell every spoken segment once and in
   order, change speaker from each line to the next, and take each segment's
   speaker from a turn of greatest overlap.
   */
  ghost predicate Transcribes(text: string, segments: seq<Segment>, turns: seq<Turn>, lines: seq<SpeakerLine>,
                              labels: map<string, string>, raws: seq<string>) {
    && text == Join("\n", RenderAll(lines))
    && Attributed(Spoken(segments), turns, raws) && Numbered(labels, FirstAppearances(raws))
    && Tells(lines, Spoken(segments), raws, labels) && Alternating(lines)
  }

  method MergeDiarization(segments: seq<Segment>, turns: seq<Turn>) returns (text: string)
    ensures exists lines, labels, raws :: Transcribes(text, segments, turns, lines, labels, raws)
  {
    hide Attributed, Numbered, FirstAppearances, Spoken, Tells, Alternating, Join;
    if segments == [] {
      NothingTold(turns);
      NothingJoined();
      assert Transcribes("", segments, turns, [], map[], []);
      return "";
    }
    var lines, labels;
    ghost var raws;
    lines, labels, raws := MergeLines(segments, turns);
    text := Join("\n", RenderAll(lines));
    assert Transcribes(text, segments, turns, lines, labels, raws);
  }

  lemma NothingJoined()
    ensures Join("\n", RenderAll([])) == ""
  {
  }

  /** What the chunker reads back: each line split into speaker and text. */
  function Parse(text: string): seq<(Option<string>, string)> {
    var ls := SplitLines(text);
    seq(|ls|, k requires 0 <= k < |ls| => SplitLine(ls[k]))
  }

  function Told(lines: seq<SpeakerLine>): seq<(Option<string>, string)> {
    seq(|lines|, k requires 0 <= k < |lines| => (Some(lines[k].speaker), Join(" ", lines[k].texts)))
  }

  lemma NameHasNoColon(k: nat)
    ensures ':' !in Name(k) && '\n' !in Name(k) && StartsWith(Name(k), "Speaker ")
  {
    hide Suffix;
    assert Name(k)[..8] == "Speaker ";
  }

  lemma OccursHead(t: string, pat: string, j: nat)
    ensures OccursAt(t, pat, j) && pat != "" ==> t[j] == pat[0]
  {
    if OccursAt(t, pat, j) && pat != "" { assert t[j..j + |pat|][0] == pat[0]; }
  }

  /** A rendered line splits at the end of its speaker, wherever else its text holds a colon. */
  lemma SplitRendered(speaker: string, text: string)
    requires ':' !in speaker && StartsWith(speaker, "Speaker ")
    ensures SplitLine(speaker + ": " + text) ==
      if |speaker| <= MAX_LABEL then (Some(speaker), text) else (None, speaker + ": " + text)
  {
    var line := speaker + ": " + text;
    var n := |speaker|;
    assert OccursAt(line, ": ", n) by { assert line[n..n + 2] == ": "; }
    forall j | 0 <= j < n ensures !OccursAt(line, ": ", j) {
      OccursHead(line, ": ", j);
      assert line[j] == speaker[j] && speaker[j] in speaker;
    }
    assert Find(line, ": ", 0) == Some(n);
    assert line[..n] == speaker && line[n + 2..] == text;
  }

  /** A line that has a label is that label, a colon, a space and the rest. */
  lemma SplitLineRejoins(line: string)
    ensures SplitLine(line).0.Some? ==>
      line == SplitLine(line).0.value + ": " + SplitLine(line).1 && |SplitLine(line).0.value| <= MAX_LABEL
  {
    var f := Find(line, ": ", 0);
    if f.Some? {
      var i := f.value;
      assert line == line[..i] + line[i..i + 2] + line[i + 2..];
    }
  }

  ghost predicate OneLine(l: SpeakerLine) {
    forall t :: t in l.texts ==> '\n' !in t
  }

  /** The speaker could be a display name: it starts like one and cannot be cut short by the colon. */
  ghost predicate Labelled(l: SpeakerLine) {
    ':' !in l.speaker && '\n' !in l.speaker && StartsWith(l.speaker, "Speaker ")
  }

  lemma RenderedNewline(l: SpeakerLine)
    requires Labelled(l)
    ensures '\n' !in Render(l) <==> OneLine(l)
  {
    JoinHas(" ", l.texts, '\n');
  }

  /**
   Round trip: splitting the transcript into lines and each line into speaker and
   text gives back the lines exactly when no text holds a newline and every
   speaker passes the chunker's length check.
   */
  lemma RoundTrip(lines: seq<SpeakerLine>)
    requires lines != [] && forall l :: l in lines ==> Labelled(l)
    ensures Parse(Join("\n", RenderAll(lines))) == Told(lines)
      <==> forall l :: l in lines ==> OneLine(l) && |l.speaker| <= MAX_LABEL
  {
    hide Join, SplitLine, SplitLines, OneLine, Render;
    var rendered := RenderAll(lines);
    var t := Join("\n", rendered);
    SplitJoin(rendered);
    if forall l :: l in lines ==> OneLine(l) && |l.speaker| <= MAX_LABEL {
      forall r | r in rendered ensures '\n' !in r {
        var k :| 0 <= k < |lines| && r == Render(lines[k]);
        RenderedNewline(lines[k]);
      }
      forall k | 0 <= k < |lines| ensures Parse(t)[k] == Told(lines)[k] {
        RenderSplits(lines[k]);
      }
    }
    if Parse(t) == Told(lines) {
      ParseDeterminesLines(t, lines);
      forall l | l in lines ensures OneLine(l) && |l.speaker| <= MAX_LABEL {
        var k :| 0 <= k < |lines| && l == lines[k];
        assert rendered[k] in rendered;
        RenderedNewline(l);
        assert Parse(t)[k] == Told(lines)[k];
        SplitLineRejoins(SplitLines(t)[k]);
      }
    }
  }

  lemma RenderSplits(l: SpeakerLine)
    requires Labelled(l)
    ensures |l.speaker| <= MAX_LABEL ==> SplitLine(Render(l)) == (Some(l.speaker), Join(" ", l.texts))
  {
    hide SplitLine;
    SplitRendered(l.speaker, Join(" ", l.texts));
  }

  lemma ParseDeterminesLines(t: string, lines: seq<SpeakerLine>)
    requires Parse(t) == Told(lines)
    ensures SplitLines(t) == RenderAll(lines)
  {
    hide Join, SplitLine, SplitLines;
    var ls := SplitLines(t);
    assert |Parse(t)| == |ls|;
    forall k | 0 <= k < |ls| ensures ls[k] == RenderAll(lines)[k] {
      SplitLineRejoins(ls[k]);
      assert Parse(t)[k] == SplitLine(ls[k]) == Told(lines)[k];
    }
  }

  lemma {:induction false} ExpandHas(lines: seq<SpeakerLine>, l: SpeakerLine, text: string)
    requires l in lines && text in l.texts
    ensures (l.speaker, text) in Expand(lines)
    decreases |lines|
  {
    var last := lines[|lines| - 1];
    if l == last {
      var m :| 0 <= m < |l.texts| && l.texts[m] == text;
      assert Pairs(l)[m] == (l.speaker, text);
    } else {
      ExpandHas(lines[..|lines| - 1], l, text);
    }
  }

  lemma {:induction false} ExpandOnlyHas(lines: seq<SpeakerLine>, p: (string, string)) returns (l: SpeakerLine)
    requires p in Expand(lines)
    ensures l in lines && l.speaker == p.0 && p.1 in l.texts
    decreases |lines|
  {
    var last := lines[|lines| - 1];
    if p in Pairs(last) {
      l := last;
    } else {
      l := ExpandOnlyHas(lines[..|lines| - 1], p);
    }
  }

  lemma LinesAreLabelled(lines: seq<SpeakerLine>, spoken: seq<Segment>, raws: seq<string>, labels: map<string, string>,
                         order: seq<string>)
    requires Tells(lines, spoken, raws, labels) && Numbered(labels, order) && Alternating(lines)
    ensures forall l :: l in lines ==> Labelled(l) && exists i :: 0 <= i < |raws| && l.speaker == labels[raws[i]]
  {
    hide Expand, Name, StartsWith, Labelled;
    forall l | l in lines ensures Labelled(l) && exists i :: 0 <= i < |raws| && l.speaker == labels[raws[i]] {
      ExpandHas(lines, l, l.texts[0]);
      var i :| 0 <= i < |spoken| && Expand(lines)[i] == (l.speaker, l.texts[0]);
      var k :| 0 <= k < |order| && order[k] == raws[i];
      NameHasNoColon(k);
      DisplayNameLabels(l, k);
    }
  }

  lemma DisplayNameLabels(l: SpeakerLine, k: nat)
    requires l.speaker == Name(k)
    ensures Labelled(l)
  {
    hide Name, StartsWith;
    NameHasNoColon(k);
  }

  /** The round trip for merge_diarization's own output, in terms of its segments. */
  lemma TranscriptReadsBack(text: string, segments: seq<Segment>, turns: seq<Turn>, lines: seq<SpeakerLine>,
                            labels: map<string, string>, raws: seq<string>)
    requires Transcribes(text, segments, turns, lines, labels, raws) && Spoken(segments) != []
    ensures var spoken := Spoken(segments);
      |raws| == |spoken| && (forall i :: 0 <= i < |raws| ==> raws[i] in labels)
      && (Parse(text) == Told(lines)
          <==> forall i :: 0 <= i < |spoken| ==> '\n' !in spoken[i].text && |labels[raws[i]]| <= MAX_LABEL)
  {
    hide Attributed, FirstAppearances, Spoken, Join;
    ReadsBack(lines, Spoken(segments), raws, labels, FirstAppearances(raws));
  }

  lemma ReadsBack(lines: seq<SpeakerLine>, spoken: seq<Segment>, raws: seq<string>, labels: map<string, string>,
          order: seq<string>)
    requires Tells(lines, spoken, raws, labels) && Numbered(labels, order) && Alternating(lines) && spoken != []
    ensures Parse(Join("\n", RenderAll(lines))) == Told(lines)
      <==> forall i :: 0 <= i < |spoken| ==> '\n' !in spoken[i].text && |labels[raws[i]]| <= MAX_LABEL
  {
    hide Expand, Name, Join, SplitLine, SplitLines, Render, Labelled, Numbered, Parse, Told;
    LinesAreLabelled(lines, spoken, raws, labels, order);
    assert lines != [] by { if lines == [] { NothingExpands(); } }
    RoundTrip(lines);
    if forall l :: l in lines ==> OneLine(l) && |l.speaker| <= MAX_LABEL {
      forall i | 0 <= i < |spoken| ensures '\n' !in spoken[i].text && |labels[raws[i]]| <= MAX_LABEL {
        var l := ExpandOnlyHas(lines, Expand(lines)[i]);
      }
    }
    if forall i :: 0 <= i < |spoken| ==> '\n' !in spoken[i].text && |labels[raws[i]]| <= MAX_LABEL {
      forall l | l in lines ensures OneLine(l) && |l.speaker| <= MAX_LABEL {
        forall t | t in l.texts ensures '\n' !in t {
          ExpandHas(lines, l, t);
          var i :| 0 <= i < |spoken| && Expand(lines)[i] == (l.speaker, t);
        }
      }
    }
  }

  lemma NothingExpands()
    ensures Expand([]) == []
  {
  }
}
