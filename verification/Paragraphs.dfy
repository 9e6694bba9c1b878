/**
 Paragraphs of a document: what re.split on a blank-line separator returns, and
 the recovery of each paragraph's offsets by searching for its text.
 */
module Paragraphs {
  import opened Options
  import opened Text

  /** Greatest offset of a newline in t[lo..hi]. */
  function LastNewline(t: string, lo: nat, hi: nat): (r: Option<nat>)
    requires lo <= hi <= |t|
    ensures r.Some? ==> lo <= r.value < hi && t[r.value] == '\n'
    ensures forall k :: lo <= k < hi && (r.Some? ==> r.value < k) ==> t[k] != '\n'
    decreases hi - lo
  {
    if lo == hi then None
    else if t[hi - 1] == '\n' then Some(hi - 1)
    else LastNewline(t, lo, hi - 1)
  }

  /**
   End of the match of \n\s*\n at i, if there is one: \s* takes all the
   whitespace it can, then gives back down to the last newline.
   */
  function SeparatorEnd(t: string, i: nat): (r: Option<nat>)
    requires i < |t|
    ensures r.Some? ==> i < r.value <= |t|
  {
    if t[i] != '\n' then None
    else
      var q := LastNewline(t, i + 1, SkipSpace(t, i + 1, |t|));
      if q.None? then None else Some(q.value + 1)
  }

  /** Leftmost separator at or after i. */
  function NextSeparator(t: string, i: nat): (r: Option<Span>)
    requires i <= |t|
    ensures r.Some? ==> i <= r.value.start < r.value.end <= |t| && SeparatorEnd(t, r.value.start) == Some(r.value.end)
    ensures forall k :: i <= k < |t| && (r.Some? ==> k < r.value.start) ==> SeparatorEnd(t, k).None?
    decreases |t| - i
  {
    if i == |t| then None
    else if SeparatorEnd(t, i).Some? then Some(Span(i, SeparatorEnd(t, i).value))
    else NextSeparator(t, i + 1)
  }

  /** Where the pieces of re.split really are. */
  function ParaSpans(t: string, i: nat): (r: seq<Span>)
    requires i <= |t|
    ensures |r| > 0 && r[0].start == i
    decreases |t| - i
  {
    var s := NextSeparator(t, i);
    if s.None? then [Span(i, |t|)] else [Span(i, s.value.start)] + ParaSpans(t, s.value.end)
  }

  function ReSplit(t: string): seq<string> {
    Texts(t, ParaSpans(t, 0))
  }

  /** The regular expression itself: a newline, whitespace, a newline. */
  predicate MatchesSeparator(t: string, i: nat, e: nat) {
    i + 2 <= e <= |t| && t[i] == '\n' && t[e - 1] == '\n' && AllSpace(t, i + 1, e - 1)
  }

  /** SeparatorEnd is the greedy match of the expression at i, when there is one. */
  lemma SeparatorEndIsGreedyMatch(t: string, i: nat)
    requires i < |t|
    ensures SeparatorEnd(t, i).Some? ==> MatchesSeparator(t, i, SeparatorEnd(t, i).value)
    ensures forall e: nat :: MatchesSeparator(t, i, e) ==> SeparatorEnd(t, i).Some? && e <= SeparatorEnd(t, i).value
  {
    var s := SkipSpace(t, i + 1, |t|);
    if SeparatorEnd(t, i).Some? {
      SkipSpaceVia(t, i + 1, SeparatorEnd(t, i).value - 1, |t|);
    }
    forall e: nat | MatchesSeparator(t, i, e)
      ensures SeparatorEnd(t, i).Some? && e <= SeparatorEnd(t, i).value
    {
      SkipSpaceVia(t, i + 1, e - 1, |t|);
      assert IsSpace('\n');
      assert s == SkipSpace(t, e - 1, |t|);
      assert t[e - 1] == '\n' && i + 1 <= e - 1 < s;
    }
  }

  ghost predicate StartsSeparator(t: string, i: nat) {
    exists e: nat :: MatchesSeparator(t, i, e)
  }

  /** e is the end of the longest match of the expression at i. */
  ghost predicate LongestSeparator(t: string, i: nat, e: nat) {
    MatchesSeparator(t, i, e) && forall f: nat :: MatchesSeparator(t, i, f) ==> f <= e
  }

  /**
   The paragraphs are what lies between the matches of the expression, the first match first and each as long
   as it can be.
   */
  lemma {:induction false} ParagraphsLieBetweenSeparators(t: string, i: nat)
    requires i <= |t|
    ensures var ps := ParaSpans(t, i);
      && ps[0].start == i && ps[|ps| - 1].end == |t|
      && (forall k :: 1 <= k < |ps| ==> LongestSeparator(t, ps[k - 1].end, ps[k].start))
      && (forall k, a: nat :: 0 <= k < |ps| && ps[k].start <= a < ps[k].end ==> !StartsSeparator(t, a))
    decreases |t| - i
  {
    hide SeparatorEnd, MatchesSeparator;
    var s := NextSeparator(t, i);
    forall a: nat | i <= a < |t| && (s.Some? ==> a < s.value.start) ensures !StartsSeparator(t, a) {
      SeparatorEndIsGreedyMatch(t, a);
    }
    if s.Some? {
      SeparatorEndIsGreedyMatch(t, s.value.start);
      ParagraphsLieBetweenSeparators(t, s.value.end);
      var rest, ps := ParaSpans(t, s.value.end), ParaSpans(t, i);
      assert ps == [Span(i, s.value.start)] + rest;
      forall k | 1 <= k < |ps| ensures LongestSeparator(t, ps[k - 1].end, ps[k].start) {
        if k > 1 { assert ps[k] == rest[k - 1] && ps[k - 1] == rest[k - 2]; }
      }
      forall k, a: nat | 0 <= k < |ps| && ps[k].start <= a < ps[k].end ensures !StartsSeparator(t, a) {
        if k > 0 { assert ps[k] == rest[k - 1]; }
      }
    }
  }

  lemma SeparatorIsSpace(t: string, i: nat)
    requires i < |t| && SeparatorEnd(t, i).Some?
    ensures var e := SeparatorEnd(t, i).value; AllSpace(t, i, e) && IsSpace(t[i]) && IsSpace(t[e - 1])
  {
    var s := SkipSpace(t, i + 1, |t|);
    var e := SeparatorEnd(t, i).value;
    SkipSpaceVia(t, i + 1, e, |t|);
  }

  /** Between two paragraphs there is whitespace only; both ends are word boundaries. */
  ghost predicate WellPlaced(t: string, ps: seq<Span>, i: nat) {
    && |ps| > 0 && ps[0].start == i && ps[|ps| - 1].end == |t|
    && (forall k :: 0 <= k < |ps| ==> ps[k].start <= ps[k].end <= |t| && AtBoundary(t, ps[k].end))
    && (forall k :: 1 <= k < |ps| ==>
          ps[k - 1].end <= ps[k].start && AllSpace(t, ps[k - 1].end, ps[k].start) && AtBoundary(t, ps[k].start))
  }

  lemma {:induction false} ParaSpansWellPlaced(t: string, i: nat)
    requires i <= |t|
    ensures WellPlaced(t, ParaSpans(t, i), i)
    decreases |t| - i
  {
    hide SkipSpace, IsSpace, SeparatorEnd, NextSeparator;
    var s := NextSeparator(t, i);
    if s.Some? {
      SeparatorIsSpace(t, s.value.start);
      ParaSpansWellPlaced(t, s.value.end);
      WellPlacedCons(t, ParaSpans(t, s.value.end), i, s.value.start, s.value.end);
    }
  }

  lemma WellPlacedCons(t: string, rest: seq<Span>, i: nat, a: nat, b: nat)
    requires i <= a < b <= |t| && WellPlaced(t, rest, b)
    requires AllSpace(t, a, b) && IsSpace(t[a]) && IsSpace(t[b - 1])
    ensures WellPlaced(t, [Span(i, a)] + rest, i)
  {
    hide AllSpace, IsSpace;
    var ps := [Span(i, a)] + rest;
    forall k | 1 <= k < |ps|
      ensures ps[k - 1].end <= ps[k].start && AllSpace(t, ps[k - 1].end, ps[k].start) && AtBoundary(t, ps[k].start)
    {
      if k > 1 { assert ps[k] == rest[k - 1] && ps[k - 1] == rest[k - 2]; }
    }
  }

  /** The recovered span is the original one, or both hold no word. */
  predicate Recovered(t: string, found: Span, orig: Span) {
    && found.start <= found.end <= |t| && orig.start <= orig.end <= |t|
    && (found == orig || (AllSpace(t, found.start, found.end) && AllSpace(t, orig.start, orig.end)))
  }

  lemma NothingIsSpace(t: string, i: nat)
    requires i <= |t|
    ensures AllSpace(t, i, i)
  {
  }

  lemma BlankSlice(t: string, lo: nat, hi: nat)
    requires lo <= hi <= |t|
    ensures Blank(t[lo..hi]) <==> AllSpace(t, lo, hi)
  {
    RunsOfSlice(t, lo, hi, 0);
  }

  /** One step of the recovery loop: the search never leaves the whitespace before the paragraph. */
  lemma RecoverStep(t: string, orig: Span, pos: nat)
    requires pos <= orig.start <= orig.end <= |t| && AllSpace(t, pos, orig.start)
    ensures var para := Piece(t, orig);
      && Find(t, para, pos).Some?
      && var p := if para != "" then Find(t, para, pos).value else pos;
         && pos <= p <= orig.start && p + |para| <= orig.end
         && Recovered(t, Span(p, p + |para|), orig)
         && AllSpace(t, p + |para|, orig.end)
  {
    var para := Piece(t, orig);
    assert OccursAt(t, para, orig.start);
    BlankSlice(t, orig.start, orig.end);
    var p := if para != "" then Find(t, para, pos).value else pos;
    if Blank(para) {
      AllSpaceJoin(t, pos, orig.start, orig.end);
      AllSpaceJoin(t, pos, p, orig.end);
      AllSpaceJoin(t, p, p + |para|, orig.end);
    } else {
      FindSkipsSpace(t, para, pos, orig.start);
      AllSpaceJoin(t, orig.end, orig.end, orig.end);
    }
  }

  /** body_text.index(para, pos) finds every paragraph that holds a word where it really is. */
  method ParagraphSpans(body: string) returns (spans: seq<Span>)
    ensures |spans| == |ParaSpans(body, 0)|
    ensures forall k :: 0 <= k < |spans| ==> Recovered(body, spans[k], ParaSpans(body, 0)[k])
  {
    hide ParaSpans, Texts, IsSpace, AllSpace, SkipSpace, AtBoundary, Recovered, Find, Piece;
    spans := [];
    ghost var ps := ParaSpans(body, 0);
    ParaSpansWellPlaced(body, 0);
    NothingIsSpace(body, 0);
    var paras := ReSplit(body);
    var pos: nat := 0;
    for k := 0 to |paras|
      invariant |spans| == k && pos <= |body|
      invariant k < |ps| ==> pos <= ps[k].start && AllSpace(body, pos, ps[k].start)
      invariant forall j :: 0 <= j < k ==> Recovered(body, spans[j], ps[j])
    {
      var para := paras[k];
      TextsAt(body, ps, k);
      RecoverStep(body, ps[k], pos);
      var pStart := if para != "" then Find(body, para, pos).value else pos;
      spans := spans + [Span(pStart, pStart + |para|)];
      pos := pStart + |para|;
      if k + 1 < |ps| {
        AllSpaceJoin(body, pos, ps[k].end, ps[k + 1].start);
      }
    }
  }
}
