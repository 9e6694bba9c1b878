/**
 Strings as the text-processing code sees them: a whitespace class shared by
 str.split, str.strip and the regular-expression class \s, the maximal
 non-whitespace runs of a slice, and substring search.
 */
module Text {
  import opened Options

  /** A half-open interval of character offsets. */
  datatype Span = Span(start: nat, end: nat)

  /** The characters Python's str.isspace accepts as separators. */
  predicate IsSpace(c: char) {
    var n := c as int;
    || 0x09 <= n <= 0x0D || 0x1C <= n <= 0x20 || n == 0x85 || n == 0xA0 || n == 0x1680
    || 0x2000 <= n <= 0x200A || n == 0x2028 || n == 0x2029 || n == 0x202F || n == 0x205F || n == 0x3000
  }

  /** In ASCII: the space, tab to carriage return, and the four information separators. */
  lemma AsciiWhitespace(c: char)
    requires c as int < 0x80
    ensures IsSpace(c) <==> c in " \t\n\r\U{0B}\U{0C}\U{1C}\U{1D}\U{1E}\U{1F}"
  {
    var ws := " \t\n\r\U{0B}\U{0C}\U{1C}\U{1D}\U{1E}\U{1F}";
    assert ws[0] == ' ' && ws[1] == '\t' && ws[2] == '\n' && ws[3] == '\r' && ws[4] as int == 0x0B;
    assert ws[5] as int == 0x0C && ws[6] as int == 0x1C && ws[7] as int == 0x1D && ws[8] as int == 0x1E;
    assert ws[9] as int == 0x1F && |ws| == 10;
  }

  /** The first non-whitespace offset at or after i, or hi. */
  function SkipSpace(t: string, i: nat, hi: nat): (s: nat)
    requires i <= hi <= |t|
    ensures i <= s <= hi
    decreases hi - i
  {
    if i == hi || !IsSpace(t[i]) then i else SkipSpace(t, i + 1, hi)
  }

  /** The first whitespace offset at or after i, or hi. */
  function WordEnd(t: string, i: nat, hi: nat): (e: nat)
    requires i <= hi <= |t|
    ensures i <= e <= hi
    ensures i < hi && !IsSpace(t[i]) ==> i < e
    decreases hi - i
  {
    if i == hi || IsSpace(t[i]) then i else WordEnd(t, i + 1, hi)
  }

  predicate AllSpace(t: string, lo: nat, hi: nat)
    requires lo <= hi <= |t|
  {
    SkipSpace(t, lo, hi) == hi
  }

  predicate Blank(t: string) { AllSpace(t, 0, |t|) }

  lemma SkipSpaceStops(t: string, i: nat, hi: nat)
    requires i <= hi <= |t|
    ensures SkipSpace(t, i, hi) < hi ==> !IsSpace(t[SkipSpace(t, i, hi)])
    decreases hi - i
  {
  }

  /** The maximal non-whitespace runs of t[lo..hi], as offsets into t. */
  function Words(t: string, lo: nat, hi: nat): seq<Span>
    requires lo <= hi <= |t|
    decreases hi - lo
  {
    var s := SkipSpace(t, lo, hi);
    SkipSpaceStops(t, lo, hi);
    if s == hi then [] else [Span(s, WordEnd(t, s, hi))] + Words(t, WordEnd(t, s, hi), hi)
  }

  lemma {:induction false} WordsInside(t: string, lo: nat, hi: nat)
    requires lo <= hi <= |t|
    ensures forall k :: 0 <= k < |Words(t, lo, hi)| ==> lo <= Words(t, lo, hi)[k].start < Words(t, lo, hi)[k].end <= hi
    decreases hi - lo
  {
    SkipSpaceStops(t, lo, hi);
    var s := SkipSpace(t, lo, hi);
    if s < hi {
      WordsInside(t, WordEnd(t, s, hi), hi);
    }
  }

  /** A position where cutting t does not cut a word. */
  predicate AtBoundary(t: string, m: nat)
    requires m <= |t|
  {
    m == 0 || m == |t| || IsSpace(t[m - 1]) || IsSpace(t[m])
  }

  lemma SkipSpaceVia(t: string, i: nat, m: nat, hi: nat)
    requires i <= m <= hi <= |t|
    ensures SkipSpace(t, i, m) == if SkipSpace(t, i, hi) < m then SkipSpace(t, i, hi) else m
    ensures AllSpace(t, i, m) ==> SkipSpace(t, i, hi) == SkipSpace(t, m, hi)
    decreases hi - i
  {
  }

  lemma AllSpaceJoin(t: string, a: nat, b: nat, c: nat)
    requires a <= b <= c <= |t|
    ensures AllSpace(t, a, c) <==> AllSpace(t, a, b) && AllSpace(t, b, c)
  {
    SkipSpaceVia(t, a, b, c);
  }

  lemma WordEndVia(t: string, i: nat, m: nat, hi: nat)
    requires i <= m <= hi <= |t|
    ensures WordEnd(t, i, m) == if WordEnd(t, i, hi) < m then WordEnd(t, i, hi) else m
    ensures m < WordEnd(t, i, hi) ==> !IsSpace(t[m]) && (i < m ==> !IsSpace(t[m - 1]))
    decreases hi - i
  {
    if i < m && !IsSpace(t[i]) { WordEndVia(t, i + 1, m, hi); }
  }

  lemma WordsOfSpace(t: string, lo: nat, m: nat, hi: nat)
    requires lo <= m <= hi <= |t| && AllSpace(t, lo, m)
    ensures Words(t, lo, hi) == Words(t, m, hi)
  {
    SkipSpaceVia(t, lo, m, hi);
  }

  /** Cutting a slice at a word boundary cuts its word list, and nothing else. */
  lemma {:induction false} WordsCut(t: string, lo: nat, m: nat, hi: nat)
    requires lo <= m <= hi <= |t|
    requires AtBoundary(t, m)
    ensures Words(t, lo, hi) == Words(t, lo, m) + Words(t, m, hi)
    decreases hi - lo
  {
    var s := SkipSpace(t, lo, hi);
    SkipSpaceStops(t, lo, hi);
    SkipSpaceVia(t, lo, m, hi);
    if s >= m {
      WordsOfSpace(t, lo, m, hi);
    } else {
      var e := WordEnd(t, s, hi);
      WordEndVia(t, s, m, hi);
      assert e <= m;
      WordsCut(t, e, m, hi);
      assert Words(t, lo, hi) == [Span(s, e)] + (Words(t, e, m) + Words(t, m, hi));
    }
  }

  function Shift(spans: seq<Span>, d: nat): (r: seq<Span>)
    ensures |r| == |spans|
  {
    if spans == [] then [] else [Span(spans[0].start + d, spans[0].end + d)] + Shift(spans[1..], d)
  }

  lemma RunsOfSlice(t: string, lo: nat, hi: nat, i: nat)
    requires lo + i <= hi <= |t|
    ensures SkipSpace(t, lo + i, hi) == lo + SkipSpace(t[lo..hi], i, hi - lo)
    ensures WordEnd(t, lo + i, hi) == lo + WordEnd(t[lo..hi], i, hi - lo)
    decreases hi - lo - i
  {
    if lo + i < hi { RunsOfSlice(t, lo, hi, i + 1); }
  }

  lemma WordsUnfold(t: string, lo: nat, hi: nat)
    requires lo <= hi <= |t|
    ensures var s := SkipSpace(t, lo, hi);
      Words(t, lo, hi) == if s == hi then [] else [Span(s, WordEnd(t, s, hi))] + Words(t, WordEnd(t, s, hi), hi)
    ensures SkipSpace(t, lo, hi) < hi ==> SkipSpace(t, lo, hi) < WordEnd(t, SkipSpace(t, lo, hi), hi)
  {
    SkipSpaceStops(t, lo, hi);
  }

  lemma ShiftCons(f: Span, rest: seq<Span>, d: nat)
    ensures Shift([f] + rest, d) == [Span(f.start + d, f.end + d)] + Shift(rest, d)
    ensures Shift([], d) == []
  {
    assert ([f] + rest)[1..] == rest;
  }

  /** Word offsets computed inside a slice are off by exactly the slice's start. */
  lemma {:induction false} WordsOfSlice(t: string, lo: nat, hi: nat, i: nat)
    requires lo + i <= hi <= |t|
    ensures Words(t, lo + i, hi) == Shift(Words(t[lo..hi], i, hi - lo), lo)
    decreases hi - lo - i
  {
    hide Words, SkipSpace, WordEnd, Shift;
    var u := t[lo..hi];
    RunsOfSlice(t, lo, hi, i);
    WordsUnfold(u, i, hi - lo);
    WordsUnfold(t, lo + i, hi);
    var s := SkipSpace(u, i, hi - lo);
    ShiftCons(Span(0, 0), [], lo);
    if s < hi - lo {
      RunsOfSlice(t, lo, hi, s);
      var e := WordEnd(u, s, hi - lo);
      WordsOfSlice(t, lo, hi, e);
      ShiftCons(Span(s, e), Words(u, e, hi - lo), lo);
    }
  }

  /** The text of a span; spans of t's own words always lie inside t. */
  function Piece(t: string, w: Span): string {
    if w.start <= w.end <= |t| then t[w.start..w.end] else ""
  }

  /** The texts of some of t's words; over all of them, what str.split() returns. */
  function Texts(t: string, spans: seq<Span>): (r: seq<string>)
    ensures |r| == |spans|
  {
    if spans == [] then [] else [Piece(t, spans[0])] + Texts(t, spans[1..])
  }

  function Split(t: string): seq<string> {
    Texts(t, Words(t, 0, |t|))
  }

  lemma {:induction false} TextsAt(t: string, spans: seq<Span>, k: nat)
    requires k < |spans|
    ensures Texts(t, spans)[k] == Piece(t, spans[k])
  {
    if k > 0 { TextsAt(t, spans[1..], k - 1); }
  }

  lemma SliceOfSlice(t: string, lo: nat, hi: nat, a: nat, b: nat)
    requires a <= b <= hi - lo && lo <= hi <= |t|
    ensures t[lo..hi][a..b] == t[lo + a..lo + b]
  {
    var l, r := t[lo..hi][a..b], t[lo + a..lo + b];
    assert |l| == |r|;
    forall k | 0 <= k < |l| ensures l[k] == r[k] {
      assert l[k] == t[lo..hi][a + k] == t[lo + a + k];
    }
  }

  lemma {:induction false} TextsShift(t: string, lo: nat, hi: nat, w: seq<Span>)
    requires lo <= hi <= |t|
    requires forall k :: 0 <= k < |w| ==> w[k].start <= w[k].end <= hi - lo
    ensures Texts(t[lo..hi], w) == Texts(t, Shift(w, lo))
  {
    if w != [] {
      TextsShift(t, lo, hi, w[1..]);
      SliceOfSlice(t, lo, hi, w[0].start, w[0].end);
      assert Shift(w, lo)[1..] == Shift(w[1..], lo);
    }
  }

  /** Splitting a slice gives the texts of the words inside its bounds. */
  lemma TextsOfSlice(t: string, lo: nat, hi: nat)
    requires lo <= hi <= |t|
    ensures Split(t[lo..hi]) == Texts(t, Words(t, lo, hi))
  {
    hide Words, IsSpace, SkipSpace, WordEnd;
    WordsOfSlice(t, lo, hi, 0);
    assert |t[lo..hi]| == hi - lo;
    WordsInside(t[lo..hi], 0, hi - lo);
    TextsShift(t, lo, hi, Words(t[lo..hi], 0, hi - lo));
  }

  predicate OccursAt(t: string, pat: string, j: nat) {
    j + |pat| <= |t| && t[j..j + |pat|] == pat
  }

  /** Offset of the first occurrence of pat at or after i (str.find, str.index). */
  function Find(t: string, pat: string, i: nat): (r: Option<nat>)
    requires i <= |t|
    ensures r.Some? ==> i <= r.value && OccursAt(t, pat, r.value)
    ensures forall j :: i <= j && (r.Some? ==> j < r.value) ==> !OccursAt(t, pat, j)
    decreases |t| - i
  {
    if OccursAt(t, pat, i) then Some(i)
    else if i == |t| then None
    else Find(t, pat, i + 1)
  }

  lemma AllSpaceAt(t: string, lo: nat, hi: nat, k: nat)
    requires lo <= k < hi <= |t| && AllSpace(t, lo, hi)
    ensures IsSpace(t[k])
    decreases k - lo
  {
    if lo < k { AllSpaceAt(t, lo + 1, hi, k); }
  }

  /**
   The lemma behind every "first occurrence from here" in the source: when only
   whitespace lies between the search position and the place a pattern was cut
   from, and the pattern holds some non-whitespace, the search finds that place.
   */
  lemma FindSkipsSpace(t: string, pat: string, i: nat, at: nat)
    requires i <= at <= |t| && OccursAt(t, pat, at) && AllSpace(t, i, at) && !Blank(pat)
    ensures Find(t, pat, i) == Some(at)
  {
    forall j | i <= j < at ensures !OccursAt(t, pat, j) {
      NoEarlierOccurrence(t, pat, i, at, j);
    }
  }

  lemma NoEarlierOccurrence(t: string, pat: string, i: nat, at: nat, j: nat)
    requires i <= j < at <= |t| && OccursAt(t, pat, at)
    requires AllSpace(t, i, at) && !Blank(pat)
    ensures !OccursAt(t, pat, j)
  {
    if OccursAt(t, pat, j) {
      var k := SkipSpace(pat, 0, |pat|);
      SkipSpaceStops(pat, 0, |pat|);
      assert pat[k] == t[j..j + |pat|][k];
      if j + k < at {
        AllSpaceAt(t, i, at, j + k);
      } else {
        var d := j + k - at;
        assert pat[d] == t[at..at + |pat|][d] == t[j + k] == pat[k];
        SkipSpaceVia(pat, 0, k, |pat|);
        AllSpaceAt(pat, 0, k, d);
      }
    }
  }

  /** Consecutive words are separated by whitespace only, and each starts with none. */
  lemma {:induction false} WordsNext(t: string, lo: nat, hi: nat, k: nat)
    requires lo <= hi <= |t| && k < |Words(t, lo, hi)|
    ensures var w := Words(t, lo, hi);
      var prev := if k == 0 then lo else w[k - 1].end;
      prev <= w[k].start < w[k].end <= hi && AllSpace(t, prev, w[k].start) && !IsSpace(t[w[k].start])
    decreases k
  {
    SkipSpaceStops(t, lo, hi);
    var s := SkipSpace(t, lo, hi);
    if k == 0 {
      SkipSpaceVia(t, lo, s, hi);
    } else {
      WordsNext(t, WordEnd(t, s, hi), hi, k - 1);
    }
  }

  lemma {:induction false} WordStops(t: string, lo: nat, hi: nat, k: nat)
    requires lo <= hi <= |t| && k < |Words(t, lo, hi)|
    ensures var w := Words(t, lo, hi);
      && w[k].end <= hi && (w[k].end < hi ==> IsSpace(t[w[k].end]))
      && (k == |w| - 1 ==> AllSpace(t, w[k].end, hi))
    decreases k
  {
    SkipSpaceStops(t, lo, hi);
    var s := SkipSpace(t, lo, hi);
    var e := WordEnd(t, s, hi);
    if k == 0 { WordEndStops(t, s, hi); } else { WordStops(t, e, hi, k - 1); }
  }

  lemma WordEndStops(t: string, i: nat, hi: nat)
    requires i <= hi <= |t|
    ensures WordEnd(t, i, hi) < hi ==> IsSpace(t[WordEnd(t, i, hi)])
    decreases hi - i
  {
  }

  /** The words are the maximal runs of characters that are not whitespace. */
  lemma {:induction false} WordsAreMaximalRuns(t: string, lo: nat, hi: nat)
    requires lo <= hi <= |t|
    ensures var w := Words(t, lo, hi);
      && (forall k :: 0 <= k < |w| ==> lo <= w[k].start < w[k].end <= hi)
      && (forall k :: 1 <= k < |w| ==> w[k - 1].end < w[k].start)
      && (forall p :: lo <= p < hi ==> (!IsSpace(t[p]) <==> exists k :: 0 <= k < |w| && w[k].start <= p < w[k].end))
    decreases hi - lo
  {
    SkipSpaceStops(t, lo, hi);
    var s := SkipSpace(t, lo, hi);
    forall p | lo <= p < s ensures IsSpace(t[p]) { SkipSpaceVia(t, lo, s, hi); AllSpaceAt(t, lo, s, p); }
    var w := Words(t, lo, hi);
    if s < hi {
      var e := WordEnd(t, s, hi);
      var rest := Words(t, e, hi);
      WordsAreMaximalRuns(t, e, hi);
      WordEndStops(t, s, hi);
      forall p | s <= p < e ensures !IsSpace(t[p]) { WordEndVia(t, s, p, hi); }
      hide Words, SkipSpace, WordEnd, IsSpace;
      RunsBeforeRuns(t, lo, hi, s, e, rest);
    }
  }

  lemma RunsBeforeRuns(t: string, lo: nat, hi: nat, s: nat, e: nat, rest: seq<Span>)
    requires lo <= s < e <= hi <= |t| && (e < hi ==> IsSpace(t[e]))
    requires forall p :: lo <= p < e ==> (!IsSpace(t[p]) <==> s <= p)
    requires forall k :: 0 <= k < |rest| ==> e <= rest[k].start < rest[k].end <= hi
    requires forall k :: 1 <= k < |rest| ==> rest[k - 1].end < rest[k].start
    requires forall p :: e <= p < hi ==>
      (!IsSpace(t[p]) <==> exists k :: 0 <= k < |rest| && rest[k].start <= p < rest[k].end)
    ensures var w := [Span(s, e)] + rest;
      && (forall k :: 0 <= k < |w| ==> lo <= w[k].start < w[k].end <= hi)
      && (forall k :: 1 <= k < |w| ==> w[k - 1].end < w[k].start)
      && (forall p :: lo <= p < hi ==> (!IsSpace(t[p]) <==> exists k :: 0 <= k < |w| && w[k].start <= p < w[k].end))
  {
    hide IsSpace;
    var w := [Span(s, e)] + rest;
    forall k | 1 <= k < |w| ensures w[k - 1].end < w[k].start {
      assert w[k] == rest[k - 1];
      if k == 1 {
        assert rest[0].start <= rest[0].start < rest[0].end;
      } else {
        assert w[k - 1] == rest[k - 2];
      }
    }
    forall p | lo <= p < hi ensures !IsSpace(t[p]) <==> exists k :: 0 <= k < |w| && w[k].start <= p < w[k].end {
      if k :| 0 <= k < |rest| && rest[k].start <= p < rest[k].end { assert w[k + 1] == rest[k]; }
      if s <= p < e { assert w[0].start <= p < w[0].end; }
      if k :| 0 <= k < |w| && w[k].start <= p < w[k].end {
        if k > 0 { assert w[k] == rest[k - 1]; }
      }
    }
  }

  /** Inside a slice cut at word boundaries, each word begins and ends at a boundary. */
  lemma WordBoundaries(t: string, lo: nat, hi: nat, k: nat)
    requires lo <= hi <= |t| && k < |Words(t, lo, hi)| && AtBoundary(t, lo) && AtBoundary(t, hi)
    ensures var w := Words(t, lo, hi);
      w[k].start < w[k].end <= |t| && AtBoundary(t, w[k].start) && AtBoundary(t, w[k].end)
  {
    hide Words;
    var w := Words(t, lo, hi);
    WordsNext(t, lo, hi, k);
    WordStops(t, lo, hi, k);
    var prev := if k == 0 then lo else w[k - 1].end;
    if prev < w[k].start {
      AllSpaceAt(t, prev, w[k].start, w[k].start - 1);
    } else if k > 0 {
      WordStops(t, lo, hi, k - 1);
    }
  }

  /** Cutting anywhere after the first word leaves the first word. */
  lemma FirstWord(t: string, lo: nat, hi: nat, z: nat)
    requires lo <= hi <= |t| && Words(t, lo, hi) != [] && Words(t, lo, hi)[0].end <= z <= hi
    ensures var f := Words(t, lo, hi)[0];
      && lo <= f.start < f.end <= hi && Words(t, lo, hi) == [f] + Words(t, f.end, hi)
      && Words(t, f.start, z) == [f] + Words(t, f.end, z)
    ensures Words(t, z, z) == []
  {
    SkipSpaceStops(t, lo, hi);
    var s := SkipSpace(t, lo, hi);
    WordEndVia(t, s, z, hi);
    assert SkipSpace(t, s, z) == s;
  }

  /** The first j words are the words of the slice from the first one's start. */
  lemma {:induction false} WordsPrefix(t: string, lo: nat, hi: nat, j: nat)
    requires lo <= hi <= |t| && 0 < j <= |Words(t, lo, hi)|
    ensures var w := Words(t, lo, hi);
      w[0].start <= w[j - 1].end <= |t| && Words(t, w[0].start, w[j - 1].end) == w[..j]
    decreases j
  {
    hide Words, SkipSpace, WordEnd, AllSpace, IsSpace;
    WordsInside(t, lo, hi);
    var w := Words(t, lo, hi);
    WordsNext(t, lo, hi, 0);
    var f := w[0];
    FirstWord(t, lo, hi, f.end);
    var rest := Words(t, f.end, hi);
    if j > 1 {
      WordsPrefix(t, f.end, hi, j - 1);
      WordsNext(t, f.end, hi, 0);
      WordsInside(t, f.end, hi);
      var z := rest[j - 2].end;
      FirstWord(t, lo, hi, z);
      WordsOfSpace(t, f.end, rest[0].start, z);
      assert w[..j] == [f] + rest[..j - 1];
    }
  }

  /** The words from the i-th up to the j-th are the words of the slice they span. */
  lemma {:induction false} WordsWindow(t: string, lo: nat, hi: nat, i: nat, j: nat)
    requires lo <= hi <= |t| && i < j <= |Words(t, lo, hi)|
    ensures var w := Words(t, lo, hi);
      w[i].start <= w[j - 1].end <= |t| && Words(t, w[i].start, w[j - 1].end) == w[i..j]
    decreases i
  {
    hide Words, SkipSpace, WordEnd;
    if i == 0 {
      WordsPrefix(t, lo, hi, j);
    } else {
      WordsInside(t, lo, hi);
      var e := Words(t, lo, hi)[0].end;
      FirstWord(t, lo, hi, e);
      WordsWindow(t, e, hi, i - 1, j - 1);
      assert Words(t, e, hi)[i - 1..j - 1] == Words(t, lo, hi)[i..j];
    }
  }

  lemma {:induction false} TextsAppend(t: string, a: seq<Span>, b: seq<Span>)
    ensures Texts(t, a + b) == Texts(t, a) + Texts(t, b)
  {
    if a == [] {
      assert a + b == b;
    } else {
      assert (a + b)[1..] == a[1..] + b;
      TextsAppend(t, a[1..], b);
    }
  }
}
