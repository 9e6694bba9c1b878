/**
 Locating a model's quote in evidence text: an exact search first, then a scan
 for the quote's lower-cased word list among the evidence's lower-cased words,
 mapped back to character offsets. Lower-casing is an arbitrary function, since
 it may change a word's length.
 */
module Grounding {
  import opened Options
  import opened Text

  type Lowering = string -> string

  function Lowered(words: seq<string>, lower: Lowering): (r: seq<string>)
    ensures |r| == |words|
    ensures forall k :: 0 <= k < |words| ==> r[k] == lower(words[k])
  {
    seq(|words|, k requires 0 <= k < |words| => lower(words[k]))
  }

  /** The quote's words, lower-cased, are the evidence's words i, i+1, ... */
  predicate WindowAt(quote: string, evidence: string, lower: Lowering, i: nat) {
    var n := |Split(quote)|;
    i + n <= |Split(evidence)| && Lowered(Split(evidence)[i..i + n], lower) == Lowered(Split(quote), lower)
  }

  ghost predicate HasWindow(quote: string, evidence: string, lower: Lowering) {
    exists i: nat :: WindowAt(quote, evidence, lower, i)
  }

  ghost predicate Contains(evidence: string, quote: string) {
    exists j: nat :: OccursAt(evidence, quote, j)
  }

  /** What grounding is for: some words of the evidence are the words of the quote. */
  ghost predicate Locatable(quote: string, evidence: string, lower: Lowering) {
    !Blank(quote) && (Contains(evidence, quote) || HasWindow(quote, evidence, lower))
  }

  datatype Token = Token(word: string, start: nat, end: nat)

  lemma WordIsFound(t: string, k: nat)
    requires k < |Words(t, 0, |t|)|
    ensures var w := Words(t, 0, |t|);
      var prev := if k == 0 then 0 else w[k - 1].end;
      prev <= |t| && Find(t, Split(t)[k], prev) == Some(w[k].start) && |Split(t)[k]| == w[k].end - w[k].start
  {
    var w := Words(t, 0, |t|);
    WordsNext(t, 0, |t|, k);
    TextsAt(t, w, k);
    var word := Split(t)[k];
    assert word[0] == t[w[k].start];
    FindSkipsSpace(t, word, if k == 0 then 0 else w[k - 1].end, w[k].start);
  }

  /** Each word found by searching from the end of the one before; never in the wrong place. */
  method TokensWithOffsets(text: string, lower: Lowering) returns (out: seq<Token>)
    ensures |out| == |Words(text, 0, |text|)|
    ensures forall k :: 0 <= k < |out| ==>
      out[k] == Token(lower(Split(text)[k]), Words(text, 0, |text|)[k].start, Words(text, 0, |text|)[k].end)
  {
    out := [];
    var words := Split(text);
    ghost var w := Words(text, 0, |text|);
    var i := 0;
    for k := 0 to |words|
      invariant |out| == k && i == if k == 0 then 0 else w[k - 1].end
      invariant i <= |text|
      invariant forall j :: 0 <= j < k ==> out[j] == Token(lower(words[j]), w[j].start, w[j].end)
    {
      WordIsFound(text, k);
      var start := Find(text, words[k], i).value;
      out := out + [Token(lower(words[k]), start, start + |words[k]|)];
      i := start + |words[k]|;
    }
  }

  lemma WordCount(t: string)
    ensures |Split(t)| == |Words(t, 0, |t|)|
    ensures !Blank(t) ==> Split(t) != []
  {
  }

  /** The slice from the first to the last word of a window has the quote's words. */
  lemma WindowSlice(quote: string, evidence: string, lower: Lowering, i: nat)
    requires WindowAt(quote, evidence, lower, i) && Split(quote) != []
    ensures var w := Words(evidence, 0, |evidence|);
      var n := |Split(quote)|;
      |w| == |Split(evidence)| && w[i].start < w[i + n - 1].end <= |evidence|
      && Lowered(Split(evidence[w[i].start..w[i + n - 1].end]), lower) == Lowered(Split(quote), lower)
  {
    hide Words, Texts, SkipSpace, WordEnd, IsSpace;
    var w := Words(evidence, 0, |evidence|);
    var n := |Split(quote)|;
    WordsInOrder(evidence, 0, |evidence|, i, i + n - 1);
    WordsWindow(evidence, 0, |evidence|, i, i + n);
    TextsOfSlice(evidence, w[i].start, w[i + n - 1].end);
    TextsOfWindow(evidence, w, i, i + n);
  }

  lemma TextsOfWindow(t: string, w: seq<Span>, i: nat, j: nat)
    requires i <= j <= |w|
    ensures Texts(t, w)[i..j] == Texts(t, w[i..j])
  {
    hide Texts;
    TextsAppend(t, w[..i], w[i..]);
    TextsAppend(t, w[i..j], w[j..]);
    assert w[..i] + w[i..] == w && w[i..j] + w[j..] == w[i..];
  }

  lemma {:induction false} WordsInOrder(t: string, lo: nat, hi: nat, i: nat, j: nat)
    requires lo <= hi <= |t| && i <= j < |Words(t, lo, hi)|
    ensures Words(t, lo, hi)[i].start < Words(t, lo, hi)[j].end <= hi
    decreases j
  {
    WordsNext(t, lo, hi, j);
    if i < j { WordsInOrder(t, lo, hi, i, j - 1); }
  }

  method GroundQuote(quote: string, evidence: string, lower: Lowering) returns (r: Option<Span>)
    ensures r.Some? <==> Locatable(quote, evidence, lower)
    ensures r.Some? ==>
      r.value.start < r.value.end <= |evidence|
      && Lowered(Split(evidence[r.value.start..r.value.end]), lower) == Lowered(Split(quote), lower)
    ensures r.Some? && Contains(evidence, quote) ==>
      OccursAt(evidence, quote, r.value.start) && r.value.end == r.value.start + |quote|
      && forall j: nat :: OccursAt(evidence, quote, j) ==> r.value.start <= j
    ensures r.Some? && !Contains(evidence, quote) ==>
      exists i: nat :: WindowAt(quote, evidence, lower, i)
        && (forall h: nat :: WindowAt(quote, evidence, lower, h) ==> i <= h)
        && r.value.start == Words(evidence, 0, |evidence|)[i].start
        && r.value.end == Words(evidence, 0, |evidence|)[i + |Split(quote)| - 1].end
  {
    hide Words, Texts, SkipSpace, WordEnd, IsSpace;
    if Blank(quote) {
      return None;
    }
    WordCount(quote);
    WordCount(evidence);
    assert 0 < |quote|;
    var idx := Find(evidence, quote, 0);
    if idx.Some? {
      assert evidence[idx.value..idx.value + |quote|] == quote;
      return Some(Span(idx.value, idx.value + |quote|));
    }
    var quoteTokens := Lowered(Split(quote), lower);
    if quoteTokens == [] {
      return None;
    }
    var ev := TokensWithOffsets(evidence, lower);
    var evWords := seq(|ev|, k requires 0 <= k < |ev| => ev[k].word);
    var n := |quoteTokens|;
    assert evWords == Lowered(Split(evidence), lower);
    var i := 0;
    while i < |evWords| - n + 1
      invariant 0 <= i
      invariant forall h: nat :: h < i ==> !WindowAt(quote, evidence, lower, h)
    {
      assert Lowered(Split(evidence)[i..i + n], lower) == evWords[i..i + n];
      if evWords[i..i + n] == quoteTokens {
        WindowSlice(quote, evidence, lower, i);
        return Some(Span(ev[i].start, ev[i + n - 1].end));
      }
      i := i + 1;
    }
    return None;
  }

  /** A slice cut at word boundaries contributes a contiguous run of the whole's words. */
  lemma SplitAround(body: string, lo: nat, hi: nat)
    requires lo <= hi <= |body| && AtBoundary(body, lo) && AtBoundary(body, hi)
    ensures Split(body) == Texts(body, Words(body, 0, lo)) + Split(body[lo..hi]) + Texts(body, Words(body, hi, |body|))
  {
    hide Words, Texts, IsSpace, SkipSpace, WordEnd;
    var a, m, c := Words(body, 0, lo), Words(body, lo, hi), Words(body, hi, |body|);
    WordsCut(body, 0, lo, |body|);
    WordsCut(body, lo, hi, |body|);
    TextsAppend(body, a, m + c);
    TextsAppend(body, m, c);
    TextsOfSlice(body, lo, hi);
  }

  /** A quote located in a slice cut at word boundaries is located in the whole text. */
  lemma LocatableInWhole(quote: string, body: string, lo: nat, hi: nat, lower: Lowering)
    requires lo <= hi <= |body| && AtBoundary(body, lo) && AtBoundary(body, hi)
    requires Locatable(quote, body[lo..hi], lower)
    ensures Locatable(quote, body, lower)
  {
    hide Split, IsSpace, SkipSpace;
    var u := body[lo..hi];
    if Contains(u, quote) {
      var j: nat :| OccursAt(u, quote, j);
      SliceOfSlice(body, lo, hi, j, j + |quote|);
      assert OccursAt(body, quote, lo + j);
    } else {
      var i: nat :| WindowAt(quote, u, lower, i);
      WindowInWhole(quote, body, lo, hi, lower, i);
    }
  }

  lemma WindowInWhole(quote: string, body: string, lo: nat, hi: nat, lower: Lowering, i: nat)
    requires lo <= hi <= |body| && AtBoundary(body, lo) && AtBoundary(body, hi)
    requires WindowAt(quote, body[lo..hi], lower, i)
    ensures WindowAt(quote, body, lower, |Words(body, 0, lo)| + i)
  {
    hide Split, Texts, Words, IsSpace, SkipSpace;
    SplitAround(body, lo, hi);
    var a, n := |Words(body, 0, lo)|, |Split(quote)|;
    assert Split(body)[a + i..a + i + n] == Split(body[lo..hi])[i..i + n];
  }
}
