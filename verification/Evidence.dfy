/** Evidence bundles: the retrieved chunks of one body, joined for one extraction call. */
module Evidence {
  import opened Options
  import opened Text
  import opened Lines
  import opened Grounding
  import opened Chunks

  /** The text an extraction call sees: chunk texts separated by blank lines. */
  function Bundle(chunks: seq<Chunk>): string {
    Join("\n\n", seq(|chunks|, k requires 0 <= k < |chunks| => chunks[k].text))
  }

  /** The quotes that can be located, in order. */
  ghost function Locatables(quotes: seq<string>, evidence: string, lower: Lowering): seq<string> {
    if quotes == [] then []
    else
      var before := Locatables(quotes[..|quotes| - 1], evidence, lower);
      if Locatable(quotes[|quotes| - 1], evidence, lower) then before + [quotes[|quotes| - 1]] else before
  }

  /** The filter after extraction: what is kept and how many claims are dropped. */
  method KeepGrounded(quotes: seq<string>, evidence: string, lower: Lowering)
    returns (grounded: seq<string>, dropped: nat)
    ensures grounded == Locatables(quotes, evidence, lower)
    ensures |grounded| + dropped == |quotes|
  {
    hide Locatable;
    grounded, dropped := [], 0;
    for k := 0 to |quotes|
      invariant grounded == Locatables(quotes[..k], evidence, lower) && |grounded| + dropped == k
    {
      assert quotes[..k + 1][..k] == quotes[..k];
      var span := GroundQuote(quotes[k], evidence, lower);
      if span.Some? {
        grounded := grounded + [quotes[k]];
      } else {
        dropped := dropped + 1;
      }
    }
    assert quotes[..|quotes|] == quotes;
  }

  /** What the filter keeps of a one-chunk bundle can be located in the body as well. */
  lemma {:induction false} KeptQuotesAreInBody(body: string, c: Chunk, quotes: seq<string>, lower: Lowering)
    requires Verbatim(body, c)
    ensures forall q :: q in Locatables(quotes, Bundle([c]), lower) ==> q in quotes && Locatable(q, body, lower)
  {
    hide Locatable, Verbatim;
    BundleOfOne(c);
    if quotes != [] {
      var q := quotes[|quotes| - 1];
      KeptQuotesAreInBody(body, c, quotes[..|quotes| - 1], lower);
      if Locatable(q, Bundle([c]), lower) { ChunkQuoteIsInBody(body, c, q, lower); }
    }
  }

  lemma EmptyBundle()
    ensures Bundle([]) == ""
  {
  }

  lemma BundleOfOne(c: Chunk)
    ensures Bundle([c]) == c.text
  {
  }

  /** The words of the parts, one part after the other. */
  function WordsOfAll(parts: seq<string>): seq<string> {
    if parts == [] then [] else Split(parts[0]) + WordsOfAll(parts[1..])
  }

  predicate Spacing(sep: string) { sep != "" && Blank(sep) }

  lemma SplitAcross(a: string, sep: string, b: string)
    requires Spacing(sep)
    ensures Split(a + sep + b) == Split(a) + Split(b)
  {
    var t := a + sep + b;
    assert t[0..|a|] == a && t[|a|..|a| + |sep|] == sep && t[|a| + |sep|..|t|] == b;
    SplitAtGap(t, sep, |a|, |a| + |sep|);
  }

  lemma SplitAtGap(t: string, sep: string, lo: nat, hi: nat)
    requires Spacing(sep) && lo <= hi <= |t| && t[lo..hi] == sep
    ensures Split(t) == Split(t[0..lo]) + Split(t[hi..|t|])
  {
    BlankParts(t, sep, lo, hi);
    hide Words, Texts, Blank, AtBoundary, Spacing, Split;
    SplitAround(t, lo, hi);
    TextsOfSlice(t, 0, lo);
    TextsOfSlice(t, hi, |t|);
  }

  /** Whitespace between two positions makes both of them boundaries and holds no word. */
  lemma BlankParts(t: string, sep: string, lo: nat, hi: nat)
    requires Spacing(sep) && lo <= hi <= |t| && t[lo..hi] == sep
    ensures AtBoundary(t, lo) && AtBoundary(t, hi) && Split(sep) == []
  {
    AllSpaceAt(sep, 0, |sep|, 0);
    AllSpaceAt(sep, 0, |sep|, |sep| - 1);
    assert t[lo] == t[lo..hi][0] && t[hi - 1] == t[lo..hi][|sep| - 1];
    SpaceHasNoWords(sep, 0, |sep|);
  }

  lemma {:induction false} SplitOfJoin(sep: string, parts: seq<string>)
    requires Spacing(sep)
    ensures Split(Join(sep, parts)) == WordsOfAll(parts)
    decreases |parts|
  {
    hide Split, Spacing;
    if parts == [] {
      NoWords();
    } else if |parts| == 1 {
      assert WordsOfAll(parts[1..]) == [];
    } else {
      SplitAcross(parts[0], sep, Join(sep, parts[1..]));
      SplitOfJoin(sep, parts[1..]);
    }
  }

  lemma NoWords()
    ensures Split("") == [] && Spacing("\n\n") && Spacing("\n") && Spacing(" ")
  {
    assert IsSpace(' ') && IsSpace('\n');
    assert SkipSpace("\n\n", 2, 2) == 2 && SkipSpace("\n\n", 1, 2) == 2;
    assert SkipSpace("\n", 1, 1) == 1 && SkipSpace(" ", 1, 1) == 1;
  }

  function TextsOf(chunks: seq<Chunk>): seq<string> {
    seq(|chunks|, k requires 0 <= k < |chunks| => chunks[k].text)
  }

  /** A bundle's words are its chunks' words. */
  lemma {:induction false} BundleWords(body: string, chunks: seq<Chunk>)
    requires forall k :: 0 <= k < |chunks| ==> Verbatim(body, chunks[k])
    ensures Split(Bundle(chunks)) == Texts(body, AllWords(body, chunks))
  {
    NoWords();
    SplitOfJoin("\n\n", TextsOf(chunks));
    ChunkWords(body, chunks);
    hide Words, Split, Texts, AllWords, WordsOfAll;
    assert Bundle(chunks) == Join("\n\n", TextsOf(chunks));
  }

  lemma {:induction false} ChunkWords(body: string, chunks: seq<Chunk>)
    requires forall k :: 0 <= k < |chunks| ==> Verbatim(body, chunks[k])
    ensures WordsOfAll(TextsOf(chunks)) == Texts(body, AllWords(body, chunks))
  {
    if chunks != [] {
      var init, last := chunks[..|chunks| - 1], Last(chunks);
      InitAndLast(chunks);
      hide Words, Split, Texts, AllWords, WordsOfAll, TextsOf;
      assert Verbatim(body, last);
      ChunkWords(body, init);
      hide Verbatim;
      WordsOfAllSnoc(TextsOf(init), last.text);
      LastChunkWords(body, init, last);
    }
  }

  lemma InitAndLast(chunks: seq<Chunk>)
    requires chunks != []
    ensures chunks == chunks[..|chunks| - 1] + [Last(chunks)]
    ensures TextsOf(chunks) == TextsOf(chunks[..|chunks| - 1]) + [Last(chunks).text]
  {
  }

  lemma LastChunkWords(body: string, init: seq<Chunk>, last: Chunk)
    requires Verbatim(body, last)
    ensures Texts(body, AllWords(body, init + [last])) == Texts(body, AllWords(body, init)) + Split(last.text)
  {
    hide Words, Split, Texts, AllWords, AtBoundary;
    AllWordsSnoc(body, init, last);
    TextsAppend(body, AllWords(body, init), WordsOf(body, last));
    TextsOfSlice(body, last.charStart, last.charEnd);
  }

  lemma {:induction false} WordsOfAllSnoc(parts: seq<string>, part: string)
    ensures WordsOfAll(parts + [part]) == WordsOfAll(parts) + Split(part)
  {
    hide Split;
    if parts == [] {
      assert [part][1..] == [];
    } else {
      assert (parts + [part])[1..] == parts[1..] + [part];
      WordsOfAllSnoc(parts[1..], part);
    }
  }

  lemma WindowsCompose(quote: string, bundle: string, body: string, lower: Lowering)
    requires HasWindow(quote, bundle, lower) && HasWindow(bundle, body, lower)
    ensures HasWindow(quote, body, lower)
  {
    hide Split;
    var i: nat :| WindowAt(quote, bundle, lower, i);
    var j: nat :| WindowAt(bundle, body, lower, j);
    var n, m := |Split(quote)|, |Split(bundle)|;
    var found := Split(body)[j + i..j + i + n];
    forall k | 0 <= k < n ensures Lowered(found, lower)[k] == Lowered(Split(quote), lower)[k] {
      assert Lowered(Split(body)[j..j + m], lower)[i + k] == Lowered(Split(bundle), lower)[i + k];
      assert Lowered(Split(bundle)[i..i + n], lower)[k] == Lowered(Split(quote), lower)[k];
    }
    assert Lowered(found, lower) == Lowered(Split(quote), lower);
    assert WindowAt(quote, body, lower, j + i);
  }

  /** Every word window of a bundle is one of the body exactly if the whole bundle is, which ground_quote can tell. */
  lemma SafeWindows(bundle: string, body: string, lower: Lowering)
    ensures (forall quote :: HasWindow(quote, bundle, lower) ==> HasWindow(quote, body, lower)) <==>
      HasWindow(bundle, body, lower)
  {
    hide Split;
    assert WindowAt(bundle, bundle, lower, 0) by {
      assert Split(bundle)[0..|Split(bundle)|] == Split(bundle);
    }
    if HasWindow(bundle, body, lower) {
      forall quote | HasWindow(quote, bundle, lower) ensures HasWindow(quote, body, lower) {
        WindowsCompose(quote, bundle, body, lower);
      }
    }
  }

  lemma {:induction false} AllWordsAppend(body: string, a: seq<Chunk>, b: seq<Chunk>)
    ensures AllWords(body, a + b) == AllWords(body, a) + AllWords(body, b)
  {
    if b == [] {
      assert a + b == a;
    } else {
      var init, last := b[..|b| - 1], Last(b);
      AllWordsAppend(body, a, init);
      AppendLast(a, b);
      hide AllWords, WordsOf, Last;
      AllWordsSnoc(body, a + init, last);
      AllWordsSnoc(body, init, last);
      InTurn(AllWords(body, a), AllWords(body, init), WordsOf(body, last));
    }
  }

  lemma AppendLast(a: seq<Chunk>, b: seq<Chunk>)
    requires b != []
    ensures a + b == (a + b[..|b| - 1]) + [Last(b)] && b == b[..|b| - 1] + [Last(b)]
  {
  }

  lemma InTurn<T>(a: seq<T>, b: seq<T>, c: seq<T>)
    ensures (a + b) + c == a + (b + c)
    ensures (a + (b + c))[|a|..|a| + |b|] == b
  {
  }

  lemma InThree(chunks: seq<Chunk>, i: nat, j: nat)
    requires i <= j <= |chunks|
    ensures chunks == chunks[..i] + (chunks[i..j] + chunks[j..])
  {
  }

  lemma SequencedAreVerbatim(body: string, chunks: seq<Chunk>, i: nat, j: nat)
    requires Sequenced(body, chunks) && i <= j <= |chunks|
    ensures forall k :: 0 <= k < |chunks[i..j]| ==> Verbatim(body, chunks[i..j][k])
  {
    hide Verbatim;
  }

  /** A bundle of consecutive chunks of either chunker is safe: its words are a run of the body's words. */
  lemma ConsecutiveBundleIsSafe(body: string, chunks: seq<Chunk>, i: nat, j: nat, lower: Lowering)
    requires Sequenced(body, chunks) && AllWords(body, chunks) == Words(body, 0, |body|) && i <= j <= |chunks|
    ensures HasWindow(Bundle(chunks[i..j]), body, lower)
  {
    var before, picked, after := chunks[..i], chunks[i..j], chunks[j..];
    InThree(chunks, i, j);
    SequencedAreVerbatim(body, chunks, i, j);
    assert Split(body) == Texts(body, AllWords(body, chunks));
    hide Words, Texts, AllWords, Verbatim, Sequenced, Split, Bundle;
    BundleWords(body, picked);
    AllWordsAppend(body, before, picked + after);
    AllWordsAppend(body, picked, after);
    var a, b, c := AllWords(body, before), AllWords(body, picked), AllWords(body, after);
    TextsAppend(body, a, b + c);
    TextsAppend(body, b, c);
    InTurn(Texts(body, a), Texts(body, b), Texts(body, c));
    assert WindowAt(Bundle(picked), body, lower, |Texts(body, a)|);
  }

  /** Every substring of a bundle is one of the body exactly if the whole bundle is. */
  lemma SafeSubstrings(bundle: string, body: string)
    ensures (forall quote :: Contains(bundle, quote) ==> Contains(body, quote)) <==> Contains(body, bundle)
  {
    assert bundle[0..0 + |bundle|] == bundle;
    assert OccursAt(bundle, bundle, 0);
    if Contains(body, bundle) {
      var i: nat :| OccursAt(body, bundle, i);
      forall quote | Contains(bundle, quote) ensures Contains(body, quote) {
        var j: nat :| OccursAt(bundle, quote, j);
        SliceOfSlice(body, i, i + |bundle|, j, j + |quote|);
        assert OccursAt(body, quote, i + j);
      }
    }
  }

  /** The n characters from j on reach into the blank line between two chunks of the bundle. */
  ghost predicate CrossesJoin(chunks: seq<Chunk>, j: nat, n: nat) {
    exists k :: 1 <= k < |chunks| && j < |Bundle(chunks[..k])| + 2 && |Bundle(chunks[..k])| < j + n
  }

  lemma {:induction false} JoinSnoc(sep: string, parts: seq<string>, part: string)
    requires parts != []
    ensures Join(sep, parts + [part]) == Join(sep, parts) + sep + part
    decreases |parts|
  {
    assert (parts + [part])[1..] == parts[1..] + [part];
    if |parts| > 1 {
      JoinSnoc(sep, parts[1..], part);
      var head, rest := parts[0], Join(sep, parts[1..]);
      assert head + sep + (rest + sep + part) == (head + sep + rest) + sep + part;
    } else {
      assert Join(sep, [part]) == part;
    }
  }

  lemma BundleSnoc(chunks: seq<Chunk>)
    requires |chunks| > 1
    ensures Bundle(chunks) == Bundle(chunks[..|chunks| - 1]) + "\n\n" + Last(chunks).text
  {
    var init := chunks[..|chunks| - 1];
    JoinSnoc("\n\n", TextsOf(init), Last(chunks).text);
    InitAndLast(chunks);
    hide Join;
    assert Bundle(chunks) == Join("\n\n", TextsOf(chunks)) && Bundle(init) == Join("\n\n", TextsOf(init));
  }

  /** An exact occurrence in a bundle is one in the body unless it reaches into a join. */
  lemma {:induction false} InsideOrAcross(body: string, chunks: seq<Chunk>, quote: string, j: nat)
    requires forall k :: 0 <= k < |chunks| ==> Verbatim(body, chunks[k])
    requires OccursAt(Bundle(chunks), quote, j) && quote != ""
    ensures Contains(body, quote) || CrossesJoin(chunks, j, |quote|)
    decreases |chunks|
  {
    hide Words, Join, AtBoundary;
    if |chunks| == 0 {
      EmptyBundle();
    } else if |chunks| == 1 {
      assert chunks == [chunks[0]];
      BundleOfOne(chunks[0]);
      InChunk(body, chunks[0], quote, j);
    } else {
      var init, last := chunks[..|chunks| - 1], Last(chunks);
      var p := |Bundle(init)|;
      BundleSnoc(chunks);
      hide Bundle, Verbatim;
      if j + |quote| <= p {
        InFirst(Bundle(init), "\n\n", last.text, quote, j);
        InsideOrAcross(body, init, quote, j);
        if CrossesJoin(init, j, |quote|) {
          var k :| 1 <= k < |init| && j < |Bundle(init[..k])| + 2 && |Bundle(init[..k])| < j + |quote|;
          assert chunks[..k] == init[..k];
        }
      } else if j >= p + 2 {
        InLast(Bundle(init), "\n\n", last.text, quote, j);
        InChunk(body, last, quote, j - p - 2);
      }
    }
  }

  lemma InFirst(a: string, sep: string, b: string, quote: string, j: nat)
    requires OccursAt(a + sep + b, quote, j) && j + |quote| <= |a|
    ensures OccursAt(a, quote, j)
  {
    assert (a + sep + b)[j..j + |quote|] == a[j..j + |quote|];
  }

  lemma InLast(a: string, sep: string, b: string, quote: string, j: nat)
    requires OccursAt(a + sep + b, quote, j) && j >= |a| + |sep|
    ensures OccursAt(b, quote, j - |a| - |sep|)
  {
    var d := |a| + |sep|;
    assert (a + sep + b)[j..j + |quote|] == b[j - d..j - d + |quote|];
  }

  lemma InChunk(body: string, c: Chunk, quote: string, j: nat)
    requires Verbatim(body, c) && OccursAt(c.text, quote, j)
    ensures Contains(body, quote)
  {
    SliceOfSlice(body, c.charStart, c.charEnd, j, j + |quote|);
    assert OccursAt(body, quote, c.charStart + j);
  }

  /**
   Where a bundle's words are a run of the body's, all that extraction can locate and the body cannot is a
   quote that is no word window of the bundle and that reaches into a join wherever it occurs in it.
   */
  lemma OnlyAcrossAJoin(body: string, chunks: seq<Chunk>, quote: string, lower: Lowering)
    requires forall k :: 0 <= k < |chunks| ==> Verbatim(body, chunks[k])
    requires HasWindow(Bundle(chunks), body, lower)
    requires Locatable(quote, Bundle(chunks), lower) && !Locatable(quote, body, lower)
    ensures !HasWindow(quote, Bundle(chunks), lower) && Contains(Bundle(chunks), quote)
    ensures forall j: nat :: OccursAt(Bundle(chunks), quote, j) ==> CrossesJoin(chunks, j, |quote|)
  {
    SafeWindows(Bundle(chunks), body, lower);
    hide WindowAt, Bundle, Verbatim, CrossesJoin, Words;
    assert quote != "";
    forall j: nat | OccursAt(Bundle(chunks), quote, j) ensures CrossesJoin(chunks, j, |quote|) {
      InsideOrAcross(body, chunks, quote, j);
    }
  }
}
