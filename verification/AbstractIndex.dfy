/**
 Rebuilding an abstract from OpenAlex's inverted index, which lists for each
 word the positions it stands at.
 */
module AbstractIndex {
  import Lines

  type Index = map<string, seq<int>>
  type Placed = (int, string)

  /** Strings compare by their first differing character, a proper prefix first. */
  predicate StringBefore(a: string, b: string) {
    if b == "" then false
    else if a == "" then true
    else a[0] < b[0] || (a[0] == b[0] && StringBefore(a[1..], b[1..]))
  }

  /** Pairs compare by position, then by word. */
  predicate Before(a: Placed, b: Placed) {
    a.0 < b.0 || (a.0 == b.0 && StringBefore(a.1, b.1))
  }

  predicate Sorted(s: seq<Placed>) {
    forall i, j :: 0 <= i < j < |s| ==> !Before(s[j], s[i])
  }

  lemma {:induction false} StringOrder(a: string, b: string, c: string)
    ensures !StringBefore(a, a)
    ensures StringBefore(a, b) ==> !StringBefore(b, a)
    ensures !StringBefore(b, a) && !StringBefore(c, b) ==> !StringBefore(c, a)
    decreases |a| + |b| + |c|
  {
    var t := (s: string) => if s == "" then "" else s[1..];
    if a != "" || b != "" || c != "" {
      StringOrder(t(a), t(b), t(c));
    }
  }

  /** At position k the strings first differ, a having the smaller character or ending there. */
  predicate DiffersAt(a: string, b: string, k: nat) {
    && k <= |a| && k < |b| && a[..k] == b[..k]
    && (k == |a| || a[k] < b[k])
  }

  lemma {:induction false} StringsCompareAtFirstDifference(a: string, b: string)
    ensures StringBefore(a, b) <==> exists k: nat :: DiffersAt(a, b, k)
    decreases |a|
  {
    if a == "" || b == "" || a[0] != b[0] {
      if StringBefore(a, b) { assert DiffersAt(a, b, 0); }
      if k: nat :| DiffersAt(a, b, k) {
        if k > 0 { assert a[..k][0] == b[..k][0]; }
      }
    } else {
      StringsCompareAtFirstDifference(a[1..], b[1..]);
      if k: nat :| DiffersAt(a[1..], b[1..], k) {
        assert a[..k + 1] == [a[0]] + a[1..][..k] && b[..k + 1] == [b[0]] + b[1..][..k];
        assert DiffersAt(a, b, k + 1);
      }
      if k: nat :| DiffersAt(a, b, k) {
        assert k > 0;
        assert a[1..][..k - 1] == a[..k][1..] && b[1..][..k - 1] == b[..k][1..];
        assert DiffersAt(a[1..], b[1..], k - 1);
      }
    }
  }

  /** The place for x among sorted pairs: after all that are not greater. */
  function Insert(s: seq<Placed>, x: Placed): (r: seq<Placed>)
    ensures multiset(r) == multiset(s) + multiset{x}
  {
    if s == [] then [x]
    else if Before(x, s[|s| - 1]) then
      assert s == s[..|s| - 1] + [s[|s| - 1]];
      Insert(s[..|s| - 1], x) + [s[|s| - 1]]
    else s + [x]
  }

  function Sort(s: seq<Placed>): (r: seq<Placed>)
    ensures multiset(r) == multiset(s)
  {
    if s == [] then []
    else
      assert s == s[..|s| - 1] + [s[|s| - 1]];
      Insert(Sort(s[..|s| - 1]), s[|s| - 1])
  }

  lemma {:induction false} InsertSorted(s: seq<Placed>, x: Placed)
    requires Sorted(s)
    ensures Sorted(Insert(s, x))
  {
    if s != [] {
      var last := s[|s| - 1];
      var r := Insert(s, x);
      if Before(x, last) {
        var front := Insert(s[..|s| - 1], x);
        InsertSorted(s[..|s| - 1], x);
        forall i | 0 <= i < |front| ensures !Before(last, front[i]) {
          assert front[i] in multiset(s[..|s| - 1]) + multiset{x};
          StringOrder(x.1, last.1, x.1);
          if front[i] != x { assert front[i] in s[..|s| - 1]; }
        }
      } else {
        forall i | 0 <= i < |s| ensures !Before(x, s[i]) {
          StringOrder(s[i].1, last.1, x.1);
        }
      }
    }
  }

  lemma {:induction false} SortSorted(s: seq<Placed>)
    ensures Sorted(Sort(s))
  {
    if s != [] {
      SortSorted(s[..|s| - 1]);
      InsertSorted(Sort(s[..|s| - 1]), s[|s| - 1]);
    }
  }

  predicate Listed(index: Index, w: string, p: int) {
    w in index && p in index[w]
  }

  /** The index of the words: each listed with exactly the positions it stands at, each once, in any order. */
  ghost predicate Indexes(index: Index, words: seq<string>) {
    && (forall w :: w in index ==> (forall i, j :: 0 <= i < j < |index[w]| ==> index[w][i] != index[w][j]))
    && (forall w, p :: Listed(index, w, p) <==> 0 <= p < |words| && words[p] == w)
    && (forall w :: w in index ==> index[w] != [])
  }

  function PlacedAt(w: string, positions: seq<int>): seq<Placed> {
    seq(|positions|, i requires 0 <= i < |positions| => (positions[i], w))
  }

  /** All (position, word) pairs, the words taken in the given order. */
  function Placements(index: Index, order: seq<string>): seq<Placed> {
    if order == [] then []
    else
      var w := order[|order| - 1];
      Placements(index, order[..|order| - 1]) + if w in index then PlacedAt(w, index[w]) else []
  }

  function WordsOf(s: seq<Placed>): seq<string> {
    seq(|s|, i requires 0 <= i < |s| => s[i].1)
  }

  /** The order in which a dictionary of these keys may be iterated. */
  ghost predicate Iterates(order: seq<string>, index: Index) {
    && (forall w :: w in order <==> w in index)
    && (forall i, j :: 0 <= i < j < |order| ==> order[i] != order[j])
  }

  /** The inner loop: one pair for each position of the word. */
  method Place(before: seq<Placed>, word: string, positions: seq<int>) returns (positioned: seq<Placed>)
    ensures positioned == before + PlacedAt(word, positions)
  {
    positioned := before;
    for j := 0 to |positions|
      invariant positioned == before + PlacedAt(word, positions[..j])
    {
      assert PlacedAt(word, positions[..j + 1]) == PlacedAt(word, positions[..j]) + [(positions[j], word)];
      positioned := positioned + [(positions[j], word)];
    }
    assert positions[..|positions|] == positions;
  }

  method Reconstruct(index: Index, order: seq<string>) returns (text: string)
    requires Iterates(order, index)
    ensures text == Lines.Join(" ", WordsOf(Sort(Placements(index, order))))
  {
    assert forall i :: 0 <= i < |order| ==> order[i] in order && order[i] in index;
    if |index| == 0 {
      assert index == map[];
      assert WordsOf(Sort(Placements(index, order))) == [];
      return "";
    }
    hide Sort, Lines.Join, WordsOf, PlacedAt;
    var positioned: seq<Placed> := [];
    for k := 0 to |order|
      invariant positioned == Placements(index, order[..k])
    {
      var word := order[k];
      assert word in order;
      positioned := Place(positioned, word, index[word]);
      assert order[..k + 1][..k] == order[..k];
    }
    assert order[..|order|] == order;
    positioned := Sort(positioned);
    text := Lines.Join(" ", WordsOf(positioned));
  }

  predicate NoRepeats(s: seq<Placed>) {
    forall i, j :: 0 <= i < j < |s| ==> s[i] != s[j]
  }

  lemma {:induction false} PlacementsExactly(index: Index, order: seq<string>)
    requires forall i, j :: 0 <= i < j < |order| ==> order[i] != order[j]
    requires forall w :: w in index ==> forall i, j :: 0 <= i < j < |index[w]| ==> index[w][i] != index[w][j]
    ensures NoRepeats(Placements(index, order))
    ensures forall x :: x in Placements(index, order) <==> x.1 in order && x.1 in index && x.0 in index[x.1]
  {
    if order != [] {
      var last := |order| - 1;
      var w := order[last];
      PlacementsExactly(index, order[..last]);
      assert order == order[..last] + [w];
      assert w !in order[..last];
      var before := Placements(index, order[..last]);
      var added := if w in index then PlacedAt(w, index[w]) else [];
      assert Placements(index, order) == before + added;
      forall x ensures x in added <==> x.1 == w && w in index && x.0 in index[w] {
        if x.1 == w && w in index && x.0 in index[w] {
          var i :| 0 <= i < |index[w]| && index[w][i] == x.0;
          assert added[i] == x;
        }
      }
      assert forall x :: x in before + added <==> x in before || x in added;
      AppendNoRepeats(before, added);
    }
  }

  lemma AppendNoRepeats(a: seq<Placed>, b: seq<Placed>)
    requires NoRepeats(a) && NoRepeats(b) && forall x :: x in a ==> x !in b
    ensures NoRepeats(a + b)
  {
    forall i, j | 0 <= i < j < |a + b| ensures (a + b)[i] != (a + b)[j] {
      if i < |a| && |a| <= j {
        assert (a + b)[i] in a && (a + b)[j] in b;
      }
    }
  }

  /** Sorting repeats nothing that was not repeated. */
  lemma SortNoRepeats(s: seq<Placed>)
    requires NoRepeats(s)
    ensures NoRepeats(Sort(s)) && forall x :: x in Sort(s) <==> x in s
  {
    var r := Sort(s);
    forall x ensures x in r <==> x in s {
      assert x in multiset(r) <==> x in multiset(s);
    }
    forall i, j | 0 <= i < j < |r| ensures r[i] != r[j] {
      OnceEach(s, r[i]);
      if r[i] == r[j] { Twice(r, i, j); }
    }
  }

  lemma {:induction false} OnceEach(s: seq<Placed>, x: Placed)
    requires NoRepeats(s)
    ensures multiset(s)[x] <= 1
  {
    if s != [] {
      var last := |s| - 1;
      OnceEach(s[..last], x);
      assert s == s[..last] + [s[last]];
      if s[last] == x { assert x !in s[..last]; }
    }
  }

  lemma Twice(r: seq<Placed>, i: nat, j: nat)
    requires i < j < |r| && r[i] == r[j]
    ensures multiset(r)[r[i]] >= 2
  {
    assert r == r[..j] + [r[j]] + r[j + 1..];
    assert r[i] in r[..j];
  }

  /** Sorted pairs that are exactly the words at their positions stand in the words' order. */
  lemma {:induction false} InPlace(s: seq<Placed>, words: seq<string>, n: nat)
    requires Sorted(s) && NoRepeats(s)
    requires forall x :: x in s <==> 0 <= x.0 < |words| && x.1 == words[x.0]
    requires n <= |s| && n <= |words|
    ensures forall i :: 0 <= i < n ==> s[i] == (i, words[i])
    decreases n
  {
    if n > 0 {
      InPlace(s, words, n - 1);
      var k := n - 1;
      assert (k, words[k]) in s && s[k] in s;
      assert forall i, j :: 0 <= i < j < |s| ==> !Before(s[j], s[i]);
      hide StringBefore;
      NextInPlace(s, words, k);
    }
  }

  lemma NextInPlace(s: seq<Placed>, words: seq<string>, k: nat)
    requires k < |s| && k < |words| && NoRepeats(s)
    requires forall q :: 0 <= q < k ==> s[q] == (q, words[q])
    requires (k, words[k]) in s && s[k].0 < |words| && 0 <= s[k].0 && s[k].1 == words[s[k].0]
    requires forall i, j :: 0 <= i < j < |s| ==> s[i].0 <= s[j].0
    ensures s[k] == (k, words[k])
  {
    var m :| 0 <= m < |s| && s[m] == (k, words[k]);
    assert m >= k;
    assert forall q :: 0 <= q < k ==> s[q] != s[k];
    assert s[k] == (s[k].0, words[s[k].0]);
  }

  lemma NoGap(s: seq<Placed>, words: seq<string>, n: nat)
    requires forall i :: 0 <= i < |s| && i < |words| ==> s[i] == (i, words[i])
    requires n < |words| && (n, words[n]) in s && forall x :: x in s ==> x.0 < |words|
    requires NoRepeats(s)
    ensures n < |s|
  {
    var m :| 0 <= m < |s| && s[m] == (n, words[n]);
    assert m < |words| ==> m == n;
  }

  lemma AllInPlace(s: seq<Placed>, words: seq<string>)
    requires Sorted(s) && NoRepeats(s)
    requires forall x :: x in s <==> 0 <= x.0 < |words| && x.1 == words[x.0]
    ensures WordsOf(s) == words
  {
    InPlace(s, words, if |s| <= |words| then |s| else |words|);
    hide Sorted;
    if |words| > 0 {
      NoGap(s, words, |words| - 1);
    }
    if |s| > 0 {
      assert s[|s| - 1] in s;
      assert s[s[|s| - 1].0] == s[|s| - 1];
    }
  }

  /** The index of a word list, positions ascending. */
  function IndexOf(words: seq<string>): Index {
    if words == [] then map[]
    else
      var before, w := IndexOf(words[..|words| - 1]), words[|words| - 1];
      before[w := (if w in before then before[w] else []) + [|words| - 1]]
  }

  lemma {:induction false} IndexOfIndexes(words: seq<string>)
    ensures Indexes(IndexOf(words), words)
  {
    if words != [] {
      var n := |words| - 1;
      var before, after, w := IndexOf(words[..n]), IndexOf(words), words[n];
      IndexOfIndexes(words[..n]);
      var listed := if w in before then before[w] else [];
      assert after == before[w := listed + [n]];
      forall v, p ensures Listed(after, v, p) <==> 0 <= p < |words| && words[p] == v {
        assert Listed(before, v, p) <==> 0 <= p < n && words[..n][p] == v;
      }
      forall i, j | 0 <= i < j < |listed + [n]| ensures (listed + [n])[i] != (listed + [n])[j] {
        assert Listed(before, w, listed[i]);
        assert listed[i] < n;
      }
    }
  }

  lemma PlacedAreWords(index: Index, order: seq<string>, words: seq<string>)
    requires Indexes(index, words) && Iterates(order, index)
    ensures forall x :: x in Placements(index, order) <==> 0 <= x.0 < |words| && x.1 == words[x.0]
  {
    PlacementsExactly(index, order);
    hide Placements;
    forall x ensures x in Placements(index, order) <==> 0 <= x.0 < |words| && x.1 == words[x.0] {
      assert Listed(index, x.1, x.0) <==> 0 <= x.0 < |words| && words[x.0] == x.1;
    }
  }

  /**
   For every list of words, any index of it, iterated in any order, gives back the words
   joined by single spaces.
   */
  lemma RoundTrip(index: Index, order: seq<string>, words: seq<string>)
    requires Indexes(index, words) && Iterates(order, index)
    ensures Lines.Join(" ", WordsOf(Sort(Placements(index, order)))) == Lines.Join(" ", words)
  {
    var placed := Placements(index, order);
    var s := Sort(placed);
    PlacementsExactly(index, order);
    SortNoRepeats(placed);
    SortSorted(placed);
    PlacedAreWords(index, order, words);
    hide Sort, Placements, Lines.Join, Sorted, NoRepeats, WordsOf, Indexes, Iterates;
    AllInPlace(s, words);
  }
}
