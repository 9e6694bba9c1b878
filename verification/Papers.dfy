/**
 Deduplicating an author's works: OpenAlex returns one paper as several records,
 and the one with the richest abstract is kept.
 */
module Papers {
  const MIN_ABSTRACT_CHARS := 200

  /** A work as read: its id, its title's dedup key, its abstract and how long that is without outer whitespace. */
  datatype Work = Work(id: string, key: string, text: string, stripped: nat)

  predicate Usable(w: Work) {
    w.stripped >= MIN_ABSTRACT_CHARS && w.id != ""
  }

  /**
   Work k of the list is the one kept for its title: usable, longer than all before it and no shorter than
   any after.
   */
  predicate Kept(works: seq<Work>, k: nat) {
    && k < |works| && Usable(works[k])
    && forall j :: 0 <= j < |works| && Usable(works[j]) && works[j].key == works[k].key ==>
         if j < k then |works[j].text| < |works[k].text| else |works[j].text| <= |works[k].text|
  }

  predicate BeforeTitle(works: seq<Work>, k: nat, j: nat, title: string)
    requires k <= |works|
  {
    forall l :: 0 <= l < k && Usable(works[l]) && works[l].key == title ==> j < l
  }

  /** Among the first k works a usable one of title a comes before every usable one of title b. */
  predicate ComesFirst(works: seq<Work>, k: nat, a: string, b: string)
    requires k <= |works|
  {
    exists j :: 0 <= j < k && Usable(works[j]) && works[j].key == a && BeforeTitle(works, k, j, b)
  }

  /** The titles come in the order in which usable works of them first appear. */
  predicate InOrder(works: seq<Work>, k: nat, titles: seq<string>)
    requires k <= |works|
  {
    forall m, n :: 0 <= m < n < |titles| ==> ComesFirst(works, k, titles[m], titles[n])
  }

  lemma OneKeptPerTitle(works: seq<Work>, j: nat, k: nat)
    requires Kept(works, j) && Kept(works, k) && works[j].key == works[k].key
    ensures j == k
  {
  }

  /** For each title with a usable work among the first k, where the one kept stands. */
  predicate Best(works: seq<Work>, k: nat, best: map<string, nat>)
    requires k <= |works|
  {
    && (forall t :: t in best ==> best[t] < k && works[best[t]].key == t && Kept(works[..k], best[t]))
    && (forall j :: 0 <= j < k && Usable(works[j]) ==> works[j].key in best)
  }

  /** The keys of a dictionary, each once. */
  ghost predicate Keys(titles: seq<string>, best: map<string, nat>) {
    && (forall t :: t in titles <==> t in best)
    && (forall m, n :: 0 <= m < n < |titles| ==> titles[m] != titles[n])
  }

  lemma AddKey(titles: seq<string>, best: map<string, nat>, t: string, k: nat)
    requires Keys(titles, best)
    ensures Keys(if t in best then titles else titles + [t], best[t := k])
  {
  }

  /** The loop: `best` has for each title with a usable work the position of the one kept. */
  method BestByTitle(works: seq<Work>) returns (titles: seq<string>, best: map<string, nat>)
    ensures Keys(titles, best) && Best(works, |works|, best) && InOrder(works, |works|, titles)
  {
    best := map[];
    titles := [];
    for k := 0 to |works|
      invariant Keys(titles, best) && Best(works, k, best) && InOrder(works, k, titles)
    {
      var w := works[k];
      BestNext(works, k, best);
      OrderNext(works, k, titles, best);
      hide Kept, InOrder, Keys;
      assert w.key in best ==> best[w.key] < k;
      hide Best;
      AddKey(titles, best, w.key, k);
      if w.stripped < MIN_ABSTRACT_CHARS {
        continue;
      }
      if w.id == "" {
        continue;
      }
      if w.key !in best {
        titles := titles + [w.key];
        best := best[w.key := k];
      } else if |w.text| > |works[best[w.key]].text| {
        best := best[w.key := k];
      }
    }
  }

  /** The dictionary's values, in the order of its keys. */
  method Values(titles: seq<string>, best: map<string, nat>) returns (kept: seq<nat>)
    requires Keys(titles, best)
    ensures |kept| == |titles| && forall m :: 0 <= m < |titles| ==> titles[m] in best && kept[m] == best[titles[m]]
  {
    assert forall m :: 0 <= m < |titles| ==> titles[m] in titles;
    kept := seq(|titles|, m requires 0 <= m < |titles| && titles[m] in best => best[titles[m]]);
  }

  /** Work k has the title of work j and an abstract at least as long. */
  predicate StandsFor(works: seq<Work>, k: nat, j: nat)
    requires j < |works|
  {
    k < |works| && works[k].key == works[j].key && |works[k].text| >= |works[j].text|
  }

  /**
   The records returned: exactly the works to keep, one for each title that has a usable one, titles in
   order of appearance.
   */
  method Deduplicate(works: seq<Work>) returns (kept: seq<nat>)
    ensures forall k :: k in kept <==> Kept(works, k)
    ensures forall m, n :: 0 <= m < n < |kept| ==> kept[m] != kept[n]
    ensures forall m, n :: 0 <= m < n < |kept| ==>
      kept[m] < |works| && kept[n] < |works| && ComesFirst(works, |works|, works[kept[m]].key, works[kept[n]].key)
    ensures forall k :: k in kept ==> k < |works| && works[k].stripped >= 200 && works[k].id != ""
    ensures forall j :: 0 <= j < |works| && works[j].stripped >= 200 && works[j].id != "" ==>
      exists m :: 0 <= m < |kept| && StandsFor(works, kept[m], j)
  {
    var titles, best := BestByTitle(works);
    hide *;
    kept := Values(titles, best);
    EachIsKept(works, titles, best, kept);
    forall j | Kept(works, j) ensures j in kept {
      KeptIsUsable(works, j);
      var m := KeptForTitle(works, titles, best, kept, j);
    }
    forall k | k in kept ensures Kept(works, k) && k < |works| && Usable(works[k]) {
      var m :| 0 <= m < |kept| && kept[m] == k;
    }
    UsableWorks(works);
    forall j | 0 <= j < |works| && Usable(works[j])
      ensures exists m :: 0 <= m < |kept| && StandsFor(works, kept[m], j)
    {
      var m := KeptForTitle(works, titles, best, kept, j);
    }
  }

  lemma UsableWorks(works: seq<Work>)
    ensures forall k :: 0 <= k < |works| ==> (Usable(works[k]) <==> works[k].stripped >= 200 && works[k].id != "")
  {
  }

  /** The positions collected are of works to keep, for different titles, in the titles' order. */
  lemma EachIsKept(works: seq<Work>, titles: seq<string>, best: map<string, nat>, kept: seq<nat>)
    requires Keys(titles, best) && Best(works, |works|, best) && InOrder(works, |works|, titles)
    requires |kept| == |titles| && forall m :: 0 <= m < |titles| ==> titles[m] in best && kept[m] == best[titles[m]]
    ensures forall m :: 0 <= m < |kept| ==>
      kept[m] < |works| && works[kept[m]].key == titles[m] && Kept(works, kept[m]) && Usable(works[kept[m]])
    ensures forall m, n :: 0 <= m < n < |kept| ==> kept[m] != kept[n]
    ensures forall m, n :: 0 <= m < n < |kept| ==> ComesFirst(works, |works|, titles[m], titles[n])
  {
    assert works[..|works|] == works;
    hide ComesFirst;
  }

  /** Every usable work's title has one of them, and it is no poorer. */
  lemma KeptForTitle(works: seq<Work>, titles: seq<string>, best: map<string, nat>, kept: seq<nat>, j: nat)
    returns (m: nat)
    requires Keys(titles, best) && Best(works, |works|, best) && j < |works| && Usable(works[j])
    requires |kept| == |titles| && forall m :: 0 <= m < |titles| ==> titles[m] in best && kept[m] == best[titles[m]]
    ensures m < |kept| && StandsFor(works, kept[m], j) && (Kept(works, j) ==> kept[m] == j)
  {
    assert works[..|works|] == works;
    m :| 0 <= m < |titles| && titles[m] == works[j].key;
    if Kept(works, j) { OneKeptPerTitle(works, j, kept[m]); }
  }

  lemma KeptIsUsable(works: seq<Work>, k: nat)
    requires Kept(works, k)
    ensures k < |works| && Usable(works[k])
  {
  }

  /** What is known of `best` before work k carries over to after it. */
  lemma BestNext(works: seq<Work>, k: nat, best: map<string, nat>)
    requires k < |works| && Best(works, k, best)
    ensures var w := works[k];
      Best(works, k + 1,
           if Usable(w) && (w.key in best ==> |w.text| > |works[best[w.key]].text|) then best[w.key := k] else best)
  {
    forall t | t in best
      ensures if Usable(works[k]) && works[k].key == t && |works[k].text| > |works[best[t]].text|
              then Kept(works[..k + 1], k) else Kept(works[..k + 1], best[t])
    {
      hide Kept;
      KeptNext(works, k, best[t]);
    }
    if Usable(works[k]) && works[k].key !in best { KeptFirst(works, k); }
    hide Kept;
  }

  /** One more work displaces the one kept for its title if it is longer, and no other. */
  lemma KeptNext(works: seq<Work>, k: nat, b: nat)
    requires b < k < |works| && Kept(works[..k], b)
    ensures var w := works[k];
      if Usable(w) && w.key == works[b].key && |w.text| > |works[b].text|
      then Kept(works[..k + 1], k) else Kept(works[..k + 1], b)
  {
    var before, after := works[..k], works[..k + 1];
    assert forall j :: 0 <= j < k ==> after[j] == before[j] == works[j];
    assert after[k] == works[k];
  }

  lemma KeptFirst(works: seq<Work>, k: nat)
    requires k < |works| && Usable(works[k])
    requires forall j :: 0 <= j < k && Usable(works[j]) ==> works[j].key != works[k].key
    ensures Kept(works[..k + 1], k)
  {
  }

  /** A title seen for the first time comes after all seen before, whose order stays. */
  lemma OrderNext(works: seq<Work>, k: nat, titles: seq<string>, best: map<string, nat>)
    requires k < |works| && InOrder(works, k, titles) && Keys(titles, best) && Best(works, k, best)
    ensures InOrder(works, k + 1, titles)
    ensures works[k].key !in best ==> InOrder(works, k + 1, titles + [works[k].key])
  {
    var after := titles + [works[k].key];
    forall m, n | 0 <= m < n < |after|
      ensures works[k].key !in best || n < |titles| ==> ComesFirst(works, k + 1, after[m], after[n])
    {
      assert titles[m] in titles;
      if n < |titles| {
        assert ComesFirst(works, k, titles[m], titles[n]);
        var j :| 0 <= j < k && Usable(works[j]) && works[j].key == titles[m] && BeforeTitle(works, k, j, titles[n]);
        assert BeforeTitle(works, k + 1, j, titles[n]);
      } else if works[k].key !in best {
        assert BeforeTitle(works, k + 1, best[titles[m]], works[k].key);
      }
    }
    assert forall m :: 0 <= m < |titles| ==> after[m] == titles[m];
  }
}
