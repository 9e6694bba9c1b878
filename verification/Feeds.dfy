/**
 Podcast feed ingestion: the cutoff, the guest filter, the two deduplication
 layers and the source's high-water mark.
 */
module Feeds {
  import opened Options
  import Text

  datatype Entry = Entry(url: string, title: string, description: string, publishedAt: Option<int>,
    duration: Option<int>)

  datatype Item = Item(url: string, canonical: string, fingerprint: Option<string>, title: string,
                       publishedAt: Option<int>, duration: Option<int>, cataloged: bool)

  datatype Source = Source(approved: bool, active: bool, backfillComplete: bool, lastFetched: Option<int>,
                           latestPublishedAt: Option<int>, itemCount: int)

  /** A guest source keeps only episodes that mention the thinker; names are lower case. */
  datatype Guest = Guest(name: string, lastName: Option<string>)

  /** What the loop consults: normalizer, fingerprint, the duration and title filters and the payload's guest. */
  datatype Policy = Policy(normalize: string -> string, fingerprint: Entry -> Option<string>, filtered: Entry -> bool,
                           lower: string -> string, guest: Option<Guest>)

  predicate Within(needle: string, s: string) {
    exists i :: 0 <= i <= |s| && Text.OccursAt(s, needle, i)
  }

  predicate GuestKeeps(p: Policy, e: Entry) {
    p.guest.Some? && p.guest.value.name != "" ==>
      var title, description := p.lower(e.title), p.lower(e.description);
      || Within(p.guest.value.name, title) || Within(p.guest.value.name, description)
      || (p.guest.value.lastName.Some?
          && (Within(p.guest.value.lastName.value, title) || Within(p.guest.value.lastName.value, description)))
  }

  function Cutoff(s: Source): Option<int> {
    if s.latestPublishedAt.Some? then s.latestPublishedAt else s.lastFetched
  }

  /** Incremental mode leaves out entries at or before the cutoff. */
  predicate Old(s: Source, e: Entry) {
    s.backfillComplete && Cutoff(s).Some? && e.publishedAt.Some? && e.publishedAt.value <= Cutoff(s).value
  }

  predicate Known(p: Policy, content: seq<Item>, e: Entry) {
    exists i :: 0 <= i < |content| && Same(p, content[i], e)
  }

  predicate Same(p: Policy, item: Item, e: Entry) {
    item.canonical == p.normalize(e.url) || (p.fingerprint(e).Some? && item.fingerprint == p.fingerprint(e))
  }

  function ItemOf(p: Policy, e: Entry): Item {
    Item(e.url, p.normalize(e.url), p.fingerprint(e), e.title, e.publishedAt, e.duration, !p.filtered(e))
  }

  predicate Taken(s: Source, p: Policy, content: seq<Item>, e: Entry) {
    !Old(s, e) && GuestKeeps(p, e) && !Known(p, content, e)
  }

  /** The content table after the loop. */
  function Ingested(s: Source, p: Policy, content: seq<Item>, entries: seq<Entry>): (r: seq<Item>) {
    if entries == [] then content
    else
      var before := Ingested(s, p, content, entries[..|entries| - 1]);
      var e := entries[|entries| - 1];
      if Taken(s, p, before, e) then before + [ItemOf(p, e)] else before
  }

  function Max(a: Option<int>, b: Option<int>): Option<int> {
    if a.None? then b else if b.None? then a else if b.value > a.value then b else a
  }

  /** The newest publication among the items, and `mark`. */
  function Newest(mark: Option<int>, items: seq<Item>): Option<int> {
    if items == [] then mark else Max(Newest(mark, items[..|items| - 1]), items[|items| - 1].publishedAt)
  }

  function Fetched(s: Source, inserted: seq<Item>, now: int): Source {
    s.(backfillComplete := true, lastFetched := Some(now), itemCount := s.itemCount + |inserted|,
       latestPublishedAt := Newest(s.latestPublishedAt, inserted))
  }

  lemma IngestedNext(s: Source, p: Policy, content: seq<Item>, entries: seq<Entry>, k: nat)
    requires k < |entries|
    ensures var before := Ingested(s, p, content, entries[..k]);
      Ingested(s, p, content, entries[..k + 1]) ==
        if Taken(s, p, before, entries[k]) then before + [ItemOf(p, entries[k])] else before
  {
    hide Taken;
    assert entries[..k + 1][..k] == entries[..k];
  }

  lemma NewestNext(mark: Option<int>, items: seq<Item>, item: Item)
    ensures Newest(mark, items + [item]) == Max(Newest(mark, items), item.publishedAt)
  {
    assert (items + [item])[..|items|] == items;
  }

  lemma {:induction false} OnlyAppends(s: Source, p: Policy, content: seq<Item>, entries: seq<Entry>)
    ensures content <= Ingested(s, p, content, entries)
  {
    if entries != [] {
      hide Taken;
      OnlyAppends(s, p, content, entries[..|entries| - 1]);
    }
  }

  function Inserted(s: Source, p: Policy, content: seq<Item>, entries: seq<Entry>): (r: seq<Item>)
    ensures content + r == Ingested(s, p, content, entries)
  {
    OnlyAppends(s, p, content, entries);
    Ingested(s, p, content, entries)[|content|..]
  }

  /** No two rows share a canonical URL or a fingerprint. */
  predicate Unique(content: seq<Item>) {
    forall i, j :: 0 <= i < j < |content| ==>
      content[i].canonical != content[j].canonical
      && (content[i].fingerprint.Some? ==> content[i].fingerprint != content[j].fingerprint)
  }

  /** Both layers hold: ingestion keeps canonical URLs and fingerprints unique, within a batch too. */
  lemma {:induction false} IngestionKeepsUnique(s: Source, p: Policy, content: seq<Item>, entries: seq<Entry>)
    requires Unique(content)
    ensures Unique(Ingested(s, p, content, entries))
  {
    if entries != [] {
      IngestionKeepsUnique(s, p, content, entries[..|entries| - 1]);
      var before := Ingested(s, p, content, entries[..|entries| - 1]);
      var e := entries[|entries| - 1];
      hide GuestKeeps, Old;
      if Taken(s, p, before, e) {
        forall i | 0 <= i < |before| ensures !Same(p, before[i], e) {
        }
      }
    }
  }

  lemma KnownInMore(p: Policy, content: seq<Item>, more: seq<Item>, e: Entry)
    requires content <= more && Known(p, content, e)
    ensures Known(p, more, e)
  {
    var i :| 0 <= i < |content| && Same(p, content[i], e);
    assert more[i] == content[i];
  }

  /** After the loop every entry that was neither too old nor filtered is known. */
  lemma {:induction false} EveryEntryIsKnown(s: Source, p: Policy, content: seq<Item>, entries: seq<Entry>, k: nat)
    requires k < |entries| && !Old(s, entries[k]) && GuestKeeps(p, entries[k])
    ensures Known(p, Ingested(s, p, content, entries), entries[k])
    decreases |entries|
  {
    var before := Ingested(s, p, content, entries[..|entries| - 1]);
    var after := Ingested(s, p, content, entries);
    var e := entries[|entries| - 1];
    assert before <= after;
    hide GuestKeeps, Old;
    if k < |entries| - 1 {
      EveryEntryIsKnown(s, p, content, entries[..|entries| - 1], k);
      KnownInMore(p, before, after, entries[k]);
    } else if Known(p, before, e) {
      KnownInMore(p, before, after, e);
    } else {
      assert Same(p, after[|before|], e);
    }
  }

  lemma {:induction false} AllKnownInsertsNothing(s: Source, p: Policy, content: seq<Item>, entries: seq<Entry>)
    requires forall k :: 0 <= k < |entries| ==>
      Old(s, entries[k]) || !GuestKeeps(p, entries[k]) || Known(p, content, entries[k])
    ensures Ingested(s, p, content, entries) == content
  {
    if entries != [] {
      hide GuestKeeps, Old, Known;
      AllKnownInsertsNothing(s, p, content, entries[..|entries| - 1]);
      assert Old(s, entries[|entries| - 1]) || !GuestKeeps(p, entries[|entries| - 1])
        || Known(p, content, entries[|entries| - 1]);
    }
  }

  /** In incremental mode everything inserted is newer than the cutoff. */
  lemma {:induction false} InsertedIsNewer(s: Source, p: Policy, content: seq<Item>, entries: seq<Entry>)
    requires s.backfillComplete && Cutoff(s).Some?
    ensures forall i :: |content| <= i < |Ingested(s, p, content, entries)| ==>
      var at := Ingested(s, p, content, entries)[i].publishedAt; at.Some? ==> at.value > Cutoff(s).value
  {
    if entries != [] {
      hide GuestKeeps, Known;
      InsertedIsNewer(s, p, content, entries[..|entries| - 1]);
    }
  }

  /** The text has the phrase somewhere. */
  ghost predicate Mentions(text: string, phrase: string) {
    exists before, after :: text == before + phrase + after
  }

  lemma WithinIsMention(phrase: string, text: string)
    ensures Within(phrase, text) <==> Mentions(text, phrase)
  {
    if i :| 0 <= i <= |text| && Text.OccursAt(text, phrase, i) {
      assert text == text[..i] + phrase + text[i + |phrase|..];
    }
    if before, after :| text == before + phrase + after {
      assert text[|before|..|before| + |phrase|] == phrase;
      assert Text.OccursAt(text, phrase, |before|);
    }
  }

  /** The title or the description names the guest, in full or by last name. */
  ghost predicate Features(p: Policy, g: Guest, e: Entry) {
    || Mentions(p.lower(e.title), g.name) || Mentions(p.lower(e.description), g.name)
    || (g.lastName.Some? && Mentions(p.lower(e.title), g.lastName.value))
    || (g.lastName.Some? && Mentions(p.lower(e.description), g.lastName.value))
  }

  /**
   Once the backfill is complete only what is undated or published after the newest episode so far, or if there
   is none after the last fetch, is wanted; of a guest source only what features the guest.
   */
  ghost predicate Wanted(s: Source, p: Policy, e: Entry) {
    && (s.backfillComplete && e.publishedAt.Some? ==>
          && (s.latestPublishedAt.Some? ==> e.publishedAt.value > s.latestPublishedAt.value)
          && (s.latestPublishedAt.None? && s.lastFetched.Some? ==> e.publishedAt.value > s.lastFetched.value))
    && (p.guest.Some? && p.guest.value.name != "" ==> Features(p, p.guest.value, e))
  }

  lemma WantedEntries(s: Source, p: Policy, e: Entry)
    ensures Wanted(s, p, e) <==> !Old(s, e) && GuestKeeps(p, e)
  {
    if p.guest.Some? {
      var g := p.guest.value;
      WithinIsMention(g.name, p.lower(e.title));
      WithinIsMention(g.name, p.lower(e.description));
      if g.lastName.Some? {
        WithinIsMention(g.lastName.value, p.lower(e.title));
        WithinIsMention(g.lastName.value, p.lower(e.description));
      }
    }
    hide Within, Mentions;
  }

  /** The row as the feed has it, in the catalog exactly if no filter catches it. */
  predicate IsRowOf(p: Policy, row: Item, e: Entry) {
    && row.url == e.url && row.title == e.title && row.publishedAt == e.publishedAt && row.duration == e.duration
    && row.canonical == p.normalize(e.url) && row.fingerprint == p.fingerprint(e)
    && (row.cataloged <==> !p.filtered(e))
  }

  /** The row has the entry's canonical URL or its fingerprint. */
  predicate Represents(p: Policy, row: Item, e: Entry) {
    row.canonical == p.normalize(e.url) || (p.fingerprint(e).Some? && row.fingerprint == p.fingerprint(e))
  }

  ghost predicate FromWanted(s: Source, p: Policy, row: Item, entries: seq<Entry>) {
    exists k :: 0 <= k < |entries| && IsRowOf(p, row, entries[k]) && Wanted(s, p, entries[k])
  }

  ghost predicate Represented(p: Policy, content: seq<Item>, e: Entry) {
    exists i :: 0 <= i < |content| && Represents(p, content[i], e)
  }

  lemma {:induction false} NewRowsAreWanted(s: Source, p: Policy, content: seq<Item>, entries: seq<Entry>)
    ensures forall i :: |content| <= i < |Ingested(s, p, content, entries)| ==>
      FromWanted(s, p, Ingested(s, p, content, entries)[i], entries)
  {
    if entries != [] {
      var n := |entries| - 1;
      NewRowsAreWanted(s, p, content, entries[..n]);
      WantedEntries(s, p, entries[n]);
      hide GuestKeeps, Known, Wanted, Old;
      var before, after := Ingested(s, p, content, entries[..n]), Ingested(s, p, content, entries);
      forall i | |content| <= i < |after| ensures FromWanted(s, p, after[i], entries) {
        if i < |before| {
          var k :| 0 <= k < n && IsRowOf(p, before[i], entries[..n][k]) && Wanted(s, p, entries[..n][k]);
          assert entries[k] == entries[..n][k];
        } else {
          assert IsRowOf(p, after[i], entries[n]);
        }
      }
    }
  }

  /** After the loop every wanted entry is represented, by an old row or a new one. */
  lemma WantedAreRepresented(s: Source, p: Policy, content: seq<Item>, entries: seq<Entry>, k: nat)
    requires k < |entries| && Wanted(s, p, entries[k])
    ensures Represented(p, Ingested(s, p, content, entries), entries[k])
  {
    WantedEntries(s, p, entries[k]);
    hide Wanted, Ingested, GuestKeeps, Old;
    EveryEntryIsKnown(s, p, content, entries, k);
    var after := Ingested(s, p, content, entries);
    var i :| 0 <= i < |after| && Same(p, after[i], entries[k]);
    assert Represents(p, after[i], entries[k]);
  }

  predicate AtLeast(a: Option<int>, b: Option<int>) {
    b.Some? ==> a.Some? && a.value >= b.value
  }

  lemma {:induction false} NewestBounds(mark: Option<int>, items: seq<Item>)
    ensures AtLeast(Newest(mark, items), mark)
    ensures forall i :: 0 <= i < |items| ==> AtLeast(Newest(mark, items), items[i].publishedAt)
    ensures Newest(mark, items) == mark || exists i :: 0 <= i < |items| && items[i].publishedAt == Newest(mark, items)
  {
    if items != [] {
      NewestBounds(mark, items[..|items| - 1]);
      if Newest(mark, items[..|items| - 1]) != mark {
        var i :| 0 <= i < |items| - 1 && items[..|items| - 1][i].publishedAt == Newest(mark, items[..|items| - 1]);
        assert items[i].publishedAt == Newest(mark, items[..|items| - 1]);
      }
      assert items[|items| - 1].publishedAt == items[|items| - 1].publishedAt;
    }
  }

  /** A source that was ever fetched has finished its backfill: both are set by the same commit. */
  predicate Settled(s: Source) {
    s.lastFetched.Some? ==> s.backfillComplete
  }

  /** A source as it is created. */
  predicate Fresh(s: Source) {
    !s.backfillComplete && s.lastFetched.None? && s.latestPublishedAt.None?
  }

  /** A backfill of a source that was fetched before, in which everything dated is older than that fetch. */
  predicate RewindsBackfill(s: Source, inserted: seq<Item>) {
    && !s.backfillComplete && s.latestPublishedAt.None? && s.lastFetched.Some?
    && (exists i :: 0 <= i < |inserted| && inserted[i].publishedAt.Some?)
    && (forall i :: 0 <= i < |inserted| && inserted[i].publishedAt.Some? ==>
      inserted[i].publishedAt.value < s.lastFetched.value)
  }

  /**
   One fetch of any source record moves the cutoff back exactly if it rewinds a
   backfill, which no settled source can do.
   */
  lemma CutoffMovesForward(s: Source, p: Policy, content: seq<Item>, entries: seq<Entry>, now: int)
    requires s.lastFetched.Some? ==> s.lastFetched.value <= now
    ensures var inserted := Inserted(s, p, content, entries);
      AtLeast(Cutoff(Fetched(s, inserted, now)), Cutoff(s)) <==> !RewindsBackfill(s, inserted)
    ensures Settled(s) ==> !RewindsBackfill(s, Inserted(s, p, content, entries))
  {
    var inserted := Inserted(s, p, content, entries);
    NewestBounds(s.latestPublishedAt, inserted);
    if s.backfillComplete && Cutoff(s).Some? && s.latestPublishedAt.None? {
      InsertedIsNewer(s, p, content, entries);
      assert forall i :: 0 <= i < |inserted| ==> inserted[i] == Ingested(s, p, content, entries)[|content| + i];
    }
  }

  /** One fetch: what the payload asks for, what the table held and the feed had, and when. */
  datatype Fetch = Fetch(policy: Policy, content: seq<Item>, entries: seq<Entry>, now: int)

  /** The records of a source over its fetches from creation on, with a clock that does not go back. */
  predicate FetchRun(sources: seq<Source>, fetches: seq<Fetch>) {
    && |sources| == |fetches| + 1 && Fresh(sources[0])
    && (forall i :: 0 <= i < |fetches| ==>
          var f := fetches[i];
          sources[i + 1] == Fetched(sources[i], Inserted(sources[i], f.policy, f.content, f.entries), f.now))
    && (forall i, j :: 0 <= i < j < |fetches| ==> fetches[i].now <= fetches[j].now)
  }

  /** The handler's commit keeps a source settled. */
  lemma SettledAlways(sources: seq<Source>, fetches: seq<Fetch>, n: nat)
    requires FetchRun(sources, fetches) && n <= |fetches|
    ensures Settled(sources[n])
    ensures sources[n].lastFetched == if n == 0 then None else Some(fetches[n - 1].now)
  {
    hide Ingested, Newest;
    if n > 0 {
      var f := fetches[n - 1];
      assert sources[n - 1 + 1] == Fetched(sources[n - 1], Inserted(sources[n - 1], f.policy, f.content, f.entries),
        f.now);
    }
  }

  /** Over all fetches of a source, whatever the table and the feed hold each time, the cutoff never moves back. */
  lemma {:induction false} CutoffNeverMovesBack(sources: seq<Source>, fetches: seq<Fetch>, m: nat, n: nat)
    requires FetchRun(sources, fetches) && m <= n <= |fetches|
    ensures AtLeast(Cutoff(sources[n]), Cutoff(sources[m]))
    decreases n
  {
    if m < n {
      CutoffNeverMovesBack(sources, fetches, m, n - 1);
      SettledAlways(sources, fetches, n - 1);
      var f := fetches[n - 1];
      assert sources[n - 1 + 1] == sources[n];
      hide Ingested, Newest, RewindsBackfill;
      CutoffMovesForward(sources[n - 1], f.policy, f.content, f.entries, f.now);
    }
  }

  /**
   Fetching the same feed again, whatever others inserted in between and however the
   first fetch went, inserts nothing; the clock only must not go back.
   */
  lemma RefetchInsertsNothing(s: Source, p: Policy, content: seq<Item>, entries: seq<Entry>, now: int, later: seq<Item>)
    requires s.lastFetched.Some? ==> s.lastFetched.value <= now
    requires Ingested(s, p, content, entries) <= later
    ensures var s' := Fetched(s, Inserted(s, p, content, entries), now);
      Ingested(s', p, later, entries) == later
  {
    var s' := Fetched(s, Inserted(s, p, content, entries), now);
    CutoffMovesForward(s, p, content, entries, now);
    forall k | 0 <= k < |entries|
      ensures Old(s', entries[k]) || !GuestKeeps(p, entries[k]) || Known(p, later, entries[k])
    {
      if !Old(s, entries[k]) && GuestKeeps(p, entries[k]) {
        EveryEntryIsKnown(s, p, content, entries, k);
        KnownInMore(p, Ingested(s, p, content, entries), later, entries[k]);
      }
    }
    AllKnownInsertsNothing(s', p, later, entries);
  }
}
