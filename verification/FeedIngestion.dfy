/**
 The feed handler as it runs: one pass over the entries, which inserts content
 rows and follows the newest publication, and then the source's update and the
 scan job in the same transaction.
 */
module FeedIngestion {
  import opened Options
  import opened Feeds

  class FeedTables {
    var source: Source
    var content: seq<Item>
    /** One scan job per batch: the positions of its rows in the content table. */
    var scanJobs: seq<seq<nat>>

    method FetchFeed(p: Policy, entries: seq<Entry>, now: int)
      modifies this
      ensures !(old(source).approved && old(source).active) ==>
        source == old(source) && content == old(content) && scanJobs == old(scanJobs)
      ensures old(source).approved && old(source).active ==> (
        var inserted := Inserted(old(source), p, old(content), entries);
        && content == old(content) + inserted
        && source == Fetched(old(source), inserted, now)
        && scanJobs == old(scanJobs) + if inserted == [] then [] else [seq(|inserted|, i => |old(content)| + i)])
      ensures old(source).approved && old(source).active ==>
        && (forall i :: |old(content)| <= i < |content| ==> FromWanted(old(source), p, content[i], entries))
        && (forall k :: 0 <= k < |entries| && Wanted(old(source), p, entries[k]) ==>
              Represented(p, content, entries[k]))
      ensures old(source).approved && old(source).active ==>
        && source.backfillComplete && source.lastFetched == Some(now)
        && source.itemCount - old(source).itemCount == |content| - |old(content)|
        && AtLeast(source.latestPublishedAt, old(source).latestPublishedAt)
        && (forall i :: |old(content)| <= i < |content| ==>
              AtLeast(source.latestPublishedAt, content[i].publishedAt))
      ensures Unique(old(content)) ==> Unique(content)
      ensures Settled(old(source)) ==> Settled(source)
      ensures Settled(old(source)) && (old(source).lastFetched.Some? ==> old(source).lastFetched.value <= now) ==>
        AtLeast(Cutoff(source), Cutoff(old(source)))
    {
      if !source.approved || !source.active {
        return;
      }
      hide Ingested, Newest, Unique, Known, GuestKeeps, RewindsBackfill, Wanted, FromWanted, Represented;
      ghost var was := content;
      var batch, newest := IngestEntries(p, entries);
      if Unique(was) { IngestionKeepsUnique(source, p, was, entries); }
      NewestBounds(source.latestPublishedAt, Inserted(source, p, was, entries));
      if source.lastFetched.Some? ==> source.lastFetched.value <= now {
        CutoffMovesForward(source, p, was, entries, now);
      }
      UpdateSource(|batch|, newest, now);
      if batch != [] {
        scanJobs := scanJobs + [batch];
      }
    }

    method UpdateSource(inserted: nat, newest: Option<int>, now: int)
      modifies this`source
      ensures source == old(source).(
        backfillComplete := true, lastFetched := Some(now), itemCount := old(source).itemCount + inserted,
        latestPublishedAt := if newest.Some? then newest else old(source).latestPublishedAt)
    {
      source := source.(lastFetched := Some(now), itemCount := source.itemCount + inserted);
      if newest.Some? {
        source := source.(latestPublishedAt := newest);
      }
      if !source.backfillComplete {
        source := source.(backfillComplete := true);
      }
    }

    /** The two lookups: by canonical URL, then by fingerprint if there is one. */
    method IsDuplicate(p: Policy, e: Entry) returns (known: bool)
      ensures known <==> Known(p, content, e)
    {
      var canonical := p.normalize(e.url);
      var fingerprint := p.fingerprint(e);
      known := exists i :: 0 <= i < |content| && content[i].canonical == canonical;
      if !known && fingerprint.Some? {
        known := exists i :: 0 <= i < |content| && content[i].fingerprint == fingerprint;
      }
      assert forall i :: 0 <= i < |content| ==> (Same(p, content[i], e) <==>
        content[i].canonical == canonical || (fingerprint.Some? && content[i].fingerprint == fingerprint));
    }

    /** The loop over the entries: the rows it inserts and the newest publication it has seen inserted. */
    method IngestEntries(p: Policy, entries: seq<Entry>) returns (batch: seq<nat>, newest: Option<int>)
      modifies this`content
      ensures content == old(content) + Inserted(source, p, old(content), entries)
      ensures batch == seq(|content| - |old(content)|, i => |old(content)| + i)
      ensures newest == Newest(source.latestPublishedAt, Inserted(source, p, old(content), entries))
      ensures forall i :: |old(content)| <= i < |content| ==> FromWanted(source, p, content[i], entries)
      ensures forall k :: 0 <= k < |entries| && Wanted(source, p, entries[k]) ==> Represented(p, content, entries[k])
    {
      hide GuestKeeps, Ingested, Newest, Known;
      var cutoff := if source.latestPublishedAt.Some? then source.latestPublishedAt else source.lastFetched;
      newest := source.latestPublishedAt;
      batch := [];
      ghost var was := content;
      ghost var added: seq<Item> := [];
      NothingYet(source, p, was);
      for k := 0 to |entries|
        invariant cutoff == Cutoff(source)
        invariant content == Ingested(source, p, was, entries[..k]) == was + added
        invariant newest == Newest(source.latestPublishedAt, added)
        invariant batch == seq(|added|, i => |was| + i)
      {
        var e := entries[k];
        IngestedNext(source, p, was, entries, k);
        if source.backfillComplete && cutoff.Some? && e.publishedAt.Some? && e.publishedAt.value <= cutoff.value {
          continue;
        }
        if !GuestKeeps(p, e) {
          continue;
        }
        var known := IsDuplicate(p, e);
        if known {
          continue;
        }
        NewestNext(source.latestPublishedAt, added, ItemOf(p, e));
        batch := batch + [|content|];
        content := content + [Item(e.url, p.normalize(e.url), p.fingerprint(e), e.title, e.publishedAt, e.duration,
          !p.filtered(e))];
        added := added + [ItemOf(p, e)];
        if e.publishedAt.Some? && (newest.None? || e.publishedAt.value > newest.value) {
          newest := e.publishedAt;
        }
      }
      assert entries[..|entries|] == entries;
      assert Inserted(source, p, was, entries) == added;
      NewRowsAreWanted(source, p, was, entries);
      hide Wanted, FromWanted, Represented, Old;
      forall k | 0 <= k < |entries| && Wanted(source, p, entries[k]) ensures Represented(p, content, entries[k]) {
        WantedAreRepresented(source, p, was, entries, k);
      }
    }
  }

  lemma NothingYet(s: Source, p: Policy, content: seq<Item>)
    ensures Ingested(s, p, content, []) == content && Newest(s.latestPublishedAt, []) == s.latestPublishedAt
  {
  }
}
