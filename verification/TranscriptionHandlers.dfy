/**
 The scan, rescan and sweep handlers as they run, each one transaction over the
 content, job and attribution tables.
 */
module TranscriptionHandlers {
  import opened Options
  import opened Promotions
  import opened PromotionOutcomes

  /** A host's own feed promotes everything, another feed only what mentions a thinker. */
  function ScanKeeps(hosts: set<ThinkerId>, matches: ContentId -> Attribution): ContentId -> bool {
    (c: ContentId) => hosts != {} || matches(c) != map[]
  }

  function Hosted(hosts: set<ThinkerId>): Attribution {
    map t | t in hosts :: Tag("primary", 10)
  }

  /** Hosts are the primary speakers; whoever is mentioned has the role and confidence of the match. */
  function ScanTags(hosts: set<ThinkerId>, matches: ContentId -> Attribution): ContentId -> Attribution {
    (c: ContentId) => matches(c) + Hosted(hosts)
  }

  lemma PromotedNext(content: map<ContentId, Content>, batch: seq<ContentId>, keeps: ContentId -> bool, k: nat)
    requires k < |batch|
    ensures var before := Promoted(content, batch[..k], keeps);
      Promoted(content, batch[..k + 1], keeps) ==
        if InCatalog(content, batch[k]) && batch[k] !in before && keeps(batch[k]) then before + [batch[k]] else before
  {
    assert batch[..k + 1][..k] == batch[..k];
  }

  lemma MarkNext(content: map<ContentId, Content>, ids: seq<ContentId>, c: ContentId)
    requires InCatalog(content, c)
    ensures Marked(content, ids)[c := content[c].(stage := Pending)] == Marked(content, ids + [c])
    ensures c !in ids ==> InCatalog(Marked(content, ids), c)
  {
  }

  lemma StillInCatalog(content: map<ContentId, Content>, ids: seq<ContentId>, c: ContentId)
    ensures InCatalog(Marked(content, ids), c) <==> InCatalog(content, c) && c !in ids
    ensures c in content && c !in ids ==> c in Marked(content, ids) && Marked(content, ids)[c] == content[c]
    ensures c in content ==> c in Marked(content, ids) && Marked(content, ids)[c].publishedAt == content[c].publishedAt
  {
  }

  lemma AttributeNext(tags: Tags, ids: seq<ContentId>, who: ContentId -> Attribution, c: ContentId)
    ensures Attributed(tags, ids + [c], who) == WithTags(Attributed(tags, ids, who), c, who(c))
  {
    assert (ids + [c])[..|ids|] == ids;
  }

  lemma WithTagsAt(tags: Tags, c: ContentId, own: Attribution, k: (ContentId, ThinkerId))
    ensures k in WithTags(tags, c, own) <==> k in tags || (k.0 == c && k.1 in own)
    ensures k in WithTags(tags, c, own) ==> WithTags(tags, c, own)[k] == if k in tags then tags[k] else own[k.1]
  {
  }

  /** Adding some attributions and then others is adding both, the first ones first. */
  lemma TagsInTurn(tags: Tags, c: ContentId, first: Attribution, second: Attribution)
    ensures WithTags(WithTags(tags, c, first), c, second) == WithTags(tags, c, second + first)
  {
    hide WithTags;
    var inTurn, atOnce := WithTags(WithTags(tags, c, first), c, second), WithTags(tags, c, second + first);
    forall k: (ContentId, ThinkerId)
      ensures k in inTurn <==> k in atOnce
      ensures k in inTurn ==> inTurn[k] == atOnce[k]
    {
      WithTagsAt(tags, c, first, k);
      WithTagsAt(WithTags(tags, c, first), c, second, k);
      WithTagsAt(tags, c, second + first, k);
    }
  }

  lemma YoungNext(content: map<ContentId, Content>, ids: seq<ContentId>, cutoff: Option<int>, k: nat)
    requires k < |ids| && ids[k] in content
    ensures Enqueued(Young(content, ids[..k + 1], cutoff)) == Enqueued(Young(content, ids[..k], cutoff)) +
      if IsTranscribable(content[ids[k]].publishedAt, cutoff) then [Job(ids[k], JobPending)] else []
  {
    assert ids[..k + 1][..k] == ids[..k];
  }

  lemma NothingYoung(content: map<ContentId, Content>, cutoff: Option<int>)
    ensures Enqueued(Young(content, [], cutoff)) == []
  {
  }

  lemma NothingYet(db: Db, keeps: ContentId -> bool, who: ContentId -> Attribution, cutoff: Option<int>)
    ensures Promoted(db.content, [], keeps) == [] && Marked(db.content, []) == db.content 
    ensures Attributed(db.tags, [], who) == db.tags
    ensures Enqueued(Young(db.content, [], cutoff)) == []
  {
  }

  /** One step of the rescan's loop. */
  lemma RescanNext(was: Db, found: seq<ContentId>, k: nat, promoted: seq<ContentId>, thinker: ThinkerId,
          cutoff: Option<int>)
    requires k < |found| && InCatalog(was.content, found[k]) && found[k] !in promoted
    requires promoted == Promoted(was.content, found[..k], RescanKeeps(was, thinker))
    ensures var c, who := found[k], RescanTags(thinker);
      && Promoted(was.content, found[..k + 1], RescanKeeps(was, thinker)) ==
           (if (c, thinker) in Attributed(was.tags, promoted, who) then promoted else promoted + [c])
      && c in Marked(was.content, promoted) && Marked(was.content, promoted)[c] == was.content[c]
      && Marked(was.content, promoted)[c := was.content[c].(stage := Pending)] == Marked(was.content, promoted + [c])
      && Attributed(was.tags, promoted + [c], who) ==
           WithTags(Attributed(was.tags, promoted, who), c, map[thinker := Tag("guest", 7)])
      && Enqueued(Young(was.content, promoted + [c], cutoff)) == Enqueued(Young(was.content, promoted, cutoff)) +
           if IsTranscribable(was.content[c].publishedAt, cutoff) then [Job(c, JobPending)] else []
  {
    var c, who := found[k], RescanTags(thinker);
    PromotedNext(was.content, found, RescanKeeps(was, thinker), k);
    AttributedEach(was.tags, promoted, who, c);
    hide Promoted, Marked, Attributed, Young, IsTranscribable, Enqueued, WithTags;
    StillInCatalog(was.content, promoted, c);
    MarkNext(was.content, promoted, c);
    AttributeNext(was.tags, promoted, who, c);
    YoungLast(was.content, promoted, c, cutoff);
  }

  lemma ScanIsExact(db: Db, batch: seq<ContentId>, hosts: set<ThinkerId>, matches: ContentId -> Attribution,
                    cutoff: Option<int>)
    ensures
      PromotesExactly(
        db, Promotion(db, batch, ScanKeeps(hosts, matches), ScanTags(hosts, matches), cutoff),
        set c | c in batch && c in db.content && db.content[c].stage == Cataloged
                && (hosts != {} || matches(c) != map[]),
        (c: ContentId) => map t | t in hosts + matches(c).Keys ::
                            if t in hosts then Tag("primary", 10) else matches(c)[t],
        cutoff)
  {
    var who := (c: ContentId) => map t | t in hosts + matches(c).Keys ::
                                   if t in hosts then Tag("primary", 10) else matches(c)[t];
    var picked := set c | c in batch && c in db.content && db.content[c].stage == Cataloged
                          && (hosts != {} || matches(c) != map[]);
    forall c ensures ScanTags(hosts, matches)(c) == who(c) {
      assert ScanTags(hosts, matches)(c).Keys == who(c).Keys;
    }
    var keeps := ScanKeeps(hosts, matches);
    assert forall c :: keeps(c) <==> hosts != {} || matches(c) != map[];
    PromotionIsExact(db, batch, keeps, ScanTags(hosts, matches), cutoff, picked);
    hide PromotesExactly, Promotion;
    SameAttributions(db, Promotion(db, batch, keeps, ScanTags(hosts, matches), cutoff), picked,
                     ScanTags(hosts, matches), who, cutoff);
  }

  lemma RescanIsExact(db: Db, found: seq<ContentId>, thinker: ThinkerId, cutoff: Option<int>)
    requires forall c :: c in found ==> InCatalog(db.content, c)
    ensures PromotesExactly(db, Rescanned(db, found, thinker, cutoff), set c | c in found && (c, thinker) !in db.tags,
                            (c: ContentId) => map[thinker := Tag("guest", 7)], cutoff)
  {
    var who := (c: ContentId) => map[thinker := Tag("guest", 7)];
    var picked := set c | c in found && (c, thinker) !in db.tags;
    PromotionIsExact(db, found, RescanKeeps(db, thinker), RescanTags(thinker), cutoff, picked);
    hide PromotesExactly, Promotion;
    SameAttributions(db, Rescanned(db, found, thinker, cutoff), picked, RescanTags(thinker), who, cutoff);
  }

  class Tables {
    var content: map<ContentId, Content>
    var jobs: seq<Job>
    var tags: Tags

    function Now(): Db
      reads this
    {
      Db(content, jobs, tags)
    }

    method ScanEpisodes(batch: seq<ContentId>, hosts: set<ThinkerId>, matches: ContentId -> Attribution,
            cutoff: Option<int>)
      modifies this
      ensures Now() == Promotion(old(Now()), batch, ScanKeeps(hosts, matches), ScanTags(hosts, matches), cutoff)
      ensures
        PromotesExactly(
          old(Now()), Now(),
          set c | c in batch && c in old(content) && old(content)[c].stage == Cataloged
                  && (hosts != {} || matches(c) != map[]),
          (c: ContentId) => map t | t in hosts + matches(c).Keys ::
                              if t in hosts then Tag("primary", 10) else matches(c)[t],
          cutoff)
    {
      ScanIsExact(Now(), batch, hosts, matches, cutoff);
      hide PromotesExactly;
      ghost var was := content;
      var promoted := PromoteScanned(batch, hosts, matches);
      assert forall c :: c in promoted ==> InCatalog(was, c);
      hide Promoted, Young;
      EnqueueYoung(promoted, cutoff, was);
    }

    /** The scan's second loop: one job for each promoted item that is young enough. */
    method EnqueueYoung(ids: seq<ContentId>, cutoff: Option<int>, ghost was: map<ContentId, Content>)
      requires forall c :: c in ids ==> c in content && c in was && content[c].publishedAt == was[c].publishedAt
      modifies this`jobs
      ensures jobs == old(jobs) + Enqueued(Young(was, ids, cutoff))
    {
      hide Young, IsTranscribable, Enqueued;
      NothingYoung(was, cutoff);
      for k := 0 to |ids|
        invariant jobs == old(jobs) + Enqueued(Young(was, ids[..k], cutoff))
      {
        assert ids[k] in ids;
        YoungNext(was, ids, cutoff, k);
        if !IsTranscribable(content[ids[k]].publishedAt, cutoff) {
          continue;
        }
        jobs := jobs + [Job(ids[k], JobPending)];
      }
      assert ids[..|ids|] == ids;
    }

    /** The scan's first loop: promotion and attribution. */
    method PromoteScanned(batch: seq<ContentId>, hosts: set<ThinkerId>, matches: ContentId -> Attribution)
      returns (promoted: seq<ContentId>)
      modifies this`content, this`tags
      ensures promoted == Promoted(old(content), batch, ScanKeeps(hosts, matches))
      ensures content == Marked(old(content), promoted)
      ensures tags == Attributed(old(tags), promoted, ScanTags(hosts, matches))
    {
      ghost var was := Now();
      ghost var keeps, who := ScanKeeps(hosts, matches), ScanTags(hosts, matches);
      promoted := [];
      NothingYet(was, keeps, who, None);
      hide Promoted, Marked, Attributed, WithTags, Hosted;
      for k := 0 to |batch|
        invariant promoted == Promoted(was.content, batch[..k], keeps)
        invariant content == Marked(was.content, promoted)
        invariant tags == Attributed(was.tags, promoted, who)
      {
        var c := batch[k];
        PromotedNext(was.content, batch, keeps, k);
        StillInCatalog(was.content, promoted, c);
        if c !in content || content[c].stage != Cataloged {
          continue;
        }
        var found := matches(c);
        if hosts != {} || found != map[] {
          MarkNext(was.content, promoted, c);
          AttributeNext(was.tags, promoted, who, c);
          content := content[c := content[c].(stage := Pending)];
          Attribute(c, hosts, found);
          promoted := promoted + [c];
        }
      }
      assert batch[..|batch|] == batch;
    }

    /** The rows a promoted item gets: its hosts, then its matches, each unless it is there already. */
    method Attribute(c: ContentId, hosts: set<ThinkerId>, found: Attribution)
      modifies this`tags
      ensures tags == WithTags(old(tags), c, found + Hosted(hosts))
    {
      TagsInTurn(tags, c, Hosted(hosts), found);
      tags := WithTags(tags, c, map t | t in hosts :: Tag("primary", 10));
      tags := WithTags(tags, c, found);
    }

    /** `found` is what the query and the name matcher returned: cataloged rows, each once. */
    method RescanCataloged(found: seq<ContentId>, thinker: ThinkerId, cutoff: Option<int>)
      requires Distinct(found) && forall c :: c in found ==> InCatalog(content, c)
      modifies this
      ensures Now() == Rescanned(old(Now()), found, thinker, cutoff)
      ensures PromotesExactly(old(Now()), Now(), set c | c in found && (c, thinker) !in old(tags),
                              (c: ContentId) => map[thinker := Tag("guest", 7)], cutoff)
    {
      ghost var was := Now();
      ghost var who := RescanTags(thinker);
      ghost var promoted: seq<ContentId> := [];
      NothingYet(was, RescanKeeps(was, thinker), who, cutoff);
      hide Promoted, Marked, Attributed, Young, IsTranscribable, Enqueued, RescanKeeps, RescanTags, WithTags;
      for k := 0 to |found|
        invariant promoted == Promoted(was.content, found[..k], RescanKeeps(was, thinker))
        invariant forall c :: c in promoted ==> c in found[..k]
        invariant content == Marked(was.content, promoted)
        invariant tags == Attributed(was.tags, promoted, who)
        invariant jobs == was.jobs + Enqueued(Young(was.content, promoted, cutoff))
      {
        var c := found[k];
        assert c in found && c !in found[..k];
        RescanNext(was, found, k, promoted, thinker, cutoff);
        if (c, thinker) in tags {
          continue;
        }
        content := content[c := content[c].(stage := Pending)];
        tags := WithTags(tags, c, map[thinker := Tag("guest", 7)]);
        promoted := promoted + [c];
        if IsTranscribable(content[c].publishedAt, cutoff) {
          jobs := jobs + [Job(c, JobPending)];
        }
      }
      assert found[..|found|] == found;
      hide PromotesExactly;
      RescanIsExact(was, found, thinker, cutoff);
    }

    /** `order` is the eligible content, oldest first. */
    method EnqueuePending(order: seq<ContentId>, threshold: int, ghost cutoff: Option<int>)
      requires Lists(Now(), order, cutoff)
      modifies this`jobs
      ensures Now() == Swept(old(Now()), order, threshold)
      ensures SweepsExactly(old(Now()), Now(), threshold, cutoff)
    {
      SweepIsExact(Now(), order, threshold, cutoff);
      hide SweepsExactly;
      var budget := threshold - Depth(jobs);
      if budget <= 0 {
        return;
      }
      var pending := WithoutJob(order);
      Enqueue(if budget < |pending| then pending[..budget] else pending);
    }

    /** The rows of the query whose id no unfinished job's payload names. */
    method WithoutJob(order: seq<ContentId>) returns (pending: seq<ContentId>)
      ensures pending == Uncovered(jobs, order)
    {
      var covered := set k | 0 <= k < |jobs| && Open(jobs[k]) :: jobs[k].content;
      assert forall c :: c in covered <==> Covered(jobs, c);
      hide Covered;
      pending := [];
      for k := 0 to |order|
        invariant pending == Uncovered(jobs, order[..k])
      {
        assert order[..k + 1][..k] == order[..k];
        if order[k] !in covered {
          pending := pending + [order[k]];
        }
      }
      assert order[..|order|] == order;
    }

    method Enqueue(ids: seq<ContentId>)
      modifies this`jobs
      ensures jobs == old(jobs) + Enqueued(ids)
    {
      for k := 0 to |ids|
        invariant jobs == old(jobs) + Enqueued(ids[..k])
      {
        assert Enqueued(ids[..k + 1]) == Enqueued(ids[..k]) + [Job(ids[k], JobPending)];
        jobs := jobs + [Job(ids[k], JobPending)];
      }
      assert ids[..|ids|] == ids;
    }
  }

  lemma YoungLast(content: map<ContentId, Content>, ids: seq<ContentId>, c: ContentId, cutoff: Option<int>)
    requires c in content
    ensures Enqueued(Young(content, ids + [c], cutoff)) == Enqueued(Young(content, ids, cutoff)) +
      if IsTranscribable(content[c].publishedAt, cutoff) then [Job(c, JobPending)] else []
  {
    YoungNext(content, ids + [c], cutoff, |ids|);
    assert (ids + [c])[..|ids|] == ids && (ids + [c])[..|ids| + 1] == ids + [c];
  }
}
