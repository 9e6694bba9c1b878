/**
 What a promotion and a sweep must leave in the tables, told row by row, and
 that the transitions of the promotion system do so.
 */
module PromotionOutcomes {
  import opened Options
  import opened Promotions

  /** Among the jobs from position n on there is a pending one for content c. */
  predicate HasNewJob(jobs: seq<Job>, n: nat, c: ContentId) {
    exists k :: n <= k < |jobs| && jobs[k] == Job(c, JobPending)
  }

  /** From position n on there are only pending jobs, for different contents. */
  predicate NewJobsDiffer(jobs: seq<Job>, n: nat) {
    && (forall k :: n <= k < |jobs| ==> jobs[k].status == JobPending)
    && (forall j, k :: n <= j < k < |jobs| ==> jobs[j].content != jobs[k].content)
  }

  /**
   Exactly the picked contents become pending and get their attributions, those they had staying as they
   were; each of them that is undated or not published before the cutoff gets one job; nothing else changes.
   */
  ghost predicate PromotesExactly(was: Db, now: Db, picked: set<ContentId>, who: ContentId -> Attribution,
                                  cutoff: Option<int>) {
    && now.content.Keys == was.content.Keys && picked <= was.content.Keys
    && (forall c :: c in was.content ==>
          now.content[c] == if c in picked then was.content[c].(stage := Pending) else was.content[c])
    && was.jobs <= now.jobs && NewJobsDiffer(now.jobs, |was.jobs|)
    && (forall c :: HasNewJob(now.jobs, |was.jobs|, c) <==>
          && c in picked
          && (cutoff.Some? && was.content[c].publishedAt.Some? ==> was.content[c].publishedAt.value >= cutoff.value))
    && (forall c, t :: (c, t) in now.tags <==> (c, t) in was.tags || (c in picked && t in who(c)))
    && (forall c, t :: (c, t) in now.tags ==>
          now.tags[(c, t)] == if (c, t) in was.tags then was.tags[(c, t)] else who(c)[t])
  }

  lemma EnqueuedAreNew(jobs: seq<Job>, ids: seq<ContentId>)
    requires Distinct(ids)
    ensures jobs <= jobs + Enqueued(ids) && NewJobsDiffer(jobs + Enqueued(ids), |jobs|)
    ensures forall c :: HasNewJob(jobs + Enqueued(ids), |jobs|, c) <==> c in ids
  {
    var all := jobs + Enqueued(ids);
    assert forall k :: |jobs| <= k < |all| ==> all[k] == Job(ids[k - |jobs|], JobPending);
    forall c ensures HasNewJob(all, |jobs|, c) <==> c in ids {
      if c in ids {
        var k :| 0 <= k < |ids| && ids[k] == c;
        assert all[|jobs| + k] == Job(c, JobPending);
      }
    }
  }

  lemma YoungPicked(db: Db, ids: seq<ContentId>, picked: set<ContentId>, cutoff: Option<int>)
    requires Distinct(ids) && picked <= db.content.Keys && forall c :: c in ids <==> c in picked
    ensures Distinct(Young(db.content, ids, cutoff))
    ensures forall c :: c in Young(db.content, ids, cutoff) <==>
      && c in picked
      && (cutoff.Some? && db.content[c].publishedAt.Some? ==> db.content[c].publishedAt.value >= cutoff.value)
  {
    FilterExactly(ids, c => c in db.content && IsTranscribable(db.content[c].publishedAt, cutoff));
  }

  lemma PromotionIsExact(db: Db, batch: seq<ContentId>, keeps: ContentId -> bool, who: ContentId -> Attribution,
                         cutoff: Option<int>, picked: set<ContentId>)
    requires forall c :: c in picked <==> c in batch && c in db.content && db.content[c].stage == Cataloged && keeps(c)
    ensures PromotesExactly(db, Promotion(db, batch, keeps, who, cutoff), picked, who, cutoff)
  {
    var ids := Promoted(db.content, batch, keeps);
    PromotedExactly(db.content, batch, keeps);
    hide Promoted, Filter, Distinct, Attributed, Enqueued, HasNewJob, NewJobsDiffer, Young, IsTranscribable;
    YoungPicked(db, ids, picked, cutoff);
    EnqueuedAreNew(db.jobs, Young(db.content, ids, cutoff));
    forall c, t
      ensures (c, t) in Attributed(db.tags, ids, who) <==> (c, t) in db.tags || (c in picked && t in who(c))
      ensures (c, t) in Attributed(db.tags, ids, who) ==>
        Attributed(db.tags, ids, who)[(c, t)] == if (c, t) in db.tags then db.tags[(c, t)] else who(c)[t]
    {
      AttributedEach(db.tags, ids, who, c);
    }
  }

  lemma {:induction false} DepthCounts(jobs: seq<Job>)
    ensures Depth(jobs) == |set k | 0 <= k < |jobs| && jobs[k].status in {JobPending, JobRetrying}|
  {
    if jobs != [] {
      DepthCounts(jobs[..|jobs| - 1]);
      LastJobWaits(jobs);
    }
  }

  lemma LastJobWaits(jobs: seq<Job>)
    requires jobs != []
    ensures var n := |jobs| - 1;
      |set k | 0 <= k < |jobs| && jobs[k].status in {JobPending, JobRetrying}| ==
      |set k | 0 <= k < n && jobs[..n][k].status in {JobPending, JobRetrying}| + if Waiting(jobs[n]) then 1 else 0
  {
    var n := |jobs| - 1;
    var before := set k | 0 <= k < n && jobs[..n][k].status in {JobPending, JobRetrying};
    var all := set k | 0 <= k < |jobs| && jobs[k].status in {JobPending, JobRetrying};
    assert forall k :: 0 <= k < n ==> jobs[..n][k] == jobs[k];
    assert all == before + if Waiting(jobs[n]) then {n} else {};
  }

  /** Pending content, undated or not published before the cutoff. */
  predicate Transcribable(content: map<ContentId, Content>, cutoff: Option<int>, c: ContentId) {
    && c in content && content[c].stage == Pending
    && (cutoff.Some? && content[c].publishedAt.Some? ==> content[c].publishedAt.value >= cutoff.value)
  }

  /** Among the first n jobs one for c is not done. */
  predicate InHand(jobs: seq<Job>, n: nat, c: ContentId) {
    exists k :: 0 <= k < n && k < |jobs| && jobs[k].content == c && jobs[k].status != JobDone
  }

  /**
   Jobs are added for transcribable contents that have none in hand, no more than fit below the threshold and
   no fewer unless nothing is left, those discovered first before the others.
   */
  ghost predicate SweepsExactly(was: Db, now: Db, threshold: int, cutoff: Option<int>) {
    var n := |was.jobs|;
    var waiting := |set k | 0 <= k < n && was.jobs[k].status in {JobPending, JobRetrying}|;
    && now.content == was.content && now.tags == was.tags
    && was.jobs <= now.jobs && NewJobsDiffer(now.jobs, n)
    && (forall k :: n <= k < |now.jobs| ==>
          Transcribable(was.content, cutoff, now.jobs[k].content) && !InHand(was.jobs, n, now.jobs[k].content))
    && (|now.jobs| == n || |now.jobs| - n <= threshold - waiting)
    && (forall d :: Transcribable(was.content, cutoff, d) && !InHand(now.jobs, |now.jobs|, d) ==>
          |now.jobs| - n >= threshold - waiting)
    && (forall d, k :: Transcribable(was.content, cutoff, d) && !InHand(now.jobs, |now.jobs|, d)
                       && n <= k < |now.jobs| ==>
          was.content[now.jobs[k].content].discoveredAt <= was.content[d].discoveredAt)
  }

  lemma SpecWords(db: Db, cutoff: Option<int>, c: ContentId)
    ensures InHand(db.jobs, |db.jobs|, c) <==> Covered(db.jobs, c)
    ensures Transcribable(db.content, cutoff, c) <==> Eligible(db, cutoff, c)
  {
  }

  /** What a sweep leaves without a job, after it had room for no more. */
  lemma LeftByTheSweep(db: Db, order: seq<ContentId>, threshold: int, cutoff: Option<int>, d: ContentId)
    requires Lists(db, order, cutoff) && Eligible(db, cutoff, d)
    requires !Covered(db.jobs + Enqueued(Taken(db, order, threshold)), d)
    ensures Passed(db, order, threshold, cutoff, d) && |Taken(db, order, threshold)| >= threshold - Depth(db.jobs)
  {
    var taken := Taken(db, order, threshold);
    FilterExactly(order, (x: ContentId) => !Covered(db.jobs, x));
    hide Depth, InOrder, Covered, Filter, Enqueued, Eligible;
    if Covered(db.jobs, d) || d in taken { CoveredAfter(db.jobs, taken, d); }
  }

  lemma SweepTakes(db: Db, order: seq<ContentId>, threshold: int, cutoff: Option<int>, k: nat)
    requires Lists(db, order, cutoff) && k < |Taken(db, order, threshold)|
    ensures var c := Taken(db, order, threshold)[k];
      Transcribable(db.content, cutoff, c) && !InHand(db.jobs, |db.jobs|, c)
  {
    var taken := Taken(db, order, threshold);
    SweptJobs(db, order, threshold, cutoff);
    hide Taken, Lists, Eligible, Covered, Transcribable, InHand;
    assert taken[k] in taken;
    SpecWords(db, cutoff, taken[k]);
  }

  lemma SweepLeaves(db: Db, order: seq<ContentId>, threshold: int, cutoff: Option<int>, d: ContentId)
    requires Lists(db, order, cutoff)
    requires var jobs := db.jobs + Enqueued(Taken(db, order, threshold));
      Transcribable(db.content, cutoff, d) && !InHand(jobs, |jobs|, d)
    ensures |Taken(db, order, threshold)| >= threshold - Depth(db.jobs)
    ensures forall c :: c in Taken(db, order, threshold) ==>
      c in db.content && d in db.content && db.content[c].discoveredAt <= db.content[d].discoveredAt
  {
    SpecWords(db, cutoff, d);
    var taken := Taken(db, order, threshold);
    SpecWords(db.(jobs := db.jobs + Enqueued(taken)), cutoff, d);
    assert d in db.content;
    hide Depth, Lists, Covered, Eligible, Transcribable, InHand, Enqueued, Taken;
    LeftByTheSweep(db, order, threshold, cutoff, d);
    forall c | c in taken ensures c in db.content && db.content[c].discoveredAt <= db.content[d].discoveredAt {
      OldestFirst(db, order, threshold, cutoff, c, d);
    }
  }

  lemma SweepIsExact(db: Db, order: seq<ContentId>, threshold: int, cutoff: Option<int>)
    requires Lists(db, order, cutoff)
    ensures SweepsExactly(db, Swept(db, order, threshold), threshold, cutoff)
  {
    var taken, now := Taken(db, order, threshold), Swept(db, order, threshold);
    var n := |db.jobs|;
    SweptJobs(db, order, threshold, cutoff);
    DepthCounts(db.jobs);
    EnqueuedAreNew(db.jobs, taken);
    assert forall k :: n <= k < |now.jobs| ==> now.jobs[k].content == taken[k - n];
    assert |taken| == 0 || |taken| <= threshold - Depth(db.jobs);
    hide Depth, Lists, Taken, Swept, Enqueued, Transcribable, InHand, NewJobsDiffer, Distinct;
    forall k | n <= k < |now.jobs|
      ensures Transcribable(db.content, cutoff, now.jobs[k].content) && !InHand(db.jobs, n, now.jobs[k].content)
    {
      SweepTakes(db, order, threshold, cutoff, k - n);
    }
    forall d | Transcribable(db.content, cutoff, d) && !InHand(now.jobs, |now.jobs|, d)
      ensures |taken| >= threshold - Depth(db.jobs)
      ensures forall c :: c in taken ==>
        c in db.content && d in db.content && db.content[c].discoveredAt <= db.content[d].discoveredAt
    {
      SweepLeaves(db, order, threshold, cutoff, d);
    }
  }

  /** Only what `who` says of each content matters. */
  lemma SameAttributions(was: Db, now: Db, picked: set<ContentId>, who: ContentId -> Attribution,
                         same: ContentId -> Attribution, cutoff: Option<int>)
    requires PromotesExactly(was, now, picked, who, cutoff) && forall c :: who(c) == same(c)
    ensures PromotesExactly(was, now, picked, same, cutoff)
  {
    hide HasNewJob, NewJobsDiffer;
  }
}
