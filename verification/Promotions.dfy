/**
 Transcription promotion: cataloged episodes are promoted by the scan and the
 rescan, a sweep covers what has no job, and the queue works the jobs off.
 */
module Promotions {
  import opened Options

  type ContentId = nat
  type ThinkerId = nat

  datatype Stage = Cataloged | Skipped | Pending | Done
  datatype Content = Content(stage: Stage, publishedAt: Option<int>, discoveredAt: int)

  datatype JobStatus = JobPending | JobRunning | JobRetrying | JobAwaiting | JobDone | JobFailed | JobCancelled
  /** A process_content job. */
  datatype Job = Job(content: ContentId, status: JobStatus)

  /** An attribution of content to a thinker. */
  datatype Tag = Tag(role: string, confidence: int)
  type Tags = map<(ContentId, ThinkerId), Tag>
  type Attribution = map<ThinkerId, Tag>

  datatype Db = Db(content: map<ContentId, Content>, jobs: seq<Job>, tags: Tags)

  const DAY := 86_400_000_000
  const DEFAULT_MAX_AGE_DAYS := 1825

  /** The configured age in days: absent, unreadable or a number. */
  datatype Setting = Absent | Unreadable | Days(n: int)

  function AgeCutoff(setting: Setting, now: int): (r: Option<int>)
    ensures r.None? <==> setting.Days? && setting.n <= 0
    ensures setting.Days? && setting.n > 0 ==> r == Some(now - setting.n * DAY)
    ensures !setting.Days? ==> r == Some(now - 5 * 365 * DAY)
  {
    var days := if setting.Days? then setting.n else DEFAULT_MAX_AGE_DAYS;
    if days <= 0 then None else Some(now - days * DAY)
  }

  /** An unknown date or no cutoff passes. */
  predicate IsTranscribable(publishedAt: Option<int>, cutoff: Option<int>) {
    cutoff.None? || publishedAt.None? || publishedAt.value >= cutoff.value
  }

  predicate InCatalog(content: map<ContentId, Content>, c: ContentId) {
    c in content && content[c].stage == Cataloged
  }

  /** The items of the batch that get promoted, each at its first occurrence. */
  function Promoted(content: map<ContentId, Content>, batch: seq<ContentId>, keeps: ContentId -> bool)
    : (r: seq<ContentId>)
    ensures forall k :: 0 <= k < |r| ==> InCatalog(content, r[k]) && keeps(r[k])
  {
    if batch == [] then []
    else
      var before := Promoted(content, batch[..|batch| - 1], keeps);
      var c := batch[|batch| - 1];
      if InCatalog(content, c) && c !in before && keeps(c) then before + [c] else before
  }

  function Filter(ids: seq<ContentId>, keep: ContentId -> bool): (r: seq<ContentId>)
    ensures forall k :: 0 <= k < |r| ==> keep(r[k]) && r[k] in ids
  {
    if ids == [] then []
    else
      var before := Filter(ids[..|ids| - 1], keep);
      if keep(ids[|ids| - 1]) then before + [ids[|ids| - 1]] else before
  }

  function Enqueued(ids: seq<ContentId>): seq<Job> {
    seq(|ids|, k requires 0 <= k < |ids| => Job(ids[k], JobPending))
  }

  /** Those of the promoted items that are young enough to transcribe. */
  function Young(content: map<ContentId, Content>, ids: seq<ContentId>, cutoff: Option<int>): seq<ContentId> {
    Filter(ids, c => c in content && IsTranscribable(content[c].publishedAt, cutoff))
  }

  function Marked(content: map<ContentId, Content>, ids: seq<ContentId>): map<ContentId, Content> {
    map c | c in content :: if c in ids then content[c].(stage := Pending) else content[c]
  }

  /** The tags after each of the attributions is added to content c unless c has that thinker already. */
  function WithTags(tags: Tags, c: ContentId, own: Attribution): Tags {
    (map t | t in own :: (c, t) := own[t]) + tags
  }

  function Attributed(tags: Tags, ids: seq<ContentId>, who: ContentId -> Attribution): Tags {
    if ids == [] then tags
    else WithTags(Attributed(tags, ids[..|ids| - 1], who), ids[|ids| - 1], who(ids[|ids| - 1]))
  }

  /** Promotion of a batch: stage, attribution by `who`, and one job for each that is young enough. */
  function Promotion(db: Db, batch: seq<ContentId>, keeps: ContentId -> bool, who: ContentId -> Attribution,
                     cutoff: Option<int>): Db {
    var ids := Promoted(db.content, batch, keeps);
    Db(Marked(db.content, ids), db.jobs + Enqueued(Young(db.content, ids, cutoff)), Attributed(db.tags, ids, who))
  }

  predicate Open(j: Job) { j.status != JobDone }

  predicate Waiting(j: Job) { j.status in {JobPending, JobRetrying} }

  function Depth(jobs: seq<Job>): nat {
    if jobs == [] then 0 else Depth(jobs[..|jobs| - 1]) + if Waiting(jobs[|jobs| - 1]) then 1 else 0
  }

  predicate Covered(jobs: seq<Job>, c: ContentId) {
    exists k :: 0 <= k < |jobs| && jobs[k].content == c && Open(jobs[k])
  }

  /** Pending content the sweep may take up. */
  predicate Eligible(db: Db, cutoff: Option<int>, c: ContentId) {
    c in db.content && db.content[c].stage == Pending && IsTranscribable(db.content[c].publishedAt, cutoff)
  }

  function Uncovered(jobs: seq<Job>, ids: seq<ContentId>): seq<ContentId> {
    Filter(ids, (c: ContentId) => !Covered(jobs, c))
  }

  /** The sweep over `order`, the eligible content oldest first. */
  function Swept(db: Db, order: seq<ContentId>, threshold: int): Db {
    var budget := threshold - Depth(db.jobs);
    if budget <= 0 then db
    else
      var pending := Uncovered(db.jobs, order);
      db.(jobs := db.jobs + Enqueued(if budget < |pending| then pending[..budget] else pending))
  }

  predicate Distinct(ids: seq<ContentId>) {
    forall j, k :: 0 <= j < k < |ids| ==> ids[j] != ids[k]
  }

  predicate InOrder(content: map<ContentId, Content>, ids: seq<ContentId>) {
    forall m, n :: 0 <= m < n < |ids| && ids[m] in content && ids[n] in content ==>
      content[ids[m]].discoveredAt <= content[ids[n]].discoveredAt
  }

  /** The sweep's query: exactly the eligible content, once each, oldest discovered first. */
  ghost predicate Lists(db: Db, order: seq<ContentId>, cutoff: Option<int>) {
    && (forall c :: c in order <==> Eligible(db, cutoff, c))
    && Distinct(order) && InOrder(db.content, order)
  }

  datatype Step =
    | Ingest(c: ContentId, row: Content)
    | Scan(batch: seq<ContentId>, keeps: ContentId -> bool, who: ContentId -> Attribution, ageCutoff: Option<int>)
    | Rescan(found: seq<ContentId>, thinker: ThinkerId, ageCutoff: Option<int>)
    | Sweep(order: seq<ContentId>, threshold: int, ageCutoff: Option<int>)
    | JobTo(k: nat, status: JobStatus)
    | Transcribed(k: nat)

  ghost predicate Guard(db: Db, step: Step) {
    match step
    case Ingest(c, row) => c !in db.content && row.stage in {Cataloged, Skipped}
    case Scan(_, _, _, _) => true
    case Rescan(_, _, _) => true
    case Sweep(order, _, cutoff) => Lists(db, order, cutoff)
    case JobTo(k, _) => k < |db.jobs| && Open(db.jobs[k])
    case Transcribed(k) => k < |db.jobs| && db.jobs[k].status == JobRunning && db.jobs[k].content in db.content
  }

  function RescanKeeps(db: Db, thinker: ThinkerId): ContentId -> bool {
    (c: ContentId) => (c, thinker) !in db.tags
  }

  function RescanTags(thinker: ThinkerId): ContentId -> Attribution {
    (c: ContentId) => map[thinker := Tag("guest", 7)]
  }

  /** A rescan promotes what matched unless it is attributed already. */
  function Rescanned(db: Db, found: seq<ContentId>, thinker: ThinkerId, cutoff: Option<int>): Db {
    Promotion(db, found, RescanKeeps(db, thinker), RescanTags(thinker), cutoff)
  }

  ghost function Apply(db: Db, step: Step): Db
    requires Guard(db, step)
  {
    match step
    case Ingest(c, row) => db.(content := db.content[c := row])
    case Scan(batch, keeps, who, cutoff) => Promotion(db, batch, keeps, who, cutoff)
    case Rescan(found, thinker, cutoff) => Rescanned(db, found, thinker, cutoff)
    case Sweep(order, threshold, _) => Swept(db, order, threshold)
    case JobTo(k, status) => db.(jobs := db.jobs[k := db.jobs[k].(status := status)])
    case Transcribed(k) =>
      var c := db.jobs[k].content;
      db.(content := db.content[c := db.content[c].(stage := Done)])
  }

  ghost predicate Next(db: Db, step: Step, db': Db) {
    Guard(db, step) && db' == Apply(db, step)
  }

  ghost predicate Run(states: seq<Db>, steps: seq<Step>) {
    && |states| == |steps| + 1 && states[0] == Db(map[], [], map[])
    && forall i :: 0 <= i < |steps| ==> Next(states[i], steps[i], states[i + 1])
  }

  /** No content has two jobs that are not done. */
  predicate OneOpenJob(jobs: seq<Job>) {
    forall j, k :: 0 <= j < k < |jobs| && jobs[j].content == jobs[k].content ==> !(Open(jobs[j]) && Open(jobs[k]))
  }

  /** Only content that has left the catalog has jobs. */
  predicate JobsAfterPromotion(db: Db) {
    forall k :: 0 <= k < |db.jobs| ==> db.jobs[k].content in db.content && !InCatalog(db.content, db.jobs[k].content)
  }

  predicate Safe(db: Db) {
    OneOpenJob(db.jobs) && JobsAfterPromotion(db)
  }

  lemma {:induction false} PromotedExactly(content: map<ContentId, Content>, batch: seq<ContentId>,
          keeps: ContentId -> bool)
    ensures Distinct(Promoted(content, batch, keeps))
    ensures forall c :: c in Promoted(content, batch, keeps) <==> c in batch && InCatalog(content, c) && keeps(c)
  {
    if batch != [] {
      var last := |batch| - 1;
      PromotedExactly(content, batch[..last], keeps);
      assert batch == batch[..last] + [batch[last]];
      hide InCatalog;
      assert forall c :: c in batch <==> c in batch[..last] || c == batch[last];
    }
  }

  lemma {:induction false} FilterExactly(ids: seq<ContentId>, keep: ContentId -> bool)
    requires Distinct(ids)
    ensures Distinct(Filter(ids, keep))
    ensures forall c :: c in Filter(ids, keep) <==> c in ids && keep(c)
  {
    if ids != [] {
      var last := |ids| - 1;
      FilterExactly(ids[..last], keep);
      assert ids == ids[..last] + [ids[last]];
      assert ids[last] !in ids[..last];
    }
  }

  /** A filtered list stays in order. */
  lemma {:induction false} FilterInOrder(content: map<ContentId, Content>, ids: seq<ContentId>, keep: ContentId -> bool)
    requires InOrder(content, ids)
    ensures InOrder(content, Filter(ids, keep))
  {
    if ids != [] {
      var last := |ids| - 1;
      FilterInOrder(content, ids[..last], keep);
      var before, r := Filter(ids[..last], keep), Filter(ids, keep);
      forall m, n | 0 <= m < n < |r|
        ensures r[m] in content && r[n] in content ==> content[r[m]].discoveredAt <= content[r[n]].discoveredAt
      {
        assert r[m] == before[m] && before[m] in ids[..last];
        var i :| 0 <= i < last && ids[..last][i] == r[m];
        assert ids[i] == r[m];
        assert if n < |before| then r[n] == before[n] else r[n] == ids[last];
      }
    }
  }

  lemma PrefixIsOldest(content: map<ContentId, Content>, prefix: seq<ContentId>, all: seq<ContentId>, c: ContentId,
          d: ContentId)
    requires prefix <= all && c in prefix && d in all && d !in prefix
    requires InOrder(content, all) && c in content && d in content
    ensures content[c].discoveredAt <= content[d].discoveredAt
  {
    var m :| 0 <= m < |prefix| && prefix[m] == c;
    var n :| 0 <= n < |all| && all[n] == d;
    assert forall i :: 0 <= i < |prefix| ==> prefix[i] == all[i];
    assert n >= |prefix|;
  }

  /** Appending jobs for distinct contents that have no open job keeps open jobs single. */
  lemma AppendKeepsSingle(jobs: seq<Job>, ids: seq<ContentId>)
    requires OneOpenJob(jobs) && Distinct(ids)
    requires forall k :: 0 <= k < |ids| ==> !Covered(jobs, ids[k])
    ensures OneOpenJob(jobs + Enqueued(ids))
  {
    var all := jobs + Enqueued(ids);
    forall j, k | 0 <= j < k < |all|
      ensures all[j].content == all[k].content ==> !(Open(all[j]) && Open(all[k]))
    {
      if k < |jobs| {
        assert all[j] == jobs[j] && all[k] == jobs[k];
      } else {
        assert all[k].content == ids[k - |jobs|] && !Covered(jobs, all[k].content);
        assert if j < |jobs| then all[j] == jobs[j] else all[j].content == ids[j - |jobs|];
      }
    }
  }

  lemma PromotionKeepsSafe(db: Db, batch: seq<ContentId>, keeps: ContentId -> bool, who: ContentId -> Attribution,
          cutoff: Option<int>)
    requires Safe(db)
    ensures Safe(Promotion(db, batch, keeps, who, cutoff))
  {
    var ids := Promoted(db.content, batch, keeps);
    PromotedExactly(db.content, batch, keeps);
    var young := Young(db.content, ids, cutoff);
    FilterExactly(ids, c => c in db.content && IsTranscribable(db.content[c].publishedAt, cutoff));
    hide IsTranscribable, Promoted, Filter;
    forall k | 0 <= k < |young| ensures !Covered(db.jobs, young[k]) {
      assert young[k] in young && InCatalog(db.content, young[k]);
    }
    AppendKeepsSingle(db.jobs, young);
    hide OneOpenJob, Distinct;
    var after := Promotion(db, batch, keeps, who, cutoff);
    forall k | 0 <= k < |after.jobs|
      ensures after.jobs[k].content in after.content && !InCatalog(after.content, after.jobs[k].content)
    {
      if k < |db.jobs| {
        assert after.jobs[k] == db.jobs[k];
      } else {
        assert after.jobs[k].content == young[k - |db.jobs|] && young[k - |db.jobs|] in young;
      }
    }
  }

  /** What a sweep enqueues. */
  function Taken(db: Db, order: seq<ContentId>, threshold: int): seq<ContentId> {
    var budget, pending := threshold - Depth(db.jobs), Uncovered(db.jobs, order);
    if budget <= 0 then [] else if budget < |pending| then pending[..budget] else pending
  }

  /** Eligible and without a job, but left for a later sweep. */
  predicate Passed(db: Db, order: seq<ContentId>, threshold: int, cutoff: Option<int>, d: ContentId) {
    Eligible(db, cutoff, d) && !Covered(db.jobs, d) && d !in Taken(db, order, threshold)
  }

  lemma SweptJobs(db: Db, order: seq<ContentId>, threshold: int, cutoff: Option<int>)
    requires Lists(db, order, cutoff)
    ensures Swept(db, order, threshold) == db.(jobs := db.jobs + Enqueued(Taken(db, order, threshold)))
    ensures Distinct(Taken(db, order, threshold))
    ensures forall c :: c in Taken(db, order, threshold) ==> Eligible(db, cutoff, c) && !Covered(db.jobs, c)
  {
    hide Covered, Depth, Eligible;
    FilterExactly(order, (c: ContentId) => !Covered(db.jobs, c));
    assert db.jobs + Enqueued([]) == db.jobs;
  }

  lemma SweepKeepsSafe(db: Db, order: seq<ContentId>, threshold: int, cutoff: Option<int>)
    requires Safe(db) && Lists(db, order, cutoff)
    ensures Safe(Swept(db, order, threshold))
  {
    var taken := Taken(db, order, threshold);
    SweptJobs(db, order, threshold, cutoff);
    hide Covered, Depth, Taken, Swept, IsTranscribable;
    AppendKeepsSingle(db.jobs, taken);
    hide OneOpenJob, Distinct;
    var after := Swept(db, order, threshold);
    forall k | 0 <= k < |after.jobs|
      ensures after.jobs[k].content in after.content && !InCatalog(after.content, after.jobs[k].content)
    {
      if k < |db.jobs| {
        assert after.jobs[k] == db.jobs[k];
      } else {
        assert after.jobs[k].content == taken[k - |db.jobs|] && taken[k - |db.jobs|] in taken;
      }
    }
  }

  lemma SafeStep(db: Db, step: Step, db': Db)
    requires Safe(db) && Next(db, step, db')
    ensures Safe(db')
  {
    match step
    case Scan(batch, keeps, who, cutoff) => PromotionKeepsSafe(db, batch, keeps, who, cutoff);
    case Rescan(found, thinker, cutoff) =>
      PromotionKeepsSafe(db, found, RescanKeeps(db, thinker), RescanTags(thinker), cutoff);
    case Sweep(order, threshold, cutoff) => SweepKeepsSafe(db, order, threshold, cutoff);
    case _ =>
  }

  /** In every run without late writes each content item has at most one job that is not done. */
  lemma {:induction false} SafeAlways(states: seq<Db>, steps: seq<Step>, n: nat)
    requires Run(states, steps) && n < |states|
    ensures Safe(states[n])
    decreases n
  {
    if n > 0 {
      SafeAlways(states, steps, n - 1);
      hide Safe, Next;
      SafeStep(states[n - 1], steps[n - 1], states[n]);
    }
  }

  /** Once out of the catalog, never in it again: so content is promoted at most once. */
  lemma {:induction false} LeavesCatalogOnce(states: seq<Db>, steps: seq<Step>, n: nat, m: nat, c: ContentId)
    requires Run(states, steps) && n <= m < |states|
    requires c in states[n].content && !InCatalog(states[n].content, c)
    ensures c in states[m].content && !InCatalog(states[m].content, c)
    decreases m
  {
    if n < m {
      LeavesCatalogOnce(states, steps, n, m - 1, c);
      assert Next(states[m - 1], steps[m - 1], states[m]);
      hide Promoted, Young, Lists, Depth, Uncovered, Enqueued;
    }
  }

  lemma {:induction false} DepthOfEnqueued(jobs: seq<Job>, ids: seq<ContentId>)
    ensures Depth(jobs + Enqueued(ids)) == Depth(jobs) + |ids|
  {
    if ids == [] {
      assert jobs + Enqueued(ids) == jobs;
    } else {
      var last := |ids| - 1;
      DepthOfEnqueued(jobs, ids[..last]);
      var all := jobs + Enqueued(ids);
      assert all[..|all| - 1] == jobs + Enqueued(ids[..last]);
      assert all[|all| - 1] == Job(ids[last], JobPending);
    }
  }

  /**
   A sweep fills the queue up to the threshold and no further, and unless it fills it every eligible item is
   covered.
   */
  lemma SweepFillsToThreshold(db: Db, order: seq<ContentId>, threshold: int, cutoff: Option<int>, c: ContentId)
    requires Lists(db, order, cutoff)
    ensures var after := Swept(db, order, threshold);
      && (Depth(after.jobs) <= threshold || after == db)
      && (Depth(after.jobs) >= threshold || (Eligible(db, cutoff, c) ==> Covered(after.jobs, c)))
  {
    var taken := Taken(db, order, threshold);
    SweptJobs(db, order, threshold, cutoff);
    DepthOfEnqueued(db.jobs, taken);
    FilterExactly(order, (x: ContentId) => !Covered(db.jobs, x));
    assert Eligible(db, cutoff, c) && !Covered(db.jobs, c) ==> c in Uncovered(db.jobs, order);
    hide Depth, Distinct, InOrder, Covered, Filter, Enqueued, Eligible, Uncovered;
    if Covered(db.jobs, c) || c in taken { CoveredAfter(db.jobs, taken, c); }
  }

  lemma CoveredAfter(jobs: seq<Job>, taken: seq<ContentId>, c: ContentId)
    requires Covered(jobs, c) || c in taken
    ensures Covered(jobs + Enqueued(taken), c)
  {
    var all := jobs + Enqueued(taken);
    if Covered(jobs, c) {
      var k :| 0 <= k < |jobs| && jobs[k].content == c && Open(jobs[k]);
      assert all[k] == jobs[k];
    } else {
      var k :| 0 <= k < |taken| && taken[k] == c;
      assert all[|jobs| + k] == Job(c, JobPending);
    }
  }

  /** What a sweep enqueues was discovered no later than what it leaves. */
  lemma OldestFirst(db: Db, order: seq<ContentId>, threshold: int, cutoff: Option<int>, c: ContentId, d: ContentId)
    requires Lists(db, order, cutoff) && c in Taken(db, order, threshold) && Passed(db, order, threshold, cutoff, d)
    ensures c in db.content && db.content[c].discoveredAt <= db.content[d].discoveredAt
  {
    var taken, pending := Taken(db, order, threshold), Uncovered(db.jobs, order);
    FilterExactly(order, (x: ContentId) => !Covered(db.jobs, x));
    FilterInOrder(db.content, order, (x: ContentId) => !Covered(db.jobs, x));
    hide Covered, Depth, Distinct, IsTranscribable, Filter, InOrder;
    PrefixIsOldest(db.content, taken, pending, c, d);
  }

  /** Each of the contents gets its attributions, and keeps those it had. */
  lemma {:induction false} AttributedEach(tags: Tags, ids: seq<ContentId>, who: ContentId -> Attribution, c: ContentId)
    ensures forall t :: (c, t) in Attributed(tags, ids, who) <==> (c, t) in tags || (c in ids && t in who(c))
    ensures forall t :: (c, t) in Attributed(tags, ids, who) ==>
      Attributed(tags, ids, who)[(c, t)] == if (c, t) in tags then tags[(c, t)] else who(c)[t]
  {
    if ids != [] {
      var last := |ids| - 1;
      AttributedEach(tags, ids[..last], who, c);
      assert ids == ids[..last] + [ids[last]];
    }
  }

  /** A batch's own jobs are the only ones of what it promotes. */
  lemma CoveredByBatch(jobs: seq<Job>, young: seq<ContentId>, c: ContentId)
    requires forall k :: 0 <= k < |jobs| ==> jobs[k].content != c
    ensures Covered(jobs + Enqueued(young), c) <==> c in young
  {
    var all := jobs + Enqueued(young);
    if c in young { CoveredAfter(jobs, young, c); }
    assert forall k :: 0 <= k < |all| ==> all[k].content == if k < |jobs| then jobs[k].content else young[k - |jobs|];
  }

  /** Of what a batch promotes, exactly the items young enough are covered by a job afterwards. */
  lemma PromotionCovers(db: Db, batch: seq<ContentId>, keeps: ContentId -> bool, who: ContentId -> Attribution,
                        cutoff: Option<int>, c: ContentId)
    requires Safe(db) && c in batch && InCatalog(db.content, c) && keeps(c)
    ensures var after := Promotion(db, batch, keeps, who, cutoff);
      && after.content[c].stage == Pending
      && (forall t :: t in who(c) ==>
            (c, t) in after.tags && after.tags[(c, t)] == if (c, t) in db.tags then db.tags[(c, t)] else who(c)[t])
      && (Covered(after.jobs, c) <==>
            var at := db.content[c].publishedAt; cutoff.Some? && at.Some? ==> cutoff.value <= at.value)
  {
    var ids := Promoted(db.content, batch, keeps);
    PromotedExactly(db.content, batch, keeps);
    FilterExactly(ids, c => c in db.content && IsTranscribable(db.content[c].publishedAt, cutoff));
    CoveredByBatch(db.jobs, Young(db.content, ids, cutoff), c);
    AttributedEach(db.tags, ids, who, c);
    hide Attributed, Promoted, Filter, Distinct, OneOpenJob, Covered, Enqueued;
  }
}
