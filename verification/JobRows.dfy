/**
 A row of the jobs table and what each queue operation does to it: claim,
 complete, fail with backoff or a server's Retry-After, and reclaim.
 */
module JobRows {
  import opened Options

  type JobId = nat

  const SECOND := 1_000_000
  const MINUTE := 60 * SECOND
  const MAX_BACKOFF := 60
  const MAX_RETRY_AFTER := 300

  datatype Status = Pending | Running | Retrying | Done | Failed | Cancelled | AwaitingLlm

  datatype Category = WorkerTimeout | HandlerNotFound | Reported(name: string)

  /** Timestamps are microseconds. */
  datatype JobRow = JobRow(
    jobType: string, status: Status, priority: int, attempts: nat, maxAttempts: int,
    workerId: Option<string>, scheduledAt: Option<int>, startedAt: Option<int>, completedAt: Option<int>,
    lastErrorAt: Option<int>, errorCategory: Option<Category>)

  /** The per-type limit that fail_job goes by. */
  function TypeLimit(jobType: string): (r: nat)
    ensures 2 <= r <= 4
    ensures r == 2 <==> jobType == "process_content"
    ensures r == 4 <==>
      jobType in {"fetch_podcast_feed", "fetch_youtube_channel", "scrape_substack", "fetch_guest_feed"}
  {
    if jobType == "process_content" then 2
    else if jobType in {"fetch_podcast_feed", "fetch_youtube_channel", "scrape_substack", "fetch_guest_feed"} then 4
    else 3
  }

  /** The larger of the two limits a job is held to: its type's and its row's own. */
  function Budget(r: JobRow): (k: nat)
    ensures TypeLimit(r.jobType) <= k && r.maxAttempts <= k
  {
    if r.maxAttempts <= TypeLimit(r.jobType) then TypeLimit(r.jobType) else r.maxAttempts
  }

  function Pow2(n: nat): nat {
    if n == 0 then 1 else 2 * Pow2(n - 1)
  }

  /** Minutes to wait before the next attempt. */
  function Backoff(attempts: nat): (minutes: nat)
    ensures minutes <= MAX_BACKOFF
  {
    if Pow2(attempts) < MAX_BACKOFF then Pow2(attempts) else MAX_BACKOFF
  }

  lemma {:induction false} Pow2Grows(m: nat, n: nat)
    requires m <= n
    ensures 1 <= Pow2(m) <= Pow2(n)
    decreases n
  {
    if m < n { Pow2Grows(m, n - 1); } else if n > 0 { Pow2Grows(n - 1, n - 1); }
  }

  /** The wait doubles with every attempt up to the fifth and is the cap from the sixth on. */
  lemma BackoffDoublesThenCaps(n: nat)
    ensures 1 <= Backoff(n)
    ensures n < 5 ==> Backoff(n + 1) == 2 * Backoff(n)
    ensures 6 <= n ==> Backoff(n) == MAX_BACKOFF
  {
    assert Pow2(5) == 2 * (2 * (2 * (2 * (2 * Pow2(0)))));
    Pow2Grows(n, n);
    if n < 5 { Pow2Grows(n + 1, 5); }
    if 6 <= n {
      assert Pow2(6) == 2 * Pow2(5);
      Pow2Grows(6, n);
    }
  }

  /** A Retry-After header once its text is read (section 7.1.3 of RFC 7231). */
  datatype RetryHeader = Absent | Unparseable | Seconds(n: int) | HttpDate(at: int)

  /** int() of a quotient truncates toward zero. */
  function Truncated(a: int, d: int): int
    requires d > 0
  {
    if a >= 0 then a / d else -((-a) / d)
  }

  /** Seconds to wait, when the server said: never negative, never over the ceiling. */
  function ParseRetryAfter(raw: RetryHeader, now: int): (r: Option<nat>)
    ensures r.Some? ==> r.value <= MAX_RETRY_AFTER
    ensures r.None? <==> raw in {Absent, Unparseable}
    ensures raw.Seconds? && 0 <= raw.n <= MAX_RETRY_AFTER ==> r.value == raw.n
    ensures raw.HttpDate? && now <= raw.at <= now + MAX_RETRY_AFTER * SECOND ==>
      raw.at - SECOND < now + r.value * SECOND <= raw.at
    ensures raw.HttpDate? && raw.at < now ==> r.value == 0
    ensures raw.Seconds? && raw.n < 0 ==> r.value == 0
    ensures raw.Seconds? && raw.n > MAX_RETRY_AFTER ==> r.value == MAX_RETRY_AFTER
    ensures raw.HttpDate? && raw.at > now + MAX_RETRY_AFTER * SECOND ==> r.value == MAX_RETRY_AFTER
  {
    match raw
    case Absent => None
    case Unparseable => None
    case Seconds(n) => Some(Clamp(n))
    case HttpDate(at) => Some(Clamp(Truncated(at - now, SECOND)))
  }

  function Clamp(seconds: int): nat {
    if seconds < 0 then 0 else if seconds > MAX_RETRY_AFTER then MAX_RETRY_AFTER else seconds
  }

  predicate Claimable(r: JobRow) { r.status in {Pending, Retrying} }

  predicate Eligible(r: JobRow, jobTypes: Option<set<string>>, now: int) {
    && Claimable(r)
    && (r.scheduledAt.None? || r.scheduledAt.value <= now)
    && (jobTypes.None? || r.jobType in jobTypes.value)
  }

  /** Queue order: priority, then scheduled_at with nulls first. */
  predicate Precedes(a: JobRow, b: JobRow) {
    || a.priority < b.priority
    || (a.priority == b.priority && b.scheduledAt.Some?
        && (a.scheduledAt.None? || a.scheduledAt.value < b.scheduledAt.value))
  }

  predicate Stale(r: JobRow, now: int, timeoutMinutes: int) {
    r.status == Running && r.startedAt.Some? && r.startedAt.value < now - timeoutMinutes * MINUTE
  }

  function Claimed(r: JobRow, worker: string, now: int): JobRow {
    r.(status := Running, workerId := Some(worker), startedAt := Some(now), attempts := r.attempts + 1)
  }

  function Completed(r: JobRow, now: int): JobRow {
    r.(status := Done, completedAt := Some(now), errorCategory := None)
  }

  /** How long fail_job puts a retry off: as long as the server asked, or the backoff. */
  function Wait(attempts: nat, retryAfter: Option<nat>): (microseconds: nat) {
    if retryAfter.Some? then retryAfter.value * SECOND else Backoff(attempts) * MINUTE
  }

  function FailureRecorded(r: JobRow, limit: nat, category: Category, retryAfter: Option<nat>, now: int): JobRow {
    var verdict :=
      if r.attempts < limit then
        r.(status := Retrying, workerId := None, scheduledAt := Some(now + Wait(r.attempts, retryAfter)))
      else r.(status := Failed, completedAt := Some(now));
    verdict.(errorCategory := Some(category), lastErrorAt := Some(now))
  }

  function Reclaimed(r: JobRow, now: int): JobRow {
    var attempts := r.attempts + 1;
    var freed := r.(workerId := None, attempts := attempts, errorCategory := Some(WorkerTimeout),
      lastErrorAt := Some(now));
    if attempts >= r.maxAttempts then freed.(status := Failed, scheduledAt := None, completedAt := Some(now))
    else freed.(status := Retrying, scheduledAt := Some(now + Backoff(attempts) * MINUTE), completedAt := None)
  }

  /** One column of an ORM flush: only a value that differs from the one read is written. */
  function Column<T(==)>(read: T, want: T, current: T): T {
    if want == read then current else want
  }

  /** Flushing an object read as `read` and assigned as `want` onto a row that is by now `current`. */
  function Flushed(read: JobRow, want: JobRow, current: JobRow): JobRow {
    JobRow(
      Column(read.jobType, want.jobType, current.jobType), Column(read.status, want.status, current.status),
      Column(read.priority, want.priority, current.priority), Column(read.attempts, want.attempts, current.attempts),
      Column(read.maxAttempts, want.maxAttempts, current.maxAttempts),
      Column(read.workerId, want.workerId, current.workerId),
      Column(read.scheduledAt, want.scheduledAt, current.scheduledAt),
      Column(read.startedAt, want.startedAt, current.startedAt),
      Column(read.completedAt, want.completedAt, current.completedAt),
      Column(read.lastErrorAt, want.lastErrorAt, current.lastErrorAt),
      Column(read.errorCategory, want.errorCategory, current.errorCategory))
  }
}
