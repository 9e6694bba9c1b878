/**
 The queue operations as the program runs them, updating the jobs table in
 place. Each call is one transaction; the rows other transactions have locked
 are a parameter.
 */
module JobQueue {
  import opened Options
  import opened JobRows
  import P = QueueProtocol

  /** The row a claim's query may return: eligible, not locked, and preceded by no other such row. */
  predicate First(rows: map<JobId, JobRow>, locked: set<JobId>, jobTypes: Option<set<string>>, now: int, id: JobId) {
    && id in rows && id !in locked && Eligible(rows[id], jobTypes, now)
    && forall j :: j in rows && j !in locked && Eligible(rows[j], jobTypes, now) ==> !Precedes(rows[j], rows[id])
  }

  lemma PrecedesIsTransitive(a: JobRow, b: JobRow, c: JobRow)
    ensures !Precedes(a, a)
    ensures Precedes(a, b) && Precedes(b, c) ==> Precedes(a, c)
    ensures !Precedes(a, b) && !Precedes(b, c) ==> !Precedes(a, c)
  {
  }

  /** Among any rows some row is preceded by none. */
  lemma {:induction false} SomeRowIsFirst(rows: map<JobId, JobRow>, ids: set<JobId>) returns (first: JobId)
    requires ids != {} && ids <= rows.Keys
    ensures first in ids
    ensures forall j :: j in ids ==> !Precedes(rows[j], rows[first])
    decreases |ids|
  {
    hide Precedes;
    var x :| x in ids;
    first := x;
    PrecedesIsTransitive(rows[x], rows[x], rows[x]);
    var rest := ids - {x};
    assert forall j :: j in ids ==> j == x || j in rest;
    if rest != {} {
      var y := SomeRowIsFirst(rows, rest);
      first := if Precedes(rows[x], rows[y]) then x else y;
      forall j | j in rest ensures !Precedes(rows[j], rows[first]) {
        PrecedesIsTransitive(rows[j], rows[x], rows[y]);
      }
    }
  }

  /** How a handler's run ends; an error raised for a 429 response carries its Retry-After header. */
  datatype Outcome = NoHandler | Succeeded | Raised(category: Category, header: Option<RetryHeader>)

  /** The row after a job was processed by one undisturbed worker. */
  function Processed(r: JobRow, outcome: Outcome, now: int): JobRow {
    match outcome
    case NoHandler => FailureRecorded(r, 1, HandlerNotFound, None, now)
    case Succeeded => Completed(r, now)
    case Raised(category, header) =>
      var retryAfter := if header.Some? then ParseRetryAfter(header.value, now) else None;
      FailureRecorded(r, TypeLimit(r.jobType), category, retryAfter, now)
  }

  /**
   A claimed job leaves the running state whatever its handler does: done only on success, failed for good if
   there is no handler, and otherwise retried within the hour exactly while its type allows another attempt:
   when the server said, or else after the backoff.
   */
  lemma ClaimThenProcess(r: JobRow, worker: string, claimedAt: int, outcome: Outcome, now: int)
    ensures var p := Processed(Claimed(r, worker, claimedAt), outcome, now);
      && (p.status == Done <==> outcome.Succeeded?)
      && (p.status == Retrying <==> outcome.Raised? && r.attempts + 1 < TypeLimit(r.jobType))
      && p.status in {Done, Failed, Retrying} && p.attempts == r.attempts + 1
      && (p.status == Retrying ==>
            p.scheduledAt.Some? && now <= p.scheduledAt.value <= now + MAX_BACKOFF * MINUTE && p.workerId.None?)
      && (p.status != Retrying ==> p.completedAt == Some(now))
      && (p.status == Done ==> p.errorCategory.None?)
      && (p.status != Done ==>
            && p.lastErrorAt == Some(now)
            && p.errorCategory == Some(if outcome.NoHandler? then HandlerNotFound else outcome.category))
      && (p.status == Retrying && outcome.header.Some? && outcome.header.value.Seconds?
          && 0 <= outcome.header.value.n <= MAX_RETRY_AFTER ==>
            p.scheduledAt == Some(now + outcome.header.value.n * SECOND))
      && (p.status == Retrying && (outcome.header.None? || outcome.header.value in {Absent, Unparseable}) ==>
            p.scheduledAt == Some(now + Backoff(p.attempts) * MINUTE))
  {
    hide TypeLimit, Backoff;
  }

  /** Running, and started longer ago than the timeout. */
  predicate TimedOut(r: JobRow, timeoutMinutes: int, now: int) {
    r.status == Running && r.startedAt.Some? && now - r.startedAt.value > timeoutMinutes * MINUTE
  }

  /** What becomes of a stale row: a retry, or the end if the attempt now counted is its last. */
  predicate Freed(was: JobRow, r: JobRow, now: int) {
    && r.workerId.None? && r.attempts == was.attempts + 1 && r.startedAt == was.startedAt
    && r.errorCategory == Some(WorkerTimeout) && r.lastErrorAt == Some(now)
    && r.jobType == was.jobType && r.priority == was.priority && r.maxAttempts == was.maxAttempts
    && (was.attempts + 1 < was.maxAttempts ==>
          r.status == Retrying && r.completedAt.None? && r.scheduledAt == Some(now + Backoff(r.attempts) * MINUTE))
    && (was.attempts + 1 >= was.maxAttempts ==>
          r.status == Failed && r.completedAt == Some(now) && r.scheduledAt.None?)
  }

  lemma StaleIsTimedOut(r: JobRow, timeoutMinutes: int, now: int)
    ensures Stale(r, now, timeoutMinutes) <==> TimedOut(r, timeoutMinutes, now)
  {
  }

  lemma ReclaimedIsFreed(r: JobRow, now: int)
    ensures Freed(r, Reclaimed(r, now), now)
  {
    hide Backoff;
  }

  class JobsTable {
    var rows: map<JobId, JobRow>

    method ClaimJob(worker: string, jobTypes: Option<set<string>>, locked: set<JobId>, now: int, startedNow: int)
      returns (claimed: Option<JobId>)
      modifies this
      ensures claimed.None? <==>
        forall j | j in old(rows) && j !in locked && old(rows)[j].status in {Pending, Retrying} ::
          || (old(rows)[j].scheduledAt.Some? && old(rows)[j].scheduledAt.value > now)
          || (jobTypes.Some? && old(rows)[j].jobType !in jobTypes.value)
      ensures claimed.None? ==> rows == old(rows)
      ensures claimed.Some? ==>
        && claimed.value in old(rows) && claimed.value !in locked
        && var job := old(rows)[claimed.value];
           && job.status in {Pending, Retrying} && (jobTypes.Some? ==> job.jobType in jobTypes.value)
           && (job.scheduledAt.Some? ==> job.scheduledAt.value <= now)
           && rows == old(rows)[claimed.value := job.(status := Running, workerId := Some(worker),
                                                      startedAt := Some(startedNow), attempts := job.attempts + 1)]
      ensures claimed.Some? ==>
        forall j | j in old(rows) && j !in locked && old(rows)[j].status in {Pending, Retrying}
                   && (jobTypes.Some? ==> old(rows)[j].jobType in jobTypes.value)
                   && (old(rows)[j].scheduledAt.Some? ==> old(rows)[j].scheduledAt.value <= now) ::
          var job, other := old(rows)[claimed.value], old(rows)[j];
          || job.priority < other.priority
          || (job.priority == other.priority
              && (job.scheduledAt.None?
                  || (other.scheduledAt.Some? && job.scheduledAt.value <= other.scheduledAt.value)))
      ensures claimed.Some? ==> First(old(rows), locked, jobTypes, now, claimed.value)
    {
      var eligible := set j | j in rows && j !in locked && Eligible(rows[j], jobTypes, now);
      if eligible == {} {
        assert forall j :: j in rows && j !in locked && Eligible(rows[j], jobTypes, now) ==> j in eligible;
        assert forall j :: j in rows && j !in locked ==> !Eligible(rows[j], jobTypes, now);
        return None;
      }
      ghost var first := SomeRowIsFirst(rows, eligible);
      assert First(rows, locked, jobTypes, now, first);
      var id :| id in rows && First(rows, locked, jobTypes, now, id);
      assert First(rows, locked, jobTypes, now, id);
      var job := rows[id];
      rows := rows[id := job.(status := Running, workerId := Some(worker), startedAt := Some(startedNow),
        attempts := job.attempts + 1)];
      claimed := Some(id);
    }

    method CompleteJob(id: JobId, now: int)
      modifies this
      ensures rows == if id in old(rows) then old(rows)[id := Completed(old(rows)[id], now)] else old(rows)
      ensures id in old(rows) ==>
        rows[id] == old(rows)[id].(status := Done, completedAt := Some(now), errorCategory := None)
    {
      if id in rows {
        rows := rows[id := rows[id].(status := Done, completedAt := Some(now), errorCategory := None)];
      }
    }

    method FailJob(id: JobId, category: Category, maxAttempts: Option<nat>, retryAfter: Option<nat>, now: int)
      modifies this
      ensures rows ==
        if id !in old(rows) then old(rows)
        else var limit := if maxAttempts.Some? then maxAttempts.value else TypeLimit(old(rows)[id].jobType);
          old(rows)[id := FailureRecorded(old(rows)[id], limit, category, retryAfter, now)]
      ensures id in old(rows) ==>
        var limit := if maxAttempts.Some? then maxAttempts.value else TypeLimit(old(rows)[id].jobType);
        var job, failed := old(rows)[id], rows[id];
        && failed.errorCategory == Some(category) && failed.lastErrorAt == Some(now)
        && failed.attempts == job.attempts && failed.startedAt == job.startedAt
        && (job.attempts < limit ==>
              && failed.status == Retrying && failed.workerId.None? && failed.completedAt == job.completedAt
              && failed.scheduledAt == Some(now + if retryAfter.Some? then retryAfter.value * SECOND
                                                  else Backoff(job.attempts) * MINUTE))
        && (job.attempts >= limit ==>
              && failed.status == Failed && failed.completedAt == Some(now)
              && failed.workerId == job.workerId && failed.scheduledAt == job.scheduledAt)
    {
      if id !in rows {
        return;
      }
      var job := rows[id];
      var limit := if maxAttempts.Some? then maxAttempts.value else TypeLimit(job.jobType);
      if job.attempts < limit {
        job := job.(status := Retrying);
        if retryAfter.Some? {
          job := job.(scheduledAt := Some(now + retryAfter.value * SECOND));
        } else {
          job := job.(scheduledAt := Some(now + Backoff(job.attempts) * MINUTE));
        }
        job := job.(workerId := None);
      } else {
        job := job.(status := Failed, completedAt := Some(now));
      }
      rows := rows[id := job.(errorCategory := Some(category), lastErrorAt := Some(now))];
    }

    /** What a worker does with a job it has claimed, once the handler is looked up and has run. */
    method ProcessJob(id: JobId, outcome: Outcome, now: int)
      requires id in rows
      modifies this
      ensures rows == old(rows)[id := Processed(old(rows)[id], outcome, now)]
    {
      hide FailureRecorded, Completed, TypeLimit, ParseRetryAfter;
      match outcome {
        case NoHandler =>
          FailJob(id, HandlerNotFound, Some(1), None, now);
        case Raised(category, header) =>
          var retryAfter := if header.Some? then ParseRetryAfter(header.value, now) else None;
          FailJob(id, category, Some(TypeLimit(rows[id].jobType)), retryAfter, now);
        case Succeeded =>
          CompleteJob(id, now);
      }
    }

    /** The stale rows nobody has locked, each rescheduled or failed, and the list of them as they were found. */
    method ReclaimStaleJobs(locked: set<JobId>, timeoutMinutes: int, now: int) returns (reclaimed: seq<(JobId, JobRow)>)
      modifies this
      ensures rows == map j | j in old(rows) ::
        if j !in locked && Stale(old(rows)[j], now, timeoutMinutes) then Reclaimed(old(rows)[j], now) else old(rows)[j]
      ensures forall j, r :: (j, r) in reclaimed <==>
        j in old(rows) && r == old(rows)[j] && j !in locked && TimedOut(r, timeoutMinutes, now)
      ensures forall j, r :: (j, r) in reclaimed ==> Freed(r, rows[j], now)
      ensures forall m, n :: 0 <= m < n < |reclaimed| ==> reclaimed[m].0 != reclaimed[n].0
    {
      hide Stale, Backoff, TimedOut, Freed;
      var was := rows;
      var candidates := set j | j in rows && j !in locked && Stale(rows[j], now, timeoutMinutes);
      var todo := candidates;
      reclaimed := [];
      while todo != {}
        invariant todo <= candidates
        invariant rows == map j | j in was :: if j in candidates - todo then Reclaimed(was[j], now) else was[j]
        invariant forall j, r :: (j, r) in reclaimed <==> j in candidates - todo && r == was[j]
        invariant forall m, n :: 0 <= m < n < |reclaimed| ==> reclaimed[m].0 != reclaimed[n].0
        decreases todo
      {
        var id :| id in todo;
        var job := rows[id];
        assert job == was[id];
        var attempts := job.attempts + 1;
        var next := job.(workerId := None, attempts := attempts, errorCategory := Some(WorkerTimeout),
          lastErrorAt := Some(now));
        if attempts >= job.maxAttempts {
          next := next.(status := Failed, scheduledAt := None, completedAt := Some(now));
        } else {
          next := next.(status := Retrying, scheduledAt := Some(now + Backoff(attempts) * MINUTE), completedAt := None);
        }
        assert next == Reclaimed(was[id], now);
        rows := rows[id := next];
        forall m | 0 <= m < |reclaimed| ensures reclaimed[m].0 != id {
          assert reclaimed[m] in reclaimed && reclaimed[m] == (reclaimed[m].0, reclaimed[m].1);
        }
        reclaimed := reclaimed + [(id, job)];
        todo := todo - {id};
      }
      hide Reclaimed;
      forall r ensures Stale(r, now, timeoutMinutes) <==> TimedOut(r, timeoutMinutes, now)
               ensures Freed(r, Reclaimed(r, now), now) {
        StaleIsTimedOut(r, timeoutMinutes, now);
        ReclaimedIsFreed(r, now);
      }
    }
  }

  /** An undisturbed ClaimJob is the protocol's lock and commit, which allow the same choice of row. */
  lemma ClaimJobInProtocol(s: P.Sys, locked: set<JobId>, tx: nat, id: JobId, worker: string,
          jobTypes: Option<set<string>>, now: int, startedNow: int)
    requires tx !in s.txs && forall j :: j in locked <==> j in s.rows && P.Locked(s, j)
    ensures var lock := P.ClaimLock(tx, id, worker, jobTypes, now);
      && (First(s.rows, locked, jobTypes, now, id) <==> P.Guard(s, lock))
      && (P.Guard(s, lock) ==>
            var commit := P.ClaimCommit(tx, startedNow);
            && P.Guard(P.Apply(s, lock), commit)
            && P.Apply(P.Apply(s, lock), commit).rows ==
                 s.rows[id := s.rows[id].(status := Running, workerId := Some(worker), startedAt := Some(startedNow),
                                          attempts := s.rows[id].attempts + 1)])
  {
    hide Eligible, Precedes, P.Locked;
  }

  /** Likewise for ReclaimStaleJobs. */
  lemma ReclaimStaleJobsInProtocol(s: P.Sys, locked: set<JobId>, tx: nat, timeoutMinutes: int, now: int)
    requires tx !in s.txs && forall j :: j in locked <==> j in s.rows && P.Locked(s, j)
    ensures var lock := P.ReclaimLock(tx, now, timeoutMinutes);
      && P.Guard(s, lock) && P.Guard(P.Apply(s, lock), P.ReclaimCommit(tx))
      && P.Apply(P.Apply(s, lock), P.ReclaimCommit(tx)).rows == map j | j in s.rows ::
           if j !in locked && Stale(s.rows[j], now, timeoutMinutes) then Reclaimed(s.rows[j], now) else s.rows[j]
  {
    hide Stale, Reclaimed, P.Locked;
  }

  /** A worker that still works on its job and finds the row unlocked completes it as CompleteJob does. */
  lemma CompleteJobInProtocol(s: P.Sys, f: nat, now: int)
    requires f < |s.flights| && s.flights[f].job in s.rows
    ensures P.Guard(s, P.Complete(f, now)) <==> s.flights[f].phase.Working? && !P.Locked(s, s.flights[f].job)
    ensures P.Guard(s, P.Complete(f, now)) ==>
      var j := s.flights[f].job;
      var s' := P.Apply(s, P.Complete(f, now));
      && s'.rows == s.rows[j := s.rows[j].(status := Done, completedAt := Some(now), errorCategory := None)]
      && s'.txs == s.txs && s'.flights == s.flights[f := s.flights[f].(phase := P.Ended)]
  {
    hide P.Locked;
  }

  /** An undisturbed FailJob is the protocol's read and write. */
  lemma FailJobInProtocol(s: P.Sys, f: nat, limit: nat, category: Category, retryAfter: Option<nat>, now: int)
    requires f < |s.flights| && s.flights[f].job in s.rows && s.flights[f].phase.Working?
    requires !P.Locked(s, s.flights[f].job) && limit in {1, TypeLimit(s.rows[s.flights[f].job].jobType)}
    requires retryAfter.Some? ==> retryAfter.value <= MAX_RETRY_AFTER
    ensures P.Guard(s, P.FailRead(f))
    ensures var read := P.Apply(s, P.FailRead(f));
      var write := P.FailWrite(f, limit, category, retryAfter, now);
      && P.Guard(read, write) && read.rows == s.rows && read.txs == s.txs
      && var j, s' := s.flights[f].job, P.Apply(read, write);
         && s'.rows == s.rows[j := FailureRecorded(s.rows[j], limit, category, retryAfter, now)]
         && s'.txs == s.txs && s'.flights == s.flights[f := s.flights[f].(phase := P.Ended)]
  {
    assert P.Locked(P.Apply(s, P.FailRead(f)), s.flights[f].job) == P.Locked(s, s.flights[f].job);
    hide P.Locked, TypeLimit, FailureRecorded;
  }
}
