/**
 The job queue as a transition system: claim and reclaim transactions that hold
 row locks, and the workers' later complete and fail calls, which check no
 ownership. A fail call first reads the row without a lock and later flushes
 what it changed, so other transactions may come between.
 */
module QueueProtocol {
  import opened Options
  import opened JobRows

  datatype Phase = Working | HasRead(row: JobRow) | Ended

  /** One worker's processing of one claimed job; `born` is the attempt it was claimed as. */
  datatype Flight = Flight(job: JobId, born: nat, phase: Phase)

  /** An open transaction and the rows it has locked. */
  datatype Tx = Claiming(job: JobId, worker: string) | Reclaiming(jobs: set<JobId>, now: int)

  datatype Sys = Sys(rows: map<JobId, JobRow>, txs: map<nat, Tx>, flights: seq<Flight>)

  datatype Step =
    | Enqueue(id: JobId, row: JobRow)
    | ClaimLock(tx: nat, id: JobId, worker: string, jobTypes: Option<set<string>>, at: int)
    | ClaimCommit(tx: nat, at: int)
    | ReclaimLock(tx: nat, at: int, timeoutMinutes: int)
    | ReclaimCommit(tx: nat)
    | Abort(tx: nat)
    | Complete(f: nat, at: int)
    | FailRead(f: nat)
    | FailWrite(f: nat, limit: nat, category: Category, retryAfter: Option<nat>, at: int)
    | Crash(f: nat)

  function Held(t: Tx): set<JobId> {
    match t case Claiming(job, _) => {job} case Reclaiming(jobs, _) => jobs
  }

  ghost predicate Locked(s: Sys, j: JobId) {
    exists t :: t in s.txs && j in Held(s.txs[t])
  }

  /** A row as every producer inserts it. */
  predicate FreshRow(r: JobRow) {
    && r.status == Pending && r.attempts == 0
    && r.workerId.None? && r.startedAt.None? && r.completedAt.None? && r.lastErrorAt.None? && r.errorCategory.None?
  }

  /** SELECT ... ORDER BY ... FOR UPDATE SKIP LOCKED LIMIT 1. */
  ghost predicate FirstUnlocked(s: Sys, id: JobId, jobTypes: Option<set<string>>, now: int) {
    && id in s.rows && !Locked(s, id) && Eligible(s.rows[id], jobTypes, now)
    && forall j :: j in s.rows && !Locked(s, j) && Eligible(s.rows[j], jobTypes, now) ==>
      !Precedes(s.rows[j], s.rows[id])
  }

  ghost function StaleUnlocked(s: Sys, now: int, timeoutMinutes: int): set<JobId> {
    set j | j in s.rows && !Locked(s, j) && Stale(s.rows[j], now, timeoutMinutes)
  }

  /** The flight is one of the system's and has not ended; its job's row is not locked. */
  ghost predicate Free(s: Sys, f: nat) {
    f < |s.flights| && s.flights[f].job in s.rows && !Locked(s, s.flights[f].job)
  }

  ghost predicate Guard(s: Sys, step: Step) {
    match step
    case Enqueue(id, row) => id !in s.rows && FreshRow(row)
    case ClaimLock(tx, id, _, jobTypes, at) => tx !in s.txs && FirstUnlocked(s, id, jobTypes, at)
    case ClaimCommit(tx, _) => tx in s.txs && s.txs[tx].Claiming? && s.txs[tx].job in s.rows
    case ReclaimLock(tx, _, _) => tx !in s.txs
    case ReclaimCommit(tx) => tx in s.txs && s.txs[tx].Reclaiming? && s.txs[tx].jobs <= s.rows.Keys
    case Abort(tx) => tx in s.txs
    case Complete(f, _) => Free(s, f) && s.flights[f].phase.Working?
    case FailRead(f) => f < |s.flights| && s.flights[f].phase.Working? && s.flights[f].job in s.rows
    case FailWrite(f, limit, _, retryAfter, _) =>
      && Free(s, f) && s.flights[f].phase.HasRead?
      && limit in {1, TypeLimit(s.rows[s.flights[f].job].jobType)}
      && (retryAfter.Some? ==> retryAfter.value <= MAX_RETRY_AFTER)
    case Crash(f) => f < |s.flights|
  }

  function WithRow(s: Sys, j: JobId, r: JobRow): Sys {
    s.(rows := s.rows[j := r])
  }

  function Ending(s: Sys, f: nat): Sys
    requires f < |s.flights|
  {
    s.(flights := s.flights[f := s.flights[f].(phase := Ended)])
  }

  function Closing(s: Sys, tx: nat): Sys {
    s.(txs := s.txs - {tx})
  }

  ghost function Apply(s: Sys, step: Step): Sys
    requires Guard(s, step)
  {
    match step
    case Enqueue(id, row) => WithRow(s, id, row)
    case ClaimLock(tx, id, worker, _, _) => s.(txs := s.txs[tx := Claiming(id, worker)])
    case ClaimCommit(tx, at) =>
      var j := s.txs[tx].job;
      var r := Claimed(s.rows[j], s.txs[tx].worker, at);
      Closing(WithRow(s, j, r), tx).(flights := s.flights + [Flight(j, r.attempts, Working)])
    case ReclaimLock(tx, at, timeoutMinutes) =>
      s.(txs := s.txs[tx := Reclaiming(StaleUnlocked(s, at, timeoutMinutes), at)])
    case ReclaimCommit(tx) =>
      var t := s.txs[tx];
      Closing(s, tx).(rows := map j | j in s.rows :: if j in t.jobs then Reclaimed(s.rows[j], t.now) else s.rows[j])
    case Abort(tx) => Closing(s, tx)
    case Complete(f, at) =>
      var j := s.flights[f].job;
      Ending(WithRow(s, j, Completed(s.rows[j], at)), f)
    case FailRead(f) =>
      s.(flights := s.flights[f := s.flights[f].(phase := HasRead(s.rows[s.flights[f].job]))])
    case FailWrite(f, limit, category, retryAfter, at) =>
      var j := s.flights[f].job;
      var read := s.flights[f].phase.row;
      Ending(WithRow(s, j, Flushed(read, FailureRecorded(read, limit, category, retryAfter, at), s.rows[j])), f)
    case Crash(f) => Ending(s, f)
  }

  ghost predicate Next(s: Sys, step: Step, s': Sys) {
    Guard(s, step) && s' == Apply(s, step)
  }

  const EMPTY := Sys(map[], map[], [])

  /** A run from the empty queue: states[i+1] follows states[i] by steps[i]. */
  ghost predicate Run(states: seq<Sys>, steps: seq<Step>) {
    && |states| == |steps| + 1 && states[0] == EMPTY
    && forall i :: 0 <= i < |steps| ==> Next(states[i], steps[i], states[i + 1])
  }

  /** What a transaction may rely on: its rows exist and are still what its locking query found. */
  ghost predicate Sound(rows: map<JobId, JobRow>, t: Tx) {
    && Held(t) <= rows.Keys
    && match t
       case Claiming(job, _) => Claimable(rows[job])
       case Reclaiming(jobs, _) => forall j :: j in jobs ==> rows[j].status == Running && rows[j].startedAt.Some?
  }

  /** No two open transactions hold the same row, and every held row is as it was found. */
  ghost predicate LocksHold(s: Sys) {
    && (forall t, u :: t in s.txs && u in s.txs && t != u ==> Held(s.txs[t]) !! Held(s.txs[u]))
    && (forall t :: t in s.txs ==> Sound(s.rows, s.txs[t]))
  }

  lemma UnlockedRowChanges(s: Sys, j: JobId, s': Sys)
    requires LocksHold(s) && !Locked(s, j)
    requires s'.txs == s.txs && s'.rows.Keys >= s.rows.Keys
    requires forall k :: k in s.rows && k != j ==> s'.rows[k] == s.rows[k]
    ensures LocksHold(s')
  {
    hide Claimable;
    forall t | t in s'.txs ensures Sound(s'.rows, s'.txs[t]) {
      assert Sound(s.rows, s.txs[t]) && j !in Held(s.txs[t]);
    }
  }

  lemma LocksTaken(s: Sys, tx: nat, t: Tx, s': Sys)
    requires LocksHold(s) && tx !in s.txs && Sound(s.rows, t) && forall j :: j in Held(t) ==> !Locked(s, j)
    requires s'.rows == s.rows && s'.txs == s.txs[tx := t]
    ensures LocksHold(s')
  {
    hide Sound;
    forall u | u in s.txs ensures Held(s.txs[u]) !! Held(t) {
      forall j | j in Held(t) ensures j !in Held(s.txs[u]) {
        assert !Locked(s, j);
      }
    }
  }

  lemma LocksReleased(s: Sys, tx: nat, s': Sys)
    requires LocksHold(s) && tx in s.txs
    requires s'.txs == s.txs - {tx} && s'.rows.Keys == s.rows.Keys
    requires forall k :: k in s.rows && k !in Held(s.txs[tx]) ==> s'.rows[k] == s.rows[k]
    ensures LocksHold(s')
  {
    hide Claimable;
    forall t | t in s'.txs ensures Sound(s'.rows, s'.txs[t]) {
      assert Sound(s.rows, s.txs[t]) && Held(s.txs[t]) !! Held(s.txs[tx]);
    }
  }

  lemma LocksHoldStep(s: Sys, step: Step, s': Sys)
    requires LocksHold(s) && Next(s, step, s')
    ensures LocksHold(s')
  {
    hide Claimed, Completed, FailureRecorded, Reclaimed, Flushed, Precedes, FreshRow, LocksHold, Locked;
    match step
    case Enqueue(id, row) => NewRowUnlocked(s, id); UnlockedRowChanges(s, id, s');
    case ClaimLock(tx, id, worker, _, _) => LocksTaken(s, tx, Claiming(id, worker), s');
    case ReclaimLock(tx, at, timeoutMinutes) =>
      LocksTaken(s, tx, Reclaiming(StaleUnlocked(s, at, timeoutMinutes), at), s');
    case ClaimCommit(tx, _) => LocksReleased(s, tx, s');
    case ReclaimCommit(tx) => LocksReleased(s, tx, s');
    case Abort(tx) => LocksReleased(s, tx, s');
    case Complete(f, _) => UnlockedRowChanges(s, s.flights[f].job, s');
    case FailWrite(f, _, _, _, _) => UnlockedRowChanges(s, s.flights[f].job, s');
    case FailRead(f) => SameLocks(s, s');
    case Crash(f) => SameLocks(s, s');
  }

  lemma NewRowUnlocked(s: Sys, id: JobId)
    requires LocksHold(s) && id !in s.rows
    ensures !Locked(s, id)
  {
    hide Claimable;
    forall t | t in s.txs ensures id !in Held(s.txs[t]) {
      assert Sound(s.rows, s.txs[t]);
    }
  }

  lemma SameLocks(s: Sys, s': Sys)
    requires LocksHold(s) && s'.rows == s.rows && s'.txs == s.txs
    ensures LocksHold(s')
  {
  }
}
