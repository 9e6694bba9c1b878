/**
 However the workers' calls interleave, a job is claimed at most as often as the
 larger of its two limits allows.
 */
module QueueClaims {
  import opened Options
  import opened Sets
  import opened JobRows
  import opened QueueProtocol

  /** The flights of job j: one per time the job was claimed. */
  ghost function Claims(s: Sys, j: JobId): set<nat> {
    set i: nat | i < |s.flights| && s.flights[i].job == j
  }

  /** The flight could still read, or has read, an attempt number under the budget. */
  ghost predicate Capable(s: Sys, i: nat)
    requires i < |s.flights| && s.flights[i].job in s.rows
  {
    var r := s.rows[s.flights[i].job];
    match s.flights[i].phase
    case Working => r.attempts < Budget(r)
    case HasRead(read) => read.attempts < Budget(r)
    case Ended => false
  }

  /** The row is running as the attempt this flight claimed. */
  ghost predicate Owns(s: Sys, i: nat)
    requires i < |s.flights| && s.flights[i].job in s.rows
  {
    var r := s.rows[s.flights[i].job];
    r.status == Running && s.flights[i].born == r.attempts
  }

  /** Capable flights whose job was taken from them; each may put the job back once. */
  ghost function Orphans(s: Sys, j: JobId): set<nat>
    requires j in s.rows
  {
    set i: nat | i < |s.flights| && s.flights[i].job == j && Capable(s, i) && !Owns(s, i)
  }

  /** Claims the row itself still allows. */
  function Spare(r: JobRow): nat {
    var k := Budget(r);
    if r.attempts < k then k - r.attempts else if Claimable(r) then 1 else 0
  }

  ghost predicate Consistent(s: Sys, j: JobId)
    requires j in s.rows
  {
    var r := s.rows[j];
    && (forall i :: 0 <= i < |s.flights| && s.flights[i].job == j ==> 1 <= s.flights[i].born <= r.attempts)
    && (forall h, i :: 0 <= h < i < |s.flights| && s.flights[h].job == j && s.flights[i].job == j ==>
          s.flights[h].born != s.flights[i].born)
    && (forall i :: 0 <= i < |s.flights| && s.flights[i].job == j && s.flights[i].phase.HasRead? ==>
          Remembers(s.flights[i], r))
  }

  predicate Remembers(f: Flight, r: JobRow)
    requires f.phase.HasRead?
  {
    var read := f.phase.row;
    f.born <= read.attempts <= r.attempts && read.jobType == r.jobType && read.maxAttempts == r.maxAttempts
  }

  /** Claims made, claims the row still allows and claims orphans may still cause fit the budget together. */
  ghost predicate WithinBudget(s: Sys, j: JobId)
    requires j in s.rows
  {
    |Claims(s, j)| + Spare(s.rows[j]) + |Orphans(s, j)| <= Budget(s.rows[j])
  }

  ghost predicate JobInv(s: Sys, j: JobId)
    requires j in s.rows
  {
    Consistent(s, j) && WithinBudget(s, j)
  }

  ghost predicate Inv(s: Sys) {
    && LocksHold(s)
    && (forall i :: 0 <= i < |s.flights| ==> s.flights[i].job in s.rows)
    && (forall j :: j in s.rows ==> JobInv(s, j))
  }

  /** The step concerns neither the row nor a flight of job j. */
  lemma Untouched(s: Sys, s': Sys, j: JobId)
    requires j in s.rows && j in s'.rows && s'.rows[j] == s.rows[j] && JobInv(s, j)
    requires |s.flights| <= |s'.flights|
    requires forall i :: 0 <= i < |s.flights| ==>
      if s.flights[i].job == j then s'.flights[i] == s.flights[i] else s'.flights[i].job != j
    requires forall i :: |s.flights| <= i < |s'.flights| ==> s'.flights[i].job != j
    ensures JobInv(s', j)
  {
    assert Claims(s', j) == Claims(s, j);
    assert Orphans(s', j) == Orphans(s, j);
  }

  lemma AfterClaim(s: Sys, s': Sys, j: JobId, worker: string, at: int)
    requires j in s.rows && JobInv(s, j) && Claimable(s.rows[j])
    requires j in s'.rows && s'.rows[j] == Claimed(s.rows[j], worker, at)
    requires s'.flights == s.flights + [Flight(j, s.rows[j].attempts + 1, Working)]
    ensures JobInv(s', j)
  {
    hide Consistent;
    ConsistentAfterClaim(s, s', j, worker, at);
    OrphansAfterClaim(s, s', j, worker, at);
    assert Claims(s', j) == Claims(s, j) + {|s.flights|};
  }

  lemma ConsistentAfterClaim(s: Sys, s': Sys, j: JobId, worker: string, at: int)
    requires j in s.rows && Consistent(s, j)
    requires j in s'.rows && s'.rows[j] == Claimed(s.rows[j], worker, at)
    requires s'.flights == s.flights + [Flight(j, s.rows[j].attempts + 1, Working)]
    ensures Consistent(s', j)
  {
    var n := |s.flights|;
    assert forall i :: 0 <= i < n ==> s'.flights[i] == s.flights[i];
    forall i | 0 <= i < n && s'.flights[i].job == j && s'.flights[i].phase.HasRead?
      ensures Remembers(s'.flights[i], s'.rows[j])
    {
      assert Remembers(s.flights[i], s.rows[j]);
    }
  }

  lemma OrphansAfterClaim(s: Sys, s': Sys, j: JobId, worker: string, at: int)
    requires j in s.rows && Claimable(s.rows[j])
    requires j in s'.rows && s'.rows[j] == Claimed(s.rows[j], worker, at)
    requires s'.flights == s.flights + [Flight(j, s.rows[j].attempts + 1, Working)]
    ensures |Orphans(s', j)| <= |Orphans(s, j)|
  {
    forall i | i in Orphans(s', j) ensures i in Orphans(s, j) {
      assert i < |s.flights| && s'.flights[i] == s.flights[i];
    }
    SubsetIsSmaller(Orphans(s', j), Orphans(s, j));
  }

  /** At most one flight owns a row, and none that is capable once the budget is used up. */
  lemma OneOwner(s: Sys, j: JobId, i: nat, h: nat)
    requires j in s.rows && Consistent(s, j)
    requires i < |s.flights| && h < |s.flights| && s.flights[i].job == j && s.flights[h].job == j
    requires Owns(s, i)
    ensures Owns(s, h) ==> h == i
    ensures s.rows[j].attempts >= Budget(s.rows[j]) ==> !Capable(s, i)
  {
  }

  /** Adding the owner and dropping f, if f was an orphan, leaves no more orphans than before. */
  lemma OwnerReplaces(s: Sys, j: JobId, after: set<nat>, o: nat, f: nat)
    requires j in s.rows && f in Orphans(s, j)
    requires after <= (Orphans(s, j) - {f}) + {o}
    ensures |after| <= |Orphans(s, j)|
  {
    SubsetIsSmaller(after, (Orphans(s, j) - {f}) + {o});
  }

  lemma AfterReclaim(s: Sys, s': Sys, j: JobId, at: int)
    requires j in s.rows && JobInv(s, j) && s.rows[j].status == Running
    requires j in s'.rows && s'.rows[j] == Reclaimed(s.rows[j], at) && s'.flights == s.flights
    ensures JobInv(s', j)
  {
    assert Consistent(s', j) by { hide WithinBudget, Backoff; }
    OrphansAfterReclaim(s, s', j, at);
    hide Consistent, Backoff;
    assert Claims(s', j) == Claims(s, j);
  }

  lemma OrphansAfterReclaim(s: Sys, s': Sys, j: JobId, at: int)
    requires j in s.rows && Consistent(s, j) && s.rows[j].status == Running
    requires j in s'.rows && s'.rows[j] == Reclaimed(s.rows[j], at) && s'.flights == s.flights
    ensures |Orphans(s', j)| <= |Orphans(s, j)| + if s.rows[j].attempts < Budget(s.rows[j]) then 1 else 0
  {
    hide Consistent, Backoff;
    var before, after := Orphans(s, j), Orphans(s', j);
    forall i | i in after ensures i in before || (Owns(s, i) && Capable(s, i)) {
    }
    if o: nat :| o < |s.flights| && s.flights[o].job == j && Owns(s, o) {
      forall i | i in after ensures i in before + {o} {
        if Owns(s, i) { OneOwner(s, j, o, i); }
      }
      OneOwner(s, j, o, o);
      SubsetIsSmaller(after, if Capable(s, o) then before + {o} else before);
    } else {
      SubsetIsSmaller(after, before);
    }
  }

  /** Flight f of job j ends, and its last write leaves attempts alone and does not set the row running. */
  ghost predicate Ends(s: Sys, s': Sys, j: JobId, f: nat) {
    && j in s.rows && j in s'.rows
    && f < |s.flights| && s.flights[f].job == j
    && s'.flights == s.flights[f := s.flights[f].(phase := Ended)]
    && s'.rows[j].attempts == s.rows[j].attempts
    && s'.rows[j].jobType == s.rows[j].jobType && s'.rows[j].maxAttempts == s.rows[j].maxAttempts
    && (s'.rows[j].status == Running ==> s.rows[j].status == Running)
  }

  lemma ConsistentAfterEnd(s: Sys, s': Sys, j: JobId, f: nat)
    requires Ends(s, s', j, f) && Consistent(s, j)
    ensures Consistent(s', j) && Claims(s', j) == Claims(s, j)
  {
    assert forall i :: 0 <= i < |s.flights| ==>
      s'.flights[i].job == s.flights[i].job && s'.flights[i].born == s.flights[i].born;
  }

  /** Ending flight f frees no more orphans than it retires. */
  lemma OrphansAfterEnd(s: Sys, s': Sys, j: JobId, f: nat)
    requires Ends(s, s', j, f) && Consistent(s, j)
    requires s'.rows[j] == s.rows[j] || s.rows[j].attempts >= Budget(s.rows[j]) || Capable(s, f)
    ensures |Orphans(s', j)| <= |Orphans(s, j)|
    ensures s.rows[j].attempts >= Budget(s.rows[j]) && f in Orphans(s, j) ==> |Orphans(s', j)| < |Orphans(s, j)|
  {
    hide Consistent;
    var before, after := Orphans(s, j), Orphans(s', j);
    forall i | i in after ensures i != f && (i in before || (Owns(s, i) && Capable(s, i))) {
      assert s'.flights[i] == s.flights[i];
    }
    if s.rows[j].attempts >= Budget(s.rows[j]) {
      forall i | i in after ensures i in before - {f} {
        if Owns(s, i) { OneOwner(s, j, i, i); }
      }
      SubsetIsSmaller(after, before - {f});
    } else if s'.rows[j] == s.rows[j] {
      SubsetIsSmaller(after, before);
    } else if o: nat :| o < |s.flights| && s.flights[o].job == j && Owns(s, o) {
      forall i | i in after && i !in before ensures i == o {
        OneOwner(s, j, o, i);
      }
      OneOwner(s, j, o, f);
      if f == o { SubsetIsSmaller(after, before); } else { OwnerReplaces(s, j, after, o, f); }
    } else {
      SubsetIsSmaller(after, before);
    }
  }

  lemma AfterComplete(s: Sys, s': Sys, j: JobId, f: nat, at: int)
    requires Ends(s, s', j, f) && JobInv(s, j) && s.flights[f].phase.Working?
    requires s'.rows[j] == Completed(s.rows[j], at)
    ensures JobInv(s', j)
  {
    ConsistentAfterEnd(s, s', j, f);
    hide Consistent;
    OrphansAfterEnd(s, s', j, f);
  }

  lemma AfterCrash(s: Sys, s': Sys, j: JobId, f: nat)
    requires Ends(s, s', j, f) && JobInv(s, j) && s'.rows[j] == s.rows[j]
    ensures JobInv(s', j)
  {
    ConsistentAfterEnd(s, s', j, f);
    hide Consistent;
    OrphansAfterEnd(s, s', j, f);
  }

  /** What a flush of a failure can do to the row's status. */
  lemma FlushedFailure(read: JobRow, limit: nat, category: Category, retryAfter: Option<nat>, at: int, current: JobRow)
    ensures var r := Flushed(read, FailureRecorded(read, limit, category, retryAfter, at), current);
      && r.attempts == current.attempts && r.jobType == current.jobType && r.maxAttempts == current.maxAttempts
      && r.status == (if read.attempts < limit then (if read.status == Retrying then current.status else Retrying)
                      else if read.status == Failed then current.status else Failed)
  {
  }

  lemma AfterFailWrite(s: Sys, s': Sys, j: JobId, f: nat, limit: nat, category: Category, retryAfter: Option<nat>,
          at: int)
    requires j in s.rows && JobInv(s, j) && f < |s.flights| && s.flights[f].job == j && s.flights[f].phase.HasRead?
    requires limit <= Budget(s.rows[j])
    requires j in s'.rows && s'.flights == s.flights[f := s.flights[f].(phase := Ended)]
    requires var read := s.flights[f].phase.row;
      s'.rows[j] == Flushed(read, FailureRecorded(read, limit, category, retryAfter, at), s.rows[j])
    ensures JobInv(s', j)
  {
    var read := s.flights[f].phase.row;
    FlushedFailure(read, limit, category, retryAfter, at, s.rows[j]);
    assert Remembers(s.flights[f], s.rows[j]);
    ConsistentAfterEnd(s, s', j, f);
    hide Consistent, Flushed, FailureRecorded;
    OrphansAfterEnd(s, s', j, f);
  }

  lemma AfterFailRead(s: Sys, s': Sys, j: JobId, f: nat)
    requires j in s.rows && JobInv(s, j) && f < |s.flights| && s.flights[f].job == j && s.flights[f].phase.Working?
    requires s'.rows == s.rows && s'.flights == s.flights[f := s.flights[f].(phase := HasRead(s.rows[j]))]
    ensures JobInv(s', j)
  {
    assert forall i :: 0 <= i < |s.flights| ==>
      s'.flights[i].job == s.flights[i].job && s'.flights[i].born == s.flights[i].born;
    assert Consistent(s', j) by { hide WithinBudget; }
    hide Consistent;
    assert Claims(s', j) == Claims(s, j);
    assert Orphans(s', j) == Orphans(s, j);
  }

  /** The flight a step is about, if any. */
  function FlightOf(step: Step): Option<nat> {
    match step
    case Complete(f, _) => Some(f)
    case FailRead(f) => Some(f)
    case FailWrite(f, _, _, _, _) => Some(f)
    case Crash(f) => Some(f)
    case _ => None
  }

  lemma FreshJob(s: Sys, s': Sys, id: JobId, row: JobRow)
    requires id !in s.rows && FreshRow(row) && s'.rows == s.rows[id := row] && s'.flights == s.flights
    requires forall i :: 0 <= i < |s.flights| ==> s.flights[i].job in s.rows
    ensures JobInv(s', id)
  {
    assert forall i :: 0 <= i < |s'.flights| ==> s'.flights[i].job != id;
    assert Claims(s', id) == {} && Orphans(s', id) == {};
  }

  lemma FlightStep(s: Sys, step: Step, s': Sys, f: nat)
    requires Inv(s) && Next(s, step, s') && FlightOf(step) == Some(f)
    ensures f < |s.flights| && s.flights[f].job in s.rows && s'.rows.Keys == s.rows.Keys
    ensures JobInv(s', s.flights[f].job)
  {
    hide JobInv, Claimed, Reclaimed, FailureRecorded, Flushed, LocksHold, Locked, FreshRow, Consistent, WithinBudget,
         Owns, Capable, Orphans, Claims;
    var j := s.flights[f].job;
    assert JobInv(s, j);
    match step
    case Complete(_, at) => AfterComplete(s, s', j, f, at);
    case FailRead(_) => AfterFailRead(s, s', j, f);
    case FailWrite(_, limit, category, retryAfter, at) =>
      AfterFailWrite(s, s', j, f, limit, category, retryAfter, at);
    case Crash(_) => AfterCrash(s, s', j, f);
  }

  lemma JobStep(s: Sys, step: Step, s': Sys, j: JobId)
    requires Inv(s) && Next(s, step, s') && j in s.rows
    ensures j in s'.rows && JobInv(s', j)
  {
    hide JobInv, Completed, Reclaimed, FailureRecorded, Flushed, Locked, FreshRow, Consistent, WithinBudget, Owns,
         Capable, Orphans, Claims;
    assert JobInv(s, j);
    if FlightOf(step).Some? {
      FlightStep(s, step, s', FlightOf(step).value);
      if j != s.flights[FlightOf(step).value].job { Untouched(s, s', j); }
    } else {
      match step
      case ClaimCommit(tx, at) =>
        if j == s.txs[tx].job { AfterClaim(s, s', j, s.txs[tx].worker, at); } else { Untouched(s, s', j); }
      case ReclaimCommit(tx) =>
        if j in s.txs[tx].jobs { AfterReclaim(s, s', j, s.txs[tx].now); } else { Untouched(s, s', j); }
      case _ => Untouched(s, s', j);
    }
  }

  /** Rows only come by Enqueue and never go; flights keep their job, and a new one is of a row of the table. */
  lemma RowsAndFlightsKept(s: Sys, step: Step, s': Sys)
    requires Next(s, step, s')
    ensures s.rows.Keys <= s'.rows.Keys
    ensures forall j :: j in s'.rows && j !in s.rows ==>
      (step.Enqueue? && j == step.id && FreshRow(step.row) && s'.rows == s.rows[j := step.row]
        && s'.flights == s.flights)
    ensures |s.flights| <= |s'.flights|
    ensures forall i :: 0 <= i < |s'.flights| ==>
      if i < |s.flights| then s'.flights[i].job == s.flights[i].job else s'.flights[i].job in s.rows
  {
    hide Completed, Reclaimed, FailureRecorded, Flushed, Locked, FreshRow, FirstUnlocked, StaleUnlocked;
  }

  lemma InvStep(s: Sys, step: Step, s': Sys)
    requires Inv(s) && Next(s, step, s')
    ensures Inv(s')
  {
    LocksHoldStep(s, step, s');
    RowsAndFlightsKept(s, step, s');
    hide JobInv, Locked, LocksHold, Next, FreshRow;
    forall j | j in s'.rows ensures JobInv(s', j) {
      if j in s.rows {
        JobStep(s, step, s', j);
      } else {
        FreshJob(s, s', j, step.row);
      }
    }
  }

  lemma {:induction false} InvAlways(states: seq<Sys>, steps: seq<Step>, n: nat)
    requires Run(states, steps) && n < |states|
    ensures Inv(states[n])
    decreases n
  {
    if n > 0 {
      InvAlways(states, steps, n - 1);
      InvStep(states[n - 1], steps[n - 1], states[n]);
    }
  }

  /**
   In every run, whatever late calls and stale flushes it holds, a job is claimed
   at most Budget times, and the locks of open transactions stay exclusive.
   */
  lemma ClaimedWithinBudget(states: seq<Sys>, steps: seq<Step>, n: nat, j: JobId)
    requires Run(states, steps) && n < |states| && j in states[n].rows
    ensures |Claims(states[n], j)| <= Budget(states[n].rows[j])
    ensures LocksHold(states[n])
  {
    InvAlways(states, steps, n);
    assert JobInv(states[n], j);
  }
}
