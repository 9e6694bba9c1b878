/**
 What every row of the queue satisfies in every run: how its attempts relate to
 the times it was claimed, and its shape in each status, which stays as it should
 exactly as long as no fail call writes columns that do not fit the row it finds.
 */
module QueueRows {
  import opened Options
  import opened JobRows
  import opened QueueProtocol
  import opened QueueClaims

  predicate WithinTheHour(error: Option<int>, next: Option<int>) {
    error.Some? && next.Some? && error.value <= next.value <= error.value + MAX_BACKOFF * MINUTE
  }

  predicate WellFormed(r: JobRow) {
    && (r.status == Running ==> r.workerId.Some? && r.startedAt.Some? && r.attempts >= 1)
    && (r.status == Retrying ==> r.workerId.None? && WithinTheHour(r.lastErrorAt, r.scheduledAt))
    && (r.status == Failed ==> r.completedAt.Some? && r.errorCategory.Some?)
    && (r.status == Done ==> r.completedAt.Some? && r.errorCategory.None?)
  }

  /** A row that may be claimed has an attempt left; a running one is within its budget. */
  predicate InBounds(r: JobRow) {
    && (Claimable(r) ==> r.attempts < Budget(r))
    && (r.status == Running ==> r.attempts <= Budget(r))
    && r.attempts <= Budget(r) + 1
  }

  ghost predicate Bounded(s: Sys) {
    forall j :: j in s.rows ==> InBounds(s.rows[j])
  }

  ghost predicate AllWellFormed(s: Sys) {
    forall j :: j in s.rows ==> WellFormed(s.rows[j])
  }

  /** A fail call decided to retry on an old reading, and the row has no attempt left by the time it writes. */
  ghost predicate Overtaken(s: Sys, step: Step)
    requires Guard(s, step)
  {
    && step.FailWrite?
    && var read := s.flights[step.f].phase.row;
       var current := s.rows[s.flights[step.f].job];
       read.attempts < step.limit && read.status != Retrying && current.attempts >= Budget(current)
  }

  /** No other transaction changed the row between a fail call's read and its write. */
  ghost predicate Undisturbed(s: Sys, step: Step)
    requires Guard(s, step)
  {
    step.FailWrite? ==> s.rows[s.flights[step.f].job] == s.flights[step.f].phase.row
  }

  lemma BoundsPerOperation(r: JobRow, worker: string, now: int)
    requires InBounds(r)
    ensures Claimable(r) ==> InBounds(Claimed(r, worker, now))
    ensures InBounds(Completed(r, now))
    ensures r.status == Running ==> InBounds(Reclaimed(r, now))
  {
    hide Backoff, TypeLimit;
  }

  lemma ShapePerOperation(r: JobRow, worker: string, now: int)
    requires WellFormed(r)
    ensures WellFormed(Claimed(r, worker, now))
    ensures WellFormed(Completed(r, now))
    ensures WellFormed(Reclaimed(r, now))
  {
    hide TypeLimit;
  }

  /** Flushing onto an unchanged row writes exactly what was wanted. */
  lemma FlushUndisturbed(read: JobRow, want: JobRow)
    ensures Flushed(read, want, read) == want
  {
  }

  lemma FailureShape(r: JobRow, limit: nat, category: Category, retryAfter: Option<nat>, now: int)
    requires retryAfter.Some? ==> retryAfter.value <= MAX_RETRY_AFTER
    ensures WellFormed(FailureRecorded(r, limit, category, retryAfter, now))
  {
    hide TypeLimit;
  }

  lemma FailWriteBounds(s: Sys, step: Step, s': Sys)
    requires step.FailWrite? && Bounded(s) && Next(s, step, s')
    ensures Bounded(s') <==> !Overtaken(s, step)
  {
    hide Locked;
    var j := s.flights[step.f].job;
    var read := s.flights[step.f].phase.row;
    FlushedFailure(read, step.limit, step.category, step.retryAfter, step.at, s.rows[j]);
    hide Flushed, FailureRecorded;
    assert InBounds(s.rows[j]);
    assert InBounds(s'.rows[j]) <==> !Overtaken(s, step);
    assert forall k :: k in s.rows && k != j ==> s'.rows[k] == s.rows[k];
  }

  lemma BoundedStep(s: Sys, step: Step, s': Sys)
    requires LocksHold(s) && Bounded(s) && Next(s, step, s')
    ensures Bounded(s') <==> !Overtaken(s, step)
  {
    if step.FailWrite? {
      FailWriteBounds(s, step, s');
    } else {
      ChangedRows(s, step, s');
      hide InBounds, LocksHold, Next, Claimed, Completed, Reclaimed;
      forall j | j in s'.rows ensures InBounds(s'.rows[j]) {
        FreshInBounds(s'.rows[j]);
        if j in s.rows && s'.rows[j] != s.rows[j] { BoundsForAnyOperation(s.rows[j]); }
      }
    }
  }

  lemma FreshInBounds(r: JobRow)
    ensures FreshRow(r) ==> InBounds(r) && WellFormed(r)
  {
  }

  lemma BoundsForAnyOperation(r: JobRow)
    requires InBounds(r)
    ensures forall w, t :: Claimable(r) ==> InBounds(Claimed(r, w, t))
    ensures forall t :: InBounds(Completed(r, t))
    ensures forall t :: r.status == Running ==> InBounds(Reclaimed(r, t))
  {
    forall w, t ensures Claimable(r) ==> InBounds(Claimed(r, w, t)) { BoundsPerOperation(r, w, t); }
    forall t ensures InBounds(Completed(r, t)) { BoundsPerOperation(r, "", t); }
    forall t ensures r.status == Running ==> InBounds(Reclaimed(r, t)) { BoundsPerOperation(r, "", t); }
  }

  lemma ShapeForAnyOperation(r: JobRow)
    requires WellFormed(r)
    ensures forall w, t :: WellFormed(Claimed(r, w, t))
    ensures forall t :: WellFormed(Completed(r, t))
    ensures forall t :: WellFormed(Reclaimed(r, t))
  {
    forall w, t ensures WellFormed(Claimed(r, w, t)) { ShapePerOperation(r, w, t); }
    forall t ensures WellFormed(Completed(r, t)) { ShapePerOperation(r, "", t); }
    forall t ensures WellFormed(Reclaimed(r, t)) { ShapePerOperation(r, "", t); }
  }

  /** How a row may differ after a step that is no fail call's write. */
  ghost predicate Changed(before: JobRow, after: JobRow) {
    || after == before
    || (exists w, t :: Claimable(before) && after == Claimed(before, w, t))
    || (exists t :: after == Completed(before, t))
    || (exists t :: before.status == Running && after == Reclaimed(before, t))
  }

  lemma ChangedRows(s: Sys, step: Step, s': Sys)
    requires LocksHold(s) && Next(s, step, s') && !step.FailWrite?
    ensures forall j :: j in s'.rows ==> if j in s.rows then Changed(s.rows[j], s'.rows[j]) else FreshRow(s'.rows[j])
  {
    hide Claimed, Completed, Reclaimed, Locked, FirstUnlocked, FailureRecorded, Flushed, FreshRow;
    if step.ClaimCommit? || step.ReclaimCommit? { assert Sound(s.rows, s.txs[step.tx]); }
  }

  /** The status a flush leaves: the verdict's, unless the row was read with that status already. */
  function StatusLeft(read: JobRow, limit: nat, current: JobRow): Status {
    var verdict := if read.attempts < limit then Retrying else Failed;
    if read.status == verdict then current.status else verdict
  }

  /**
   The columns of a fail call's write do not fit together: a done row is given a category; a failed row has
   lost the category or the completion time the call did not write because it had read them; a retrying row
   keeps the worker it meanwhile got; or not both of its times are this write's and they do not fit.
   */
  predicate Spoils(read: JobRow, limit: nat, category: Category, retryAfter: Option<nat>, at: int, current: JobRow) {
    var retries := read.attempts < limit;
    var next := Some(at + Wait(read.attempts, retryAfter));
    var schedules, stamps := retries && read.scheduledAt != next, read.lastErrorAt != Some(at);
    match StatusLeft(read, limit, current)
    case Done => read.errorCategory != Some(category)
    case Failed =>
      || (read.errorCategory == Some(category) && current.errorCategory.None?)
      || (!retries && read.completedAt == Some(at) && current.completedAt.None?)
    case Retrying =>
      || (retries && read.workerId.None? && current.workerId.Some?)
      || (!(schedules && stamps)
          && !WithinTheHour(if stamps then Some(at) else current.lastErrorAt,
            if schedules then next else current.scheduledAt))
    case _ => false
  }

  /** From a well-formed reading and a well-formed row, that is all that can go wrong. */
  lemma FlushShape(read: JobRow, limit: nat, category: Category, retryAfter: Option<nat>, at: int, current: JobRow)
    requires WellFormed(read) && WellFormed(current)
    requires retryAfter.Some? ==> retryAfter.value <= MAX_RETRY_AFTER
    ensures WellFormed(Flushed(read, FailureRecorded(read, limit, category, retryAfter, at), current))
       <==> !Spoils(read, limit, category, retryAfter, at, current)
  {
    hide Backoff;
  }

  /** A row read while it ran is spoiled by a failure for good that reports the category the row had and has lost. */
  lemma RunningReadSpoils(read: JobRow, limit: nat, category: Category, retryAfter: Option<nat>, at: int,
          current: JobRow)
    requires WellFormed(read) && WellFormed(current) && read.status == Running
    requires read.lastErrorAt != Some(at) && read.completedAt != Some(at)
    requires read.scheduledAt != Some(at + Wait(read.attempts, retryAfter))
    ensures Spoils(read, limit, category, retryAfter, at, current)
       <==> read.attempts >= limit && read.errorCategory == Some(category) && current.errorCategory.None?
  {
    hide Wait;
  }

  ghost predicate SpoiledBy(s: Sys, step: Step)
    requires Guard(s, step)
  {
    && step.FailWrite?
    && Spoils(s.flights[step.f].phase.row, step.limit, step.category, step.retryAfter, step.at,
      s.rows[s.flights[step.f].job])
  }

  /** Every row a fail call has read was well formed when it was read. */
  ghost predicate ReadsWellFormed(s: Sys) {
    forall i :: 0 <= i < |s.flights| && s.flights[i].phase.HasRead? ==> WellFormed(s.flights[i].phase.row)
  }

  lemma ReadsWellFormedStep(s: Sys, step: Step, s': Sys)
    requires AllWellFormed(s) && ReadsWellFormed(s) && Next(s, step, s')
    ensures ReadsWellFormed(s')
  {
    hide WellFormed, Locked, FirstUnlocked, StaleUnlocked, Claimed, Completed, Reclaimed, FailureRecorded, Flushed,
         FreshRow;
  }

  lemma FailWriteShape(s: Sys, step: Step, s': Sys)
    requires step.FailWrite? && AllWellFormed(s) && ReadsWellFormed(s) && Next(s, step, s')
    ensures AllWellFormed(s') <==> !SpoiledBy(s, step)
  {
    hide Locked;
    var j := s.flights[step.f].job;
    assert WellFormed(s.flights[step.f].phase.row) && WellFormed(s.rows[j]);
    FlushShape(s.flights[step.f].phase.row, step.limit, step.category, step.retryAfter, step.at, s.rows[j]);
    hide Flushed, FailureRecorded, WellFormed, Spoils;
    assert WellFormed(s'.rows[j]) <==> !SpoiledBy(s, step);
    assert forall k :: k in s.rows && k != j ==> s'.rows[k] == s.rows[k];
  }

  lemma WellFormedStep(s: Sys, step: Step, s': Sys)
    requires LocksHold(s) && AllWellFormed(s) && ReadsWellFormed(s) && Next(s, step, s')
    ensures AllWellFormed(s') <==> !SpoiledBy(s, step)
  {
    if step.FailWrite? {
      FailWriteShape(s, step, s');
    } else {
      ChangedRows(s, step, s');
      hide WellFormed, LocksHold, Next, Claimed, Completed, Reclaimed;
      forall j | j in s'.rows ensures WellFormed(s'.rows[j]) {
        FreshInBounds(s'.rows[j]);
        if j in s.rows && s'.rows[j] != s.rows[j] { ShapeForAnyOperation(s.rows[j]); }
      }
    }
  }

  /** A fail call whose row did not change since it was read spoils nothing. */
  lemma UndisturbedSpoilsNothing(s: Sys, step: Step, s': Sys)
    requires AllWellFormed(s) && Next(s, step, s') && Undisturbed(s, step)
    ensures !SpoiledBy(s, step)
  {
    if step.FailWrite? {
      var read := s.flights[step.f].phase.row;
      assert WellFormed(read);
      FlushUndisturbed(read, FailureRecorded(read, step.limit, step.category, step.retryAfter, step.at));
      FailureShape(read, step.limit, step.category, step.retryAfter, step.at);
      FlushShape(read, step.limit, step.category, step.retryAfter, step.at, read);
      hide Flushed, FailureRecorded, WellFormed, Spoils, Locked;
    }
  }

  /**
   In every run the claimable rows have an attempt left, the running ones are
   within budget and no row passes its budget by more than one, exactly as
   long as no fail call is overtaken.
   */
  lemma {:induction false} BoundedUnlessOvertaken(states: seq<Sys>, steps: seq<Step>, n: nat)
    requires Run(states, steps) && n < |states|
    ensures (forall i :: 0 <= i <= n ==> Bounded(states[i]))
       <==> (forall i :: 0 <= i < n ==> Next(states[i], steps[i], states[i + 1]) && !Overtaken(states[i], steps[i]))
    decreases n
  {
    NothingAtTheStart();
    hide Bounded, Overtaken, Inv, Next;
    if n > 0 {
      BoundedUnlessOvertaken(states, steps, n - 1);
      var s, step := states[n - 1], steps[n - 1];
      assert Next(s, step, states[n]);
      if Bounded(s) {
        LocksAlwaysHold(states, steps, n - 1);
        BoundedStep(s, step, states[n]);
      }
    }
  }

  lemma NothingAtTheStart()
    ensures Bounded(EMPTY) && AllWellFormed(EMPTY) && ReadsWellFormed(EMPTY) && AttemptsExplained(EMPTY)
  {
  }

  lemma LocksAlwaysHold(states: seq<Sys>, steps: seq<Step>, n: nat)
    requires Run(states, steps) && n < |states|
    ensures LocksHold(states[n])
  {
    InvAlways(states, steps, n);
  }

  /**
   In every run all rows have the shape their status calls for exactly as long as no
   fail call's write spoils one; then every reading it goes by is well formed too.
   */
  lemma {:induction false} WellFormedUnlessSpoiled(states: seq<Sys>, steps: seq<Step>, n: nat)
    requires Run(states, steps) && n < |states|
    ensures (forall i :: 0 <= i <= n ==> AllWellFormed(states[i]))
       <==> (forall i :: 0 <= i < n ==> Next(states[i], steps[i], states[i + 1]) && !SpoiledBy(states[i], steps[i]))
    ensures (forall i :: 0 <= i <= n ==> AllWellFormed(states[i])) ==> ReadsWellFormed(states[n])
    decreases n
  {
    NothingAtTheStart();
    hide AllWellFormed, SpoiledBy, ReadsWellFormed, Next;
    if n > 0 {
      WellFormedUnlessSpoiled(states, steps, n - 1);
      var s, step := states[n - 1], steps[n - 1];
      assert Next(s, step, states[n]);
      if forall i :: 0 <= i <= n - 1 ==> AllWellFormed(states[i]) {
        LocksAlwaysHold(states, steps, n - 1);
        WellFormedStep(s, step, states[n]);
        ReadsWellFormedStep(s, step, states[n]);
      }
    }
  }

  /**
   In particular in every run in which no row changes between a fail call's read and its
   write - late complete and fail calls of workers that lost their job are allowed.
   */
  lemma {:induction false} WellFormedAlways(states: seq<Sys>, steps: seq<Step>, n: nat)
    requires Run(states, steps) && n < |states|
    requires forall i :: 0 <= i < n ==> Next(states[i], steps[i], states[i + 1]) && Undisturbed(states[i], steps[i])
    ensures AllWellFormed(states[n]) && Bounded(states[n])
    ensures forall i :: 0 <= i <= n ==> AllWellFormed(states[i])
    decreases n
  {
    NothingAtTheStart();
    hide Bounded, AllWellFormed, Undisturbed, SpoiledBy, Next;
    if n > 0 {
      var s, step := states[n - 1], steps[n - 1];
      WellFormedAlways(states, steps, n - 1);
      LocksAlwaysHold(states, steps, n - 1);
      UndisturbedSpoilsNothing(s, step, states[n]);
      WellFormedUnlessSpoiled(states, steps, n - 1);
      WellFormedUnlessSpoiled(states, steps, n);
      NotOvertaken(s, step, states[n]);
      BoundedStep(s, step, states[n]);
    }
  }

  lemma NotOvertaken(s: Sys, step: Step, s': Sys)
    requires Next(s, step, s') && Undisturbed(s, step)
    ensures !Overtaken(s, step)
  {
    hide Locked, FirstUnlocked;
  }

  /** Each claim adds one attempt and allows at most one reclaim, which adds another. */
  ghost predicate Explained(s: Sys, j: JobId)
    requires j in s.rows
  {
    s.rows[j].attempts + (if s.rows[j].status == Running then 1 else 0) <= 2 * |Claims(s, j)|
  }

  ghost predicate AttemptsExplained(s: Sys) {
    forall j :: j in s.rows ==> Explained(s, j)
  }

  /** Only a claim's commit adds a flight. */
  lemma FlightAdded(s: Sys, step: Step, s': Sys)
    requires Next(s, step, s')
    ensures |s'.flights| == |s.flights| + if step.ClaimCommit? then 1 else 0
    ensures step.ClaimCommit? ==>
      step.tx in s.txs && s.txs[step.tx].Claiming? && s'.flights[|s.flights|].job == s.txs[step.tx].job
  {
    hide Claimed, Completed, Reclaimed, FailureRecorded, Flushed, Locked, FirstUnlocked, StaleUnlocked, FreshRow;
  }

  lemma ClaimsKept(s: Sys, step: Step, s': Sys, j: JobId)
    requires Next(s, step, s') && j in s.rows
    ensures |Claims(s', j)| == |Claims(s, j)| +
      if step.ClaimCommit? && step.tx in s.txs && s.txs[step.tx].Claiming? && s.txs[step.tx].job == j then 1 else 0
  {
    RowsAndFlightsKept(s, step, s');
    FlightAdded(s, step, s');
    hide Next, FreshRow;
    if step.ClaimCommit? && s.txs[step.tx].job == j {
      assert Claims(s', j) == Claims(s, j) + {|s.flights|};
    } else {
      assert Claims(s', j) == Claims(s, j);
    }
  }

  /** What a step does to a row's attempts, and which steps set a row running. */
  lemma AttemptsPerStep(s: Sys, step: Step, s': Sys, j: JobId)
    requires LocksHold(s) && Next(s, step, s') && j in s.rows
    ensures j in s'.rows
    ensures var r, r' := s.rows[j], s'.rows[j];
      if step.ClaimCommit? && s.txs[step.tx].job == j then r.status != Running && r'.attempts == r.attempts + 1
      else if step.ReclaimCommit? && j in s.txs[step.tx].jobs then
        r.status == Running && r'.status != Running && r'.attempts == r.attempts + 1
      else r'.attempts == r.attempts && (r'.status == Running ==> r.status == Running)
  {
    hide Locked, FirstUnlocked, StaleUnlocked, Flushed, FailureRecorded, Backoff, Budget;
    if step.ClaimCommit? || step.ReclaimCommit? { assert Sound(s.rows, s.txs[step.tx]); }
    if step.FailWrite? {
      var read := s.flights[step.f].phase.row;
      FlushedFailure(read, step.limit, step.category, step.retryAfter, step.at, s.rows[s.flights[step.f].job]);
    }
  }

  lemma ExplainedStep(s: Sys, step: Step, s': Sys, j: JobId)
    requires LocksHold(s) && AttemptsExplained(s) && Next(s, step, s') && j in s'.rows
    ensures Explained(s', j)
  {
    RowsAndFlightsKept(s, step, s');
    if j in s.rows {
      assert Explained(s, j);
      hide LocksHold, Claims, AttemptsExplained, FreshRow, Next;
      ClaimsKept(s, step, s', j);
      AttemptsPerStep(s, step, s', j);
    }
  }

  /** Attempts never go back. */
  lemma AttemptsNeverDecrease(states: seq<Sys>, steps: seq<Step>, n: nat, m: nat, j: JobId)
    requires Run(states, steps) && n <= m < |states| && j in states[n].rows
    ensures j in states[m].rows && states[n].rows[j].attempts <= states[m].rows[j].attempts
    decreases m
  {
    hide Next, LocksHold;
    if n < m {
      AttemptsNeverDecrease(states, steps, n, m - 1, j);
      LocksAlwaysHold(states, steps, m - 1);
      AttemptsPerStep(states[m - 1], steps[m - 1], states[m], j);
    }
  }

  lemma {:induction false} AttemptsExplainedAlways(states: seq<Sys>, steps: seq<Step>, n: nat)
    requires Run(states, steps) && n < |states|
    ensures AttemptsExplained(states[n])
    decreases n
  {
    NothingAtTheStart();
    hide Next, LocksHold, Explained;
    if n > 0 {
      AttemptsExplainedAlways(states, steps, n - 1);
      LocksAlwaysHold(states, steps, n - 1);
      forall j | j in states[n].rows ensures Explained(states[n], j) {
        ExplainedStep(states[n - 1], steps[n - 1], states[n], j);
      }
    }
  }

  /** In every run, disturbed or not, a row's attempts stay within twice its budget. */
  lemma AttemptsWithinTwiceBudget(states: seq<Sys>, steps: seq<Step>, n: nat, j: JobId)
    requires Run(states, steps) && n < |states| && j in states[n].rows
    ensures states[n].rows[j].attempts <= 2 * Budget(states[n].rows[j])
  {
    AttemptsExplainedAlways(states, steps, n);
    ClaimedWithinBudget(states, steps, n, j);
    assert Explained(states[n], j);
  }
}
