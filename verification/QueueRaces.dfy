/**
 A run in which a fail call is overtaken: it read the row before the job was
 reclaimed and writes after. The job is put back with no attempt left, is
 claimed once more, and ends at twice its budget.
 */
module QueueRaces {
  import opened Options
  import opened JobRows
  import opened QueueProtocol
  import opened QueueClaims
  import opened QueueRows

  const TIMEOUT := 30
  const STALL := 31 * MINUTE
  const LATER := 200 * MINUTE

  const NEW_JOB := JobRow("process_content", Pending, 5, 0, 2, None, None, None, None, None, None)
  const FIRST_TRY := NEW_JOB.(status := Running, workerId := Some("a"), startedAt := Some(0), attempts := 1)
  const GIVEN_UP :=
    FIRST_TRY.(status := Failed, workerId := None, attempts := 2, completedAt := Some(STALL),
               lastErrorAt := Some(STALL), errorCategory := Some(WorkerTimeout))
  const REVIVED :=
    GIVEN_UP.(status := Retrying, scheduledAt := Some(STALL + 2 * MINUTE), lastErrorAt := Some(STALL),
              errorCategory := Some(Reported("http")))
  const SECOND_TRY := REVIVED.(status := Running, workerId := Some("b"), startedAt := Some(LATER), attempts := 3)
  const EXHAUSTED :=
    SECOND_TRY.(status := Failed, workerId := None, attempts := 4, scheduledAt := None,
                completedAt := Some(LATER + STALL), lastErrorAt := Some(LATER + STALL),
                errorCategory := Some(WorkerTimeout))

  const STEPS := [
    Enqueue(0, NEW_JOB), ClaimLock(0, 0, "a", None, 0), ClaimCommit(0, 0), FailRead(0),
    ReclaimLock(0, STALL, TIMEOUT), ReclaimCommit(0), FailWrite(0, 2, Reported("http"), None, STALL),
    ClaimLock(0, 0, "b", None, LATER), ClaimCommit(0, LATER), ReclaimLock(0, LATER + STALL, TIMEOUT), ReclaimCommit(0)]

  const RAN := [Flight(0, 1, HasRead(FIRST_TRY))]
  const SPENT := [Flight(0, 1, Ended)]
  const TWICE := SPENT + [Flight(0, 3, Working)]

  const STATES := [
    EMPTY, Sys(map[0 := NEW_JOB], map[], []), Sys(map[0 := NEW_JOB], map[0 := Claiming(0, "a")], []),
    Sys(map[0 := FIRST_TRY], map[], [Flight(0, 1, Working)]), Sys(map[0 := FIRST_TRY], map[], RAN),
    Sys(map[0 := FIRST_TRY], map[0 := Reclaiming({0}, STALL)], RAN), Sys(map[0 := GIVEN_UP], map[], RAN),
    Sys(map[0 := REVIVED], map[], SPENT), Sys(map[0 := REVIVED], map[0 := Claiming(0, "b")], SPENT),
    Sys(map[0 := SECOND_TRY], map[], TWICE), Sys(map[0 := SECOND_TRY], map[0 := Reclaiming({0}, LATER + STALL)], TWICE),
    Sys(map[0 := EXHAUSTED], map[], TWICE)]

  lemma LockToClaim(r: JobRow, worker: string, at: int, fs: seq<Flight>)
    requires Eligible(r, None, at)
    ensures Next(Sys(map[0 := r], map[], fs), ClaimLock(0, 0, worker, None, at),
      Sys(map[0 := r], map[0 := Claiming(0, worker)], fs))
  {
  }

  lemma CommitClaim(r: JobRow, worker: string, at: int, fs: seq<Flight>)
    ensures Next(Sys(map[0 := r], map[0 := Claiming(0, worker)], fs), ClaimCommit(0, at),
                 Sys(map[0 := Claimed(r, worker, at)], map[], fs + [Flight(0, r.attempts + 1, Working)]))
  {
    hide Locked, FirstUnlocked;
    assert map[0 := Claiming(0, worker)] - {0 as nat} == map[];
    assert map[0 := r][0 := Claimed(r, worker, at)] == map[0 := Claimed(r, worker, at)];
  }

  lemma LockToReclaim(r: JobRow, at: int, fs: seq<Flight>)
    requires Stale(r, at, TIMEOUT)
    ensures Next(Sys(map[0 := r], map[], fs), ReclaimLock(0, at, TIMEOUT),
      Sys(map[0 := r], map[0 := Reclaiming({0}, at)], fs))
  {
    var s := Sys(map[0 := r], map[], fs);
    assert StaleUnlocked(s, at, TIMEOUT) == {0};
  }

  lemma CommitReclaim(r: JobRow, at: int, fs: seq<Flight>)
    ensures Next(Sys(map[0 := r], map[0 := Reclaiming({0}, at)], fs), ReclaimCommit(0),
                 Sys(map[0 := Reclaimed(r, at)], map[], fs))
  {
    hide Locked, FirstUnlocked, Reclaimed;
    assert map[0 := Reclaiming({0}, at)] - {0 as nat} == map[];
  }

  lemma StartRun()
    ensures forall i :: 0 <= i < 4 ==> Next(STATES[i], STEPS[i], STATES[i + 1])
  {
    LockToClaim(NEW_JOB, "a", 0, []);
    CommitClaim(NEW_JOB, "a", 0, []);
    assert Claimed(NEW_JOB, "a", 0) == FIRST_TRY;
    hide FirstUnlocked, StaleUnlocked;
    assert Next(STATES[0], STEPS[0], STATES[1]);
    assert Next(STATES[3], STEPS[3], STATES[4]);
  }

  lemma ReclaimedMidway()
    ensures Reclaimed(FIRST_TRY, STALL) == GIVEN_UP
    ensures Reclaimed(SECOND_TRY, LATER + STALL) == EXHAUSTED
    ensures Claimed(REVIVED, "b", LATER) == SECOND_TRY
    ensures Flushed(FIRST_TRY, FailureRecorded(FIRST_TRY, 2, Reported("http"), None, STALL), GIVEN_UP) == REVIVED
  {
    assert Pow2(1) == 2 * Pow2(0);
  }

  lemma OvertakenWrite()
    ensures Next(STATES[6], STEPS[6], STATES[7]) && Overtaken(STATES[6], STEPS[6])
  {
    ReclaimedMidway();
    hide Flushed, FailureRecorded;
  }

  lemma EndRun()
    ensures forall i :: 4 <= i < 11 ==> Next(STATES[i], STEPS[i], STATES[i + 1])
  {
    ReclaimedMidway();
    LockToReclaim(FIRST_TRY, STALL, RAN);
    CommitReclaim(FIRST_TRY, STALL, RAN);
    OvertakenWrite();
    LockToClaim(REVIVED, "b", LATER, SPENT);
    CommitClaim(REVIVED, "b", LATER, SPENT);
    LockToReclaim(SECOND_TRY, LATER + STALL, TWICE);
    CommitReclaim(SECOND_TRY, LATER + STALL, TWICE);
    hide Next, Reclaimed, Claimed, Flushed, FailureRecorded;
  }

  /**
   The bounds of undisturbed runs fail: after the overtaken write a row waits to be
   claimed with its whole budget of 2 used up, it then runs as attempt 3, and it
   ends with attempts at twice the budget, one more than the most a
   reclaim may add.
   */
  lemma OvertakenRun()
    ensures Run(STATES, STEPS)
    ensures Overtaken(STATES[6], STEPS[6])
    ensures Claimable(STATES[7].rows[0]) && STATES[7].rows[0].attempts == Budget(STATES[7].rows[0]) == 2
    ensures STATES[9].rows[0].status == Running && STATES[9].rows[0].attempts == 3
    ensures STATES[11].rows[0].attempts == 2 * Budget(STATES[11].rows[0])
    ensures |Claims(STATES[11], 0)| == 2
  {
    StartRun();
    EndRun();
    OvertakenWrite();
    hide Next, Overtaken;
    assert Claims(STATES[11], 0) == {0, 1};
  }
}
