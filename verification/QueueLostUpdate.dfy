/**
 A run in which an overtaken fail call leaves an ill-formed row: between its read
 and its write the job is reclaimed, claimed by another worker and completed,
 which clears the error category; the flush then writes the failure but not
 the category, since that is what the worker had read.
 */
module QueueLostUpdate {
  import opened Options
  import opened JobRows
  import opened QueueProtocol
  import opened QueueRows
  import opened QueueRaces

  const HTTP := Reported("http")

  const JOB := NEW_JOB.(maxAttempts := 4)
  const FIRST_CLAIM := JOB.(status := Running, workerId := Some("a"), startedAt := Some(0), attempts := 1)
  const WAITING :=
    FIRST_CLAIM.(status := Retrying, workerId := None, scheduledAt := Some(3 * MINUTE),
                 errorCategory := Some(HTTP), lastErrorAt := Some(MINUTE))
  const SECOND_CLAIM :=
    WAITING.(status := Running, workerId := Some("b"), startedAt := Some(10 * MINUTE), attempts := 2)
  const TAKEN_BACK :=
    SECOND_CLAIM.(status := Retrying, workerId := None, attempts := 3, scheduledAt := Some(58 * MINUTE),
                  errorCategory := Some(WorkerTimeout), lastErrorAt := Some(50 * MINUTE))
  const THIRD_CLAIM :=
    TAKEN_BACK.(status := Running, workerId := Some("c"), startedAt := Some(60 * MINUTE), attempts := 4)
  const SUCCEEDED := THIRD_CLAIM.(status := Done, completedAt := Some(61 * MINUTE), errorCategory := None)
  const OVERWRITTEN := SUCCEEDED.(status := Failed, completedAt := Some(62 * MINUTE), lastErrorAt := Some(62 * MINUTE))

  const LOST_STEPS := [
    Enqueue(0, JOB), ClaimLock(0, 0, "a", None, 0), ClaimCommit(0, 0), FailRead(0), FailWrite(0, 2, HTTP, None, MINUTE),
    ClaimLock(0, 0, "b", None, 10 * MINUTE), ClaimCommit(0, 10 * MINUTE), FailRead(1),
    ReclaimLock(0, 50 * MINUTE, TIMEOUT), ReclaimCommit(0),
    ClaimLock(0, 0, "c", None, 60 * MINUTE), ClaimCommit(0, 60 * MINUTE), Complete(2, 61 * MINUTE),
    FailWrite(1, 2, HTTP, None, 62 * MINUTE)]

  const ONE := [Flight(0, 1, Ended)]
  const TWO := ONE + [Flight(0, 2, Working)]
  const TWO_READ := ONE + [Flight(0, 2, HasRead(SECOND_CLAIM))]
  const THREE := TWO_READ + [Flight(0, 4, Working)]
  const THREE_DONE := TWO_READ + [Flight(0, 4, Ended)]

  const LOST_STATES := [
    EMPTY, Sys(map[0 := JOB], map[], []), Sys(map[0 := JOB], map[0 := Claiming(0, "a")], []),
    Sys(map[0 := FIRST_CLAIM], map[], [Flight(0, 1, Working)]),
    Sys(map[0 := FIRST_CLAIM], map[], [Flight(0, 1, HasRead(FIRST_CLAIM))]),
    Sys(map[0 := WAITING], map[], ONE), Sys(map[0 := WAITING], map[0 := Claiming(0, "b")], ONE),
    Sys(map[0 := SECOND_CLAIM], map[], TWO), Sys(map[0 := SECOND_CLAIM], map[], TWO_READ),
    Sys(map[0 := SECOND_CLAIM], map[0 := Reclaiming({0}, 50 * MINUTE)], TWO_READ),
    Sys(map[0 := TAKEN_BACK], map[], TWO_READ),
    Sys(map[0 := TAKEN_BACK], map[0 := Claiming(0, "c")], TWO_READ), Sys(map[0 := THIRD_CLAIM], map[], THREE),
    Sys(map[0 := SUCCEEDED], map[], THREE_DONE),
    Sys(map[0 := OVERWRITTEN], map[], ONE + [Flight(0, 2, Ended), Flight(0, 4, Ended)])]

  lemma Rows()
    ensures Claimed(JOB, "a", 0) == FIRST_CLAIM && Claimed(WAITING, "b", 10 * MINUTE) == SECOND_CLAIM
    ensures Claimed(TAKEN_BACK, "c", 60 * MINUTE) == THIRD_CLAIM && Completed(THIRD_CLAIM, 61 * MINUTE) == SUCCEEDED
    ensures Reclaimed(SECOND_CLAIM, 50 * MINUTE) == TAKEN_BACK
    ensures Flushed(FIRST_CLAIM, FailureRecorded(FIRST_CLAIM, 2, HTTP, None, MINUTE), FIRST_CLAIM) == WAITING
    ensures Flushed(SECOND_CLAIM, FailureRecorded(SECOND_CLAIM, 2, HTTP, None, 62 * MINUTE), SUCCEEDED) == OVERWRITTEN
  {
    assert Pow2(1) == 2 * Pow2(0);
    assert Pow2(3) == 2 * Pow2(2) && Pow2(2) == 2 * Pow2(1);
  }

  lemma FirstWrite()
    ensures Next(LOST_STATES[4], LOST_STEPS[4], LOST_STATES[5]) && Undisturbed(LOST_STATES[4], LOST_STEPS[4])
  {
    Rows();
    hide FirstUnlocked, StaleUnlocked, Flushed, FailureRecorded, Claimed, FreshRow;
  }

  lemma LastWrite()
    ensures Next(LOST_STATES[13], LOST_STEPS[13], LOST_STATES[14]) && !Undisturbed(LOST_STATES[13], LOST_STEPS[13])
    ensures SpoiledBy(LOST_STATES[13], LOST_STEPS[13])
  {
    Rows();
    hide FirstUnlocked, StaleUnlocked, Flushed, FailureRecorded, Claimed, FreshRow;
  }

  lemma FirstFailure()
    ensures forall i :: 0 <= i < 4 ==> Next(LOST_STATES[i], LOST_STEPS[i], LOST_STATES[i + 1])
  {
    Rows();
    LockToClaim(JOB, "a", 0, []);
    CommitClaim(JOB, "a", 0, []);
    hide FirstUnlocked, StaleUnlocked, Flushed, FailureRecorded, Claimed;
    assert Next(LOST_STATES[0], LOST_STEPS[0], LOST_STATES[1]);
    assert Next(LOST_STATES[3], LOST_STEPS[3], LOST_STATES[4]);
  }

  lemma SecondWorkerStalls()
    ensures forall i :: 5 <= i < 10 ==> Next(LOST_STATES[i], LOST_STEPS[i], LOST_STATES[i + 1])
  {
    Rows();
    LockToClaim(WAITING, "b", 10 * MINUTE, ONE);
    CommitClaim(WAITING, "b", 10 * MINUTE, ONE);
    LockToReclaim(SECOND_CLAIM, 50 * MINUTE, TWO_READ);
    CommitReclaim(SECOND_CLAIM, 50 * MINUTE, TWO_READ);
    hide FirstUnlocked, StaleUnlocked, Flushed, FailureRecorded, Claimed, Reclaimed;
    assert Next(LOST_STATES[7], LOST_STEPS[7], LOST_STATES[8]);
  }

  lemma ThirdSucceeds()
    ensures forall i :: 10 <= i < 13 ==> Next(LOST_STATES[i], LOST_STEPS[i], LOST_STATES[i + 1])
  {
    Rows();
    LockToClaim(TAKEN_BACK, "c", 60 * MINUTE, TWO_READ);
    CommitClaim(TAKEN_BACK, "c", 60 * MINUTE, TWO_READ);
    hide FirstUnlocked, StaleUnlocked, Flushed, FailureRecorded, Claimed, Completed;
    assert Next(LOST_STATES[12], LOST_STEPS[12], LOST_STATES[13]);
  }

  /** A fail call leaves no category exactly when it had read the one it reports and the row has lost it since. */
  lemma CategoryLost(read: JobRow, limit: nat, category: Category, retryAfter: Option<nat>, at: int, current: JobRow)
    ensures Flushed(read, FailureRecorded(read, limit, category, retryAfter, at), current).errorCategory.None?
       <==> read.errorCategory == Some(category) && current.errorCategory.None?
  {
  }

  /** The first fail call is undisturbed, the second is not, and it leaves a failed row that has no error category. */
  lemma IllFormedRun()
    ensures Run(LOST_STATES, LOST_STEPS)
    ensures Next(LOST_STATES[4], LOST_STEPS[4], LOST_STATES[5]) && Undisturbed(LOST_STATES[4], LOST_STEPS[4])
    ensures Next(LOST_STATES[13], LOST_STEPS[13], LOST_STATES[14]) && !Undisturbed(LOST_STATES[13], LOST_STEPS[13])
    ensures SpoiledBy(LOST_STATES[13], LOST_STEPS[13])
    ensures LOST_STATES[14].rows[0].status == Failed && LOST_STATES[14].rows[0].errorCategory.None?
    ensures !AllWellFormed(LOST_STATES[14])
  {
    FirstFailure();
    FirstWrite();
    SecondWorkerStalls();
    ThirdSucceeds();
    LastWrite();
    hide Next, Undisturbed, SpoiledBy;
    assert !WellFormed(LOST_STATES[14].rows[0]);
  }
}
