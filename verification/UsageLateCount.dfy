/**
 A call that crosses the hour: its transaction begins in an hour, waits for the
 lock while a rollup closes that hour, and records its call there.
 */
module UsageLateCount {
  import opened Options
  import opened UsageLedger
  import opened UsageRollup
  import opened UsageLateCall

  const FIRST_HOUR: Hour := (API, 0)

  lemma FirstHourAggregated(n: nat)
    requires 1 <= n
    ensures var calls := Calls(0, n);
      Unrolled(calls, {}, HOUR) == Ids(n) && FIRST_HOUR in Tally(calls, Ids(n))
  {
    var calls := Calls(0, n);
    assert Unrolled(calls, {}, HOUR) == Ids(n);
    assert 0 in Ids(n) && HourOf(calls[0]) == FIRST_HOUR;
  }

  lemma NothingDeleted(s: Ledger, n: nat, key: string -> nat) returns (s': Ledger)
    requires s.calls == Calls(0, n) && s.rollup.Some? && s.rollup.value.at == HOUR && s.rollup.value.doomed.None?
    ensures Next(s, Delete, s', key) && s' == s.(rollup := Some(s.rollup.value.(doomed := Some({}))))
  {
    hide Recent, Unrolled, Tally;
    s' := Apply(s, Delete, key);
    assert s'.rollup.value.doomed.value == {};
  }

  lemma RowAddedNonePurged(s: Ledger, key: string -> nat) returns (s': Ledger)
    requires s.rollup.Some? && s.rollup.value.doomed == Some({}) && s.purged == map[] && s.counted == {}
    ensures Next(s, CommitRollup, s', key) && s'.usage == s.usage + s.rollup.value.tally
      && s'.counted == s.rollup.value.ids
    ensures s'.calls == s.calls && s'.purged == map[] && s'.txs == s.txs && s'.next == s.next
    ensures s'.purgedAt == Later(s.purgedAt, s.rollup.value.at)
  {
    hide Recent, Unrolled, Tally, Committed, Later;
    s' := Apply(s, CommitRollup, key);
    assert s.calls - {} == s.calls;
  }

  /** The rollup at the hour's end adds the hour's row and counts the calls committed so far; it purges none. */
  lemma FirstHourRolledUp(s: Ledger, n: nat, key: string -> nat) returns (s1: Ledger, s2: Ledger, s3: Ledger)
    requires 1 <= n && s.calls == Calls(0, n) && s.rollup.None? && s.usage == map[] && s.counted == {}
      && s.purged == map[]
    ensures Next(s, Aggregate(HOUR), s1, key) && Next(s1, Delete, s2, key) && Next(s2, CommitRollup, s3, key)
    ensures FIRST_HOUR in s3.usage && s3.counted == Ids(n) && s3.calls == s.calls
    ensures s3.purged == map[] && s3.txs == s.txs && s3.next == s.next && s3.purgedAt == Later(s.purgedAt, HOUR)
  {
    FirstHourAggregated(n);
    assert s.usage.Keys == {};
    hide Unrolled, Recent, Of, Tally, Calls, Committed, Ids, Truncated, Later;
    s1 := Apply(s, Aggregate(HOUR), key);
    s2 := NothingDeleted(s1, n, key);
    s3 := RowAddedNonePurged(s2, key);
  }

  lemma CheckedAfter(s: Ledger, n: nat, key: string -> nat) returns (s': Ledger)
    requires s.calls == Calls(0, n) && s.next == n && s.txs == map[1 := Tx(0, {})] && s.purged == map[]
    ensures Next(s, Check(1, API, Some(n + 1)), s', key)
    ensures s'.calls == Calls(0, n)[n := Call(API, 0, Some(1))] && 1 in s'.txs
    ensures s'.purged == s.purged && s'.counted == s.counted && s'.usage == s.usage
  {
    assert Recent(Calls(0, n), 1, API, 0) == Ids(n);
    hide Calls, Recent, Unrolled, Committed, Tally;
    s' := Apply(s, Check(1, API, Some(n + 1)), key);
  }

  lemma CommittedAfter(s: Ledger, n: nat, key: string -> nat) returns (s': Ledger)
    requires s.calls == Calls(0, n)[n := Call(API, 0, Some(1))] && 1 in s.txs && FIRST_HOUR in s.usage
    ensures Next(s, Commit(1), s', key) && Misses(s, Commit(1))
    ensures s'.calls == Calls(0, n + 1) && s'.purged == s.purged && s'.counted == s.counted && s'.usage == s.usage
  {
    hide Recent, Unrolled, Committed, Tally;
    s' := Apply(s, Commit(1), key);
    assert s'.calls == Calls(0, n + 1);
    assert TooLate(s, 1, n);
  }

  lemma EverInFirstHour(s: Ledger, n: nat)
    requires s.calls == Calls(0, n + 1) && s.purged == map[] && s.counted == Ids(n)
    ensures Ever(s, FIRST_HOUR) == Ids(n + 1) && Late(s, FIRST_HOUR) == {n}
  {
    assert Known(s) == s.calls;
    assert Committed(s.calls) == Ids(n + 1);
  }

  /**
   For any number of calls of an hour there is a run after which the hour's row counts these and one
   more was recorded in it; the step that missed it is the late transaction's commit.
   */
  lemma LateCallIsNotCounted(n: nat, key: string -> nat) returns (states: seq<Ledger>, steps: seq<Step>)
    requires 1 <= n
    ensures Run(states, steps, key) && |steps| > 0
    ensures var s := states[|steps|];
      && FIRST_HOUR in s.usage && s.usage[FIRST_HOUR] == n && Late(s, FIRST_HOUR) == {n}
        && |Ever(s, FIRST_HOUR)| == n + 1
    ensures Misses(states[|steps| - 1], steps[|steps| - 1]) && !Exact(states[|steps|])
  {
    states, steps := Fill(0, n, n + 1, key);
    var waiting := Filled(0, n).(txs := map[1 := Tx(0, {})]);
    assert Next(Filled(0, n), Begin(1, 0), waiting, key);
    var s1, s2, s3 := FirstHourRolledUp(waiting, n, key);
    var s4 := CheckedAfter(s3, n, key);
    var s5 := CommittedAfter(s4, n, key);
    EverInFirstHour(s5, n);
    hide Next, Orderly, Run, Ever, Late, Calls, Ids, Misses, Records, Filled;
    states, steps := Extend(states, steps, Begin(1, 0), waiting, n + 1, key);
    states, steps := Extend(states, steps, Aggregate(HOUR), s1, n + 1, key);
    states, steps := Extend(states, steps, Delete, s2, n + 1, key);
    states, steps := Extend(states, steps, CommitRollup, s3, n + 1, key);
    states, steps := Extend(states, steps, Check(1, API, Some(n + 1)), s4, n + 1, key);
    states, steps := FinalStep(states, steps, Commit(1), s5, n + 1, key);
    LateCounted(states, steps, key, n);
  }

  lemma LateCounted(states: seq<Ledger>, steps: seq<Step>, key: string -> nat, n: nat)
    requires Run(states, steps, key) && |states| == |steps| + 1 && FIRST_HOUR in states[|steps|].usage
    requires Ever(states[|steps|], FIRST_HOUR) == Ids(n + 1) && Late(states[|steps|], FIRST_HOUR) == {n}
    ensures states[|steps|].usage[FIRST_HOUR] == n && !Exact(states[|steps|])
  {
    hide Run, Ever, Late;
    CallsConserved(states, steps, key, |steps|, FIRST_HOUR);
  }
}
