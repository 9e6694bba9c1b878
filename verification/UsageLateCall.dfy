/**
 How late a transaction may record its call after a purge: one tick more than
 the windows allow, and a window of all calls ever recorded can exceed any limit.
 */
module UsageLateCall {
  import opened Options
  import opened UsageLedger
  import opened UsageWindows

  const API := "api"

  /** When the first calls are recorded: as late as the purge still removes them, but no later than the late one. */
  function Early(purge: int, late: int): int {
    if late < purge - KEEP then late else purge - KEEP - 1
  }

  function Ids(n: nat): (r: set<CallId>)
    ensures |r| == n && forall i :: i in r <==> 0 <= i < n
  {
    if n == 0 then {} else Ids(n - 1) + {n - 1}
  }

  function Calls(at: int, n: nat): map<CallId, Call> {
    map i | i in Ids(n) :: Call(API, at, None)
  }

  /** n calls have been recorded, all at the same time. */
  function Filled(at: int, n: nat): Ledger {
    EMPTY.(calls := Calls(at, n), next := n)
  }

  /** A run with no check against more than the limit and no untimely recording. */
  ghost predicate Orderly(states: seq<Ledger>, steps: seq<Step>, limit: nat, key: string -> nat) {
    && Run(states, steps, key)
    && forall i :: 0 <= i < |steps| ==> Limited(steps[i], API, limit) && Timely(states[i], steps[i])
  }

  lemma Extend(states: seq<Ledger>, steps: seq<Step>, step: Step, s': Ledger, limit: nat, key: string -> nat)
    returns (states': seq<Ledger>, steps': seq<Step>)
    requires Orderly(states, steps, limit, key) && Next(states[|states| - 1], step, s', key)
    requires Limited(step, API, limit) && Timely(states[|states| - 1], step)
    ensures Orderly(states', steps', limit, key) && states'[|states'| - 1] == s'
  {
    hide Next, Limited, Timely;
    states', steps' := states + [s'], steps + [step];
  }

  function Recording(at: int, n: nat, key: string -> nat): Ledger {
    Filled(at, n).(txs := map[0 := Tx(at, {key(API)})], calls := Calls(at, n)[n := Call(API, at, Some(0))],
      next := n + 1)
  }

  lemma CheckOne(at: int, n: nat, limit: nat, key: string -> nat)
    requires n < limit
    ensures Next(Filled(at, n).(txs := map[0 := Tx(at, {})]), Check(0, API, Some(limit)), Recording(at, n, key), key)
  {
    assert Recent(Calls(at, n), 0, API, at) == Ids(n);
    hide Calls, Recent, Committed, Unrolled, Tally;
  }

  lemma CommitOne(at: int, n: nat, key: string -> nat)
    ensures Next(Recording(at, n, key), Commit(0), Filled(at, n + 1), key)
  {
    hide Recent, Committed, Unrolled, Tally;
    var s := Recording(at, n, key);
    assert s.txs - {0} == map[];
    assert Apply(s, Commit(0), key).calls == Calls(at, n + 1);
  }

  lemma NothingPurged(at: int, n: nat)
    ensures Filled(at, n).purgedAt.None?
  {
  }

  lemma NoCalls(at: int)
    ensures Filled(at, 0) == EMPTY
  {
    assert Calls(at, 0) == map[];
  }

  lemma {:induction false} Fill(at: int, n: nat, limit: nat, key: string -> nat)
    returns (states: seq<Ledger>, steps: seq<Step>)
    requires n <= limit
    ensures Orderly(states, steps, limit, key) && states[|states| - 1] == Filled(at, n)
  {
    if n == 0 {
      states, steps := [EMPTY], [];
      NoCalls(at);
    } else {
      states, steps := Fill(at, n - 1, limit, key);
      NothingPurged(at, n - 1);
      var begun := Filled(at, n - 1).(txs := map[0 := Tx(at, {})]);
      assert Next(Filled(at, n - 1), Begin(0, at), begun, key);
      CheckOne(at, n - 1, limit, key);
      CommitOne(at, n - 1, key);
      hide Next, Orderly, Recording, Filled, Records;
      states, steps := Extend(states, steps, Begin(0, at), begun, limit, key);
      states, steps := Extend(states, steps, Check(0, API, Some(limit)), Recording(at, n - 1, key), limit, key);
      states, steps := Extend(states, steps, Commit(0), Filled(at, n), limit, key);
    }
  }

  /** A whole rollup over committed calls that are all old enough moves every one of them out of the table. */
  lemma RolledUpAndPurged(s: Ledger, purge: int, key: string -> nat) returns (s1: Ledger, s2: Ledger, s3: Ledger)
    requires s.rollup.None? && s.purged == map[] && s.purgedAt.None?
    requires forall i :: i in s.calls ==> s.calls[i].owner.None? && s.calls[i].at < purge - KEEP
    ensures Next(s, Aggregate(purge), s1, key) && Next(s1, Delete, s2, key) && Next(s2, CommitRollup, s3, key)
    ensures s1.purgedAt.None? && s2.purgedAt.None? && s3.purgedAt == Some(purge)
    ensures s3.calls == map[] && s3.purged == s.calls && s3.txs == s.txs && s3.next == s.next
  {
    hide Recent, Unrolled, Tally, Truncated;
    s1 := Apply(s, Aggregate(purge), key);
    s2 := Apply(s1, Delete, key);
    s3 := Apply(s2, CommitRollup, key);
    assert s2.rollup.value.doomed.value == s.calls.Keys;
    assert s.calls - s.calls.Keys == map[];
  }

  /** With an empty table the check finds room and records. */
  lemma RecordedAgain(s: Ledger, late: int, limit: nat, key: string -> nat) returns (s': Ledger)
    requires s.calls == map[] && s.txs == map[1 := Tx(late, {})] && 1 <= limit
    ensures Next(s, Check(1, API, Some(limit)), s', key) && Records(s, 1, API, Some(limit))
    ensures s'.calls == map[s.next := Call(API, late, Some(1))] && s'.purged == s.purged
  {
    assert Recent(s.calls, 1, API, late) == {};
    hide Recent, Committed, Unrolled, Tally, Truncated;
    s' := Apply(s, Check(1, API, Some(limit)), key);
  }

  lemma OneTooMany(purge: int, late: int, n: nat)
    requires late + HOUR + 1 < purge
    ensures !Bounded(map[n := Call(API, late, Some(1))] + Calls(Early(purge, late), n), API, n)
  {
    var ever := map[n := Call(API, late, Some(1))] + Calls(Early(purge, late), n);
    assert Window(ever, API, late) == Ids(n + 1);
  }

  /**
   For every limit, every purge time and every transaction begun more than an hour and a tick before
   it, there is a run with no check against more than the limit whose only untimely step is that
   transaction's, and that leaves more calls recorded in one window than the limit.
   */
  lemma LateCallBreaksWindow(purge: int, late: int, limit: nat, key: string -> nat)
    returns (states: seq<Ledger>, steps: seq<Step>)
    requires late + HOUR + 1 < purge && 1 <= limit
    ensures Run(states, steps, key) && |steps| > 0
    ensures forall i :: 0 <= i < |steps| ==> Limited(steps[i], API, limit)
    ensures var last := |steps| - 1;
      && steps[last] == Check(1, API, Some(limit)) && 1 in states[last].txs && states[last].txs[1].start == late
      && (forall i :: 0 <= i < last ==> Timely(states[i], steps[i])) && !Timely(states[last], steps[last])
      && !Bounded(states[|steps|].calls + states[|steps|].purged, API, limit)
  {
    states, steps := Fill(Early(purge, late), limit, limit, key);
    var waiting := Filled(Early(purge, late), limit).(txs := map[1 := Tx(late, {})]);
    assert Next(Filled(Early(purge, late), limit), Begin(1, late), waiting, key);
    var s1, s2, s3 := RolledUpAndPurged(waiting, purge, key);
    var s4 := RecordedAgain(s3, late, limit, key);
    OneTooMany(purge, late, limit);
    hide Next, Orderly, Records, Bounded, Calls, Ids, Early;
    states, steps := Extend(states, steps, Begin(1, late), waiting, limit, key);
    states, steps := Extend(states, steps, Aggregate(purge), s1, limit, key);
    states, steps := Extend(states, steps, Delete, s2, limit, key);
    states, steps := Extend(states, steps, CommitRollup, s3, limit, key);
    states, steps := FinalStep(states, steps, Check(1, API, Some(limit)), s4, limit, key);
  }

  lemma FinalStep(states: seq<Ledger>, steps: seq<Step>, step: Step, s': Ledger, limit: nat, key: string -> nat)
    returns (states': seq<Ledger>, steps': seq<Step>)
    requires Orderly(states, steps, limit, key) && Next(states[|states| - 1], step, s', key)
      && Limited(step, API, limit)
    ensures Run(states', steps', key) && |steps'| == |steps| + 1 && steps'[|steps|] == step
    ensures states'[|steps|] == states[|states| - 1] && states'[|steps'|] == s'
    ensures forall i :: 0 <= i < |steps'| ==> Limited(steps'[i], API, limit)
    ensures forall i :: 0 <= i < |steps| ==> Timely(states'[i], steps'[i])
  {
    hide Next, Limited, Timely;
    states', steps' := states + [s'], steps + [step];
  }
}
