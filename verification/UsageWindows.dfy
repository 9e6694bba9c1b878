/**
 The rate limit as a property of every 60-minute window, not only of those that
 end at a check, although transaction timestamps may be recorded out of order.
 */
module UsageWindows {
  import opened Options
  import opened Sets
  import opened UsageLedger

  /** The calls recorded for an API in the 60 minutes up to `end`. */
  function Window(calls: map<CallId, Call>, api: string, end: int): set<CallId> {
    set i | i in calls && calls[i].api == api && end - HOUR < calls[i].at <= end
  }

  /** No window of the table, or of the table and all that was purged from it, holds more than `limit` calls. */
  ghost predicate Bounded(calls: map<CallId, Call>, api: string, limit: nat) {
    forall end: int :: |Window(calls, api, end)| <= limit
  }

  /** The check is not of this API or is against at most this limit. */
  predicate Limited(step: Step, api: string, limit: nat) {
    step.Check? && step.api == api && step.limit.Some? ==> step.limit.value <= limit
  }

  /**
   A call is recorded only by a transaction that began no more than an hour
   (and one tick of the clock) before the NOW() of the latest committed purge.
   */
  predicate Timely(s: Ledger, step: Step) {
    step.Check? && step.tx in s.txs && Records(s, step.tx, step.api, step.limit) && s.purgedAt.Some? ==>
      s.txs[step.tx].start + HOUR + 1 >= s.purgedAt.value
  }

  lemma FewerCalls(before: map<CallId, Call>, after: map<CallId, Call>, api: string, limit: nat)
    requires Bounded(before, api, limit)
    requires forall i :: i in after ==> i in before && after[i].api == before[i].api && after[i].at == before[i].at
    ensures Bounded(after, api, limit)
  {
    forall end: int ensures |Window(after, api, end)| <= limit {
      SubsetIsSmaller(Window(after, api, end), Window(before, api, end));
    }
  }

  /** `known` is a record of calls in which those of the last hour are all in the table. */
  lemma RecordingKeepsBound(s: Ledger, known: map<CallId, Call>, step: Step, limit: nat, key: string -> nat)
    requires Ordered(s, key) && Guard(s, step, key) && step.Check? && Limited(step, step.api, limit)
    requires Records(s, step.tx, step.api, step.limit)
    requires Bounded(known, step.api, limit) && s.next !in known
    requires forall i :: i in known && known[i].api == step.api && known[i].at > s.txs[step.tx].start - HOUR ==>
      i in s.calls && known[i] == s.calls[i]
    ensures Bounded(known[s.next := Call(step.api, s.txs[step.tx].start, Some(step.tx))], step.api, limit)
  {
    var start := s.txs[step.tx].start;
    var recent := Recent(s.calls, step.tx, step.api, start);
    var after := known[s.next := Call(step.api, start, Some(step.tx))];
    assert forall i :: i in s.calls && s.calls[i].api == step.api ==> Visible(s.calls[i], step.tx);
    forall end: int ensures |Window(after, step.api, end)| <= limit {
      if end - HOUR < start <= end {
        forall i | i in Window(after, step.api, end) ensures i in recent + {s.next} {
        }
        SubsetIsSmaller(Window(after, step.api, end), recent + {s.next});
      } else {
        assert Window(after, step.api, end) == Window(known, step.api, end);
      }
    }
  }

  lemma LiveStep(s: Ledger, step: Step, s': Ledger, api: string, limit: nat, key: string -> nat)
    requires Ordered(s, key) && Next(s, step, s', key) && Limited(step, api, limit)
    requires Bounded(s.calls, api, limit)
    ensures Bounded(s'.calls, api, limit)
  {
    hide Bounded, Tally, Unrolled, Later, Committed;
    if step.Check? && Records(s, step.tx, step.api, step.limit) {
      if step.api == api {
        RecordingKeepsBound(s, s.calls, step, limit, key);
      } else {
        OtherApi(s.calls, s.next, Call(step.api, s.txs[step.tx].start, Some(step.tx)), api, limit);
      }
    } else {
      FewerCalls(s.calls, s'.calls, api, limit);
    }
  }

  lemma OtherApi(calls: map<CallId, Call>, i: CallId, c: Call, api: string, limit: nat)
    requires Bounded(calls, api, limit) && c.api != api
    ensures Bounded(calls[i := c], api, limit)
  {
    var after := calls[i := c];
    forall end: int ensures |Window(after, api, end)| <= limit {
      SubsetIsSmaller(Window(after, api, end), Window(calls, api, end));
    }
  }

  lemma NothingRecorded(api: string, limit: nat)
    ensures Bounded(EMPTY.calls, api, limit) && Bounded(EMPTY.calls + EMPTY.purged, api, limit) && PurgedIsOld(EMPTY)
  {
    assert forall end: int :: Window(EMPTY.calls, api, end) == {};
    assert EMPTY.calls + EMPTY.purged == EMPTY.calls;
  }

  /**
   In every run, whatever order the transactions' timestamps come in, every
   60-minute window holds at most `limit` of an API's recorded calls
   as long as no check was against a higher limit.
   */
  lemma {:induction false} EveryWindowWithinLimit(states: seq<Ledger>, steps: seq<Step>, key: string -> nat,
          api: string, limit: nat, n: nat)
    requires Run(states, steps, key) && n < |states|
    requires forall i :: 0 <= i < n ==> Limited(steps[i], api, limit)
    ensures Bounded(states[n].calls, api, limit)
    decreases n
  {
    NothingRecorded(api, limit);
    hide Bounded, Next, Limited, Ordered;
    if n > 0 {
      EveryWindowWithinLimit(states, steps, key, api, limit, n - 1);
      OrderedAlways(states, steps, key, n - 1);
      LiveStep(states[n - 1], steps[n - 1], states[n], api, limit, key);
    }
  }

  /** What a purge removed, or is about to, is over two hours older than the purge. */
  predicate PurgedIsOld(s: Ledger) {
    && (forall i :: i in s.purged ==> s.purgedAt.Some? && s.purged[i].at < s.purgedAt.value - KEEP)
    && (s.rollup.Some? && s.rollup.value.doomed.Some? ==>
          forall i :: i in s.rollup.value.doomed.value && i in s.calls ==> s.calls[i].at < s.rollup.value.at - KEEP)
  }

  lemma PurgedIsOldStep(s: Ledger, step: Step, s': Ledger, key: string -> nat)
    requires Ordered(s, key) && PurgedIsOld(s) && Next(s, step, s', key)
    ensures PurgedIsOld(s')
  {
    hide Records, Tally, Unrolled;
  }

  /** A step that records nothing neither adds nor changes a call; purging only moves it. */
  lemma NothingElseAdded(s: Ledger, step: Step, s': Ledger, key: string -> nat)
    requires Numbered(s) && Next(s, step, s', key)
    requires !(step.Check? && Records(s, step.tx, step.api, step.limit))
    ensures forall i :: i in s'.calls + s'.purged ==>
      var before, after := s.calls + s.purged, s'.calls + s'.purged;
      i in before && after[i].api == before[i].api && after[i].at == before[i].at
  {
    hide Records, Tally, Unrolled, Later, Committed;
  }

  lemma RecordedLast(s: Ledger, c: Call)
    requires Numbered(s)
    ensures s.calls[s.next := c] + s.purged == (s.calls + s.purged)[s.next := c]
  {
  }

  lemma EverStep(s: Ledger, step: Step, s': Ledger, api: string, limit: nat, key: string -> nat)
    requires Ordered(s, key) && Next(s, step, s', key) && Limited(step, api, limit)
    requires PurgedIsOld(s) && Timely(s, step)
    requires Bounded(s.calls + s.purged, api, limit)
    ensures Bounded(s'.calls + s'.purged, api, limit)
  {
    hide Bounded, Tally, Unrolled, Later, Committed;
    if step.Check? && Records(s, step.tx, step.api, step.limit) {
      var c := Call(step.api, s.txs[step.tx].start, Some(step.tx));
      RecordedLast(s, c);
      if step.api == api {
        RecordingKeepsBound(s, s.calls + s.purged, step, limit, key);
      } else {
        OtherApi(s.calls + s.purged, s.next, c, api, limit);
      }
    } else {
      NothingElseAdded(s, step, s', key);
      FewerCalls(s.calls + s.purged, s'.calls + s'.purged, api, limit);
    }
  }

  /** The same of all calls ever recorded, purged or not, when no recording transaction is too old for a purge. */
  lemma {:induction false} EveryWindowEverWithinLimit(states: seq<Ledger>, steps: seq<Step>, key: string -> nat,
          api: string, limit: nat, n: nat)
    requires Run(states, steps, key) && n < |states|
    requires forall i :: 0 <= i < n ==> Limited(steps[i], api, limit) && Timely(states[i], steps[i])
    ensures Bounded(states[n].calls + states[n].purged, api, limit) && PurgedIsOld(states[n])
    decreases n
  {
    NothingRecorded(api, limit);
    hide Bounded, Next, Limited, Ordered, PurgedIsOld, Timely;
    if n > 0 {
      EveryWindowEverWithinLimit(states, steps, key, api, limit, n - 1);
      OrderedAlways(states, steps, key, n - 1);
      EverStep(states[n - 1], steps[n - 1], states[n], api, limit, key);
      PurgedIsOldStep(states[n - 1], steps[n - 1], states[n], key);
    }
  }
}
