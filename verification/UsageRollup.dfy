/**
 Conservation across rollups and purges: what the hourly rows say against every
 call ever recorded.
 */
module UsageRollup {
  import opened Options
  import opened Sets
  import opened UsageLedger
  import opened UsageWindows

  /** Every call recorded and committed so far, whether or not it was purged since. */
  function Known(s: Ledger): map<CallId, Call> { s.calls + s.purged }

  function Ever(s: Ledger, h: Hour): set<CallId> {
    Of(Known(s), Committed(Known(s)), h)
  }

  /** Calls of an hour that its rollup row does not count. */
  function Late(s: Ledger, h: Hour): set<CallId> {
    Ever(s, h) - s.counted
  }

  /** The rows the rollup in progress is about to count are committed rows of hours without a rollup row. */
  predicate InProgress(s: Ledger) {
    s.rollup.Some? ==>
      var r := s.rollup.value;
      && (forall i :: i in r.ids ==> i in s.calls && s.calls[i].owner.None? && HourOf(s.calls[i]) !in s.usage)
      && (forall i :: i in r.ids && i in s.calls ==> HourOf(s.calls[i]) in r.tally && s.calls[i].at < Truncated(r.at))
      && (forall h :: h in r.tally ==> 0 < r.tally[h] == |Of(s.calls, r.ids, h)|)
      && (forall h :: h in r.tally ==> h !in s.usage)
  }

  /** Each rollup row counts the counted calls of its hour. */
  predicate Tallied(s: Ledger) {
    && (forall i :: i in s.counted ==> i in Known(s) && Known(s)[i].owner.None? && HourOf(Known(s)[i]) in s.usage)
    && (forall h :: h in s.usage ==> s.usage[h] == |Of(Known(s), s.counted, h)|)
  }

  /** A known, committed call stays known and committed as it is. */
  predicate Keeps(s: Ledger, s': Ledger) {
    forall i :: i in Known(s) && Known(s)[i].owner.None? ==> i in Known(s') && Known(s')[i] == Known(s)[i]
  }

  lemma CallsAreKept(s: Ledger, step: Step, s': Ledger, key: string -> nat)
    requires Numbered(s) && Next(s, step, s', key)
    ensures Keeps(s, s')
  {
    hide Records, Tally, Unrolled, Later, Committed;
  }

  lemma InProgressStep(s: Ledger, step: Step, s': Ledger, key: string -> nat)
    requires Numbered(s) && InProgress(s) && Next(s, step, s', key)
    ensures InProgress(s')
  {
    if step.Aggregate? {
      AggregateStarts(s, step, s', key);
    } else if s'.rollup.Some? {
      SameRollup(s, step, s', key);
      hide Next, Truncated;
      forall h | h in s'.rollup.value.tally
        ensures Of(s'.calls, s'.rollup.value.ids, h) == Of(s.calls, s.rollup.value.ids, h)
      {
      }
    }
  }

  lemma SameRollup(s: Ledger, step: Step, s': Ledger, key: string -> nat)
    requires Numbered(s) && Next(s, step, s', key) && !step.Aggregate? && s'.rollup.Some?
    ensures s.rollup.Some? && s'.usage == s.usage
    ensures s'.rollup.value.ids == s.rollup.value.ids && s'.rollup.value.tally == s.rollup.value.tally
    ensures s'.rollup.value.at == s.rollup.value.at
    ensures forall i :: i in s.calls && s.calls[i].owner.None? ==> i in s'.calls && s'.calls[i] == s.calls[i]
  {
    hide Records, Tally, Unrolled, Later, Committed;
  }

  lemma AggregateStarts(s: Ledger, step: Step, s': Ledger, key: string -> nat)
    requires Next(s, step, s', key) && step.Aggregate?
    ensures InProgress(s')
  {
    hide Truncated;
    var ids := Unrolled(s.calls, s.usage.Keys, step.at);
    assert s'.rollup.value.ids == ids && s'.rollup.value.tally == Tally(s.calls, ids);
    forall h | h in Tally(s.calls, ids) ensures Of(s.calls, ids, h) != {} {
      var i :| i in ids && i in s.calls && HourOf(s.calls[i]) == h;
      assert i in Of(s.calls, ids, h);
    }
  }

  lemma TalliedStep(s: Ledger, step: Step, s': Ledger, key: string -> nat)
    requires Numbered(s) && InProgress(s) && Tallied(s) && Next(s, step, s', key)
    ensures Tallied(s')
  {
    CallsAreKept(s, step, s', key);
    if step.CommitRollup? {
      TalliedAfterRollup(s, s', key);
    } else {
      assert s'.counted == s.counted && s'.usage == s.usage;
      hide Next, InProgress;
      forall h | h in s.usage ensures Of(Known(s'), s.counted, h) == Of(Known(s), s.counted, h) {
      }
    }
  }

  /** Of two records that agree on the ids of a and b, in an hour that b has no call of. */
  lemma OnlyTheOther(before: map<CallId, Call>, after: map<CallId, Call>, a: set<CallId>, b: set<CallId>, h: Hour)
    requires forall i :: i in a ==> i in before && i in after && after[i] == before[i]
    requires forall i :: i in b ==> i in after && HourOf(after[i]) != h
    ensures Of(after, a + b, h) == Of(before, a, h)
  {
  }

  lemma TalliedAfterRollup(s: Ledger, s': Ledger, key: string -> nat)
    requires Numbered(s) && InProgress(s) && Tallied(s) && Next(s, CommitRollup, s', key) && Keeps(s, s')
    ensures Tallied(s')
  {
    RowsAdded(s, CommitRollup, s', key);
    hide Next;
    KnownInTable(s);
    hide Known, Numbered;
    TallyCarriedOver(s, s');
  }

  lemma TallyCarriedOver(s: Ledger, s': Ledger)
    requires InProgress(s) && Tallied(s) && Keeps(s, s') && s.rollup.Some?
    requires forall i :: i in s.calls ==> i in Known(s) && Known(s)[i] == s.calls[i]
    requires s'.usage == s.usage + s.rollup.value.tally && s'.counted == s.counted + s.rollup.value.ids
    ensures Tallied(s')
  {
    hide Known, Of;
    var r := s.rollup.value;
    assert forall i :: i in r.ids ==> i in Known(s') && Known(s')[i] == s.calls[i];
    assert forall i :: i in s.counted ==> i in Known(s') && Known(s')[i] == Known(s)[i];
    forall h | h in s'.usage ensures s'.usage[h] == |Of(Known(s'), s'.counted, h)| {
      if h in r.tally {
        OnlyTheOther(s.calls, Known(s'), r.ids, s.counted, h);
        assert s'.counted == r.ids + s.counted;
      } else {
        OnlyTheOther(Known(s), Known(s'), s.counted, r.ids, h);
      }
    }
  }

  lemma KnownInTable(s: Ledger)
    requires Numbered(s)
    ensures forall i :: i in s.calls ==> i in Known(s) && Known(s)[i] == s.calls[i]
  {
  }

  ghost predicate Sound(s: Ledger, key: string -> nat) {
    Ordered(s, key) && InProgress(s) && Tallied(s)
  }

  lemma {:induction false} SoundAlways(states: seq<Ledger>, steps: seq<Step>, key: string -> nat, n: nat)
    requires Run(states, steps, key) && n < |states|
    ensures Sound(states[n], key)
    decreases n
  {
    if n > 0 {
      SoundAlways(states, steps, key, n - 1);
      hide Next, InProgress, Tallied, Owned, Exclusive, Numbered;
      OrderedStep(states[n - 1], steps[n - 1], states[n], key);
      InProgressStep(states[n - 1], steps[n - 1], states[n], key);
      TalliedStep(states[n - 1], steps[n - 1], states[n], key);
    }
  }

  /**
   In every run, purges included, an hour's rollup row and the calls that came too
   late for it make up all calls ever recorded in that hour; so the
   row is exact if and only if none came late.
   */
  lemma CallsConserved(states: seq<Ledger>, steps: seq<Step>, key: string -> nat, n: nat, h: Hour)
    requires Run(states, steps, key) && n < |states| && h in states[n].usage
    ensures states[n].usage[h] + |Late(states[n], h)| == |Ever(states[n], h)|
    ensures states[n].usage[h] == |Ever(states[n], h)| <==> Late(states[n], h) == {}
  {
    SoundAlways(states, steps, key, n);
    var s := states[n];
    assert Ever(s, h) == Of(Known(s), s.counted, h) + Late(s, h);
  }

  /** A call too late for its hour's row is never made up for, and the row never changes. */
  lemma LateStaysLate(states: seq<Ledger>, steps: seq<Step>, key: string -> nat, n: nat, m: nat, h: Hour)
    requires Run(states, steps, key) && n <= m < |states| && h in states[n].usage
    ensures h in states[m].usage && states[m].usage[h] == states[n].usage[h]
    ensures Ever(states[n], h) <= Ever(states[m], h) && Late(states[n], h) <= Late(states[m], h)
    decreases m
  {
    hide Next, Sound, Ever, Late;
    if n < m {
      LateStaysLate(states, steps, key, n, m - 1, h);
      SoundAlways(states, steps, key, m - 1);
      LateStep(states[m - 1], steps[m - 1], states[m], key, h);
    }
  }

  lemma LateStep(s: Ledger, step: Step, s': Ledger, key: string -> nat, h: Hour)
    requires Sound(s, key) && Next(s, step, s', key) && h in s.usage
    ensures h in s'.usage && s'.usage[h] == s.usage[h]
    ensures Ever(s, h) <= Ever(s', h) && Late(s, h) <= Late(s', h)
  {
    CallsAreKept(s, step, s', key);
    RowsAdded(s, step, s', key);
    hide Next, Tallied, Owned, Exclusive;
    forall i | i in Ever(s, h) ensures i in Ever(s', h) && (i in Late(s, h) ==> i in Late(s', h)) {
    }
  }

  /** Only a rollup's commit adds rollup rows and counted calls. */
  lemma RowsAdded(s: Ledger, step: Step, s': Ledger, key: string -> nat)
    requires Next(s, step, s', key)
    ensures if step.CommitRollup?
            then s.rollup.Some? && s'.usage == s.usage + s.rollup.value.tally
              && s'.counted == s.counted + s.rollup.value.ids
            else s'.usage == s.usage && s'.counted == s.counted
  {
    hide Records, Tally, Unrolled, Later, Committed;
  }

  lemma HourBoundary(t: int, p: int)
    ensures t < Truncated(p) ==> (t / HOUR + 1) * HOUR <= Truncated(p)
    ensures t < (t / HOUR + 1) * HOUR
  {
  }

  /** The committed calls of an hour that are in the table. */
  function Live(s: Ledger, h: Hour): set<CallId> {
    Of(s.calls, Committed(s.calls), h)
  }

  /** The Aggregate step m is the one the rollup in progress at n began with; nothing was rolled up since. */
  ghost predicate BeganAt(states: seq<Ledger>, steps: seq<Step>, m: nat, n: nat)
    requires m < n < |states| && |states| == |steps| + 1
  {
    && steps[m].Aggregate? && states[m].rollup.None? && states[n].rollup.Some?
    && states[n].usage == states[m].usage && states[n].counted == states[m].counted
    && var s, r := states[m], states[n].rollup.value;
       && r.at == steps[m].at && r.ids == Unrolled(s.calls, s.usage.Keys, r.at) && r.tally == Tally(s.calls, r.ids)
       && forall i :: i in r.ids ==> i in s.calls && i in states[n].calls && states[n].calls[i] == s.calls[i]
  }

  lemma {:induction false} RollupBegan(states: seq<Ledger>, steps: seq<Step>, key: string -> nat, n: nat)
    returns (m: nat)
    requires Run(states, steps, key) && n < |states| && states[n].rollup.Some?
    ensures m < n && BeganAt(states, steps, m, n)
    decreases n
  {
    SoundAlways(states, steps, key, n - 1);
    var s, step, s' := states[n - 1], steps[n - 1], states[n];
    assert Next(s, step, s', key);
    if step.Aggregate? {
      m := n - 1;
      AggregateIds(s, step, s', key);
      hide Next, Sound, Tally, Unrolled;
    } else {
      SameRollup(s, step, s', key);
      RowsAdded(s, step, s', key);
      hide Next, Tally, Unrolled, Owned, Exclusive;
      m := RollupBegan(states, steps, key, n - 1);
    }
  }

  lemma AggregateIds(s: Ledger, step: Step, s': Ledger, key: string -> nat)
    requires Next(s, step, s', key) && step.Aggregate?
    ensures s.rollup.None? && s'.rollup.Some? && s'.usage == s.usage && s'.counted == s.counted && s'.calls == s.calls
    ensures s'.rollup.value.at == step.at && s'.rollup.value.ids == Unrolled(s.calls, s.usage.Keys, step.at)
    ensures s'.rollup.value.tally == Tally(s.calls, s'.rollup.value.ids)
    ensures forall i :: i in s'.rollup.value.ids ==> i in s.calls
  {
    hide Tally, Later, Truncated;
  }

  /** What a rollup counts in an hour it adds is what of it was committed and in the table when it aggregated. */
  lemma CountsWhatWasLive(s: Ledger, at: int, h: Hour)
    requires h in Tally(s.calls, Unrolled(s.calls, s.usage.Keys, at))
    ensures Of(s.calls, Unrolled(s.calls, s.usage.Keys, at), h) == Live(s, h)
    ensures h !in s.usage && (h.1 + 1) * HOUR <= Truncated(at)
  {
    var ids := Unrolled(s.calls, s.usage.Keys, at);
    var i :| i in ids && i in s.calls && HourOf(s.calls[i]) == h;
    HourBoundary(s.calls[i].at, at);
    forall j | j in Live(s, h) ensures j in ids {
      HourBoundary(s.calls[j].at, at);
    }
  }

  /**
   Every hour's row was added by one rollup, which began at some step m and committed at some
   step c: it counts exactly the calls of the hour that were committed and in the table at m,
   so the late ones are exactly those committed after m or purged before it.
   */
  lemma {:induction false} RowCountsCallsSoFar(states: seq<Ledger>, steps: seq<Step>, key: string -> nat, n: nat,
          h: Hour)
    returns (m: nat, c: nat)
    requires Run(states, steps, key) && n < |states| && h in states[n].usage
    ensures m < c < n && steps[c] == CommitRollup && BeganAt(states, steps, m, c)
    ensures h !in states[c].usage && h in states[c + 1].usage && (h.1 + 1) * HOUR <= Truncated(steps[m].at)
    ensures Of(Known(states[n]), states[n].counted, h) == Live(states[m], h)
    ensures states[n].usage[h] == |Live(states[m], h)|
    ensures Late(states[n], h) == Ever(states[n], h) - Live(states[m], h)
    decreases n
  {
    hide *;
    LastStep(states, steps, key, n, h);
    LateIsUncounted(states[n], key, h);
    if h in states[n - 1].usage {
      m, c := RowCountsCallsSoFar(states, steps, key, n - 1, h);
      RowStays(states[n - 1], steps[n - 1], states[n], key, h);
    } else {
      c := n - 1;
      m := RowAdded(states, steps, key, c, h);
    }
  }

  lemma LastStep(states: seq<Ledger>, steps: seq<Step>, key: string -> nat, n: nat, h: Hour)
    requires Run(states, steps, key) && n < |states| && h in states[n].usage
    ensures 1 <= n <= |steps| && Next(states[n - 1], steps[n - 1], states[n], key)
    ensures Sound(states[n - 1], key) && Sound(states[n], key)
  {
    hide Next, Sound;
    SoundAlways(states, steps, key, n);
    SoundAlways(states, steps, key, n - 1);
  }

  lemma RowAdded(states: seq<Ledger>, steps: seq<Step>, key: string -> nat, c: nat, h: Hour) returns (m: nat)
    requires Run(states, steps, key) && c < |steps| && h !in states[c].usage && h in states[c + 1].usage
    ensures m < c && steps[c] == CommitRollup && BeganAt(states, steps, m, c)
      && (h.1 + 1) * HOUR <= Truncated(steps[m].at)
    ensures Of(Known(states[c + 1]), states[c + 1].counted, h) == Live(states[m], h)
  {
    SoundAlways(states, steps, key, c);
    assert Next(states[c], steps[c], states[c + 1], key);
    RowsAdded(states[c], steps[c], states[c + 1], key);
    m := RollupBegan(states, steps, key, c);
    NewRowCounts(states[c], states[c + 1], key, h);
    CountsWhatWasLive(states[m], steps[m].at, h);
    var ids := states[c].rollup.value.ids;
    hide Next, Sound, Run, Tally, Unrolled, Live, Known;
    assert Of(states[c].calls, ids, h) == Of(states[m].calls, ids, h);
  }

  lemma LateIsUncounted(s: Ledger, key: string -> nat, h: Hour)
    requires Sound(s, key) && h in s.usage
    ensures s.usage[h] == |Of(Known(s), s.counted, h)|
    ensures Late(s, h) == Ever(s, h) - Of(Known(s), s.counted, h)
  {
  }

  lemma RowStays(s: Ledger, step: Step, s': Ledger, key: string -> nat, h: Hour)
    requires Sound(s, key) && Next(s, step, s', key) && h in s.usage
    ensures h in s'.usage && Of(Known(s'), s'.counted, h) == Of(Known(s), s.counted, h)
  {
    CallsAreKept(s, step, s', key);
    RowsAdded(s, step, s', key);
    KnownInTable(s);
    hide Next, Owned, Exclusive, Known;
    if step.CommitRollup? {
      OnlyTheOther(Known(s), Known(s'), s.counted, s.rollup.value.ids, h);
    } else {
      OnlyTheOther(Known(s), Known(s'), s.counted, {}, h);
      assert s.counted + {} == s.counted;
    }
  }

  lemma NewRowCounts(s: Ledger, s': Ledger, key: string -> nat, h: Hour)
    requires Sound(s, key) && Next(s, CommitRollup, s', key) && h !in s.usage && h in s'.usage
    ensures h in s.rollup.value.tally && Of(Known(s'), s'.counted, h) == Of(s.calls, s.rollup.value.ids, h)
  {
    CallsAreKept(s, CommitRollup, s', key);
    RowsAdded(s, CommitRollup, s', key);
    KnownInTable(s);
    hide Next, Owned, Exclusive, Known;
    OnlyTheOther(s.calls, Known(s'), s.rollup.value.ids, s.counted, h);
    assert s'.counted == s.rollup.value.ids + s.counted;
  }

  /**
   A rollup counts every call that was committed and in the table when it aggregated and whose hour
   it closed, unless the hour had a row already that came too early for the call.
   */
  lemma RollupCountsEveryCall(states: seq<Ledger>, steps: seq<Step>, key: string -> nat, c: nat, i: CallId)
    returns (m: nat)
    requires Run(states, steps, key) && c < |steps| && steps[c] == CommitRollup
    ensures m < c && BeganAt(states, steps, m, c)
    ensures i in Committed(states[m].calls) && states[m].calls[i].at < Truncated(steps[m].at) ==>
      i in states[c + 1].counted || i in Late(states[m], HourOf(states[m].calls[i]))
  {
    assert Next(states[c], steps[c], states[c + 1], key);
    m := RollupBegan(states, steps, key, c);
    SoundAlways(states, steps, key, m);
    RowsAdded(states[c], steps[c], states[c + 1], key);
    KnownInTable(states[m]);
    hide Next, Run, Tally, Truncated, Sound;
  }

  /** Every row counts all calls ever recorded in its hour, and nothing was purged uncounted. */
  ghost predicate Exact(s: Ledger) {
    && (forall h :: h in s.usage ==> s.usage[h] == |Ever(s, h)|)
    && (forall i :: i in s.purged ==> i in s.counted)
  }

  /** A call that is not counted yet is in the table, and its hour has no row yet. */
  predicate Countable(s: Ledger, i: CallId) {
    i in Known(s) && Known(s)[i].owner.None? && i !in s.counted ==> i in s.calls && HourOf(s.calls[i]) !in s.usage
  }

  ghost predicate AllCountable(s: Ledger) {
    forall i :: Countable(s, i)
  }

  /**
   The step commits a call into an hour that has a row; or it commits a rollup over a committed call the
   aggregation did not see, in an hour it adds or among those it deleted.
   */
  ghost predicate Misses(s: Ledger, step: Step) {
    || (step.Commit? && exists i :: TooLate(s, step.tx, i))
    || (step.CommitRollup? && s.rollup.Some? && s.rollup.value.doomed.Some? && exists i :: Unseen(s, s.rollup.value, i))
  }

  predicate TooLate(s: Ledger, tx: TxId, i: CallId) {
    i in s.calls && s.calls[i].owner == Some(tx) && HourOf(s.calls[i]) in s.usage
  }

  predicate Unseen(s: Ledger, r: Rollup, i: CallId)
    requires r.doomed.Some?
  {
    && i in s.calls && s.calls[i].owner.None? && i !in s.counted && i !in r.ids
    && (HourOf(s.calls[i]) in r.tally || i in r.doomed.value)
  }

  lemma ExactMeansCountable(s: Ledger, key: string -> nat)
    requires Sound(s, key)
    ensures Exact(s) <==> AllCountable(s)
  {
    KnownInTable(s);
    hide Numbered, Owned, Exclusive, InProgress, Known;
    if AllCountable(s) {
      PurgedIsKnown(s);
      forall h | h in s.usage ensures s.usage[h] == |Ever(s, h)| {
        forall i | i in Ever(s, h) ensures i in s.counted { assert Countable(s, i); }
        assert Ever(s, h) == Of(Known(s), s.counted, h);
      }
      forall i | i in s.purged ensures i in s.counted { assert Countable(s, i); }
    }
    if Exact(s) {
      forall i ensures Countable(s, i) { ExactCountsEach(s, key, i); }
    }
  }

  lemma PurgedIsKnown(s: Ledger)
    requires Numbered(s)
    ensures forall i :: i in s.purged ==> i in Known(s) && Known(s)[i].owner.None? && i !in s.calls
    ensures forall i :: i in Known(s) ==> i in s.calls || i in s.purged
  {
  }

  lemma ExactCountsEach(s: Ledger, key: string -> nat, i: CallId)
    requires Sound(s, key) && Exact(s)
    ensures Countable(s, i)
  {
    KnownInTable(s);
    PurgedIsKnown(s);
    hide Numbered, Owned, Exclusive, InProgress, Known;
    if i in s.calls && s.calls[i].owner.None? && i !in s.counted && HourOf(s.calls[i]) in s.usage {
      var h := HourOf(s.calls[i]);
      assert i in Ever(s, h);
      SubsetIsSmaller(Of(Known(s), s.counted, h), Ever(s, h) - {i});
    }
  }

  /** A call that was passed over stays passed over. */
  lemma MissedForGood(s: Ledger, step: Step, s': Ledger, key: string -> nat)
    requires Sound(s, key) && !AllCountable(s) && Next(s, step, s', key)
    ensures !AllCountable(s')
  {
    CallsAreKept(s, step, s', key);
    RowsAdded(s, step, s', key);
    KnownInTable(s);
    IdsAreFresh(s, step, s', key);
    hide Next, Tallied, Owned, Exclusive, Known;
    var i :| !Countable(s, i);
    assert i in Known(s') && Known(s')[i] == Known(s)[i] && i !in s'.counted;
    assert !Countable(s', i);
  }

  /** A known call that is not in the table does not come back, and one that is keeps its hour. */
  lemma IdsAreFresh(s: Ledger, step: Step, s': Ledger, key: string -> nat)
    requires Numbered(s) && Next(s, step, s', key)
    ensures forall i :: i in Known(s) && i in s'.calls ==> i in s.calls && HourOf(s'.calls[i]) == HourOf(s.calls[i])
  {
    hide Records, Tally, Unrolled, Later, Committed;
  }

  lemma CountableStep(s: Ledger, step: Step, s': Ledger, key: string -> nat)
    requires Sound(s, key) && AllCountable(s) && Next(s, step, s', key)
    ensures AllCountable(s') <==> !Misses(s, step)
  {
    match step
    case Commit(_) => CountableAfterCommit(s, step, s', key);
    case CommitRollup => CountableAfterRollup(s, s', key);
    case _ =>
      NothingCommitted(s, step, s', key);
      CountableIfUneventful(s, s');
  }

  lemma CountableIfUneventful(s: Ledger, s': Ledger)
    requires Numbered(s) && AllCountable(s) && Uneventful(s, s')
    ensures AllCountable(s')
  {
    KnownInTable(s);
    hide Numbered, Known;
    forall i ensures Countable(s', i) {
      assert Countable(s, i);
    }
  }

  /** Nothing becomes committed, counted or rolled up, and no committed call leaves the table. */
  predicate Uneventful(s: Ledger, s': Ledger) {
    && s'.usage == s.usage && s'.counted == s.counted
    && (forall i :: i in Known(s') && Known(s')[i].owner.None? ==> i in Known(s) && Known(s)[i] == Known(s')[i])
    && (forall i :: i in s.calls && s.calls[i].owner.None? ==> i in s'.calls && s'.calls[i] == s.calls[i])
  }

  lemma NothingCommitted(s: Ledger, step: Step, s': Ledger, key: string -> nat)
    requires Numbered(s) && Next(s, step, s', key) && !step.Commit? && !step.CommitRollup?
    ensures Uneventful(s, s')
  {
    hide Records, Tally, Unrolled, Later, Committed;
    if step.Check? {
      CheckIsUneventful(s, step, s', key);
    } else {
      hide HourOf;
    }
  }

  lemma CheckIsUneventful(s: Ledger, step: Step, s': Ledger, key: string -> nat)
    requires Numbered(s) && Next(s, step, s', key) && step.Check?
    ensures Uneventful(s, s')
  {
    hide Records;
  }

  lemma CommitMoves(s: Ledger, step: Step, s': Ledger, key: string -> nat)
    requires Numbered(s) && Next(s, step, s', key) && step.Commit?
    ensures s'.usage == s.usage && s'.counted == s.counted && s'.purged == s.purged && s'.calls.Keys == s.calls.Keys
    ensures forall i :: i in s.calls ==>
      s'.calls[i] == if s.calls[i].owner == Some(step.tx) then s.calls[i].(owner := None) else s.calls[i]
  {
  }

  lemma CountableAfterCommit(s: Ledger, step: Step, s': Ledger, key: string -> nat)
    requires Sound(s, key) && AllCountable(s) && Next(s, step, s', key) && step.Commit?
    ensures AllCountable(s') <==> !Misses(s, step)
  {
    CommitMoves(s, step, s', key);
    KnownInTable(s);
    PurgedIsKnown(s);
    OrderedStep(s, step, s', key);
    KnownInTable(s');
    PurgedIsKnown(s');
    hide Next, Known, Ordered, InProgress;
    forall i ensures Countable(s', i) <==> !TooLate(s, step.tx, i) {
      assert Countable(s, i);
    }
  }

  lemma CountableAfterRollup(s: Ledger, s': Ledger, key: string -> nat)
    requires Sound(s, key) && AllCountable(s) && Next(s, CommitRollup, s', key)
    ensures AllCountable(s') <==> !Misses(s, CommitRollup)
  {
    var r := s.rollup.value;
    RowsAdded(s, CommitRollup, s', key);
    KnownInTable(s);
    PurgedIsKnown(s);
    PurgeMoves(s, s', key);
    hide Next, Known, Ordered, Tallied, InProgress;
    forall i ensures Countable(s', i) <==> !Unseen(s, r, i) {
      assert Countable(s, i);
    }
  }

  lemma PurgeMoves(s: Ledger, s': Ledger, key: string -> nat)
    requires Numbered(s) && Next(s, CommitRollup, s', key)
    ensures Known(s') == Known(s) && s.rollup.Some? && s.rollup.value.doomed.Some?
    ensures s'.calls == s.calls - s.rollup.value.doomed.value
  {
    hide Later, Truncated;
    Moved(s.calls, s.purged, s.rollup.value.doomed.value);
    hide Numbered, Known, Next;
  }

  lemma Moved(calls: map<CallId, Call>, purged: map<CallId, Call>, doomed: set<CallId>)
    requires forall i :: i in calls ==> i !in purged
    ensures (calls - doomed) + (purged + (map i | i in calls && i in doomed :: calls[i])) == calls + purged
  {
  }

  lemma NothingToCount()
    ensures AllCountable(EMPTY)
  {
  }

  lemma {:induction false} CountableUnlessMissed(states: seq<Ledger>, steps: seq<Step>, key: string -> nat, n: nat)
    requires Run(states, steps, key) && n < |states|
    ensures AllCountable(states[n]) <==> forall k :: 0 <= k < n ==> !Misses(states[k], steps[k])
    decreases n
  {
    NothingToCount();
    hide AllCountable, Misses, Next, Sound;
    if n > 0 {
      CountableUnlessMissed(states, steps, key, n - 1);
      SoundAlways(states, steps, key, n - 1);
      assert Next(states[n - 1], steps[n - 1], states[n], key);
      if AllCountable(states[n - 1]) {
        CountableStep(states[n - 1], steps[n - 1], states[n], key);
      } else {
        MissedForGood(states[n - 1], steps[n - 1], states[n], key);
      }
    }
  }

  /**
   In every run, even where purges cut hours in half: each row counts all calls ever recorded in
   its hour and no call is purged before it is counted, exactly if no step misses a call.
   */
  lemma RollupsAreExact(states: seq<Ledger>, steps: seq<Step>, key: string -> nat, n: nat)
    requires Run(states, steps, key) && n < |states|
    ensures Exact(states[n]) <==> forall k :: 0 <= k < n ==> !Misses(states[k], steps[k])
  {
    CountableUnlessMissed(states, steps, key, n);
    SoundAlways(states, steps, key, n);
    ExactMeansCountable(states[n], key);
  }
}
