/**
 The rate-limit ledger as a transition system: limiter transactions that lock,
 count and insert under one transaction timestamp, and the rollup, which
 aggregates whole hours and then purges the same table.
 */
module UsageLedger {
  import opened Options

  type TxId = nat
  type CallId = nat
  type Hour = (string, int)

  const HOUR := 3_600_000_000
  const KEEP := 2 * HOUR

  /** A recorded call; `owner` is the transaction that has not committed it yet. Ids follow insertion order. */
  datatype Call = Call(api: string, at: int, owner: Option<TxId>)

  /** An open limiter transaction: its NOW() and the advisory locks it holds until it ends. */
  datatype Tx = Tx(start: int, keys: set<nat>)

  /** A rollup in progress: its NOW(), the rows it will add, the calls they count, and what it deleted so far. */
  datatype Rollup = Rollup(at: int, tally: map<Hour, nat>, ids: set<CallId>, doomed: Option<set<CallId>>)

  /** `calls` is the table, `purged` remembers the rows committed purges removed, `counted` those in `usage`. */
  datatype Ledger = Ledger(
    calls: map<CallId, Call>, purged: map<CallId, Call>, next: CallId, txs: map<TxId, Tx>,
    rollup: Option<Rollup>, usage: map<Hour, nat>, counted: set<CallId>,
    purgedAt: Option<int>, aggregatedTo: Option<int>)

  datatype Step =
    | Begin(tx: TxId, start: int)
    | Check(tx: TxId, api: string, limit: Option<int>)
    | Commit(tx: TxId)
    | Rollback(tx: TxId)
    | Aggregate(at: int)
    | Delete
    | CommitRollup
    | AbortRollup

  function HourOf(c: Call): Hour { (c.api, c.at / HOUR) }

  function Truncated(t: int): int { t / HOUR * HOUR }

  predicate Visible(c: Call, tx: TxId) { c.owner.None? || c.owner == Some(tx) }

  /** The rows the limiter's count sees. */
  function Recent(calls: map<CallId, Call>, tx: TxId, api: string, now: int): set<CallId> {
    set i | i in calls && Visible(calls[i], tx) && calls[i].api == api && calls[i].at > now - HOUR
  }

  function Committed(calls: map<CallId, Call>): set<CallId> {
    set i | i in calls && calls[i].owner.None?
  }

  function Of(calls: map<CallId, Call>, ids: set<CallId>, h: Hour): set<CallId> {
    set i | i in ids && i in calls && HourOf(calls[i]) == h
  }

  /** The committed rows of finished hours the rollup table has no row for. */
  function Unrolled(calls: map<CallId, Call>, rolled: set<Hour>, at: int): set<CallId> {
    set i | i in Committed(calls) && calls[i].at < Truncated(at) && HourOf(calls[i]) !in rolled
  }

  /** One entry per API and hour of the given calls, with their number. */
  function Tally(calls: map<CallId, Call>, ids: set<CallId>): map<Hour, nat> {
    map h | h in (set i | i in ids && i in calls :: HourOf(calls[i])) :: |Of(calls, ids, h)|
  }

  /** No other open transaction holds the lock. */
  predicate LockFree(s: Ledger, tx: TxId, key: nat) {
    forall t :: t in s.txs && t != tx ==> key !in s.txs[t].keys
  }

  predicate Guard(s: Ledger, step: Step, key: string -> nat) {
    match step
    case Begin(tx, _) => tx !in s.txs
    case Check(tx, api, _) => tx in s.txs && LockFree(s, tx, key(api))
    case Commit(tx) => tx in s.txs
    case Rollback(tx) => tx in s.txs
    case Aggregate(_) => s.rollup.None?
    case Delete => s.rollup.Some? && s.rollup.value.doomed.None?
    case CommitRollup => s.rollup.Some? && s.rollup.value.doomed.Some?
    case AbortRollup => s.rollup.Some?
  }

  /** Whether a check records a call and lets the caller go ahead with it. */
  predicate Records(s: Ledger, tx: TxId, api: string, limit: Option<int>)
    requires tx in s.txs
  {
    limit.Some? && |Recent(s.calls, tx, api, s.txs[tx].start)| < limit.value
  }

  function Later(a: Option<int>, t: int): Option<int> {
    if a.Some? && a.value > t then a else Some(t)
  }

  function Apply(s: Ledger, step: Step, key: string -> nat): Ledger
    requires Guard(s, step, key)
  {
    match step
    case Begin(tx, start) => s.(txs := s.txs[tx := Tx(start, {})])
    case Check(tx, api, limit) =>
      var start := s.txs[tx].start;
      var locked := s.(txs := s.txs[tx := Tx(start, s.txs[tx].keys + {key(api)})]);
      if Records(s, tx, api, limit)
      then locked.(calls := s.calls[s.next := Call(api, start, Some(tx))], next := s.next + 1)
      else locked
    case Commit(tx) =>
      s.(txs := s.txs - {tx},
         calls := map i | i in s.calls ::
           if s.calls[i].owner == Some(tx) then s.calls[i].(owner := None) else s.calls[i])
    case Rollback(tx) =>
      s.(txs := s.txs - {tx}, calls := map i | i in s.calls && s.calls[i].owner != Some(tx) :: s.calls[i])
    case Aggregate(at) =>
      var ids := Unrolled(s.calls, s.usage.Keys, at);
      s.(rollup := Some(Rollup(at, Tally(s.calls, ids), ids, None)),
        aggregatedTo := Later(s.aggregatedTo, Truncated(at)))
    case Delete =>
      var at := s.rollup.value.at;
      s.(rollup := Some(s.rollup.value.(doomed := Some(set i | i in Committed(s.calls) && s.calls[i].at < at - KEEP))))
    case CommitRollup =>
      var r := s.rollup.value;
      s.(rollup := None, usage := s.usage + r.tally, counted := s.counted + r.ids,
         calls := s.calls - r.doomed.value,
         purged := s.purged + (map i | i in s.calls && i in r.doomed.value :: s.calls[i]),
         purgedAt := Later(s.purgedAt, r.at))
    case AbortRollup => s.(rollup := None)
  }

  predicate Next(s: Ledger, step: Step, s': Ledger, key: string -> nat) {
    Guard(s, step, key) && s' == Apply(s, step, key)
  }

  const EMPTY := Ledger(map[], map[], 0, map[], None, map[], {}, None, None)

  predicate Run(states: seq<Ledger>, steps: seq<Step>, key: string -> nat) {
    && |states| == |steps| + 1 && states[0] == EMPTY
    && forall i :: 0 <= i < |steps| ==> Next(states[i], steps[i], states[i + 1], key)
  }

  /** Ids are used once, and only committed rows are ever purged. */
  predicate Numbered(s: Ledger) {
    && (forall i :: i in s.calls ==> i < s.next && i !in s.purged)
    && (forall i :: i in s.purged ==> i < s.next && s.purged[i].owner.None?)
    && (s.rollup.Some? && s.rollup.value.doomed.Some? ==>
          forall i :: i in s.rollup.value.doomed.value ==> i in s.calls && s.calls[i].owner.None?)
  }

  /** An uncommitted row belongs to an open transaction that holds its API's lock. */
  predicate Owned(s: Ledger, key: string -> nat) {
    forall i :: i in s.calls && s.calls[i].owner.Some? ==>
      s.calls[i].owner.value in s.txs && key(s.calls[i].api) in s.txs[s.calls[i].owner.value].keys
  }

  predicate Exclusive(txs: map<TxId, Tx>) {
    forall t, u :: t in txs && u in txs && t != u ==> txs[t].keys !! txs[u].keys
  }

  predicate Ordered(s: Ledger, key: string -> nat) {
    Numbered(s) && Owned(s, key) && Exclusive(s.txs)
  }

  lemma NumberedStep(s: Ledger, step: Step, s': Ledger, key: string -> nat)
    requires Numbered(s) && Next(s, step, s', key)
    ensures Numbered(s')
  {
    hide Records, Tally, Unrolled, Later;
  }

  lemma OwnedStep(s: Ledger, step: Step, s': Ledger, key: string -> nat)
    requires Owned(s, key) && Next(s, step, s', key)
    ensures Owned(s', key)
  {
    hide Records, Tally, Unrolled, Later, Committed;
  }

  lemma ExclusiveStep(s: Ledger, step: Step, s': Ledger, key: string -> nat)
    requires Exclusive(s.txs) && Next(s, step, s', key)
    ensures Exclusive(s'.txs)
  {
    hide Records, Tally, Unrolled, Later, Committed;
  }

  lemma OrderedStep(s: Ledger, step: Step, s': Ledger, key: string -> nat)
    requires Ordered(s, key) && Next(s, step, s', key)
    ensures Ordered(s', key)
  {
    NumberedStep(s, step, s', key);
    OwnedStep(s, step, s', key);
    ExclusiveStep(s, step, s', key);
    hide Numbered, Owned, Exclusive, Next;
  }

  lemma {:induction false} OrderedAlways(states: seq<Ledger>, steps: seq<Step>, key: string -> nat, n: nat)
    requires Run(states, steps, key) && n < |states|
    ensures Ordered(states[n], key)
    decreases n
  {
    if n > 0 {
      OrderedAlways(states, steps, key, n - 1);
      hide Ordered, Next;
      OrderedStep(states[n - 1], steps[n - 1], states[n], key);
    }
  }

  /** Every transaction and every rollup may fail at any time, and then nothing of it is left. */
  lemma FailureLeavesNothing(s: Ledger, tx: TxId, key: string -> nat)
    ensures Guard(s, Rollback(tx), key) <==> tx in s.txs
    ensures tx in s.txs ==>
      var s' := Apply(s, Rollback(tx), key);
      && s' == s.(txs := s'.txs, calls := s'.calls) && s'.txs.Keys == s.txs.Keys - {tx}
      && (forall i :: i in s'.calls <==> i in s.calls && s.calls[i].owner != Some(tx))
      && (forall i :: i in s'.calls ==> s'.calls[i] == s.calls[i])
    ensures Guard(s, AbortRollup, key) <==> s.rollup.Some?
    ensures s.rollup.Some? ==> Apply(s, AbortRollup, key) == s.(rollup := None)
  {
  }
}
