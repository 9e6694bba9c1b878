/**
 The limiter's check and the hourly rollup as the program runs them, updating
 the usage tables in place.
 */
module UsageTables {
  import opened Options
  import opened Sets
  import opened UsageLedger

  /** A row of api_usage with the endpoint 'rollup'. */
  datatype UsageRow = UsageRow(count: nat, cost: Option<real>)

  const DEFAULT_COST := 0.001

  function CostPerCall(api: string): (c: real)
    ensures c == 0.0 <==> api == "podcastindex"
  {
    if api == "youtube" then 0.001 else if api == "podcastindex" then 0.0 else DEFAULT_COST
  }

  function Estimate(h: Hour, r: UsageRow): UsageRow {
    if r.cost.Some? then r else r.(cost := Some(r.count as real * CostPerCall(h.0)))
  }

  function CostOf(count: nat, api: string): real {
    if api == "podcastindex" then 0.0 else count as real / 1000.0
  }

  /** The committed calls of an API in its h-th hour. */
  function CallsOf(calls: map<CallId, Call>, h: Hour): set<CallId> {
    set i | i in calls && calls[i].owner.None? && calls[i].api == h.0 && h.1 * HOUR <= calls[i].at < (h.1 + 1) * HOUR
  }

  /** A rollup adds a row for each API and ended hour that has calls and no row, and counts them. */
  ghost predicate RollsUp(calls: map<CallId, Call>, now: int, was: map<Hour, UsageRow>, rows: map<Hour, UsageRow>) {
    && (forall h :: h in rows <==> h in was || (CallsOf(calls, h) != {} && (h.1 + 1) * HOUR <= now))
    && (forall h :: h in rows && h !in was ==>
          rows[h] == UsageRow(|CallsOf(calls, h)|, Some(CostOf(|CallsOf(calls, h)|, h.0))))
    && (forall h :: h in was ==>
          && rows[h].count == was[h].count
          && rows[h].cost == if was[h].cost.Some? then was[h].cost else Some(CostOf(was[h].count, h.0)))
  }

  lemma HourOfCall(c: Call, h: Hour)
    ensures HourOf(c) == h <==> c.api == h.0 && h.1 * HOUR <= c.at < (h.1 + 1) * HOUR
    ensures HourOf(c) == h ==> forall now :: c.at < Truncated(now) <==> (h.1 + 1) * HOUR <= now
  {
    if HourOf(c) == h {
      forall now ensures c.at < Truncated(now) <==> (h.1 + 1) * HOUR <= now {
        EndedHour(c.at, h.1, now);
      }
    }
  }

  lemma EndedHour(at: int, hour: int, now: int)
    requires at / HOUR == hour
    ensures at < Truncated(now) <==> (hour + 1) * HOUR <= now
  {
    assert at < Truncated(now) <==> hour < now / HOUR;
  }

  lemma TallyCounts(calls: map<CallId, Call>, rolled: set<Hour>, now: int, h: Hour)
    ensures var tally := Tally(calls, Unrolled(calls, rolled, now));
      && (h in tally <==> h !in rolled && CallsOf(calls, h) != {} && (h.1 + 1) * HOUR <= now)
      && (h in tally ==> tally[h] == |CallsOf(calls, h)|)
  {
    hide HourOf, Truncated;
    var ids := Unrolled(calls, rolled, now);
    forall i | i in calls
      ensures HourOf(calls[i]) == h <==>
        calls[i].api == h.0 && h.1 * HOUR <= calls[i].at < (h.1 + 1) * HOUR
      ensures HourOf(calls[i]) == h ==> (calls[i].at < Truncated(now) <==> (h.1 + 1) * HOUR <= now)
    {
      HourOfCall(calls[i], h);
    }
    var own := CallsOf(calls, h);
    if h !in rolled && (h.1 + 1) * HOUR <= now {
      assert own == Of(calls, ids, h);
      if own != {} {
        var i :| i in own;
        assert i in ids && HourOf(calls[i]) == h;
      }
    }
    if h in Tally(calls, ids) {
      var i :| i in ids && i in calls && HourOf(calls[i]) == h;
      assert i in own;
    }
  }

  lemma RollupRollsUp(calls: map<CallId, Call>, now: int, was: map<Hour, UsageRow>)
    ensures var tally := Tally(calls, Unrolled(calls, was.Keys, now));
      RollsUp(calls, now, was, map h | h in was.Keys + tally.Keys ::
        Estimate(h, if h in tally then UsageRow(tally[h], None) else was[h]))
  {
    hide Tally, Unrolled, CallsOf;
    forall h
      ensures var tally := Tally(calls, Unrolled(calls, was.Keys, now));
        && (h in tally <==> h !in was && CallsOf(calls, h) != {} && (h.1 + 1) * HOUR <= now)
        && (h in tally ==> tally[h] == |CallsOf(calls, h)|)
    {
      TallyCounts(calls, was.Keys, now, h);
    }
  }

  /** A call of this API that transaction `tx` sees and that is less than an hour older than its start. */
  predicate CountsAgainst(c: Call, tx: TxId, start: int, api: string) {
    c.api == api && (c.owner.None? || c.owner == Some(tx)) && start - c.at < HOUR
  }

  predicate AllCount(calls: map<CallId, Call>, ids: set<CallId>, tx: TxId, start: int, api: string) {
    forall i :: i in ids ==> i in calls && CountsAgainst(calls[i], tx, start, api)
  }

  /** That many calls count against a further one. */
  ghost predicate UsedUp(calls: map<CallId, Call>, tx: TxId, start: int, api: string, limit: nat) {
    exists ids :: |ids| == limit && AllCount(calls, ids, tx, start, api)
  }

  lemma UsedUpMeansFull(calls: map<CallId, Call>, tx: TxId, start: int, api: string, limit: nat)
    ensures UsedUp(calls, tx, start, api, limit) <==> |Recent(calls, tx, api, start)| >= limit
  {
    var recent := Recent(calls, tx, api, start);
    if |recent| >= limit {
      var ids := SomeSubset(recent, limit);
      assert AllCount(calls, ids, tx, start, api);
    }
    if UsedUp(calls, tx, start, api, limit) {
      var ids :| |ids| == limit && AllCount(calls, ids, tx, start, api);
      SubsetIsSmaller(ids, recent);
    }
  }

  /** Calls of other APIs, of other open transactions and of an hour ago make no difference. */
  lemma OnlyOwnCallsCount(calls: map<CallId, Call>, others: map<CallId, Call>, tx: TxId, start: int, api: string,
                          limit: nat)
    requires forall i :: (i in calls && CountsAgainst(calls[i], tx, start, api)) <==>
                         (i in others && CountsAgainst(others[i], tx, start, api))
    ensures UsedUp(calls, tx, start, api, limit) <==> UsedUp(others, tx, start, api, limit)
    ensures |Recent(calls, tx, api, start)| == |Recent(others, tx, api, start)|
  {
    assert Recent(calls, tx, api, start) == Recent(others, tx, api, start);
    UsedUpMeansFull(calls, tx, start, api, limit);
    UsedUpMeansFull(others, tx, start, api, limit);
  }

  class Tables {
    var calls: map<CallId, Call>
    var next: CallId
    var usage: map<Hour, UsageRow>

    /** One limiter call in transaction `tx`, whose NOW() is `start`; the API's lock is held. */
    method CheckAndAcquire(tx: TxId, start: int, api: string, limit: Option<int>) returns (ok: bool)
      modifies this
      ensures limit.None? ==> ok
      ensures limit.Some? && limit.value < 0 ==> !ok
      ensures limit.Some? && limit.value >= 0 ==> (ok <==> !UsedUp(old(calls), tx, start, api, limit.value))
      ensures ok <==> limit.None? || |Recent(old(calls), tx, api, start)| < limit.value
      ensures usage == old(usage)
      ensures if ok && limit.Some?
              then calls == old(calls)[old(next) := Call(api, start, Some(tx))] && next == old(next) + 1
              else calls == old(calls) && next == old(next)
    {
      var recent := set i | i in calls && Visible(calls[i], tx) && calls[i].api == api && calls[i].at > start - HOUR;
      assert recent == Recent(calls, tx, api, start);
      var current := |recent|;
      if limit.Some? && limit.value >= 0 { UsedUpMeansFull(calls, tx, start, api, limit.value); }
      if limit.None? {
        return true;
      }
      if current >= limit.value {
        return false;
      }
      calls := calls[next := Call(api, start, Some(tx))];
      next := next + 1;
      return true;
    }

    /** Gives every row without a cost its estimate. */
    method EstimateCosts()
      modifies this`usage
      ensures usage == map h | h in old(usage) :: Estimate(h, old(usage)[h])
    {
      var uncosted := set h | h in usage && usage[h].cost.None?;
      var todo := uncosted;
      while todo != {}
        invariant todo <= uncosted && usage.Keys == old(usage).Keys
        invariant forall h :: h in usage ==> usage[h] == if h in todo then old(usage)[h] else Estimate(h, old(usage)[h])
        decreases todo
      {
        var h :| h in todo;
        usage := usage[h := usage[h].(cost := Some(usage[h].count as real * CostPerCall(h.0)))];
        todo := todo - {h};
      }
    }

    /** Aggregation, cost estimates and purge of one uninterrupted rollup. */
    method RollupApiUsage(now: int)
      modifies this
      ensures var tally := Tally(old(calls), Unrolled(old(calls), old(usage).Keys, now));
        usage == map h | h in old(usage).Keys + tally.Keys ::
          Estimate(h, if h in tally then UsageRow(tally[h], None) else old(usage)[h])
      ensures RollsUp(old(calls), now, old(usage), usage)
      ensures calls == map i | i in old(calls) && !(old(calls)[i].owner.None? && old(calls)[i].at < now - KEEP) ::
        old(calls)[i]
      ensures next == old(next)
    {
      hide Truncated, Estimate, Tally, Unrolled;
      RollupRollsUp(calls, now, usage);
      hide RollsUp;
      var ids := Unrolled(calls, usage.Keys, now);
      var tally := Tally(calls, ids);
      usage := usage + map h | h in tally :: UsageRow(tally[h], None);
      EstimateCosts();
      calls := map i | i in calls && !(calls[i].owner.None? && calls[i].at < now - KEEP) :: calls[i];
    }
  }

  /** An uninterrupted rollup of the protocol leaves the calls and counts that RollupApiUsage leaves. */
  lemma RollupInProtocol(s: Ledger, at: int, key: string -> nat)
    requires s.rollup.None?
    ensures var s1 := Apply(s, Aggregate(at), key);
      && Guard(s1, Delete, key) && Guard(Apply(s1, Delete, key), CommitRollup, key)
      && var s' := Apply(Apply(s1, Delete, key), CommitRollup, key);
         && s'.usage == s.usage + Tally(s.calls, Unrolled(s.calls, s.usage.Keys, at))
         && s'.calls == map i | i in s.calls && !(s.calls[i].owner.None? && s.calls[i].at < at - KEEP) :: s.calls[i]
  {
    hide Tally, Unrolled, Later, Truncated;
  }

  /** The protocol's check records a call exactly when CheckAndAcquire does. */
  lemma CheckInProtocol(s: Ledger, tx: TxId, api: string, limit: Option<int>, key: string -> nat)
    requires Guard(s, Check(tx, api, limit), key)
    ensures var start := s.txs[tx].start;
      var records := limit.Some? && limit.value >= 0 && !UsedUp(s.calls, tx, start, api, limit.value);
      Apply(s, Check(tx, api, limit), key).calls ==
        if records then s.calls[s.next := Call(api, start, Some(tx))] else s.calls
  {
    if limit.Some? && limit.value >= 0 { UsedUpMeansFull(s.calls, tx, s.txs[tx].start, api, limit.value); }
  }
}
