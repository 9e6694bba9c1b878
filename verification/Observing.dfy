/**
 What an inquiry must leave in the registry and the observations for the claims
 it found: each found claim's observation on its claim, and on every claim the
 number, the dates and, if it is new, the text of what was found for it.
 */
module Observing {
  import opened Options
  import opened ClaimRegistry
  import opened Inquiries

  /** One extracted claim, and the canonical claim its resolution chose. */
  datatype Found = Found(target: ClaimId, text: string, claimType: string, assertedAt: Option<int>, now: int)

  /** Found claims with the expert each is by, in the order in which they are stored. */
  type Findings = seq<(ExpertId, Found)>

  predicate IsOn(items: Findings, k: nat, c: ClaimId) {
    k < |items| && items[k].1.target == c
  }

  /** How many of the findings are on claim c. */
  function Times(items: Findings, c: ClaimId): nat {
    if items == [] then 0
    else Times(items[..|items| - 1], c) + if items[|items| - 1].1.target == c then 1 else 0
  }

  /** When a finding was asserted, or else when it was stored. */
  function When(f: Found): int {
    if f.assertedAt.Some? then f.assertedAt.value else f.now
  }

  /** Some finding on c was asserted at that time. */
  ghost predicate Asserted(items: Findings, c: ClaimId, at: int) {
    exists k: nat :: IsOn(items, k, c) && When(items[k].1) == at
  }

  predicate IntroducedBy(items: Findings, k: nat, c: ClaimId, text: string, claimType: string) {
    && IsOn(items, k, c) && items[k].1.text == text && items[k].1.claimType == claimType
    && forall j :: 0 <= j < k ==> !IsOn(items, j, c)
  }

  /** The first finding on c has that text and type. */
  ghost predicate Introduced(items: Findings, c: ClaimId, text: string, claimType: string) {
    exists k: nat :: IntroducedBy(items, k, c, text, claimType)
  }

  /** Of the date there was and the dates of the findings on c, the first. */
  ghost predicate Earliest(date: Option<int>, was: Option<int>, items: Findings, c: ClaimId) {
    && date.Some? && (date == was || Asserted(items, c, date.value))
    && (was.Some? ==> date.value <= was.value)
    && (forall at :: Asserted(items, c, at) ==> date.value <= at)
  }

  /** And the last. */
  ghost predicate Latest(date: Option<int>, was: Option<int>, items: Findings, c: ClaimId) {
    && date.Some? && (date == was || Asserted(items, c, date.value))
    && (was.Some? ==> was.value <= date.value)
    && (forall at :: Asserted(items, c, at) ==> at <= date.value)
  }

  /** Before `was`, if there was one, now `row`. */
  ghost predicate Gathers(was: Option<Claim>, row: Claim, headline: Option<ClaimId>, items: Findings, c: ClaimId) {
    && row.count == (if was.Some? then was.value.count else 0) + Times(items, c)
    && (if was.Some? then
          && row.proposition == was.value.proposition && row.claimType == was.value.claimType
          && row.parent == was.value.parent && row.active == was.value.active && row.merged == was.value.merged
        else
          && row.parent == headline && row.active && !row.merged
          && Introduced(items, c, row.proposition, row.claimType))
    && Earliest(row.first, if was.Some? then was.value.first else None, items, c)
    && Latest(row.last, if was.Some? then was.value.last else None, items, c)
  }

  function Row(claims: map<ClaimId, Claim>, c: ClaimId): Option<Claim> {
    if c in claims then Some(claims[c]) else None
  }

  ghost predicate HasFinding(items: Findings, c: ClaimId) {
    exists k: nat :: IsOn(items, k, c)
  }

  /** Claims with no finding are as they were; the others have gathered theirs. */
  ghost predicate ClaimGathered(was: Option<Claim>, row: Option<Claim>, headline: Option<ClaimId>, items: Findings,
                                c: ClaimId) {
    if HasFinding(items, c) then row.Some? && Gathers(was, row.value, headline, items, c) else row == was
  }

  ghost predicate ClaimsGathered(before: map<ClaimId, Claim>, after: map<ClaimId, Claim>, headline: Option<ClaimId>,
                                 items: Findings) {
    forall c: ClaimId :: ClaimGathered(Row(before, c), Row(after, c), headline, items, c)
  }

  /** Row o is expert e's observation of f: on the claim f is on, with the date f was asserted. */
  predicate IsStored(rows: map<ObservationId, Observation>, o: ObservationId, i: InquiryId, e: ExpertId, f: Found) {
    o in rows && rows[o] == Observation(f.target, i, e, f.assertedAt)
  }

  /** Finding k's observation has id next + k; no other row is new, changed or gone. */
  predicate ObservationsStored(before: map<ObservationId, Observation>, after: map<ObservationId, Observation>,
                               next: ObservationId, i: InquiryId, items: Findings) {
    && (forall o :: o in before ==> o in after && after[o] == before[o])
    && (forall k :: 0 <= k < |items| ==> IsStored(after, next + k, i, items[k].0, items[k].1))
    && (forall o :: o in after ==> o in before || next <= o < next + |items|)
  }

  ghost predicate Recorded(before: Db, after: Db, next: ObservationId, i: InquiryId, headline: Option<ClaimId>,
                           items: Findings) {
    && ObservationsStored(before.observations, after.observations, next, i, items)
    && ClaimsGathered(before.claims, after.claims, headline, items)
  }

  lemma {:induction false} TimesAppend(x: Findings, y: Findings, c: ClaimId)
    ensures Times(x + y, c) == Times(x, c) + Times(y, c)
  {
    if y == [] {
      assert x + y == x;
    } else {
      assert (x + y)[..|x + y| - 1] == x + y[..|y| - 1];
      TimesAppend(x, y[..|y| - 1], c);
    }
  }

  lemma IsOnAppend(x: Findings, y: Findings, k: nat, c: ClaimId)
    ensures IsOn(x, k, c) ==> IsOn(x + y, k, c) && (x + y)[k] == x[k]
    ensures IsOn(y, k, c) ==> IsOn(x + y, |x| + k, c) && (x + y)[|x| + k] == y[k]
    ensures IsOn(x + y, k, c) && k < |x| ==> IsOn(x, k, c)
    ensures IsOn(x + y, k, c) && k >= |x| ==> IsOn(y, k - |x|, c)
  {
  }

  lemma {:induction false} NoneOn(items: Findings, c: ClaimId)
    requires !HasFinding(items, c)
    ensures Times(items, c) == 0
  {
    if items != [] {
      var last := |items| - 1;
      assert !IsOn(items, last, c);
      forall k: nat | IsOn(items[..last], k, c) ensures false {
        assert IsOn(items, k, c);
      }
      NoneOn(items[..last], c);
    }
  }

  lemma HasFindingAppend(x: Findings, y: Findings, c: ClaimId)
    ensures HasFinding(x + y, c) <==> HasFinding(x, c) || HasFinding(y, c)
  {
    hide IsOn;
    if k: nat :| IsOn(x, k, c) { IsOnAppend(x, y, k, c); }
    if k: nat :| IsOn(y, k, c) { IsOnAppend(x, y, k, c); }
    if k: nat :| IsOn(x + y, k, c) { IsOnAppend(x, y, k, c); }
  }

  lemma AssertedAppend(x: Findings, y: Findings, c: ClaimId, at: int)
    ensures Asserted(x + y, c, at) <==> Asserted(x, c, at) || Asserted(y, c, at)
  {
    if k: nat :| IsOn(x, k, c) && When(x[k].1) == at { IsOnAppend(x, y, k, c); }
    if k: nat :| IsOn(y, k, c) && When(y[k].1) == at { IsOnAppend(x, y, k, c); }
    if k: nat :| IsOn(x + y, k, c) && When((x + y)[k].1) == at { IsOnAppend(x, y, k, c); }
  }

  lemma IntroducedAppend(x: Findings, y: Findings, c: ClaimId, text: string, claimType: string)
    ensures Introduced(x, c, text, claimType) ==> Introduced(x + y, c, text, claimType)
    ensures Introduced(y, c, text, claimType) && !HasFinding(x, c) ==> Introduced(x + y, c, text, claimType)
  {
    if k: nat :| IntroducedBy(x, k, c, text, claimType) {
      assert forall j :: 0 <= j < k ==> IsOn(x + y, j, c) == IsOn(x, j, c);
      assert IntroducedBy(x + y, k, c, text, claimType);
    }
    if !HasFinding(x, c) {
      if k: nat :| IntroducedBy(y, k, c, text, claimType) {
        forall j | 0 <= j < |x| + k ensures !IsOn(x + y, j, c) { IsOnAppend(x, y, j, c); }
        assert IntroducedBy(x + y, |x| + k, c, text, claimType);
      }
    }
  }

  lemma NothingAsserted(items: Findings, c: ClaimId, at: int)
    requires !HasFinding(items, c)
    ensures !Asserted(items, c, at)
  {
  }

  /** What two batches leave of a claim, one after the other, is what they leave as one. */
  lemma GatheredInTurn(was: Option<Claim>, mid: Option<Claim>, row: Option<Claim>, headline: Option<ClaimId>,
                       x: Findings, y: Findings, c: ClaimId)
    requires ClaimGathered(was, mid, headline, x, c) && ClaimGathered(mid, row, headline, y, c)
    ensures ClaimGathered(was, row, headline, x + y, c)
  {
    HasFindingAppend(x, y, c);
    TimesAppend(x, y, c);
    forall at ensures Asserted(x + y, c, at) <==> Asserted(x, c, at) || Asserted(y, c, at)
              ensures Asserted(x, c, at) ==> HasFinding(x, c)
              ensures Asserted(y, c, at) ==> HasFinding(y, c)
    {
      AssertedAppend(x, y, c, at);
      if Asserted(x, c, at) && !HasFinding(x, c) { NothingAsserted(x, c, at); }
      if Asserted(y, c, at) && !HasFinding(y, c) { NothingAsserted(y, c, at); }
    }
    forall text, claimType
      ensures Introduced(x, c, text, claimType) ==> Introduced(x + y, c, text, claimType)
      ensures Introduced(y, c, text, claimType) && !HasFinding(x, c) ==> Introduced(x + y, c, text, claimType)
    {
      IntroducedAppend(x, y, c, text, claimType);
    }
    if !HasFinding(x, c) { NoneOn(x, c); }
    if !HasFinding(y, c) { NoneOn(y, c); }
    hide Asserted, Introduced, HasFinding, Times, IsOn;
  }

  lemma RecordedInTurn(before: Db, between: Db, after: Db, next: ObservationId, i: InquiryId,
                       headline: Option<ClaimId>, x: Findings, y: Findings)
    requires Recorded(before, between, next, i, headline, x)
    requires Recorded(between, after, next + |x|, i, headline, y)
    ensures Recorded(before, after, next, i, headline, x + y)
  {
    hide ClaimGathered;
    forall c: ClaimId ensures ClaimGathered(Row(before.claims, c), Row(after.claims, c), headline, x + y, c) {
      GatheredInTurn(Row(before.claims, c), Row(between.claims, c), Row(after.claims, c), headline, x, y, c);
    }
    ObservedInTurn(before.observations, between.observations, after.observations, next, i, x, y);
    hide ObservationsStored;
  }

  lemma ObservedInTurn(before: map<ObservationId, Observation>, between: map<ObservationId, Observation>,
                       after: map<ObservationId, Observation>, next: ObservationId, i: InquiryId,
                       x: Findings, y: Findings)
    requires ObservationsStored(before, between, next, i, x)
    requires ObservationsStored(between, after, next + |x|, i, y)
    ensures ObservationsStored(before, after, next, i, x + y)
  {
    forall k | 0 <= k < |x + y|
      ensures IsStored(after, next + k, i, (x + y)[k].0, (x + y)[k].1)
    {
      assert (x + y)[k] == if k < |x| then x[k] else y[k - |x|];
      if k < |x| {
        assert IsStored(between, next + k, i, x[k].0, x[k].1);
      } else {
        assert next + k == (next + |x|) + (k - |x|);
        assert IsStored(after, (next + |x|) + (k - |x|), i, y[k - |x|].0, y[k - |x|].1);
      }
    }
  }

  lemma NothingRecorded(db: Db, next: ObservationId, i: InquiryId, headline: Option<ClaimId>)
    ensures Recorded(db, db, next, i, headline, [])
  {
    forall c: ClaimId ensures !HasFinding([], c) {
    }
  }

  /** Storing one finding records it. */
  lemma StoredIsRecorded(db: Db, i: InquiryId, e: ExpertId, headline: Option<ClaimId>, f: Found, id: ObservationId)
    requires id !in db.observations
    ensures var step := Store(f.target, f.text, f.claimType, id, f.assertedAt, f.now);
      Recorded(db, Stored(db, i, e, headline, step), id, i, headline, [(e, f)])
  {
    var items := [(e, f)];
    var after := Stored(db, i, e, headline, Store(f.target, f.text, f.claimType, id, f.assertedAt, f.now));
    assert IsOn(items, 0, f.target) && IntroducedBy(items, 0, f.target, f.text, f.claimType);
    forall c: ClaimId ensures ClaimGathered(Row(db.claims, c), Row(after.claims, c), headline, items, c) {
      assert items[..0] == [] && Times(items[..0], c) == 0;
      if c == f.target {
        assert HasFinding(items, c) && Asserted(items, c, When(f));
      } else {
        assert !HasFinding(items, c);
      }
    }
  }
}
