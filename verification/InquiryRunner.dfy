/**
 One job's run over an inquiry's roster: experts that have a position are
 skipped, each of the others is one transaction, and a failure of one leaves
 the database as it was and the run goes on.
 */
module InquiryRunner {
  import opened Options
  import opened ClaimRegistry
  import opened Inquiries
  import opened Observing

  datatype Attempt = Failed | Resolved(found: seq<Found>, stance: string)

  function StoreOf(f: Found, id: ObservationId): Step {
    Store(f.target, f.text, f.claimType, id, f.assertedAt, f.now)
  }

  ghost predicate Consistent(db: Db) {
    ClaimsKept(db) && CellsMatch(db, None)
  }

  /** Nothing that was there is lost or changed but the claims' bookkeeping. */
  predicate Extends(before: Db, after: Db) {
    && (forall o :: o in before.observations ==>
      o in after.observations && after.observations[o] == before.observations[o])
    && (forall c :: c in before.claims ==>
      c in after.claims && after.claims[c].proposition == before.claims[c].proposition)
  }

  /** One of the first n experts is this one, and its attempt came to this position. */
  predicate CameFrom(i: InquiryId, roster: seq<ExpertId>, attempts: seq<Attempt>, n: nat,
                     p: (InquiryId, ExpertId), position: Position)
    requires |attempts| == |roster| && n <= |roster|
  {
    exists k :: 0 <= k < n && p == (i, roster[k]) && attempts[k].Resolved?
      && position == Position(attempts[k].stance, |attempts[k].found|)
  }

  /** The findings of one expert. */
  function By(e: ExpertId, found: seq<Found>): (r: Findings)
    ensures |r| == |found|
  {
    seq(|found|, k requires 0 <= k < |found| => (e, found[k]))
  }

  /** Attempt k is made: its expert had no position and got none from an earlier attempt of this run. */
  predicate Attempted(i: InquiryId, roster: seq<ExpertId>, attempts: seq<Attempt>, had: set<(InquiryId, ExpertId)>,
                      k: nat)
    requires |attempts| == |roster| && k < |roster|
  {
    (i, roster[k]) !in had && forall j :: 0 <= j < k && roster[j] == roster[k] ==> attempts[j].Failed?
  }

  /** What the first n attempts find: those of the attempts made that do not fail, in order. */
  function Gathered(i: InquiryId, roster: seq<ExpertId>, attempts: seq<Attempt>, had: set<(InquiryId, ExpertId)>,
                    n: nat): Findings
    requires |attempts| == |roster| && n <= |roster|
  {
    if n == 0 then []
    else
      var before := Gathered(i, roster, attempts, had, n - 1);
      if attempts[n - 1].Resolved? && Attempted(i, roster, attempts, had, n - 1)
      then before + By(roster[n - 1], attempts[n - 1].found) else before
  }

  lemma ConsistentIsInv(db: Db, inquiries: map<InquiryId, Inquiry>)
    ensures Consistent(db) <==> Inv(Sys(inquiries, db, None))
  {
  }

  class Runner {
    var inquiries: map<InquiryId, Inquiry>
    var db: Db
    var next: ObservationId

    ghost predicate Valid()
      reads this
    {
      Consistent(db) && forall o :: o in db.observations ==> o < next
    }

    /** The transaction of one expert. */
    method ResolveExpert(i: InquiryId, e: ExpertId, found: seq<Found>, stance: string)
      requires Valid() && i in inquiries && (i, e) !in db.positions
      modifies this`db, this`next
      ensures Valid() && Extends(old(db), db)
      ensures db.positions == old(db).positions[(i, e) := Position(stance, |found|)]
      ensures |Cell(db.observations, i, e)| == |found|
      ensures Recorded(old(db), db, old(next), i, inquiries[i].headline, By(e, found))
      ensures next == old(next) + |found|
    {
      hide ClaimsKept, CellsMatch, Stored, WithoutCell, Recorded;
      NothingRecorded(db, next, i, inquiries[i].headline);
      assert By(e, found[..0]) == [];
      ghost var s := Sys(inquiries, db, None);
      ConsistentIsInv(db, inquiries);
      var work := WithoutCell(db, i, e);
      OpenStep(s, OpenExpert(i, e), Apply(s, OpenExpert(i, e)));
      NothingToDelete(db, i, e);
      var headline := inquiries[i].headline;
      var id := next;
      for k := 0 to |found|
        invariant inquiries == old(inquiries) && db == old(db) && Extends(db, work) && id == next + k
        invariant Inv(Sys(inquiries, db, Some(Work(i, e, work, k))))
        invariant work.positions == db.positions && next == old(next)
        invariant Recorded(db, work, next, i, headline, By(e, found[..k]))
        invariant forall o :: o in work.observations ==> o < id
      {
        var before := work;
        var step := StoreOf(found[k], id);
        s := Sys(inquiries, db, Some(Work(i, e, work, k)));
        work := Stored(before, i, e, headline, step);
        StoreStep(s, step, Apply(s, step));
        StoredExtends(before, i, e, headline, step);
        StoredIsRecorded(before, i, e, headline, found[k], id);
        RecordedInTurn(db, before, work, next, i, headline, By(e, found[..k]), [(e, found[k])]);
        assert By(e, found[..k + 1]) == By(e, found[..k]) + [(e, found[k])];
        id := id + 1;
      }
      assert found[..|found|] == found;
      s := Sys(inquiries, db, Some(Work(i, e, work, |found|)));
      InvStep(s, Resolve(stance), Apply(s, Resolve(stance)));
      ConsistentIsInv(Apply(s, Resolve(stance)).db, inquiries);
      db := work.(positions := work.positions[(i, e) := Position(stance, |found|)]);
      PositionRecordsNothing(old(db), work, db, old(next), i, headline, By(e, found));
      next := id;
      CountOfPosition(db, i, e);
    }

    method RunInquiry(i: InquiryId, roster: seq<ExpertId>, attempts: seq<Attempt>)
      requires Valid() && i in inquiries && |attempts| == |roster|
      modifies this
      ensures Valid() && Extends(old(db), db)
      ensures inquiries == old(inquiries)[i := old(inquiries)[i].(complete := true)]
      ensures forall p :: p in old(db).positions ==> p in db.positions && db.positions[p] == old(db).positions[p]
      ensures forall p :: p in db.positions && p !in old(db).positions ==>
        CameFrom(i, roster, attempts, |roster|, p, db.positions[p])
      ensures forall k :: 0 <= k < |roster| && attempts[k].Resolved? ==> (i, roster[k]) in db.positions
      ensures var items := Gathered(i, roster, attempts, old(db).positions.Keys, |roster|);
        Recorded(old(db), db, old(next), i, old(inquiries)[i].headline, items) && next == old(next) + |items|
    {
      hide Consistent, Recorded;
      NothingRecorded(db, next, i, inquiries[i].headline);
      ghost var was := old(db).positions.Keys;
      inquiries := inquiries[i := inquiries[i].(complete := false)];
      for k := 0 to |roster|
        invariant Valid() && Extends(old(db), db)
        invariant inquiries == old(inquiries)[i := old(inquiries)[i].(complete := false)]
        invariant forall p :: p in old(db).positions ==> p in db.positions && db.positions[p] == old(db).positions[p]
        invariant forall p :: p in db.positions && p !in old(db).positions ==>
          CameFrom(i, roster, attempts, k, p, db.positions[p])
        invariant forall j :: 0 <= j < k && attempts[j].Resolved? ==> (i, roster[j]) in db.positions
        invariant Recorded(old(db), db, old(next), i, old(inquiries)[i].headline,
                           Gathered(i, roster, attempts, was, k))
        invariant next == old(next) + |Gathered(i, roster, attempts, was, k)|
      {
        assert Attempted(i, roster, attempts, was, k) <==> (i, roster[k]) !in db.positions;
        ghost var before := db;
        if (i, roster[k]) in db.positions || attempts[k].Failed? {
          continue;
        }
        ResolveExpert(i, roster[k], attempts[k].found, attempts[k].stance);
        RecordedInTurn(old(db), before, db, old(next), i, old(inquiries)[i].headline,
                       Gathered(i, roster, attempts, was, k), By(roster[k], attempts[k].found));
      }
      inquiries := inquiries[i := inquiries[i].(complete := true)];
    }
  }

  lemma PositionRecordsNothing(before: Db, work: Db, after: Db, next: ObservationId, i: InquiryId,
                               headline: Option<ClaimId>, items: Findings)
    requires Recorded(before, work, next, i, headline, items)
    requires after.claims == work.claims && after.observations == work.observations
    ensures Recorded(before, after, next, i, headline, items)
  {
  }

  lemma StoredExtends(db: Db, i: InquiryId, e: ExpertId, headline: Option<ClaimId>, step: Step)
    requires step.Store? && step.id !in db.observations
    ensures Extends(db, Stored(db, i, e, headline, step))
    ensures Stored(db, i, e, headline, step).positions == db.positions
    ensures Stored(db, i, e, headline, step).observations.Keys == db.observations.Keys + {step.id}
  {
  }

  lemma CountOfPosition(db: Db, i: InquiryId, e: ExpertId)
    requires Consistent(db) && (i, e) in db.positions
    ensures |Cell(db.observations, i, e)| == db.positions[(i, e)].count
  {
  }
}
