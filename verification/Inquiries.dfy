/**
 The inquiry runner as a transition system: one transaction per expert, which
 may fail or crash at any point, over the claims registry, the observations and
 the stance matrix.
 */
module Inquiries {
  import opened Options
  import opened Sets
  import opened ClaimRegistry

  type InquiryId = nat
  type ExpertId = nat
  type ObservationId = nat

  datatype Observation = Observation(claim: ClaimId, inquiry: InquiryId, expert: ExpertId, assertedAt: Option<int>)
  datatype Position = Position(stance: string, count: nat)
  datatype Inquiry = Inquiry(complete: bool, headline: Option<ClaimId>)

  datatype Db = Db(claims: map<ClaimId, Claim>, observations: map<ObservationId, Observation>,
                   positions: map<(InquiryId, ExpertId), Position>)

  /** The open transaction of one expert: what it sees, and how many observations it has stored. */
  datatype Work = Work(inquiry: InquiryId, expert: ExpertId, db: Db, stored: nat)

  /** Inquiries run one at a time, so at most one transaction is open. */
  datatype Sys = Sys(inquiries: map<InquiryId, Inquiry>, db: Db, work: Option<Work>)

  datatype Step =
    | Request(i: InquiryId)
    | Start(i: InquiryId)
    | Headline(i: InquiryId, id: ClaimId, proposition: string, claimType: string)
    | OpenExpert(i: InquiryId, expert: ExpertId)
    | Store(target: ClaimId, text: string, claimType: string, id: ObservationId, assertedAt: Option<int>, now: int)
    | Resolve(stance: string)
    | Fail
    | Finish(i: InquiryId)

  function Cell(observations: map<ObservationId, Observation>, i: InquiryId, e: ExpertId): set<ObservationId> {
    set o | o in observations && observations[o].inquiry == i && observations[o].expert == e
  }

  function Attached(observations: map<ObservationId, Observation>, c: ClaimId): set<ObservationId> {
    set o | o in observations && observations[o].claim == c
  }

  /** The DELETE that opens an expert's transaction. */
  function WithoutCell(db: Db, i: InquiryId, e: ExpertId): Db {
    db.(observations := db.observations - Cell(db.observations, i, e))
  }

  /** resolve_claim and the insert: onto the existing claim `target`, or onto a new one of that id. */
  function Stored(db: Db, i: InquiryId, e: ExpertId, headline: Option<ClaimId>, step: Step): Db
    requires step.Store?
  {
    var claim := if step.target in db.claims then db.claims[step.target]
                 else NewClaim(step.text, step.claimType, headline);
    var at := if step.assertedAt.Some? then step.assertedAt.value else step.now;
    db.(claims := db.claims[step.target := Observed(claim, at)],
        observations := db.observations[step.id := Observation(step.target, i, e, step.assertedAt)])
  }

  predicate Guard(s: Sys, step: Step) {
    match step
    case Request(i) => i !in s.inquiries
    case Start(i) => s.work.None? && i in s.inquiries
    case Headline(i, id, _, _) =>
      s.work.None? && i in s.inquiries && s.inquiries[i].headline.None? && id !in s.db.claims
    case OpenExpert(i, e) => s.work.None? && i in s.inquiries && (i, e) !in s.db.positions
    case Store(_, _, _, id, _, _) =>
      s.work.Some? && id !in s.work.value.db.observations && s.work.value.inquiry in s.inquiries
    case Resolve(_) => s.work.Some?
    case Fail => true
    case Finish(i) => s.work.None? && i in s.inquiries
  }

  function Apply(s: Sys, step: Step): Sys
    requires Guard(s, step)
  {
    match step
    case Request(i) => s.(inquiries := s.inquiries[i := Inquiry(false, None)])
    case Start(i) => s.(inquiries := s.inquiries[i := s.inquiries[i].(complete := false)])
    case Headline(i, id, proposition, claimType) =>
      s.(db := s.db.(claims := s.db.claims[id := NewClaim(proposition, claimType, None)]),
         inquiries := s.inquiries[i := s.inquiries[i].(headline := Some(id))])
    case OpenExpert(i, e) => s.(work := Some(Work(i, e, WithoutCell(s.db, i, e), 0)))
    case Store(_, _, _, _, _, _) =>
      var w := s.work.value;
      var headline := s.inquiries[w.inquiry].headline;
      s.(work := Some(w.(db := Stored(w.db, w.inquiry, w.expert, headline, step), stored := w.stored + 1)))
    case Resolve(stance) =>
      var w := s.work.value;
      s.(db := w.db.(positions := w.db.positions[(w.inquiry, w.expert) := Position(stance, w.stored)]), work := None)
    case Fail => s.(work := None)
    case Finish(i) => s.(inquiries := s.inquiries[i := s.inquiries[i].(complete := true)])
  }

  predicate Next(s: Sys, step: Step, s': Sys) {
    Guard(s, step) && s' == Apply(s, step)
  }

  const EMPTY := Sys(map[], Db(map[], map[], map[]), None)

  predicate Run(states: seq<Sys>, steps: seq<Step>) {
    && |states| == |steps| + 1 && states[0] == EMPTY
    && forall k :: 0 <= k < |steps| ==> Next(states[k], steps[k], states[k + 1])
  }

  /** A claim's bookkeeping is what its observations make it. */
  predicate Kept(db: Db, c: ClaimId)
    requires c in db.claims
  {
    db.claims[c].count == |Attached(db.observations, c)|
  }

  predicate Dated(db: Db, o: ObservationId)
    requires o in db.observations
  {
    var obs := db.observations[o];
    && obs.claim in db.claims
    && (obs.assertedAt.Some? ==>
          && db.claims[obs.claim].first.Some? && db.claims[obs.claim].last.Some?
          && db.claims[obs.claim].first.value <= obs.assertedAt.value <= db.claims[obs.claim].last.value)
  }

  predicate ClaimsKept(db: Db) {
    && (forall c :: c in db.claims ==> Kept(db, c))
    && (forall o :: o in db.observations ==> Dated(db, o))
  }

  /** An expert with a position has exactly the observations it counts; one without has none, or `open` at work. */
  ghost predicate CellsMatch(db: Db, open: Option<Work>) {
    forall i, e :: |Cell(db.observations, i, e)| ==
      if open.Some? && open.value.inquiry == i && open.value.expert == e then open.value.stored
      else if (i, e) in db.positions then db.positions[(i, e)].count else 0
  }

  ghost predicate Inv(s: Sys) {
    && ClaimsKept(s.db) && CellsMatch(s.db, None)
    && (s.work.Some? ==> ClaimsKept(s.work.value.db) && CellsMatch(s.work.value.db, s.work))
  }

  /** Storing an observation adds exactly one to its claim and to its cell. */
  lemma OneMoreAttached(before: map<ObservationId, Observation>, id: ObservationId, o: Observation, c: ClaimId)
    requires id !in before
    ensures |Attached(before[id := o], c)| == |Attached(before, c)| + if c == o.claim then 1 else 0
  {
    assert Attached(before[id := o], c) == Attached(before, c) + if c == o.claim then {id} else {};
  }

  lemma OneMoreInCell(before: map<ObservationId, Observation>, id: ObservationId, o: Observation, i: InquiryId,
          e: ExpertId)
    requires id !in before
    ensures |Cell(before[id := o], i, e)| == |Cell(before, i, e)| + if i == o.inquiry && e == o.expert then 1 else 0
  {
    assert Cell(before[id := o], i, e) == Cell(before, i, e) + if i == o.inquiry && e == o.expert then {id} else {};
  }

  lemma StoreKeepsClaims(db: Db, i: InquiryId, e: ExpertId, headline: Option<ClaimId>, step: Step)
    requires step.Store? && step.id !in db.observations && ClaimsKept(db)
    ensures ClaimsKept(Stored(db, i, e, headline, step))
  {
    hide Attached, Cell;
    var after := Stored(db, i, e, headline, step);
    if step.target !in db.claims { NoneAttached(db, step.target); }
    forall c | c in after.claims ensures Kept(after, c) {
      OneMoreAttached(db.observations, step.id, Observation(step.target, i, e, step.assertedAt), c);
      if c in db.claims { assert Kept(db, c); }
    }
    forall o | o in after.observations ensures Dated(after, o) {
      if o != step.id { assert Dated(db, o); }
    }
  }

  lemma NoneAttached(db: Db, c: ClaimId)
    requires ClaimsKept(db) && c !in db.claims
    ensures |Attached(db.observations, c)| == 0
  {
    forall o | o in db.observations ensures db.observations[o].claim != c {
      assert Dated(db, o);
    }
    assert Attached(db.observations, c) == {};
  }

  /** In a consistent database the DELETE that opens an expert's transaction removes nothing. */
  lemma NothingToDelete(db: Db, i: InquiryId, e: ExpertId)
    requires CellsMatch(db, None) && (i, e) !in db.positions
    ensures WithoutCell(db, i, e) == db
  {
    assert |Cell(db.observations, i, e)| == 0;
    assert Cell(db.observations, i, e) == {};
    assert db.observations - {} == db.observations;
  }

  lemma StoreStep(s: Sys, step: Step, s': Sys)
    requires Inv(s) && Next(s, step, s') && step.Store?
    ensures Inv(s')
  {
    var w := s.work.value;
    StoreKeepsClaims(w.db, w.inquiry, w.expert, s.inquiries[w.inquiry].headline, step);
    hide ClaimsKept, Cell, Attached;
    forall i, e ensures |Cell(s'.work.value.db.observations, i, e)| ==
      |Cell(w.db.observations, i, e)| + if i == w.inquiry && e == w.expert then 1 else 0
    {
      OneMoreInCell(w.db.observations, step.id, Observation(step.target, w.inquiry, w.expert, step.assertedAt), i, e);
    }
  }

  lemma OpenStep(s: Sys, step: Step, s': Sys)
    requires Inv(s) && Next(s, step, s') && step.OpenExpert?
    ensures Inv(s')
  {
    NothingToDelete(s.db, step.i, step.expert);
    hide ClaimsKept, Cell;
  }

  lemma HeadlineStep(s: Sys, step: Step, s': Sys)
    requires Inv(s) && Next(s, step, s') && step.Headline?
    ensures Inv(s')
  {
    NoneAttached(s.db, step.id);
    hide Cell, Attached;
    forall c | c in s'.db.claims ensures Kept(s'.db, c) {
      if c in s.db.claims { assert Kept(s.db, c); }
    }
    forall o | o in s'.db.observations ensures Dated(s'.db, o) {
      assert Dated(s.db, o);
    }
  }

  lemma SameRows(db: Db, after: Db)
    requires ClaimsKept(db) && after.claims == db.claims && after.observations == db.observations
    ensures ClaimsKept(after)
  {
    hide Attached;
    forall c | c in after.claims ensures Kept(after, c) { assert Kept(db, c); }
    forall o | o in after.observations ensures Dated(after, o) { assert Dated(db, o); }
  }

  lemma InvStep(s: Sys, step: Step, s': Sys)
    requires Inv(s) && Next(s, step, s')
    ensures Inv(s')
  {
    match step
    case Store(_, _, _, _, _, _) => StoreStep(s, step, s');
    case OpenExpert(_, _) => OpenStep(s, step, s');
    case Headline(_, _, _, _) => HeadlineStep(s, step, s');
    case Resolve(_) =>
      SameRows(s.work.value.db, s'.db);
      hide ClaimsKept, Cell;
    case _ =>
      SameRows(s.db, s'.db);
      hide ClaimsKept, Cell;
  }

  lemma {:induction false} InvAlways(states: seq<Sys>, steps: seq<Step>, n: nat)
    requires Run(states, steps) && n < |states|
    ensures Inv(states[n])
    decreases n
  {
    if n > 0 {
      InvAlways(states, steps, n - 1);
      hide Inv, Next;
      InvStep(states[n - 1], steps[n - 1], states[n]);
    }
  }

  /**
   After any sequence of runs, re-runs, failures and crashes: an expert with a position
   has exactly the observations it says, one without has none, every claim's count is
   the number of observations attached to it and its dates span theirs.
   */
  lemma MatrixIsExact(states: seq<Sys>, steps: seq<Step>, n: nat)
    requires Run(states, steps) && n < |states|
    ensures var db := states[n].db;
      && (forall i, e :: (i, e) in db.positions ==> |Cell(db.observations, i, e)| == db.positions[(i, e)].count)
      && (forall i: nat, e: nat :: (i, e) !in db.positions ==> Cell(db.observations, i, e) == {})
      && (forall c :: c in db.claims ==> db.claims[c].count == |Attached(db.observations, c)|)
      && (forall o :: o in db.observations ==> Dated(db, o))
  {
    InvAlways(states, steps, n);
    var db := states[n].db;
    assert forall c :: c in db.claims ==> Kept(db, c);
    forall i: nat, e: nat | (i, e) !in db.positions ensures Cell(db.observations, i, e) == {} {
      assert |Cell(db.observations, i, e)| == 0;
    }
  }

  /**
   Why the counts depend on one transaction per expert: the DELETE does not touch the
   claims' counts, so from an exact registry it leaves an exact one
   if and only if there was nothing to delete.
   */
  lemma DeleteKeepsCounts(db: Db, i: InquiryId, e: ExpertId)
    requires ClaimsKept(db)
    ensures ClaimsKept(WithoutCell(db, i, e)) <==> Cell(db.observations, i, e) == {}
  {
    var after := WithoutCell(db, i, e);
    if o :| o in Cell(db.observations, i, e) {
      var c := db.observations[o].claim;
      assert Dated(db, o) && Kept(db, c);
      Fewer(Attached(after.observations, c), Attached(db.observations, c), o);
      assert !Kept(after, c);
    } else {
      assert Cell(db.observations, i, e) == {};
      assert db.observations - {} == db.observations;
    }
  }

  lemma Fewer<T>(a: set<T>, b: set<T>, x: T)
    requires a <= b && x in b && x !in a
    ensures |a| < |b|
  {
    SubsetIsSmaller(a, b - {x});
  }

  /**
   Between transactions a known inquiry may start, finish, get its headline claim while it has none, and open
   one for exactly the experts without a position; storing and resolving need an open one, and one that
   resolves or fails is over.
   */
  lemma OneTransactionAtATime(s: Sys, i: InquiryId, e: ExpertId, id: ClaimId, text: string)
    requires i in s.inquiries && s.work.None?
    ensures Guard(s, Start(i)) && Guard(s, Finish(i)) && !Guard(s, Resolve(text))
    ensures Guard(s, OpenExpert(i, e)) <==> (i, e) !in s.db.positions
    ensures Guard(s, Headline(i, id, text, text)) <==> s.inquiries[i].headline.None? && id !in s.db.claims
    ensures Guard(s, OpenExpert(i, e)) ==>
      var s' := Apply(s, OpenExpert(i, e));
      && s'.db == s.db && !Guard(s', OpenExpert(i, e)) && !Guard(s', Start(i)) && !Guard(s', Finish(i))
      && Guard(s', Resolve(text))
      && Apply(s', Fail) == s
      && Apply(s', Resolve(text)).work.None?
      && (i, e) in Apply(s', Resolve(text)).db.positions
  {
    hide Cell;
  }
}
