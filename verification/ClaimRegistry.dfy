/**
 The registry of canonical claims: attach-or-create over the nearest candidates,
 and the claim's bookkeeping of what was observed.
 */
module ClaimRegistry {
  import opened Options

  type ClaimId = nat

  const AUTO_ATTACH := 0.92
  const ADJUDICATE := 0.75
  const CANDIDATES := 3

  datatype Claim = Claim(proposition: string, claimType: string, parent: Option<ClaimId>, active: bool, merged: bool,
                         count: nat, first: Option<int>, last: Option<int>)

  /** A claim the index query may return, with its cosine distance to the observation. */
  datatype Candidate = Candidate(id: ClaimId, distance: real)

  function Similarity(c: Candidate): real { 1.0 - c.distance }

  /** What the observation is attached to when `same` is the adjudicator's verdict. */
  predicate Attaches(c: Candidate, same: ClaimId -> bool) {
    Similarity(c) > AUTO_ATTACH || (Similarity(c) >= ADJUDICATE && same(c.id))
  }

  predicate Sorted(rows: seq<Candidate>) {
    forall i, j :: 0 <= i < j < |rows| ==> rows[i].distance <= rows[j].distance
  }

  /**
   The loop over the nearest rows. Since they come nearest first, stopping at the
   first one below the bands misses nothing among them, and a claim above the
   automatic threshold is found wherever it stands, without adjudication.
   */
  method Match(rows: seq<Candidate>, same: ClaimId -> bool) returns (matched: Option<ClaimId>, asked: seq<ClaimId>)
    requires Sorted(rows)
    ensures matched.None? ==> forall k :: 0 <= k < |rows| && k < CANDIDATES ==> !Attaches(rows[k], same)
    ensures matched.None? ==> forall k :: 0 <= k < |rows| ==> Similarity(rows[k]) <= AUTO_ATTACH
    ensures matched.Some? ==>
      exists k :: 0 <= k < |rows| && k < CANDIDATES && rows[k].id == matched.value && Attaches(rows[k], same)
        && forall j :: 0 <= j < k ==> !Attaches(rows[j], same)
    ensures matched.Some? ==>
      exists k :: 0 <= k < |rows| && rows[k].id == matched.value
        && (rows[k].distance < 0.08 || (rows[k].distance <= 0.25 && same(matched.value)))
    ensures matched.None? ==> forall k :: 0 <= k < |rows| && k < 3 ==>
      rows[k].distance >= 0.08 && (rows[k].distance > 0.25 || !same(rows[k].id))
    ensures rows != [] && Similarity(rows[0]) > AUTO_ATTACH ==> matched == Some(rows[0].id) && asked == []
    ensures forall id :: id in asked ==>
      exists k :: 0 <= k < |rows| && rows[k].id == id && ADJUDICATE <= Similarity(rows[k]) <= AUTO_ATTACH
  {
    matched := None;
    asked := [];
    var nearest := if |rows| <= CANDIDATES then rows else rows[..CANDIDATES];
    for k := 0 to |nearest|
      invariant matched.None?
      invariant forall j :: 0 <= j < k ==> !Attaches(rows[j], same)
      invariant if k == 0 then asked == [] else Similarity(rows[0]) <= AUTO_ATTACH
      invariant forall id :: id in asked ==>
        exists j :: 0 <= j < |rows| && rows[j].id == id && ADJUDICATE <= Similarity(rows[j]) <= AUTO_ATTACH
    {
      var candidate := nearest[k];
      var similarity := 1.0 - candidate.distance;
      if similarity > AUTO_ATTACH {
        matched := Some(candidate.id);
        break;
      }
      if similarity >= ADJUDICATE {
        asked := asked + [candidate.id];
        if same(candidate.id) {
          matched := Some(candidate.id);
          break;
        }
      } else {
        break;
      }
    }
  }

  /** One more observation of the claim, asserted at `at`. */
  function Observed(c: Claim, at: int): Claim {
    c.(count := c.count + 1,
       first := if c.first.None? || at < c.first.value then Some(at) else c.first,
       last := if c.last.None? || at > c.last.value then Some(at) else c.last)
  }

  function NewClaim(text: string, claimType: string, parent: Option<ClaimId>): Claim {
    Claim(text, claimType, parent, true, false, 0, None, None)
  }

  class Registry {
    var claims: map<ClaimId, Claim>

    /** `rows` is the index query's answer: some active, unmerged claims, nearest first. */
    method ResolveClaim(text: string, claimType: string, rows: seq<Candidate>, same: ClaimId -> bool, newId: ClaimId,
                        parent: Option<ClaimId>, assertedAt: Option<int>, now: int)
      returns (id: ClaimId)
      requires Sorted(rows) && newId !in claims
      requires forall k :: 0 <= k < |rows| ==>
        rows[k].id in claims && claims[rows[k].id].active && !claims[rows[k].id].merged
      modifies this
      ensures id == newId
        || (id in old(claims) && exists k :: 0 <= k < |rows| && rows[k].id == id && Attaches(rows[k], same))
      ensures id == newId ==> forall k :: 0 <= k < |rows| ==> Similarity(rows[k]) <= AUTO_ATTACH
      ensures claims == old(claims)[id :=
        Observed(if id == newId then NewClaim(text, claimType, parent) else old(claims)[id],
                 if assertedAt.Some? then assertedAt.value else now)]
      ensures var at := if assertedAt.Some? then assertedAt.value else now;
        var was, row := if id == newId then None else Some(old(claims)[id]), claims[id];
        && row.count == (if was.Some? then was.value.count else 0) + 1
        && row.first.Some? && row.last.Some? && row.first.value <= at <= row.last.value
        && (row.first == Some(at) || (was.Some? && row.first == was.value.first))
        && (row.last == Some(at) || (was.Some? && row.last == was.value.last))
        && (was.None? ==> row.proposition == text && row.claimType == claimType && row.parent == parent)
        && (was.Some? ==> row.proposition == was.value.proposition && row.claimType == was.value.claimType
                          && row.parent == was.value.parent)
    {
      var matched, asked := Match(rows, same);
      var claim: Claim;
      if matched.None? {
        id := newId;
        claim := NewClaim(text, claimType, parent);
      } else {
        id := matched.value;
        claim := claims[id];
      }
      var observed := if assertedAt.Some? then assertedAt.value else now;
      if claim.first.None? || observed < claim.first.value {
        claim := claim.(first := Some(observed));
      }
      if claim.last.None? || observed > claim.last.value {
        claim := claim.(last := Some(observed));
      }
      claims := claims[id := claim.(count := claim.count + 1)];
    }
  }
}
