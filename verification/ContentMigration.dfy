/**
 Migration 008 as it runs: it collects the rows to rewrite, resolves each group
 that would collide, deletes the losers and then rewrites the survivors one at
 a time under the UNIQUE constraint.
 */
module ContentMigration {
  import opened Options
  import opened Renormalization

  datatype Rewrite = Rewrite(id: Id, url: string, canonical: string)

  predicate HasRewrite(rewrites: seq<Rewrite>, i: Id) {
    exists m :: 0 <= m < |rewrites| && rewrites[m].id == i
  }

  /** The rewrite is of a row that changes and gives it its renewed URLs. */
  predicate Faithful(normalize: string -> string, content: map<Id, Row>, r: Rewrite) {
    && r.id in content && Touched(normalize, content, r.id)
    && r.url == Renewed(normalize, content[r.id]).url && r.canonical == New(normalize, content, r.id)
  }

  lemma NoRewrites()
    ensures forall i :: !HasRewrite([], i)
  {
  }

  lemma HasRewriteMore(rewrites: seq<Rewrite>, r: Rewrite)
    ensures forall i :: HasRewrite(rewrites + [r], i) <==> HasRewrite(rewrites, i) || i == r.id
  {
    var after := rewrites + [r];
    assert after[..|rewrites|] == rewrites && after[..|rewrites| + 1] == after;
    HasRewriteNext(after, |rewrites|);
  }

  /** The two new URLs of a row decide whether it is touched. */
  lemma RewriteOf(normalize: string -> string, content: map<Id, Row>, i: Id, url: string, canonical: string)
    requires i in content
    requires url == if content[i].url != "" then normalize(content[i].url) else content[i].url
    requires canonical == if content[i].canonical != "" then normalize(content[i].canonical) else content[i].canonical
    ensures Touched(normalize, content, i) <==> url != content[i].url || canonical != content[i].canonical
    ensures Touched(normalize, content, i) ==> Faithful(normalize, content, Rewrite(i, url, canonical))
  {
  }

  lemma HasRewriteNext(rewrites: seq<Rewrite>, k: nat)
    requires k < |rewrites|
    ensures forall i :: HasRewrite(rewrites[..k + 1], i) <==> HasRewrite(rewrites[..k], i) || i == rewrites[k].id
  {
    var before, after := rewrites[..k], rewrites[..k + 1];
    forall i ensures HasRewrite(after, i) <==> HasRewrite(before, i) || i == rewrites[k].id {
      if HasRewrite(before, i) {
        var m :| 0 <= m < k && before[m].id == i;
        assert after[m].id == i;
      }
      assert after[k] == rewrites[k];
      if HasRewrite(after, i) {
        var m :| 0 <= m < |after| && after[m].id == i;
        assert m < k ==> before[m].id == i;
      }
    }
  }

  /** Row i is to be rewritten to the canonical URL c. */
  predicate Moves(rewrites: seq<Rewrite>, i: Id, c: string) {
    exists m :: 0 <= m < |rewrites| && rewrites[m].id == i && rewrites[m].canonical == c
  }

  lemma MovesNext(rewrites: seq<Rewrite>, k: nat)
    requires k < |rewrites|
    ensures forall i, c :: Moves(rewrites[..k + 1], i, c) <==>
      Moves(rewrites[..k], i, c) || (i == rewrites[k].id && c == rewrites[k].canonical)
  {
    var before, after := rewrites[..k], rewrites[..k + 1];
    forall i, c
      ensures Moves(after, i, c) <==> Moves(before, i, c) || (i == rewrites[k].id && c == rewrites[k].canonical)
    {
      if Moves(before, i, c) {
        var m :| 0 <= m < k && before[m].id == i && before[m].canonical == c;
        assert after[m].id == i && after[m].canonical == c;
      }
      assert after[k] == rewrites[k];
      if Moves(after, i, c) {
        var m :| 0 <= m < |after| && after[m].id == i && after[m].canonical == c;
        assert m < k ==> before[m].id == i && before[m].canonical == c;
      }
    }
  }

  lemma CanonicalIsFixed(normalize: string -> string, content: map<Id, Row>, c: string, i: Id)
    requires Idempotent(normalize) && i in Group(normalize, content, c)
    ensures Norm(normalize, c) == c
  {
    RenewedIsStable(normalize, content[i]);
  }

  lemma NoneExisting(normalize: string -> string, content: map<Id, Row>, c: string, ids: seq<Id>)
    requires forall i :: i in Group(normalize, content, c) && Touched(normalize, content, i) ==> i in ids
    requires forall i :: i in content && content[i].canonical == c ==> i in ids
    ensures forall j :: j in Group(normalize, content, c) ==> j in ids
  {
  }

  lemma ExistingSurvives(normalize: string -> string, t: Tables, c: string, keeper: Id)
    requires Unique(t.content) && Norm(normalize, c) == c
    requires keeper in t.content && t.content[keeper].canonical == c
    requires keeper in Group(normalize, t.content, c) ==> !Touched(normalize, t.content, keeper)
    ensures keeper in Group(normalize, t.content, c) && Survives(normalize, t, keeper)
    ensures forall u :: u in Group(normalize, t.content, c) && !Touched(normalize, t.content, u) ==> u == keeper
  {
  }

  lemma BestSurvives(normalize: string -> string, was: Tables, t: Tables, c: string, keeper: Id)
    requires t.content == was.content && Agree(Group(normalize, was.content, c), was.tags, t.tags)
    requires keeper in Group(normalize, was.content, c)
    requires forall j :: j in Group(normalize, was.content, c) ==>
      Touched(normalize, was.content, j) && !Better(t, j, keeper)
    ensures Survives(normalize, was, keeper)
  {
    var group := Group(normalize, was.content, c);
    forall j | j in group ensures TagCount(t.tags, j) == TagCount(was.tags, j) {
      assert forall k: (Id, Thinker) :: k.0 == j ==> (k in was.tags <==> k in t.tags);
      assert (set k | k in t.tags && k.0 == j) == (set k | k in was.tags && k.0 == j);
    }
    hide TagCount, Touched;
    assert forall j :: j in group ==> !Better(was, j, keeper);
  }

  lemma SameTagsCarry(group: set<Id>, k: Id, was: Tags, before: Tags, after: Tags)
    requires k in group && Agree(group, was, before) && Carried(group, k, before, after)
    ensures Carried(group, k, was, after)
  {
    hide Carried;
    assert Agree(group, before, was) && Agree(group, after, after);
    CarriedBySameTags(group, k, before, was, after, after);
  }

  /** The group of c has a survivor, and it has the group's tags. */
  ghost predicate Settled(normalize: string -> string, was: Tables, c: string, tags: Tags) {
    exists k :: Survives(normalize, was, k) && New(normalize, was.content, k) == c
      && Carried(Group(normalize, was.content, c), k, was.tags, tags)
  }

  ghost predicate Migrated(normalize: string -> string, was: Tables, now: Tables) {
    && (forall i :: i in now.content <==> Survives(normalize, was, i))
    && (forall i :: i in now.content ==> i in was.content && now.content[i] == Renewed(normalize, was.content[i]))
    && (forall i :: i in was.content ==> Settled(normalize, was, New(normalize, was.content, i), now.tags))
  }

  lemma SettledNow(normalize: string -> string, was: Tables, c: string, k: Id, tags: Tags)
    requires Survives(normalize, was, k) && New(normalize, was.content, k) == c
    requires Carried(Group(normalize, was.content, c), k, was.tags, tags)
    ensures Settled(normalize, was, c, tags)
  {
  }

  lemma SameTagsAgree(normalize: string -> string, was: Tables)
    ensures forall c :: Agree(Group(normalize, was.content, c), was.tags, was.tags)
  {
  }

  lemma LosersOfGroup(normalize: string -> string, was: Tables, c: string, ids: seq<Id>, survivor: Id, losers: set<Id>)
    requires Unique(was.content) && Survives(normalize, was, survivor) && New(normalize, was.content, survivor) == c
    requires forall i :: i in ids <==> i in Group(normalize, was.content, c) && Touched(normalize, was.content, i)
    requires losers == (set i | i in ids) - {survivor}
    ensures forall i :: i in losers <==>
      i in was.content && Touched(normalize, was.content, i) && New(normalize, was.content, i) == c
        && !Survives(normalize, was, i)
  {
    hide Survives, Touched, Unique;
    forall i | i in was.content && New(normalize, was.content, i) == c && Survives(normalize, was, i)
      ensures i == survivor
    {
      OneSurvivor(normalize, was, i, survivor);
    }
  }

  lemma OtherGroup(normalize: string -> string, was: Tables, c: string, d: string, before: Tags, after: Tags)
    requires c != d && SameOutside(Group(normalize, was.content, c), before, after)
    ensures Agree(Group(normalize, was.content, d), before, after)
    ensures Agree(Group(normalize, was.content, d), was.tags, before) ==>
      Agree(Group(normalize, was.content, d), was.tags, after)
    ensures Settled(normalize, was, d, before) ==> Settled(normalize, was, d, after)
  {
    var group := Group(normalize, was.content, d);
    assert group !! Group(normalize, was.content, c);
    hide Survives, Carried, Group;
    if Settled(normalize, was, d, before) {
      var k :| Survives(normalize, was, k) && New(normalize, was.content, k) == d
        && Carried(group, k, was.tags, before);
      assert k in group by { InOwnGroup(normalize, was, k); }
      CarriedBySameTags(group, k, was.tags, was.tags, before, after);
    }
  }

  lemma InOwnGroup(normalize: string -> string, was: Tables, k: Id)
    requires Survives(normalize, was, k)
    ensures k in was.content && k in Group(normalize, was.content, New(normalize, was.content, k))
  {
  }

  lemma SurvivorsAreUnique(normalize: string -> string, was: Tables, content: map<Id, Row>)
    requires Idempotent(normalize) && Unique(was.content)
    requires forall i :: i in content ==>
      Survives(normalize, was, i) && i in was.content && content[i] == Renewed(normalize, was.content[i])
    ensures Unique(content)
  {
    hide Survives, Idempotent;
    forall i, j | i in content && j in content && i != j ensures content[i].canonical != content[j].canonical {
      NoClash(normalize, was, i, j);
    }
  }

  /** Where no row of a URL's group is to be rewritten, the group is one row, which keeps its tags. */
  lemma QuietGroup(normalize: string -> string, was: Tables, i: Id, tags: Tags)
    requires Unique(was.content) && i in was.content
    requires forall j :: j in Group(normalize, was.content, New(normalize, was.content, i)) ==>
      !Touched(normalize, was.content, j)
    requires Agree(Group(normalize, was.content, New(normalize, was.content, i)), was.tags, tags)
    ensures Survives(normalize, was, i) && Settled(normalize, was, New(normalize, was.content, i), tags)
  {
    var group := Group(normalize, was.content, New(normalize, was.content, i));
    assert i in group;
    forall j | j in group ensures j == i {
      UntouchedIsUnique(normalize, was, i, j);
    }
    assert group == {i};
    hide Touched, New, Group, Unique;
    assert Survives(normalize, was, i);
    AloneIsCarried(i, was.tags);
    assert Agree(group, was.tags, was.tags);
    CarriedBySameTags(group, i, was.tags, was.tags, was.tags, tags);
  }

  lemma NothingToDo(normalize: string -> string, was: Tables)
    requires Unique(was.content) && forall i :: i in was.content ==> !Touched(normalize, was.content, i)
    ensures forall i :: i in was.content <==> Survives(normalize, was, i)
    ensures forall i :: i in was.content ==> was.content[i] == Renewed(normalize, was.content[i])
    ensures forall i :: i in was.content ==> Settled(normalize, was, New(normalize, was.content, i), was.tags)
  {
    SameTagsAgree(normalize, was);
    forall i | i in was.content
      ensures Survives(normalize, was, i) && Settled(normalize, was, New(normalize, was.content, i), was.tags)
    {
      QuietGroup(normalize, was, i, was.tags);
    }
  }

  lemma GroupsOfTouched(normalize: string -> string, content: map<Id, Row>, rewrites: seq<Rewrite>,
          groups: map<string, seq<Id>>)
    requires forall m :: 0 <= m < |rewrites| ==> Faithful(normalize, content, rewrites[m])
    requires forall i :: i in content && Touched(normalize, content, i) ==> HasRewrite(rewrites, i)
    requires forall c :: c in groups ==> groups[c] != [] && forall i :: i in groups[c] <==> Moves(rewrites, i, c)
    requires forall m :: 0 <= m < |rewrites| ==> rewrites[m].canonical in groups
    ensures forall c :: c in groups ==> (groups[c] != []
      && forall i :: i in groups[c] <==> i in Group(normalize, content, c) && Touched(normalize, content, i))
    ensures forall i :: i in content && Touched(normalize, content, i) ==> New(normalize, content, i) in groups
  {
    hide Touched, New;
    forall i, c ensures Moves(rewrites, i, c) <==> i in Group(normalize, content, c) && Touched(normalize, content, i) {
      if i in Group(normalize, content, c) && Touched(normalize, content, i) {
        var m :| 0 <= m < |rewrites| && rewrites[m].id == i;
        assert Faithful(normalize, content, rewrites[m]);
      }
    }
  }

  lemma SurvivorsRemain(normalize: string -> string, was: Tables, groups: set<string>, left: map<Id, Row>, tags: Tags)
    requires Unique(was.content)
    requires forall i :: i in was.content && Touched(normalize, was.content, i) ==>
      New(normalize, was.content, i) in groups
    requires forall i :: i in left <==> (i in was.content &&
      !(Touched(normalize, was.content, i) && New(normalize, was.content, i) in groups && !Survives(normalize, was, i)))
    requires forall c :: c in groups ==> Settled(normalize, was, c, tags)
    requires forall c :: c !in groups ==> Agree(Group(normalize, was.content, c), was.tags, tags)
    ensures forall i :: i in left <==> Survives(normalize, was, i)
    ensures forall i :: i in was.content ==> Settled(normalize, was, New(normalize, was.content, i), tags)
  {
    forall i | i in was.content ensures i in left <==> Survives(normalize, was, i)
                                ensures Settled(normalize, was, New(normalize, was.content, i), tags) {
      UntouchedSurvives(normalize, was, i);
      hide Touched, Agree, Unique, Survives, Settled;
      if New(normalize, was.content, i) !in groups {
        QuietGroup(normalize, was, i, tags);
      }
    }
  }

  lemma UntouchedSurvives(normalize: string -> string, was: Tables, i: Id)
    requires i in was.content
    ensures !Touched(normalize, was.content, i) ==> Survives(normalize, was, i)
  {
    hide Touched;
    assert i in Group(normalize, was.content, New(normalize, was.content, i));
  }

  lemma TagsReference(t: Tables)
    requires References(t)
    ensures forall k :: k in t.tags ==> k.0 in t.content
  {
  }

  lemma TagsOfSurvivors(normalize: string -> string, was: Tables, content: map<Id, Row>, tags: Tags)
    requires References(was) && Unique(was.content)
    requires forall i :: i in content <==> Survives(normalize, was, i)
    requires forall i :: i in was.content ==> Settled(normalize, was, New(normalize, was.content, i), tags)
    requires forall k :: k in tags ==> k.0 in was.content
    ensures References(Tables(content, tags))
  {
    hide Survives, Unique, New;
    forall k | k in tags ensures k.0 in content {
      var c := New(normalize, was.content, k.0);
      assert k.0 in Group(normalize, was.content, c);
      assert Settled(normalize, was, c, tags);
    }
  }

  lemma NoStrayTags(group: set<Id>, before: Tags, after: Tags)
    requires SameOutside(group, before, after)
    ensures forall k :: k in after ==> k in before || k.0 in group
  {
  }

  class ContentTables {
    var content: map<Id, Row>
    var tags: Tags

    function Now(): Tables
      reads this
    {
      Tables(content, tags)
    }

    /** The rows whose URL or canonical URL changes, in the order they are read. */
    method CollectRewrites(normalize: string -> string, order: seq<Id>) returns (rewrites: seq<Rewrite>)
      requires forall i :: i in order <==> i in content
      requires forall m, n :: 0 <= m < n < |order| ==> order[m] != order[n]
      ensures forall m :: 0 <= m < |rewrites| ==> Faithful(normalize, content, rewrites[m])
      ensures forall i :: i in content && Touched(normalize, content, i) ==> HasRewrite(rewrites, i)
      ensures forall m, n :: 0 <= m < n < |rewrites| ==> rewrites[m].id != rewrites[n].id
    {
      hide Touched, New, Renewed, HasRewrite;
      rewrites := [];
      NoRewrites();
      for k := 0 to |order|
        invariant forall m :: 0 <= m < |rewrites| ==>
          rewrites[m].id in order[..k] && Faithful(normalize, content, rewrites[m])
        invariant forall i :: i in order[..k] && Touched(normalize, content, i) ==> HasRewrite(rewrites, i)
        invariant forall m, n :: 0 <= m < n < |rewrites| ==> rewrites[m].id != rewrites[n].id
      {
        assert order[..k + 1] == order[..k] + [order[k]];
        assert order[k] in order;
        var row := content[order[k]];
        var url := if row.url != "" then normalize(row.url) else row.url;
        var canonical := if row.canonical != "" then normalize(row.canonical) else row.canonical;
        RewriteOf(normalize, content, order[k], url, canonical);
        assert forall i :: i in order[..k] ==> i != order[k];
        if url != row.url || canonical != row.canonical {
          HasRewriteMore(rewrites, Rewrite(order[k], url, canonical));
          rewrites := rewrites + [Rewrite(order[k], url, canonical)];
        }
      }
      assert order[..|order|] == order;
    }

    /** ORDER of the metrics, first entry: the best of the candidates. */
    method PickKeeper(ids: seq<Id>) returns (keeper: Id)
      requires |ids| > 0 && forall i :: i in ids ==> i in content
      ensures keeper in ids && forall j :: j in ids ==> !Better(Now(), j, keeper)
      ensures forall j :: j in ids && j != keeper ==> Outranks(Now(), keeper, j)
    {
      hide Better, Outranks;
      keeper := ids[0];
      BetterIsAnOrder(Now(), keeper, keeper, keeper);
      for m := 1 to |ids|
        invariant keeper in ids
        invariant forall j :: j in ids[..m] ==> !Better(Now(), j, keeper)
      {
        assert ids[..m + 1] == ids[..m] + [ids[m]];
        BetterIsAnOrder(Now(), ids[m], ids[m], ids[m]);
        if Better(Now(), ids[m], keeper) {
          forall j | j in ids[..m] ensures !Better(Now(), j, ids[m]) {
            BetterIsAnOrder(Now(), j, keeper, ids[m]);
          }
          keeper := ids[m];
        }
      }
      assert ids[..|ids|] == ids;
      forall j | j in ids && j != keeper ensures Outranks(Now(), keeper, j) {
        UnbeatenOutranks(Now(), keeper, j);
      }
    }

    /** Re-points the losers' tags onto the keeper, which keeps its own where both have one. */
    method MergeAssociations(keeper: Id, losers: set<Id>)
      requires keeper !in losers
      modifies this`tags
      ensures Carried(losers + {keeper}, keeper, old(tags), tags)
      ensures SameOutside(losers + {keeper}, old(tags), tags)
    {
      if losers == {} {
        AloneIsCarried(keeper, tags);
        assert {} + {keeper} == {keeper};
        return;
      }
      var rows := set k | k in tags && k.0 in losers;
      var todo := rows;
      while todo != {}
        invariant todo <= rows
        invariant forall k :: k in old(tags) ==> k in tags && tags[k] == old(tags)[k]
        invariant forall k :: k in tags && k !in old(tags) ==>
          k.0 == keeper && exists i :: i in losers && (i, k.1) in old(tags) && tags[k] == old(tags)[(i, k.1)]
        invariant forall k :: k in rows - todo ==> (keeper, k.1) in tags
        decreases todo
      {
        var k :| k in todo;
        assert k == (k.0, k.1) && k in old(tags);
        if (keeper, k.1) !in tags {
          assert k.0 in losers && (k.0, k.1) in old(tags) && tags[k] == old(tags)[(k.0, k.1)];
          tags := tags[(keeper, k.1) := tags[k]];
        }
        todo := todo - {k};
      }
      ghost var inserted := tags;
      tags := map k | k in tags && k.0 !in losers :: tags[k];
      MergedIsCarried(keeper, losers, old(tags), inserted, tags);
    }

    /** by_canonical: the rewritten rows under the canonical URL each is to get. */
    method GroupByCanonical(rewrites: seq<Rewrite>) returns (groups: map<string, seq<Id>>)
      ensures forall c :: c in groups ==> groups[c] != [] && forall i :: i in groups[c] <==> Moves(rewrites, i, c)
      ensures forall m :: 0 <= m < |rewrites| ==> rewrites[m].canonical in groups
    {
      groups := map[];
      for k := 0 to |rewrites|
        invariant forall c :: c in groups ==>
          groups[c] != [] && forall i :: i in groups[c] <==> Moves(rewrites[..k], i, c)
        invariant forall m :: 0 <= m < k ==> rewrites[m].canonical in groups
      {
        var r := rewrites[k];
        var soFar := if r.canonical in groups then groups[r.canonical] else [];
        assert forall i :: i in soFar <==> Moves(rewrites[..k], i, r.canonical);
        MovesNext(rewrites, k);
        hide Moves;
        groups := groups[r.canonical := soFar + [r.id]];
      }
      assert rewrites[..|rewrites|] == rewrites;
    }

    /** The survivor of one group: the row outside the rewrite set that has the URL already, or the best of `ids`. */
    method ChooseKeeper(normalize: string -> string, c: string, ids: seq<Id>, ghost was: Tables) returns (keeper: Id)
      requires Idempotent(normalize) && Unique(was.content) && content == was.content
      requires ids != [] && forall i :: i in ids <==>
        i in Group(normalize, content, c) && Touched(normalize, content, i)
      requires Agree(Group(normalize, content, c), was.tags, tags)
      ensures Survives(normalize, was, keeper) && keeper in Group(normalize, content, c)
      ensures forall j :: j in Group(normalize, content, c) ==> j == keeper || j in ids
    {
      hide Better, Agree, Unique, Idempotent;
      CanonicalIsFixed(normalize, content, c, ids[0]);
      var existing := set j | j in content && content[j].canonical == c && j !in ids;
      if existing != {} {
        keeper :| keeper in existing;
        ExistingSurvives(normalize, was, c, keeper);
      } else {
        assert forall j :: j in content && content[j].canonical == c ==> j in ids by {
          assert forall j :: j in content && content[j].canonical == c && j !in ids ==> j in existing;
        }
        NoneExisting(normalize, content, c, ids);
        hide Group, New, Touched;
        if |ids| > 1 {
          keeper := PickKeeper(ids);
        } else {
          keeper := ids[0];
          BetterIsAnOrder(Now(), keeper, keeper, keeper);
        }
        BestSurvives(normalize, was, Now(), c, keeper);
      }
    }

    /** One iteration over by_canonical: merges the group's tags onto its survivor; the rest of it is to be deleted. */
    method ResolveGroup(normalize: string -> string, c: string, ids: seq<Id>, ghost was: Tables)
      returns (losers: set<Id>, ghost survivor: Id)
      requires Idempotent(normalize) && Unique(was.content) && content == was.content
      requires ids != [] && forall i :: i in ids <==>
        i in Group(normalize, content, c) && Touched(normalize, content, i)
      requires Agree(Group(normalize, content, c), was.tags, tags)
      modifies this`tags
      ensures Survives(normalize, was, survivor) && New(normalize, content, survivor) == c
      ensures losers == (set i | i in ids) - {survivor}
      ensures Carried(Group(normalize, content, c), survivor, was.tags, tags)
      ensures SameOutside(Group(normalize, content, c), old(tags), tags)
      ensures forall k :: k in tags ==> k in old(tags) || k.0 in content
    {
      hide Carried, SameOutside, Agree, Unique, Idempotent, Survives, Touched;
      ghost var group := Group(normalize, content, c);
      var keeper := ChooseKeeper(normalize, c, ids, was);
      losers := (set i | i in ids) - {keeper};
      survivor := keeper;
      assert group == losers + {keeper};
      MergeAssociations(keeper, losers);
      SameTagsCarry(group, keeper, was.tags, old(tags), tags);
      NoStrayTags(group, old(tags), tags);
    }

    /** UPDATE of one row; the database aborts if another row has the canonical URL. */
    method UpdateContent(id: Id, url: string, canonical: string)
      requires id in content && forall j :: j in content && j != id ==> content[j].canonical != canonical
      modifies this`content
      ensures content == old(content)[id := old(content)[id].(url := url, canonical := canonical)]
    {
      content := content[id := content[id].(url := url, canonical := canonical)];
    }

    method ResolveGroups(normalize: string -> string, groups: map<string, seq<Id>>, ghost was: Tables)
      returns (doomed: set<Id>)
      requires Idempotent(normalize) && Unique(was.content) && was == Now()
      requires forall c :: c in groups ==> (groups[c] != []
        && forall i :: i in groups[c] <==> i in Group(normalize, content, c) && Touched(normalize, content, i))
      modifies this`tags
      ensures forall i :: i in doomed <==>
        i in content && Touched(normalize, content, i) && New(normalize, content, i) in groups
          && !Survives(normalize, was, i)
      ensures forall c :: c in groups ==> Settled(normalize, was, c, tags)
      ensures forall c :: c !in groups ==> Agree(Group(normalize, content, c), was.tags, tags)
      ensures forall k :: k in tags ==> k in old(tags) || k.0 in content
    {
      hide Carried, SameOutside, Agree, Unique, Idempotent, Survives, Touched, New, Group, Settled;
      doomed := {};
      var todo := groups.Keys;
      SameTagsAgree(normalize, was);
      while todo != {}
        invariant todo <= groups.Keys && content == was.content
        invariant forall i :: i in doomed <==>
          i in content && Touched(normalize, content, i) && New(normalize, content, i) in groups.Keys - todo
          && !Survives(normalize, was, i)
        invariant forall k :: k in tags ==> k in old(tags) || k.0 in content
        invariant forall c :: c in groups.Keys - todo ==> Settled(normalize, was, c, tags)
        invariant forall c :: c !in groups.Keys - todo ==> Agree(Group(normalize, content, c), was.tags, tags)
        decreases todo
      {
        var c :| c in todo;
        ghost var before := tags;
        var losers, survivor := ResolveGroup(normalize, c, groups[c], was);
        LosersOfGroup(normalize, was, c, groups[c], survivor, losers);
        SettledNow(normalize, was, c, survivor, tags);
        forall d | d != c ensures Settled(normalize, was, d, before) ==> Settled(normalize, was, d, tags)
                          ensures Agree(Group(normalize, content, d), was.tags, before) ==>
                            Agree(Group(normalize, content, d), was.tags, tags) {
          OtherGroup(normalize, was, c, d, before, tags);
        }
        doomed := doomed + losers;
        todo := todo - {c};
      }
    }

    /** The second pass, over the rows that are left. */
    method RewriteSurvivors(normalize: string -> string, rewrites: seq<Rewrite>, ghost was: Tables)
      requires Idempotent(normalize) && Unique(was.content)
      requires forall i :: i in content <==> Survives(normalize, was, i)
      requires forall i :: i in content ==> i in was.content && content[i] == was.content[i]
      requires forall m :: 0 <= m < |rewrites| ==> Faithful(normalize, was.content, rewrites[m])
      requires forall i :: i in was.content && Touched(normalize, was.content, i) ==> HasRewrite(rewrites, i)
      modifies this`content
      ensures content.Keys == old(content).Keys && Unique(content)
      ensures forall i :: i in content ==> i in was.content && content[i] == Renewed(normalize, was.content[i])
    {
      hide Survives, Unique, Idempotent;
      for k := 0 to |rewrites|
        invariant content.Keys == old(content).Keys
        invariant forall i :: i in content ==> (i in was.content
          && content[i] == if HasRewrite(rewrites[..k], i) then Renewed(normalize, was.content[i]) else was.content[i])
      {
        HasRewriteNext(rewrites, k);
        hide HasRewrite;
        var r := rewrites[k];
        assert Faithful(normalize, was.content, r);
        if r.id in content {
          forall j | j in content && j != r.id ensures content[j].canonical != r.canonical {
            NoClash(normalize, was, r.id, j);
          }
          UpdateContent(r.id, r.url, r.canonical);
        }
      }
      assert rewrites[..|rewrites|] == rewrites;
      SurvivorsAreUnique(normalize, was, content);
    }

    /** The migration: `order` is the order in which the query happens to return the rows. */
    method Upgrade(normalize: string -> string, order: seq<Id>)
      requires Idempotent(normalize) && Unique(content) && References(Now())
      requires forall i :: i in order <==> i in content
      requires forall m, n :: 0 <= m < n < |order| ==> order[m] != order[n]
      modifies this
      ensures Migrated(normalize, old(Now()), Now())
      ensures Unique(content) && References(Now())
      ensures (forall i :: i in old(content) ==> !Touched(normalize, old(content), i)) ==>
        content == old(content) && tags == old(tags)
      ensures forall j :: j in old(content) && j !in content ==>
        exists k :: k in content && Supersedes(normalize, old(Now()), k, j)
      ensures forall k :: k in content ==>
        k in old(content) && RewrittenTo(normalize, old(content)[k], content[k])
        && forall t :: TagFromGroup(normalize, old(Now()), Now(), k, t)
    {
      hide Survives, Unique, Idempotent, References, Settled, Agree, Touched, New, Renewed, Supersedes, RewrittenTo,
           TagFromGroup;
      ghost var was := Now();
      TagsReference(was);
      var rewrites := CollectRewrites(normalize, order);
      if rewrites == [] {
        NothingToDo(normalize, was);
        MigrationTold(normalize, was, Now());
        return;
      }
      assert Faithful(normalize, content, rewrites[0]);
      var groups := GroupByCanonical(rewrites);
      GroupsOfTouched(normalize, content, rewrites, groups);
      var doomed := ResolveGroups(normalize, groups, was);
      content := content - doomed;
      SurvivorsRemain(normalize, was, groups.Keys, content, tags);
      RewriteSurvivors(normalize, rewrites, was);
      TagsOfSurvivors(normalize, was, content, tags);
      MigrationTold(normalize, was, Now());
    }
  }

  /** Both URLs are normalized unless they are empty, and nothing else of the row changes. */
  predicate RewrittenTo(normalize: string -> string, was: Row, now: Row) {
    && now.url == (if was.url != "" then normalize(was.url) else "")
    && now.canonical == (if was.canonical != "" then normalize(was.canonical) else "")
    && now.discovered == was.discovered
  }

  /** Old row i has thinker t and comes to have that canonical URL. */
  predicate Contributes(normalize: string -> string, was: Tables, canonical: string, i: Id, t: Thinker) {
    && i in was.content && (i, t) in was.tags
    && canonical == if was.content[i].canonical != "" then normalize(was.content[i].canonical) else ""
  }

  /**
   Row k has thinker t exactly if an old row whose URL it now has had t; it keeps its own tag, or else has that
   of such a row.
   */
  ghost predicate TagFromGroup(normalize: string -> string, was: Tables, now: Tables, k: Id, t: Thinker)
    requires k in now.content
  {
    && ((k, t) in now.tags ==>
          exists i: Id ::
            Contributes(normalize, was, now.content[k].canonical, i, t) && now.tags[(k, t)] == was.tags[(i, t)])
    && (forall i: Id :: Contributes(normalize, was, now.content[k].canonical, i, t) ==> (k, t) in now.tags)
    && ((k, t) in was.tags ==> (k, t) in now.tags && now.tags[(k, t)] == was.tags[(k, t)])
  }

  lemma MigrationTold(normalize: string -> string, was: Tables, now: Tables)
    requires Unique(was.content) && Migrated(normalize, was, now)
    ensures forall k :: k in now.content ==>
      k in was.content && RewrittenTo(normalize, was.content[k], now.content[k])
      && forall t :: TagFromGroup(normalize, was, now, k, t)
    ensures forall j :: j in was.content && j !in now.content ==>
      exists k :: k in now.content && Supersedes(normalize, was, k, j)
  {
    hide TagFromGroup, Carried, Survives, Settled, Unique, Supersedes;
    forall j | j in was.content && j !in now.content
      ensures exists k :: k in now.content && Supersedes(normalize, was, k, j)
    {
      var k := DeletedIsSuperseded(normalize, was, now, j);
    }
    forall k | k in now.content
      ensures k in was.content && RewrittenTo(normalize, was.content[k], now.content[k])
      ensures forall t :: TagFromGroup(normalize, was, now, k, t)
    {
      assert now.content[k] == Renewed(normalize, was.content[k]);
      var c := New(normalize, was.content, k);
      var survivor := OneRowPerUrl(normalize, was, now, k);
      assert k in Group(normalize, was.content, c) && survivor == k;
      forall t ensures TagFromGroup(normalize, was, now, k, t) {
        CarriedTag(normalize, was, now, k, t);
      }
    }
  }

  lemma CarriedTag(normalize: string -> string, was: Tables, now: Tables, k: Id, t: Thinker)
    requires k in now.content && k in was.content && now.content[k] == Renewed(normalize, was.content[k])
    requires Carried(Group(normalize, was.content, New(normalize, was.content, k)), k, was.tags, now.tags)
    ensures TagFromGroup(normalize, was, now, k, t)
  {
    var group := Group(normalize, was.content, New(normalize, was.content, k));
    assert forall i: Id ::
      Contributes(normalize, was, now.content[k].canonical, i, t) <==> i in group && (i, t) in was.tags;
  }

  /** Row k stands for row j of its group: it needed no rewriting or it outranks j. */
  predicate Supersedes(normalize: string -> string, was: Tables, k: Id, j: Id) {
    && k in was.content && j in was.content
    && Renewed(normalize, was.content[k]).canonical == Renewed(normalize, was.content[j]).canonical
    && (Renewed(normalize, was.content[k]) == was.content[k] || Outranks(was, k, j))
  }

  lemma DeletedIsSuperseded(normalize: string -> string, was: Tables, now: Tables, j: Id) returns (k: Id)
    requires Migrated(normalize, was, now) && j in was.content && j !in now.content
    ensures k in now.content && Supersedes(normalize, was, k, j)
  {
    hide Settled, Better, Outranks;
    k := SurvivorOf(normalize, was, now, j);
    if Touched(normalize, was.content, k) {
      assert j in Group(normalize, was.content, New(normalize, was.content, k));
      UnbeatenOutranks(was, k, j);
    }
  }

  lemma SurvivorOf(normalize: string -> string, was: Tables, now: Tables, j: Id) returns (k: Id)
    requires Migrated(normalize, was, now) && j in was.content
    ensures k in now.content && Survives(normalize, was, k)
    ensures New(normalize, was.content, k) == New(normalize, was.content, j)
  {
    hide Survives, Carried;
    assert Settled(normalize, was, New(normalize, was.content, j), now.tags);
    k :| Survives(normalize, was, k) && New(normalize, was.content, k) == New(normalize, was.content, j)
      && Carried(Group(normalize, was.content, New(normalize, was.content, j)), k, was.tags, now.tags);
  }

  lemma MergedIsCarried(keeper: Id, losers: set<Id>, before: Tags, inserted: Tags, after: Tags)
    requires keeper !in losers
    requires forall k :: k in before ==> k in inserted && inserted[k] == before[k]
    requires forall k :: k in inserted && k !in before ==>
      k.0 == keeper && exists i :: i in losers && (i, k.1) in before && inserted[k] == before[(i, k.1)]
    requires forall k :: k in before && k.0 in losers ==> (keeper, k.1) in inserted
    requires after == map k | k in inserted && k.0 !in losers :: inserted[k]
    ensures Carried(losers + {keeper}, keeper, before, after) && SameOutside(losers + {keeper}, before, after)
  {
    var group := losers + {keeper};
    forall t ensures (keeper, t) in after <==> exists i :: i in group && (i, t) in before {
      if i :| i in group && (i, t) in before { assert (i, t).0 == i && (i, t).1 == t; }
      if (keeper, t) in after && (keeper, t) !in before {
        assert (keeper, t).1 == t;
        var i :| i in losers && (i, t) in before;
        assert i in group && (i, t) in before;
      }
    }
    forall t | (keeper, t) in after
      ensures exists i :: i in group && (i, t) in before && after[(keeper, t)] == before[(i, t)]
    {
      assert (keeper, t).1 == t;
      if (keeper, t) in before {
        assert keeper in group;
      } else {
        var i :| i in losers && (i, t) in before && inserted[(keeper, t)] == before[(i, t)];
        assert i in group;
      }
    }
  }

  /** Each old row's canonical URL is on exactly one row after the migration, the survivor of its group. */
  lemma OneRowPerUrl(normalize: string -> string, was: Tables, now: Tables, i: Id) returns (k: Id)
    requires Unique(was.content) && Migrated(normalize, was, now) && i in was.content
    ensures k in now.content && now.content[k].canonical == New(normalize, was.content, i)
    ensures Carried(Group(normalize, was.content, New(normalize, was.content, i)), k, was.tags, now.tags)
    ensures forall j :: j in now.content && j in Group(normalize, was.content, New(normalize, was.content, i)) ==>
      j == k
  {
    hide Survives, Unique, Carried;
    var c := New(normalize, was.content, i);
    assert Settled(normalize, was, c, now.tags);
    k :| Survives(normalize, was, k) && New(normalize, was.content, k) == c
      && Carried(Group(normalize, was.content, c), k, was.tags, now.tags);
    forall j | j in now.content && j in Group(normalize, was.content, c) ensures j == k {
      OneSurvivor(normalize, was, j, k);
    }
  }

  lemma RowIsNormalized(normalize: string -> string, was: Tables, now: Tables, i: Id)
    requires Idempotent(normalize) && Migrated(normalize, was, now) && i in now.content
    ensures i in was.content && !Touched(normalize, now.content, i)
    ensures now.content[i].canonical == New(normalize, was.content, i)
  {
    RenewedIsStable(normalize, was.content[i]);
  }

  /**
   What Upgrade's contract means for the tables it leaves: every URL is normalized, so
   that a second run has nothing to do, and the canonical URLs are exactly the
   normalized old ones.
   */
  lemma AfterMigration(normalize: string -> string, was: Tables, now: Tables)
    requires Idempotent(normalize) && Unique(was.content) && Migrated(normalize, was, now)
    ensures forall i :: i in now.content ==> !Touched(normalize, now.content, i)
    ensures forall c :: (exists i :: i in now.content && now.content[i].canonical == c) <==>
      Group(normalize, was.content, c) != {}
  {
    hide Migrated, Touched, Idempotent, Unique;
    forall i | i in now.content ensures !Touched(normalize, now.content, i) {
      RowIsNormalized(normalize, was, now, i);
    }
    forall c
      ensures (exists i :: i in now.content && now.content[i].canonical == c) <==>
        Group(normalize, was.content, c) != {}
    {
      if i :| i in now.content && now.content[i].canonical == c {
        RowIsNormalized(normalize, was, now, i);
        assert i in Group(normalize, was.content, c);
      } else if Group(normalize, was.content, c) != {} {
        var i :| i in Group(normalize, was.content, c);
        var k := OneRowPerUrl(normalize, was, now, i);
      }
    }
  }
}
