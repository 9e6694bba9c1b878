/**
 What re-normalizing every content URL must leave behind: one row per canonical
 URL, chosen by the keeper policy, with its whole group's thinker tags.
 */
module Renormalization {
  import opened Options

  /** Ids stand for their texts, in the texts' order. */
  type Id = nat
  type Thinker = nat

  datatype Row = Row(url: string, canonical: string, discovered: Option<int>)
  datatype Tag = Tag(role: string, confidence: int, addedAt: int)
  type Tags = map<(Id, Thinker), Tag>

  datatype Tables = Tables(content: map<Id, Row>, tags: Tags)

  /** The documented contract of normalize_url. */
  ghost predicate Idempotent(normalize: string -> string) {
    forall u :: normalize(normalize(u)) == normalize(u)
  }

  function Norm(normalize: string -> string, u: string): string {
    if u == "" then u else normalize(u)
  }

  function Renewed(normalize: string -> string, r: Row): Row {
    r.(url := Norm(normalize, r.url), canonical := Norm(normalize, r.canonical))
  }

  lemma RenewedIsStable(normalize: string -> string, r: Row)
    requires Idempotent(normalize)
    ensures Renewed(normalize, Renewed(normalize, r)) == Renewed(normalize, r)
  {
    assert normalize(normalize(r.url)) == normalize(r.url);
    assert normalize(normalize(r.canonical)) == normalize(r.canonical);
  }

  /** The UNIQUE constraint on canonical_url. */
  predicate Unique(content: map<Id, Row>) {
    forall i, j :: i in content && j in content && i != j ==> content[i].canonical != content[j].canonical
  }

  predicate References(t: Tables) {
    forall k :: k in t.tags ==> k.0 in t.content
  }

  predicate Touched(normalize: string -> string, content: map<Id, Row>, i: Id)
    requires i in content
  {
    Renewed(normalize, content[i]) != content[i]
  }

  function New(normalize: string -> string, content: map<Id, Row>, i: Id): string
    requires i in content
  {
    Norm(normalize, content[i].canonical)
  }

  /** The rows that would share the canonical URL c. */
  function Group(normalize: string -> string, content: map<Id, Row>, c: string): set<Id> {
    set i | i in content && New(normalize, content, i) == c
  }

  function TagCount(tags: Tags, i: Id): nat {
    |set k | k in tags && k.0 == i|
  }

  /** Most tags, then newest (unknown last), then smallest id. */
  predicate Better(t: Tables, i: Id, j: Id)
    requires i in t.content && j in t.content
  {
    var m, n := TagCount(t.tags, i), TagCount(t.tags, j);
    m > n || (m == n && (Newer(t.content[i], t.content[j])
                         || (t.content[i].discovered == t.content[j].discovered && i < j)))
  }

  predicate Newer(a: Row, b: Row) {
    a.discovered.Some? && (b.discovered.None? || a.discovered.value > b.discovered.value)
  }

  /**
   Row i is to be kept rather than row j: it has more tags, or as many and is known to be newer, or as many,
   the same date and the smaller id.
   */
  predicate Outranks(t: Tables, i: Id, j: Id)
    requires i in t.content && j in t.content
  {
    var m, n := |set k | k in t.tags && k.0 == i|, |set k | k in t.tags && k.0 == j|;
    var d, e := t.content[i].discovered, t.content[j].discovered;
    || m > n
    || (m == n && d.Some? && (e.None? || e.value < d.value))
    || (m == n && d == e && i < j)
  }

  /** What no row beats outranks all others. */
  lemma UnbeatenOutranks(t: Tables, i: Id, j: Id)
    requires i in t.content && j in t.content && i != j && !Better(t, j, i)
    ensures Outranks(t, i, j)
  {
  }

  lemma BetterIsAnOrder(t: Tables, i: Id, j: Id, k: Id)
    requires i in t.content && j in t.content && k in t.content
    ensures i != j ==> Better(t, i, j) != Better(t, j, i)
    ensures !Better(t, i, i)
    ensures !Better(t, i, j) && Better(t, k, j) ==> !Better(t, i, k)
  {
    hide TagCount;
  }

  /** The survivor of its group: the row that needs no rewriting, if there is one, or else the best. */
  ghost predicate Survives(normalize: string -> string, t: Tables, k: Id) {
    && k in t.content
    && var group := Group(normalize, t.content, New(normalize, t.content, k));
       if exists u :: u in group && !Touched(normalize, t.content, u) then !Touched(normalize, t.content, k)
       else forall j :: j in group ==> !Better(t, j, k)
  }

  /** A row left alone is where its own canonical URL says. */
  lemma UntouchedIsUnique(normalize: string -> string, t: Tables, u: Id, v: Id)
    requires Unique(t.content) && u in t.content && v in t.content
    requires !Touched(normalize, t.content, u) && New(normalize, t.content, v) == New(normalize, t.content, u)
    ensures t.content[u].canonical == New(normalize, t.content, u)
    ensures !Touched(normalize, t.content, v) ==> u == v
  {
  }

  lemma OneSurvivor(normalize: string -> string, t: Tables, i: Id, j: Id)
    requires Unique(t.content) && Survives(normalize, t, i) && Survives(normalize, t, j)
    requires New(normalize, t.content, i) == New(normalize, t.content, j)
    ensures i == j
  {
    hide Better;
    BetterIsAnOrder(t, i, j, i);
    if !Touched(normalize, t.content, i) {
      UntouchedIsUnique(normalize, t, i, j);
      assert i in Group(normalize, t.content, New(normalize, t.content, j));
    }
  }

  /** Updating survivors one after the other never meets a row that already has the new URL. */
  lemma NoClash(normalize: string -> string, t: Tables, i: Id, j: Id)
    requires Idempotent(normalize) && Unique(t.content)
    requires Survives(normalize, t, i) && Survives(normalize, t, j) && i != j
    ensures New(normalize, t.content, i) != New(normalize, t.content, j)
    ensures New(normalize, t.content, i) != t.content[j].canonical
  {
    assert i in t.content && j in t.content;
    hide Survives;
    if New(normalize, t.content, i) == New(normalize, t.content, j) {
      OneSurvivor(normalize, t, i, j);
    }
    RenewedIsStable(normalize, t.content[i]);
  }

  /**
   The keeper has its group's tags: its own as they were, the others from some row of the group; the rest
   have none.
   */
  ghost predicate Carried(group: set<Id>, keeper: Id, before: Tags, after: Tags) {
    && (forall t :: (keeper, t) in after <==> exists i :: i in group && (i, t) in before)
    && (forall t :: (keeper, t) in before ==> (keeper, t) in after && after[(keeper, t)] == before[(keeper, t)])
    && (forall t :: (keeper, t) in after ==>
      exists i :: i in group && (i, t) in before && after[(keeper, t)] == before[(i, t)])
    && (forall k :: k in after && k.0 in group ==> k.0 == keeper)
  }

  predicate SameOutside(group: set<Id>, before: Tags, after: Tags) {
    && (forall k :: k in before && k.0 !in group ==> k in after && after[k] == before[k])
    && (forall k :: k in after && k.0 !in group ==> k in before)
  }

  ghost predicate Agree(group: set<Id>, a: Tags, b: Tags) {
    forall k: (Id, Thinker) :: k.0 in group ==> (k in a <==> k in b) && (k in a ==> a[k] == b[k])
  }

  lemma AloneIsCarried(k: Id, tags: Tags)
    ensures Carried({k}, k, tags, tags)
  {
    assert forall t :: (k, t) in tags ==> k in {k} && (k, t) in tags;
  }

  /** Only the group's own tags matter to what it carries. */
  lemma CarriedBySameTags(group: set<Id>, k: Id, before: Tags, before': Tags, after: Tags, after': Tags)
    requires Carried(group, k, before, after) && k in group
    requires Agree(group, before, before') && Agree(group, after, after')
    ensures Carried(group, k, before', after')
  {
    forall t ensures (k, t) in after' <==> exists i :: i in group && (i, t) in before' {
      if i :| i in group && (i, t) in before' { assert (i, t).0 in group && (i, t) in before; }
      if (k, t) in after' {
        var i :| i in group && (i, t) in before;
        assert (i, t).0 in group;
      }
    }
    forall t | (k, t) in after'
      ensures exists i :: i in group && (i, t) in before' && after'[(k, t)] == before'[(i, t)]
    {
      assert (k, t).0 in group && (k, t) in after;
      var i :| i in group && (i, t) in before && after[(k, t)] == before[(i, t)];
      assert (i, t).0 in group;
    }
  }
}
