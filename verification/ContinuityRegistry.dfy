/** The registry views that the three lineage engines share: entries, the merged index, the
    children map and the count of equal registry hashes. */
module ContinuityRegistry {
  import opened Prelude

  datatype Id = Id(text: string)

  /** `expiresAt` is the parsed expiry in milliseconds, when it parses. */
  datatype Entry = Entry(id: Id, parent: Option<Id>, hash: string, status: string, revoked: bool, expiresAt: Option<int>)

  datatype View = View(entries: seq<Entry>, registryHash: string)

  predicate Active(e: Entry) { e.status == "ACTIVE" }

  predicate Live(e: Entry) { Active(e) && !e.revoked }

  predicate Expired(e: Entry, now: int) { e.expiresAt.Some? && e.expiresAt.value <= now }

  predicate Barriered(e: Entry, now: int) { !Live(e) || Expired(e, now) }

  /** An insertion-ordered map from ids to entries. */
  datatype Index = Index(order: seq<Id>, at: map<Id, Entry>) {
    ghost predicate Valid() {
      && Distinct(order)
      && (forall x :: x in order <==> x in at)
      && (forall x :: x in at ==> at[x].id == x)
    }

    function Links(): map<Id, Id> {
      map x | x in at && at[x].parent.Some? :: at[x].parent.value
    }
  }

  /** An entry whose parent is not in the index. */
  ghost predicate Orphan(index: Index, x: Id) {
    x in index.at && index.at[x].parent.Some? && index.at[x].parent.value !in index.at
  }

  function Flatten(views: seq<View>): seq<Entry> {
    if views == [] then [] else Flatten(views[..|views| - 1]) + views[|views| - 1].entries
  }

  /** The last entry with the given id. */
  function Latest(entries: seq<Entry>, x: Id): Option<Entry> {
    if entries == [] then None
    else if entries[|entries| - 1].id == x then Some(entries[|entries| - 1])
    else Latest(entries[..|entries| - 1], x)
  }

  ghost predicate Merges(index: Index, entries: seq<Entry>) {
    forall x :: Latest(entries, x) == if x in index.at then Some(index.at[x]) else None
  }

  /** Later entries overwrite earlier ones and keep their place in the order. */
  method MergeViews(views: seq<View>) returns (index: Index)
    ensures index.Valid() && Merges(index, Flatten(views))
  {
    index := Index([], map[]);
    for i := 0 to |views|
      invariant index.Valid() && Merges(index, Flatten(views[..i]))
    {
      index := MergeEntries(index, views[i].entries, Flatten(views[..i]));
      assert views[..i + 1][..i] == views[..i];
    }
    assert views[..|views|] == views;
  }

  method MergeEntries(start: Index, entries: seq<Entry>, ghost before: seq<Entry>) returns (index: Index)
    requires start.Valid() && Merges(start, before)
    ensures index.Valid() && Merges(index, before + entries)
  {
    index := start;
    assert before + entries[..0] == before;
    for j := 0 to |entries|
      invariant index.Valid() && Merges(index, before + entries[..j])
    {
      var e := entries[j];
      assert before + entries[..j + 1] == (before + entries[..j]) + [e];
      index := SetEntry(index, e, before + entries[..j]);
    }
    assert entries[..|entries|] == entries;
  }

  method SetEntry(start: Index, e: Entry, ghost before: seq<Entry>) returns (index: Index)
    requires start.Valid() && Merges(start, before)
    ensures index.Valid() && Merges(index, before + [e])
  {
    ghost var longer := before + [e];
    assert longer[..|longer| - 1] == before;
    index := Index(if e.id in start.at then start.order else start.order + [e.id], start.at[e.id := e]);
  }

  // ----- Children -----

  function Kids(children: map<Id, seq<Id>>, p: Id): seq<Id> { if p in children then children[p] else [] }

  /** Every list holds exactly the entries that name its key as parent, once each. */
  ghost predicate ChildLists(children: map<Id, seq<Id>>, links: map<Id, Id>) {
    && (forall p :: Distinct(Kids(children, p)))
    && (forall p, c :: c in Kids(children, p) <==> c in links && links[c] == p)
  }

  method BuildChildrenMap(index: Index) returns (children: map<Id, seq<Id>>)
    requires index.Valid()
    ensures ChildLists(children, index.Links())
  {
    children := map[];
    for i := 0 to |index.order|
      invariant ListsFrom(children, index, i)
    {
      hide ListsFrom;
      var e := index.at[index.order[i]];
      var before := children;
      if e.parent.Some? {
        children := children[e.parent.value := Kids(children, e.parent.value) + [e.id]];
      }
      NextChild(before, children, index, i);
    }
    assert index.order[..|index.order|] == index.order;
  }

  /** The lists of the first `n` entries. */
  ghost predicate ListsFrom(children: map<Id, seq<Id>>, index: Index, n: nat)
    requires index.Valid() && n <= |index.order|
  {
    && (forall p :: Distinct(Kids(children, p)))
    && (forall p, c :: c in Kids(children, p) <==> c in index.order[..n] && index.at[c].parent == Some(p))
  }

  lemma NextChild(before: map<Id, seq<Id>>, children: map<Id, seq<Id>>, index: Index, i: nat)
    requires index.Valid() && i < |index.order| && ListsFrom(before, index, i)
    requires var e := index.at[index.order[i]];
      children == if e.parent.Some? then before[e.parent.value := Kids(before, e.parent.value) + [e.id]] else before
    ensures ListsFrom(children, index, i + 1)
  {
    var e := index.at[index.order[i]];
    assert e.id == index.order[i];
    assert e.id !in index.order[..i];
    assert index.order[..i + 1] == index.order[..i] + [e.id];
    if e.parent.Some? {
      var p := e.parent.value;
      DistinctAppend(Kids(before, p), e.id);
      assert forall q :: Kids(children, q) == if q == p then Kids(before, p) + [e.id] else Kids(before, q);
    }
    hide Kids, Distinct;
  }

  // ----- Convergence -----

  function CountHash(views: seq<View>, h: string): nat {
    if views == [] then 0
    else CountHash(views[..|views| - 1], h) + if views[|views| - 1].registryHash == h then 1 else 0
  }

  ghost predicate OneHash(views: seq<View>) {
    forall i, j :: 0 <= i < |views| && 0 <= j < |views| ==> views[i].registryHash == views[j].registryHash
  }

  /** The hash with the most views, and how many they are. */
  method TopHash(views: seq<View>) returns (topHash: string, topCount: nat)
    ensures forall h :: CountHash(views, h) <= topCount
    ensures views != [] ==> CountHash(views, topHash) == topCount
    ensures views != [] ==> (topCount == |views| <==> OneHash(views))
  {
    var order: seq<string>, counts: map<string, nat> := [], map[];
    for i := 0 to |views|
      invariant forall h :: h in order <==> h in counts
      invariant forall h :: CountHash(views[..i], h) == if h in counts then counts[h] else 0
      invariant i > 0 ==> order != []
      invariant forall h :: h in counts ==> counts[h] > 0
    {
      var h := views[i].registryHash;
      assert views[..i + 1][..i] == views[..i];
      if h !in counts { order := order + [h]; }
      counts := counts[h := (if h in counts then counts[h] else 0) + 1];
    }
    assert views[..|views|] == views;
    topHash, topCount := "", 0;
    for i := 0 to |order|
      invariant forall k :: 0 <= k < i ==> counts[order[k]] <= topCount
      invariant i > 0 ==> topHash in counts && counts[topHash] == topCount
      invariant i == 0 ==> topCount == 0
    {
      if counts[order[i]] > topCount {
        topCount := counts[order[i]];
        topHash := order[i];
      }
    }
    if views != [] {
      CountAll(views, topHash);
      if OneHash(views) {
        CountAll(views, views[0].registryHash);
      }
    }
  }

  lemma {:induction false} CountAll(views: seq<View>, h: string)
    ensures CountHash(views, h) <= |views|
    ensures CountHash(views, h) == |views| <==> forall i :: 0 <= i < |views| ==> views[i].registryHash == h
  {
    if views != [] {
      CountAll(views[..|views| - 1], h);
    }
  }
}
