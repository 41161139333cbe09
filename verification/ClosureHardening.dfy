/** src/continuity-lineage-closure-hardening.ts: the ancestry walk with its five failures, orphan
    subtree collapse, the equivalence audit and the closure verdict. */
module ClosureHardening {
  import opened Prelude
  import opened ContinuityRegistry
  import opened Ancestry

  datatype Failure = CycleDetected | DepthExceeded | DetachedLineage | RevokedAncestor | ExpiredAncestor

  datatype Traversal = Traversal(start: Id, chain: seq<Id>, failure: Option<Failure>, root: Option<Id>)

  datatype Subtree = Subtree(orphanRoot: Id, missingParent: Id, affected: seq<Id>)

  datatype Outcome =
    | ClosureVerified | BrokenCycle | BrokenDepth | BrokenDetached | BrokenOrphan | PartialVisibility | NullClosure

  predicate ExpiredOnly(e: Entry, now: int) { Live(e) && Expired(e, now) }

  // ----- Ancestry walk -----

  ghost predicate Clean(index: Index, now: int, x: Id) {
    x in index.at && !Barriered(index.at[x], now)
  }

  /** The chain holds the first ids on the way up from `start`, without repeats, all but the last one clean. */
  ghost predicate Passed(index: Index, now: int, start: Id, chain: seq<Id>) {
    && chain != [] && Distinct(chain)
    && (forall i :: 0 <= i < |chain| ==> Up(index.Links(), start, i) == Some(chain[i]))
    && forall i :: 0 <= i < |chain| - 1 ==> Clean(index, now, chain[i])
  }

  /** The walk stops at the first id that repeats, lies too far up, is missing or is barriered, or
      at a root; the chain lists the ids it passed. */
  ghost predicate ExactWalk(t: Traversal, index: Index, now: int, maxDepth: nat) {
    var n := |t.chain|;
    && Passed(index, now, t.start, t.chain)
    && n <= maxDepth + 1
    && (n == maxDepth + 1 <==> t.failure == Some(DepthExceeded))
    && (t.root == if t.failure == None then Some(t.chain[n - 1]) else None)
    && var last := t.chain[n - 1];
       match t.failure
       case None => if last in index.at then Clean(index, now, last) && index.at[last].parent == None else n == 1
       case Some(CycleDetected) => Clean(index, now, last) && index.at[last].parent.Some? && index.at[last].parent.value in t.chain
       case Some(DepthExceeded) => true
       case Some(DetachedLineage) => last !in index.at && n > 1
       case Some(RevokedAncestor) => last in index.at && !Live(index.at[last])
       case Some(ExpiredAncestor) => last in index.at && ExpiredOnly(index.at[last], now)
  }

  lemma PassFirst(index: Index, now: int, start: Id)
    ensures Passed(index, now, start, [start])
  {
    assert Up(index.Links(), start, 0) == Some(start);
  }

  lemma PassNext(index: Index, now: int, start: Id, chain: seq<Id>, next: Id)
    requires Passed(index, now, start, chain) && Clean(index, now, chain[|chain| - 1])
    requires index.at[chain[|chain| - 1]].parent == Some(next) && next !in chain
    ensures Passed(index, now, start, chain + [next])
  {
    DistinctAppend(chain, next);
    UpNext(index.Links(), start, |chain| - 1);
  }

  /** Where the walk is before its next step: at the start, or at the parent of a clean last id. */
  ghost predicate Walking(index: Index, now: int, start: Id, chain: seq<Id>, current: Option<Id>) {
    if chain == [] then current == Some(start)
    else Passed(index, now, start, chain) && Clean(index, now, chain[|chain| - 1]) && index.at[chain[|chain| - 1]].parent == current
  }

  lemma WalkingStep(index: Index, now: int, start: Id, chain: seq<Id>, current: Id)
    requires Walking(index, now, start, chain, Some(current)) && current !in chain
    ensures Passed(index, now, start, chain + [current])
  {
    hide Passed, Clean;
    if chain == [] {
      assert chain + [current] == [current];
      PassFirst(index, now, start);
    } else {
      PassNext(index, now, start, chain, current);
    }
  }

  method TraverseContinuityAncestry(start: Id, index: Index, maxDepth: nat, now: int) returns (t: Traversal)
    requires index.Valid()
    ensures t.start == start && ExactWalk(t, index, now, maxDepth)
  {
    hide Passed;
    var visited: set<Id>, chain: seq<Id>, current := {}, [], Some(start);
    while current.Some?
      invariant |chain| <= maxDepth && Walking(index, now, start, chain, current)
      invariant forall y :: y in visited <==> y in chain
      decreases maxDepth - |chain|, current
    {
      if current.value in visited {
        return Traversal(start, chain, Some(CycleDetected), None);
      }
      WalkingStep(index, now, start, chain, current.value);
      visited := visited + {current.value};
      chain := chain + [current.value];
      if |chain| > maxDepth {
        return Traversal(start, chain, Some(DepthExceeded), None);
      }
      if current.value !in index.at {
        if |chain| > 1 {
          return Traversal(start, chain, Some(DetachedLineage), None);
        }
        break;
      }
      var node := index.at[current.value];
      if Barriered(node, now) {
        return Traversal(start, chain, Some(if ExpiredOnly(node, now) then ExpiredAncestor else RevokedAncestor), None);
      }
      current := node.parent;
    }
    t := Traversal(start, chain, None, Some(chain[|chain| - 1]));
  }

  /** The promises of the walk leave only one possible result. */
  lemma WalkIsDetermined(t: Traversal, u: Traversal, index: Index, now: int, maxDepth: nat)
    requires ExactWalk(t, index, now, maxDepth) && ExactWalk(u, index, now, maxDepth) && t.start == u.start
    ensures t == u
  {
    ChainsAgree(t, u, index, now, maxDepth);
    ChainsAgree(u, t, index, now, maxDepth);
    assert forall i :: 0 <= i < |t.chain| ==> Some(t.chain[i]) == Up(index.Links(), t.start, i) == Some(u.chain[i]);
    assert t.chain == u.chain;
  }

  lemma ChainsAgree(t: Traversal, u: Traversal, index: Index, now: int, maxDepth: nat)
    requires ExactWalk(t, index, now, maxDepth) && ExactWalk(u, index, now, maxDepth) && t.start == u.start
    ensures |u.chain| <= |t.chain|
  {
    UpNext(index.Links(), t.start, |t.chain| - 1);
    assert forall i :: 0 <= i < |u.chain| ==> Up(index.Links(), t.start, i) == Some(u.chain[i]);
    assert forall i :: 0 <= i < |t.chain| ==> Up(index.Links(), t.start, i) == Some(t.chain[i]);
  }

  // ----- Orphaned subtrees -----

  ghost predicate AtOrBelow(links: Links, r: Id, x: Id) {
    exists n: nat :: Up(links, x, n) == Some(r)
  }

  method CollectSubtree(start: Id, children: map<Id, seq<Id>>, ghost index: Index) returns (result: seq<Id>)
    requires index.Valid() && ChildLists(children, index.Links())
    ensures Distinct(result) && forall x :: x in result <==> AtOrBelow(index.Links(), start, x)
  {
    ghost var links := index.Links();
    result := [];
    var queue, visited: set<Id> := [start], {};
    StartIsBelow(links, start);
    hide AtOrBelow, Kids, Index.Links;
    while queue != []
      invariant Distinct(result) && forall x :: x in result <==> x in visited
      invariant visited <= index.at.Keys + {start}
      invariant forall x :: x in visited || x in queue ==> AtOrBelow(links, start, x) && x in index.at.Keys + {start}
      invariant start in visited || start in queue
      invariant forall c :: c in links && links[c] in visited ==> c in visited || c in queue
      decreases index.at.Keys + {start} - visited, |queue|
    {
      var id := queue[0];
      assert forall x :: x in queue <==> x == id || x in queue[1..];
      queue := queue[1..];
      if id !in visited {
        visited := visited + {id};
        DistinctAppend(result, id);
        result := result + [id];
        KidsAreBelow(children, index, start, id);
        queue := queue + Kids(children, id);
      }
    }
    forall x | AtOrBelow(links, start, x) ensures x in visited { BelowIsVisited(links, start, visited, x); }
  }

  lemma StartIsBelow(links: Links, start: Id)
    ensures AtOrBelow(links, start, start)
  {
    assert Up(links, start, 0) == Some(start);
  }

  lemma KidsAreBelow(children: map<Id, seq<Id>>, index: Index, start: Id, id: Id)
    requires ChildLists(children, index.Links()) && AtOrBelow(index.Links(), start, id)
    ensures forall c :: c in Kids(children, id) <==> c in index.Links() && index.Links()[c] == id
    ensures forall c :: c in Kids(children, id) ==> AtOrBelow(index.Links(), start, c) && c in index.at
  {
    var n: nat :| Up(index.Links(), id, n) == Some(start);
    forall c | c in Kids(children, id) ensures AtOrBelow(index.Links(), start, c) {
      assert Up(index.Links(), c, n + 1) == Some(start);
    }
  }

  lemma BelowIsVisited(links: Links, start: Id, visited: set<Id>, x: Id)
    requires AtOrBelow(links, start, x) && start in visited
    requires forall c :: c in links && links[c] in visited ==> c in visited
    ensures x in visited
  {
    var n: nat :| Up(links, x, n) == Some(start);
    StepsAreVisited(links, start, visited, x, n);
  }

  lemma {:induction false} StepsAreVisited(links: Links, start: Id, visited: set<Id>, x: Id, n: nat)
    requires start in visited && Up(links, x, n) == Some(start)
    requires forall c :: c in links && links[c] in visited ==> c in visited
    ensures x in visited
    decreases n
  {
    if n > 0 {
      StepsAreVisited(links, start, visited, links[x], n - 1);
    }
  }

  ghost predicate ExactSubtrees(subtrees: seq<Subtree>, index: Index, orphans: set<Id>) {
    && (forall i :: 0 <= i < |subtrees| ==> ExactSubtree(subtrees[i], index) && subtrees[i].orphanRoot in orphans)
    && (forall i, j :: 0 <= i < j < |subtrees| ==> subtrees[i].orphanRoot != subtrees[j].orphanRoot)
    && (forall x :: x in orphans ==> exists s :: s in subtrees && s.orphanRoot == x)
  }

  ghost predicate ExactSubtree(s: Subtree, index: Index) {
    && Orphan(index, s.orphanRoot) && index.at[s.orphanRoot].parent == Some(s.missingParent)
    && Distinct(s.affected)
    && forall x :: x in s.affected <==> AtOrBelow(index.Links(), s.orphanRoot, x)
  }

  ghost function Orphans(index: Index): set<Id> { set x | x in index.at && Orphan(index, x) }

  method CollapseOrphanedSubtrees(index: Index) returns (subtrees: seq<Subtree>)
    requires index.Valid()
    ensures ExactSubtrees(subtrees, index, Orphans(index))
  {
    var children := BuildChildrenMap(index);
    subtrees := [];
    hide ExactSubtrees, AtOrBelow, Index.Links;
    assert ExactSubtrees([], index, {}) by { EmptySubtrees(index); }
    for i := 0 to |index.order|
      invariant ExactSubtrees(subtrees, index, OrphansAmong(index, i))
    {
      var id := index.order[i];
      assert index.order[..i + 1] == index.order[..i] + [id];
      var parent := index.at[id].parent;
      if parent.Some? && parent.value !in index.at {
        var affected := CollectSubtree(id, children, index);
        AddSubtree(subtrees, Subtree(id, parent.value, affected), index, i);
        subtrees := subtrees + [Subtree(id, parent.value, affected)];
      }
      assert OrphansAmong(index, i + 1) == if Orphan(index, id) then OrphansAmong(index, i) + {id} else OrphansAmong(index, i);
    }
    assert index.order[..|index.order|] == index.order;
    assert Orphans(index) == OrphansAmong(index, |index.order|);
  }

  ghost function OrphansAmong(index: Index, i: nat): set<Id>
    requires i <= |index.order|
  {
    set x | x in index.order[..i] && Orphan(index, x)
  }

  lemma AddSubtree(subtrees: seq<Subtree>, s: Subtree, index: Index, i: nat)
    requires index.Valid() && i < |index.order| && s.orphanRoot == index.order[i]
    requires ExactSubtrees(subtrees, index, OrphansAmong(index, i))
    requires Orphan(index, s.orphanRoot) && index.at[s.orphanRoot].parent == Some(s.missingParent)
    requires Distinct(s.affected) && forall x :: x in s.affected <==> AtOrBelow(index.Links(), s.orphanRoot, x)
    ensures ExactSubtrees(subtrees + [s], index, OrphansAmong(index, i) + {s.orphanRoot})
  {
    NewSubtree(s, index);
    hide ExactSubtree;
    assert forall t :: t in subtrees + [s] <==> t in subtrees || t == s;
  }

  lemma EmptySubtrees(index: Index)
    ensures ExactSubtrees([], index, {})
  {}

  lemma NewSubtree(s: Subtree, index: Index)
    requires Orphan(index, s.orphanRoot) && index.at[s.orphanRoot].parent == Some(s.missingParent)
    requires Distinct(s.affected) && forall x :: x in s.affected <==> AtOrBelow(index.Links(), s.orphanRoot, x)
    ensures ExactSubtree(s, index)
  {}

  /** The parent walk of an entry reaches an id that is not in the index. */
  ghost predicate LeavesIndex(index: Index, x: Id) {
    x in index.at && exists n: nat :: Up(index.Links(), x, n).Some? && Up(index.Links(), x, n).value !in index.at
  }

  lemma OrphanEndsWalk(index: Index, x: Id, n: nat)
    requires Orphan(index, x) && Up(index.Links(), x, n).Some? && Up(index.Links(), x, n).value in index.at
    ensures n == 0
  {}

  lemma OneOrphanRoot(index: Index, a: Id, b: Id, x: Id, m: nat, n: nat)
    requires Orphan(index, a) && Orphan(index, b) && m <= n
    requires Up(index.Links(), x, m) == Some(a) && Up(index.Links(), x, n) == Some(b)
    ensures a == b
  {
    UpAdd(index.Links(), x, m, n - m);
    OrphanEndsWalk(index, a, n - m);
  }

  /** No id lies in two collapsed subtrees. */
  lemma SubtreesAreDisjoint(subtrees: seq<Subtree>, index: Index, i: nat, j: nat, x: Id)
    requires ExactSubtrees(subtrees, index, Orphans(index)) && i < j < |subtrees|
    ensures !(x in subtrees[i].affected && x in subtrees[j].affected)
  {
    var a, b := subtrees[i].orphanRoot, subtrees[j].orphanRoot;
    if x in subtrees[i].affected && x in subtrees[j].affected {
      var m: nat :| Up(index.Links(), x, m) == Some(a);
      var n: nat :| Up(index.Links(), x, n) == Some(b);
      if m <= n {
        OneOrphanRoot(index, a, b, x, m, n);
      } else {
        OneOrphanRoot(index, b, a, x, n, m);
      }
    }
  }

  /** The collapsed subtrees together hold exactly the entries whose parent walk leaves the index. */
  lemma SubtreesCoverLeavers(subtrees: seq<Subtree>, index: Index, x: Id)
    requires ExactSubtrees(subtrees, index, Orphans(index))
    ensures (exists s :: s in subtrees && x in s.affected) <==> LeavesIndex(index, x)
  {
    var links := index.Links();
    if LeavesIndex(index, x) {
      var n: nat :| Up(links, x, n).Some? && Up(links, x, n).value !in index.at;
      var a := LastInside(index, x, n);
      assert AtOrBelow(links, a, x) && a in Orphans(index);
      var s :| s in subtrees && s.orphanRoot == a;
      assert x in s.affected;
    }
    forall s | s in subtrees && x in s.affected ensures LeavesIndex(index, x) {
      var n: nat :| Up(links, x, n) == Some(s.orphanRoot);
      UpNext(links, x, n);
      assert Up(links, x, n + 1) == Some(s.missingParent);
    }
  }

  /** Where a walk leaves the index, the id before is an orphan. */
  lemma {:induction false} LastInside(index: Index, x: Id, n: nat) returns (a: Id)
    requires x in index.at && Up(index.Links(), x, n).Some? && Up(index.Links(), x, n).value !in index.at
    ensures Orphan(index, a) && AtOrBelow(index.Links(), a, x)
    decreases n
  {
    var links := index.Links();
    if links[x] !in index.at {
      a := x;
      assert Up(links, x, 0) == Some(x);
    } else {
      a := LastInside(index, links[x], n - 1);
      var m: nat :| Up(links, links[x], m) == Some(a);
      assert Up(links, x, m + 1) == Some(a);
    }
  }

  /** A detached entry leaves the index; an entry that leaves the index is detached, unless its walk
      first meets a revoked or expired entry or grows too long. */
  lemma DetachedMeansLeaves(t: Traversal, index: Index, now: int, maxDepth: nat)
    requires ExactWalk(t, index, now, maxDepth) && t.start in index.at
    ensures t.failure == Some(DetachedLineage) ==> LeavesIndex(index, t.start)
    ensures LeavesIndex(index, t.start) ==> t.failure.Some? && t.failure != Some(CycleDetected)
  {
    var links := index.Links();
    var n := |t.chain|;
    if t.failure == Some(DetachedLineage) {
      assert Up(links, t.start, n - 1) == Some(t.chain[n - 1]);
    }
    if LeavesIndex(index, t.start) && (t.failure == None || t.failure == Some(CycleDetected)) {
      var k: nat :| Up(links, t.start, k).Some? && Up(links, t.start, k).value !in index.at;
      UpNext(links, t.start, n - 1);
      if k >= n {
        if t.failure == None {
          UpStaysNone(links, t.start, n, k);
        } else {
          var j :| 0 <= j < n && t.chain[j] == index.at[t.chain[n - 1]].parent.value;
          assert Up(links, t.start, j) == Up(links, t.start, n);
          var r := UpRepeats(links, t.start, j, n, k);
        }
      }
    }
  }

  // ----- Equivalence audit -----

  ghost predicate SameHashes(entries: seq<Entry>) {
    forall e, f :: e in entries && f in entries && e.id == f.id ==> e.hash == f.hash
  }

  method AuditLineageEquivalence(views: seq<View>) returns (equivalent: bool)
    ensures equivalent <==> SameHashes(Flatten(views))
  {
    var hashes: map<Id, set<string>> := map[];
    for i := 0 to |views|
      invariant HashesOf(hashes, Flatten(views[..i]))
    {
      var entries := views[i].entries;
      ghost var before := Flatten(views[..i]);
      assert before + entries[..0] == before;
      for j := 0 to |entries|
        invariant HashesOf(hashes, before + entries[..j])
      {
        var e := entries[j];
        assert before + entries[..j + 1] == (before + entries[..j]) + [e];
        AddHash(hashes, before + entries[..j], e);
        hashes := hashes[e.id := (if e.id in hashes then hashes[e.id] else {}) + {e.hash}];
      }
      assert entries[..|entries|] == entries && views[..i + 1][..i] == views[..i];
    }
    assert views[..|views|] == views;
    equivalent := forall x | x in hashes :: |hashes[x]| <= 1;
    SmallSets(hashes, Flatten(views));
  }

  ghost predicate HashesOf(hashes: map<Id, set<string>>, entries: seq<Entry>) {
    && (forall e :: e in entries ==> e.id in hashes && e.hash in hashes[e.id])
    && (forall x, h :: x in hashes && h in hashes[x] ==> exists e :: e in entries && e.id == x && e.hash == h)
  }

  lemma AddHash(hashes: map<Id, set<string>>, entries: seq<Entry>, e: Entry)
    requires HashesOf(hashes, entries)
    ensures HashesOf(hashes[e.id := (if e.id in hashes then hashes[e.id] else {}) + {e.hash}], entries + [e])
  {
    var after, longer := hashes[e.id := (if e.id in hashes then hashes[e.id] else {}) + {e.hash}], entries + [e];
    assert e in longer && forall f :: f in entries ==> f in longer;
    forall x, h | x in after && h in after[x] ensures exists f :: f in longer && f.id == x && f.hash == h {
      if x in hashes && h in hashes[x] {
        var f :| f in entries && f.id == x && f.hash == h;
        assert f in longer;
      }
    }
  }

  lemma SmallSets(hashes: map<Id, set<string>>, entries: seq<Entry>)
    requires HashesOf(hashes, entries)
    ensures (forall x | x in hashes :: |hashes[x]| <= 1) <==> SameHashes(entries)
  {
    forall e, f | (forall x | x in hashes :: |hashes[x]| <= 1) && e in entries && f in entries && e.id == f.id
      ensures e.hash == f.hash
    {
      SubsetCardinality({e.hash, f.hash}, hashes[e.id]);
    }
    forall x | SameHashes(entries) && x in hashes ensures |hashes[x]| <= 1 {
      if hashes[x] != {} {
        var h :| h in hashes[x];
        assert hashes[x] == {h};
      }
    }
  }

  // ----- The verdict -----

  ghost predicate SomeWalkFails(index: Index, now: int, maxDepth: nat, f: Failure) {
    exists t: Traversal :: ExactWalk(t, index, now, maxDepth) && t.start in index.at && t.failure == Some(f)
  }

  ghost function Verdict(views: seq<View>, index: Index, now: int, maxDepth: nat): Outcome {
    if views == [] || index.order == [] then NullClosure
    else if SomeWalkFails(index, now, maxDepth, CycleDetected) then BrokenCycle
    else if SomeWalkFails(index, now, maxDepth, DepthExceeded) then BrokenDepth
    else if SomeWalkFails(index, now, maxDepth, DetachedLineage) then BrokenDetached
    else if Orphans(index) != {} then BrokenOrphan
    else if !SameHashes(Flatten(views)) && |views| > 1 then PartialVisibility
    else ClosureVerified
  }

  method VerifyClosure(views: seq<View>, maxDepth: nat, now: int) returns (outcome: Outcome, index: Index)
    ensures index.Valid() && Merges(index, Flatten(views))
    ensures outcome == Verdict(views, index, now, maxDepth)
  {
    index := MergeViews(views);
    if views == [] || index.order == [] {
      return NullClosure, index;
    }
    var traversals: seq<Traversal> := [];
    for i := 0 to |index.order|
      invariant |traversals| == i
      invariant forall k :: 0 <= k < i ==> traversals[k].start == index.order[k] && ExactWalk(traversals[k], index, now, maxDepth)
    {
      hide ExactWalk;
      var t := TraverseContinuityAncestry(index.order[i], index, maxDepth, now);
      traversals := traversals + [t];
    }
    var subtrees := CollapseOrphanedSubtrees(index);
    var equivalent := AuditLineageEquivalence(views);
    forall f ensures (exists k :: 0 <= k < |traversals| && traversals[k].failure == Some(f)) <==> SomeWalkFails(index, now, maxDepth, f) {
      FailureIsExact(traversals, index, now, maxDepth, f);
    }
    assert Orphans(index) != {} <==> subtrees != [] by {
      if subtrees != [] { assert subtrees[0].orphanRoot in Orphans(index); }
    }
    hide ExactWalk, ExactSubtrees, SameHashes;
    if exists k :: 0 <= k < |traversals| && traversals[k].failure == Some(CycleDetected) {
      outcome := BrokenCycle;
    } else if exists k :: 0 <= k < |traversals| && traversals[k].failure == Some(DepthExceeded) {
      outcome := BrokenDepth;
    } else if exists k :: 0 <= k < |traversals| && traversals[k].failure == Some(DetachedLineage) {
      outcome := BrokenDetached;
    } else if |subtrees| > 0 {
      outcome := BrokenOrphan;
    } else if !equivalent && |views| > 1 {
      outcome := PartialVisibility;
    } else {
      outcome := ClosureVerified;
    }
  }

  lemma FailureIsExact(traversals: seq<Traversal>, index: Index, now: int, maxDepth: nat, f: Failure)
    requires index.Valid() && |traversals| == |index.order|
    requires forall k :: 0 <= k < |traversals| ==> traversals[k].start == index.order[k] && ExactWalk(traversals[k], index, now, maxDepth)
    ensures (exists k :: 0 <= k < |traversals| && traversals[k].failure == Some(f)) <==> SomeWalkFails(index, now, maxDepth, f)
  {
    hide ExactWalk, Distinct;
    forall k | 0 <= k < |traversals| && traversals[k].failure == Some(f) ensures SomeWalkFails(index, now, maxDepth, f) {
      assert index.order[k] in index.order;
    }
    forall t: Traversal | ExactWalk(t, index, now, maxDepth) && t.start in index.at && t.failure == Some(f)
      ensures exists k :: 0 <= k < |traversals| && traversals[k].failure == Some(f)
    {
      assert t.start in index.order;
      var k :| 0 <= k < |index.order| && index.order[k] == t.start;
      WalkIsDetermined(t, traversals[k], index, now, maxDepth);
    }
  }

  /** Every id has a walk, which goes on from any clean beginning of it. */
  lemma {:induction false} WalkFrom(index: Index, now: int, maxDepth: nat, start: Id, chain: seq<Id>, current: Id)
    returns (t: Traversal)
    requires |chain| <= maxDepth && Walking(index, now, start, chain, Some(current))
    ensures t.start == start && ExactWalk(t, index, now, maxDepth)
    decreases maxDepth - |chain|
  {
    hide Passed;
    if current in chain {
      t := Traversal(start, chain, Some(CycleDetected), None);
    } else {
      var longer := chain + [current];
      WalkingStep(index, now, start, chain, current);
      if |longer| > maxDepth {
        t := Traversal(start, longer, Some(DepthExceeded), None);
      } else if current !in index.at {
        t := if |longer| > 1 then Traversal(start, longer, Some(DetachedLineage), None) else Traversal(start, longer, None, Some(current));
      } else if Barriered(index.at[current], now) {
        t := Traversal(start, longer, Some(if ExpiredOnly(index.at[current], now) then ExpiredAncestor else RevokedAncestor), None);
      } else if index.at[current].parent == None {
        t := Traversal(start, longer, None, Some(current));
      } else {
        t := WalkFrom(index, now, maxDepth, start, longer, index.at[current].parent.value);
      }
    }
  }

  lemma WalkExists(index: Index, now: int, maxDepth: nat, start: Id) returns (t: Traversal)
    ensures t.start == start && ExactWalk(t, index, now, maxDepth)
  {
    t := WalkFrom(index, now, maxDepth, start, [], start);
  }

  // ----- Which cycles are reported -----

  ghost predicate CleanAt(index: Index, now: int, x: Id, k: nat) {
    Up(index.Links(), x, k).Some? && Clean(index, now, Up(index.Links(), x, k).value)
  }

  /** A parent cycle through `x` of length `n`, none of whose entries is revoked or expired. */
  ghost predicate CleanCycle(index: Index, now: int, x: Id, n: nat) {
    n >= 1 && Up(index.Links(), x, n) == Some(x) && forall k: nat :: k < n ==> CleanAt(index, now, x, k)
  }

  lemma {:induction false} CleanForever(index: Index, now: int, x: Id, n: nat, k: nat)
    requires CleanCycle(index, now, x, n)
    ensures CleanAt(index, now, x, k)
    decreases k
  {
    if k >= n {
      UpAdd(index.Links(), x, n, k - n);
      CleanForever(index, now, x, n, k - n);
    }
  }

  lemma ReportedCycle(index: Index, now: int, maxDepth: nat, t: Traversal) returns (x: Id, n: nat)
    requires ExactWalk(t, index, now, maxDepth) && t.failure == Some(CycleDetected)
    ensures n <= maxDepth && CleanCycle(index, now, x, n)
  {
    var links, length := index.Links(), |t.chain|;
    var j :| 0 <= j < length && t.chain[j] == index.at[t.chain[length - 1]].parent.value;
    x, n := t.chain[j], length - j;
    UpNext(links, t.start, length - 1);
    UpAdd(links, t.start, j, n);
    forall k: nat | k < n ensures CleanAt(index, now, x, k) {
      UpAdd(links, t.start, j, k);
      assert Up(links, t.start, j + k) == Some(t.chain[j + k]);
    }
  }

  lemma ChainIsShorter(index: Index, now: int, maxDepth: nat, t: Traversal, n: nat)
    requires ExactWalk(t, index, now, maxDepth) && n > 0 && Up(index.Links(), t.start, n) == Some(t.start)
    ensures |t.chain| <= n
  {
    var k := if n < |t.chain| then n else 0;
    assert Up(index.Links(), t.start, 0) == Some(t.chain[0]);
    assert Up(index.Links(), t.start, k) == Some(t.chain[k]);
  }

  lemma CleanCycleIsReported(index: Index, now: int, maxDepth: nat, x: Id, n: nat)
    requires CleanCycle(index, now, x, n) && n <= maxDepth
    ensures SomeWalkFails(index, now, maxDepth, CycleDetected)
  {
    var links := index.Links();
    var t := WalkExists(index, now, maxDepth, x);
    var last := |t.chain| - 1;
    assert Up(links, x, 0) == Some(x);
    CleanForever(index, now, x, n, 0);
    CleanForever(index, now, x, n, last);
    CleanForever(index, now, x, n, last + 1);
    UpNext(links, x, last);
    ChainIsShorter(index, now, maxDepth, t, n);
    assert t.failure == Some(CycleDetected);
  }

  /** Within `maxDepth` the closure reports exactly the cycles of clean entries. */
  lemma CycleReportIsExact(index: Index, now: int, maxDepth: nat)
    ensures SomeWalkFails(index, now, maxDepth, CycleDetected) <==>
      exists x, n: nat :: n <= maxDepth && CleanCycle(index, now, x, n)
  {
    hide CleanCycle, ExactWalk;
    if SomeWalkFails(index, now, maxDepth, CycleDetected) {
      var t: Traversal :| ExactWalk(t, index, now, maxDepth) && t.start in index.at && t.failure == Some(CycleDetected);
      var x, n := ReportedCycle(index, now, maxDepth, t);
    }
    forall x, n: nat | n <= maxDepth && CleanCycle(index, now, x, n) ensures SomeWalkFails(index, now, maxDepth, CycleDetected) {
      CleanCycleIsReported(index, now, maxDepth, x, n);
    }
  }

  // ----- What CLOSURE_VERIFIED means -----

  /** `n` steps up from `x` lies a root or a revoked or expired entry, past clean entries that do not repeat. */
  ghost predicate StopsAt(index: Index, now: int, x: Id, n: nat) {
    && Up(index.Links(), x, n).Some? && Up(index.Links(), x, n).value in index.at
    && (var y := index.at[Up(index.Links(), x, n).value]; Barriered(y, now) || y.parent == None)
    && (forall k: nat :: k < n ==> CleanAt(index, now, x, k))
    && forall j: nat, k: nat :: j < k <= n ==> Up(index.Links(), x, j) != Up(index.Links(), x, k)
  }

  /** In a verified closure every parent resolves, and every walk stops, within `maxDepth` entries, at a root
      or at a revoked or expired entry. */
  lemma VerifiedWalks(views: seq<View>, index: Index, now: int, maxDepth: nat, x: Id)
    requires Verdict(views, index, now, maxDepth) == ClosureVerified && x in index.at
    ensures index.at[x].parent.Some? ==> index.at[x].parent.value in index.at
    ensures exists n: nat :: n < maxDepth && StopsAt(index, now, x, n)
  {
    assert x !in Orphans(index);
    var t := WalkExists(index, now, maxDepth, x);
    assert t.failure != Some(CycleDetected) && t.failure != Some(DepthExceeded) && t.failure != Some(DetachedLineage);
    var n := |t.chain| - 1;
    forall k: nat | k < n ensures CleanAt(index, now, x, k) {
      assert Up(index.Links(), x, k) == Some(t.chain[k]);
    }
    forall j: nat, k: nat | j < k <= n ensures Up(index.Links(), x, j) != Up(index.Links(), x, k) {
      assert Up(index.Links(), x, j) == Some(t.chain[j]) && Up(index.Links(), x, k) == Some(t.chain[k]);
    }
    assert Up(index.Links(), x, 0) == Some(x);
    assert Up(index.Links(), x, n) == Some(t.chain[n]);
    assert StopsAt(index, now, x, n);
  }

  /** A verified closure can still hold parent cycles, of any length, but each of them passes through a revoked
      or expired entry. */
  lemma VerifiedCyclesAreBarriered(views: seq<View>, index: Index, now: int, maxDepth: nat, x: Id, n: nat)
    requires Verdict(views, index, now, maxDepth) == ClosureVerified
    requires n > 0 && Up(index.Links(), x, n) == Some(x)
    ensures exists k: nat :: k < n && Up(index.Links(), x, k).Some? && Up(index.Links(), x, k).value in index.at
              && Barriered(index.at[Up(index.Links(), x, k).value], now)
  {
    var links := index.Links();
    VerifiedWalks(views, index, now, maxDepth, x);
    var k: nat :| k < maxDepth && StopsAt(index, now, x, k);
    assert Up(links, x, 0) == Some(x);
    CycleNeverEnds(links, x, n, k + 1);
    UpNext(links, x, k);
    assert k < n;
  }

  /** Two entries that are each other's parent, one of them revoked: the closure is verified. */
  lemma VerifiedWithCycle() returns (views: seq<View>, index: Index, x: Id)
    ensures index.Valid() && Merges(index, Flatten(views))
    ensures Up(index.Links(), x, 2) == Some(x)
    ensures Verdict(views, index, 0, 5) == ClosureVerified
  {
    var a, b := Id("a"), Id("b");
    var first, second := Entry(a, Some(b), "", "REVOKED", false, None), Entry(b, Some(a), "", "ACTIVE", false, None);
    views, index, x := [View([first, second], "")], Index([a, b], map[a := first, b := second]), a;
    TwoEntries(views, first, second);
    TwoStepCycle(index, a, b);
    hide ExactWalk, Merges, Flatten;
    forall t: Traversal | ExactWalk(t, index, 0, 5) && t.start in index.at ensures t.failure == Some(RevokedAncestor) {
      WalkIsDetermined(t, if t.start == a then Traversal(a, [a], Some(RevokedAncestor), None) else Traversal(b, [b, a], Some(RevokedAncestor), None), index, 0, 5);
    }
    assert Orphans(index) == {};
  }

  lemma TwoEntries(views: seq<View>, first: Entry, second: Entry)
    requires views == [View([first, second], "")] && first.id != second.id
    ensures Flatten(views) == [first, second] && SameHashes(Flatten(views))
    ensures Merges(Index([first.id, second.id], map[first.id := first, second.id := second]), Flatten(views))
  {
    assert Flatten(views[..0]) == [] && Flatten(views) == [first, second];
    forall y ensures Latest([first, second], y) == if y == second.id then Some(second) else if y == first.id then Some(first) else None {
      assert [first, second][..1] == [first] && [first][..0] == [];
      assert Latest([first], y) == if y == first.id then Some(first) else None;
    }
  }

  lemma {:induction false} TwoStepCycle(index: Index, a: Id, b: Id)
    requires a != b && a in index.at && b in index.at && index.at[a].parent == Some(b) && index.at[b].parent == Some(a)
    requires !Live(index.at[a]) && Clean(index, 0, b)
    ensures Up(index.Links(), a, 2) == Some(a)
    ensures ExactWalk(Traversal(a, [a], Some(RevokedAncestor), None), index, 0, 5)
    ensures ExactWalk(Traversal(b, [b, a], Some(RevokedAncestor), None), index, 0, 5)
  {
    var links := index.Links();
    UpNext(links, a, 0);
    UpNext(links, a, 1);
    UpNext(links, b, 0);
  }

  lemma {:induction false} CycleNeverEnds(links: Links, x: Id, n: nat, k: nat)
    requires n > 0 && Up(links, x, n) == Some(x)
    ensures Up(links, x, k).Some?
    decreases k
  {
    if k <= n {
      if Up(links, x, k) == None { UpStaysNone(links, x, k, n); }
    } else {
      CycleNeverEnds(links, x, n, k - n);
      UpAdd(links, x, n, k - n);
    }
  }
}
