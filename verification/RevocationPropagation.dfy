/** src/recursive-revocation-propagation.ts: descendant traversal, propagation completeness, stale
    lineage collapse, ancestry audit and the propagation verdict. */
module RevocationPropagation {
  import opened Prelude
  import opened ContinuityRegistry
  import opened Ancestry

  datatype Failure = CycleDetected | DepthExceeded

  datatype Traversal = Traversal(root: Id, ids: seq<Id>, depth: nat, failure: Option<Failure>)

  datatype Evidence = Evidence(root: Id)

  datatype Collapse = Collapse(root: Id, active: seq<Id>)

  datatype Audit = Audit(id: Id, revokedAncestor: Option<Id>, chain: seq<Id>)

  datatype Outcome =
    | PropagationComplete | PropagationIncomplete | PropagationCollapsed | PropagationStale
    | PropagationConvergenceFailed | NullPropagation

  // ----- Descendant traversal -----

  /** The state of the breadth-first search: `done` ids had all children handled, `seen` holds the
      handled children, and `dist` gives each visited id its distance below the root. */
  ghost predicate Searching(links: Links, root: Id, maxDepth: nat, dist: map<Id, nat>, done: set<Id>, seen: set<Id>) {
    && root in dist && done <= dist.Keys
    && (forall x :: x in dist ==> Hits(links, x, root, dist[x]) && dist[x] <= maxDepth)
    && (forall c :: c in seen ==> c in links && links[c] in dist)
    && (forall c :: c in dist <==> c == root || (c in seen && dist[links[c]] < maxDepth))
  }

  ghost predicate HandledAll(links: Links, done: set<Id>, seen: set<Id>) {
    forall c :: c in seen <==> c in links && links[c] in done
  }

  /** The queue holds each visited id that is not done, once, with its depth. */
  ghost predicate QueueHolds(queue: seq<(Id, nat)>, pending: seq<Id>, dist: map<Id, nat>, done: set<Id>) {
    && Distinct(pending) && (forall x :: x in pending <==> x in dist && x !in done)
    && |queue| == |pending| && forall i :: 0 <= i < |queue| ==> pending[i] in dist && queue[i] == (pending[i], dist[pending[i]])
  }

  ghost predicate TooDeep(links: Links, root: Id, maxDepth: nat, dist: map<Id, nat>, seen: set<Id>) {
    exists c :: c in seen && c != root && c in links && links[c] in dist && dist[links[c]] == maxDepth
  }

  ghost predicate Listed(ids: seq<Id>, root: Id, dist: map<Id, nat>) {
    Distinct(ids) && forall x :: x in ids <==> x in dist && x != root
  }

  ghost predicate DeepestOf(depth: nat, dist: map<Id, nat>, done: set<Id>) {
    && (forall x :: x in done && x in dist ==> dist[x] <= depth)
    && (depth == 0 || exists x :: x in done && x in dist && dist[x] == depth)
  }

  ghost predicate OnCycleWithin(links: Links, root: Id, bound: nat) {
    exists n: nat :: 1 <= n <= bound && Up(links, root, n) == Some(root)
  }

  ghost predicate DeeperThan(links: Links, root: Id, bound: nat) {
    exists x, n: nat :: n > bound && Hits(links, x, root, n)
  }

  /** What the traversal promises, in terms of parent steps only. */
  ghost predicate ExactTraversal(t: Traversal, links: Links, root: Id, maxDepth: nat) {
    && t.root == root
    && Distinct(t.ids)
    && (forall x :: x in t.ids <==> x != root && exists n: nat :: 1 <= n <= maxDepth && Up(links, x, n) == Some(root))
    && (t.failure == Some(CycleDetected) <==> OnCycleWithin(links, root, maxDepth + 1))
    && (t.failure == Some(DepthExceeded) <==> !OnCycleWithin(links, root, maxDepth + 1) && DeeperThan(links, root, maxDepth))
    && (forall x :: x in t.ids ==> exists n: nat :: n <= t.depth && Hits(links, x, root, n))
    && (t.depth > 0 ==> exists x :: x in t.ids && Hits(links, x, root, t.depth))
  }

  lemma {:induction false} WithinIsVisited(links: Links, root: Id, maxDepth: nat, dist: map<Id, nat>, seen: set<Id>, x: Id, n: nat)
    requires Searching(links, root, maxDepth, dist, dist.Keys, seen) && HandledAll(links, dist.Keys, seen)
    requires Hits(links, x, root, n) && n <= maxDepth
    ensures x in dist && dist[x] == n
    decreases n
  {
    if n > 0 {
      HitsParent(links, x, root, n);
      WithinIsVisited(links, root, maxDepth, dist, seen, links[x], n - 1);
    }
    HitsUnique(links, x, root, n, dist[x]);
  }

  lemma VisitedIsWithin(links: Links, root: Id, maxDepth: nat, dist: map<Id, nat>, seen: set<Id>, x: Id)
    requires Searching(links, root, maxDepth, dist, dist.Keys, seen) && HandledAll(links, dist.Keys, seen)
    requires x != root
    ensures x in dist <==> exists n: nat :: 1 <= n <= maxDepth && Up(links, x, n) == Some(root)
  {
    if x in dist {
      var d: nat := dist[x];
      assert Up(links, x, 0) == Some(x);
      assert 1 <= d <= maxDepth && Up(links, x, d) == Some(root);
      assert exists n: nat :: 1 <= n <= maxDepth && Up(links, x, n) == Some(root);
    }
    hide Searching, HandledAll;
    forall n: nat | 1 <= n <= maxDepth && Up(links, x, n) == Some(root) ensures x in dist {
      var m := FirstHit(links, x, root, n);
      WithinIsVisited(links, root, maxDepth, dist, seen, x, m);
    }
  }

  lemma CycleIsExact(links: Links, root: Id, maxDepth: nat, dist: map<Id, nat>, seen: set<Id>)
    requires Searching(links, root, maxDepth, dist, dist.Keys, seen) && HandledAll(links, dist.Keys, seen)
    ensures root in seen <==> OnCycleWithin(links, root, maxDepth + 1)
  {
    if root in seen {
      var p := links[root];
      assert Up(links, root, dist[p] + 1) == Up(links, p, dist[p]);
    }
    forall n: nat | 1 <= n <= maxDepth + 1 && Up(links, root, n) == Some(root) ensures root in seen {
      var m := FirstHit(links, links[root], root, n - 1);
      WithinIsVisited(links, root, maxDepth, dist, seen, links[root], m);
    }
  }

  lemma TooDeepIsExact(links: Links, root: Id, maxDepth: nat, dist: map<Id, nat>, seen: set<Id>)
    requires Searching(links, root, maxDepth, dist, dist.Keys, seen) && HandledAll(links, dist.Keys, seen)
    ensures TooDeep(links, root, maxDepth, dist, seen) <==> DeeperThan(links, root, maxDepth)
  {
    forall c | c in seen && c != root && dist[links[c]] == maxDepth ensures DeeperThan(links, root, maxDepth) {
      HitsChild(links, c, root, maxDepth);
    }
    forall x, n: nat | n > maxDepth && Hits(links, x, root, n) ensures TooDeep(links, root, maxDepth, dist, seen) {
      var c := AncestorAt(links, x, root, n, maxDepth + 1);
      HitsParent(links, c, root, maxDepth + 1);
      WithinIsVisited(links, root, maxDepth, dist, seen, links[c], maxDepth);
    }
  }

  /** Somewhere on the way from `x` up to `r` lies an id exactly `m` steps below `r`. */
  lemma {:induction false} AncestorAt(links: Links, x: Id, r: Id, n: nat, m: nat) returns (y: Id)
    requires m <= n && Hits(links, x, r, n)
    ensures Hits(links, y, r, m)
    decreases n
  {
    if n == m {
      y := x;
    } else {
      HitsParent(links, x, r, n);
      y := AncestorAt(links, links[x], r, n - 1, m);
    }
  }

  lemma TraversalIsExact(t: Traversal, links: Links, root: Id, maxDepth: nat, dist: map<Id, nat>, seen: set<Id>)
    requires Searching(links, root, maxDepth, dist, dist.Keys, seen) && HandledAll(links, dist.Keys, seen)
    requires t.root == root && Listed(t.ids, root, dist) && DeepestOf(t.depth, dist, dist.Keys)
    requires t.failure == if root in seen then Some(CycleDetected)
                          else if TooDeep(links, root, maxDepth, dist, seen) then Some(DepthExceeded) else None
    ensures ExactTraversal(t, links, root, maxDepth)
  {
    forall x | x != root
      ensures x in t.ids <==> exists n: nat :: 1 <= n <= maxDepth && Up(links, x, n) == Some(root)
    {
      VisitedIsWithin(links, root, maxDepth, dist, seen, x);
    }
    CycleIsExact(links, root, maxDepth, dist, seen);
    TooDeepIsExact(links, root, maxDepth, dist, seen);
    DepthIsReached(t.ids, t.depth, links, root, maxDepth, dist, seen);
    hide Searching, HandledAll, OnCycleWithin, DeeperThan, TooDeep, Up, Hits, DeepestOf;
  }

  lemma DepthIsReached(ids: seq<Id>, depth: nat, links: Links, root: Id, maxDepth: nat, dist: map<Id, nat>, seen: set<Id>)
    requires Searching(links, root, maxDepth, dist, dist.Keys, seen) && Listed(ids, root, dist)
    requires DeepestOf(depth, dist, dist.Keys)
    ensures forall x :: x in ids ==> exists n: nat :: n <= depth && Hits(links, x, root, n)
    ensures depth > 0 ==> exists x :: x in ids && Hits(links, x, root, depth)
  {
    assert Up(links, root, 0) == Some(root);
    forall x | x in ids ensures exists n: nat :: n <= depth && Hits(links, x, root, n) {
      var d: nat := dist[x];
      assert Hits(links, x, root, d);
    }
    if depth > 0 {
      var x :| x in dist && dist[x] == depth;
      assert x in ids && Hits(links, x, root, depth);
    }
  }

  lemma NextKid(children: map<Id, seq<Id>>, links: Links, p: Id, i: nat)
    requires ChildLists(children, links) && i < |Kids(children, p)|
    ensures var kids := Kids(children, p);
      kids[..i + 1] == kids[..i] + [kids[i]] && kids[i] !in kids[..i] && kids[i] in links && links[kids[i]] == p
  {
    assert Kids(children, p)[i] in Kids(children, p);
  }

  lemma LinkedIsIndexed(index: Index, x: Id)
    ensures x in index.Links() ==> x in index.at
  {}

  /** The variables of the search loop. */
  datatype Search = Search(queue: seq<(Id, nat)>, visited: set<Id>, ids: seq<Id>, cycle: bool, exceeded: bool)

  /** What explains them: the ids in the queue, their distances, and the two sets of handled ids. */
  datatype Marks = Marks(pending: seq<Id>, dist: map<Id, nat>, done: set<Id>, seen: set<Id>)

  ghost predicate Consistent(links: Links, root: Id, maxDepth: nat, s: Search, m: Marks) {
    && Searching(links, root, maxDepth, m.dist, m.done, m.seen)
    && QueueHolds(s.queue, m.pending, m.dist, m.done)
    && s.visited == m.dist.Keys
    && Listed(s.ids, root, m.dist)
    && (s.cycle <==> root in m.seen)
    && (s.exceeded <==> TooDeep(links, root, maxDepth, m.dist, m.seen))
  }

  lemma FlagStep(links: Links, root: Id, maxDepth: nat, s: Search, m: Marks, child: Id)
    requires Consistent(links, root, maxDepth, s, m)
    requires child in links && links[child] in m.dist && child !in m.seen
    ensures m.dist[links[child]] <= maxDepth
    ensures var t := m.(seen := m.seen + {child});
      && (child in s.visited ==> Consistent(links, root, maxDepth, s.(cycle := true), t))
      && (child !in s.visited && m.dist[links[child]] == maxDepth ==> Consistent(links, root, maxDepth, s.(exceeded := true), t))
  {
    hide Hits, Distinct, Up;
  }

  function VisitedMarks(m: Marks, child: Id, depth: nat): Marks {
    m.(seen := m.seen + {child}, dist := m.dist[child := depth], pending := m.pending + [child])
  }

  function Visit(s: Search, child: Id, depth: nat): Search {
    s.(visited := s.visited + {child}, ids := s.ids + [child], queue := s.queue + [(child, depth)])
  }

  lemma VisitSearching(links: Links, root: Id, maxDepth: nat, m: Marks, child: Id)
    requires Searching(links, root, maxDepth, m.dist, m.done, m.seen)
    requires child in links && links[child] in m.dist && child !in m.seen
    requires child !in m.dist && m.dist[links[child]] < maxDepth
    ensures var w := VisitedMarks(m, child, m.dist[links[child]] + 1);
      Searching(links, root, maxDepth, w.dist, w.done, w.seen)
  {
    hide Hits, Up;
    HitsChild(links, child, root, m.dist[links[child]]);
    var w := VisitedMarks(m, child, m.dist[links[child]] + 1);
    forall c | c in w.seen ensures links[c] in m.dist && w.dist[links[c]] == m.dist[links[c]] {}
    forall c ensures c in w.dist <==> c == root || (c in w.seen && w.dist[links[c]] < maxDepth) {
      assert c in w.dist <==> c in m.dist || c == child;
    }
  }

  lemma VisitTooDeep(links: Links, root: Id, maxDepth: nat, m: Marks, child: Id)
    requires forall c :: c in m.seen ==> c in links && links[c] in m.dist
    requires child in links && links[child] in m.dist && child !in m.dist && m.dist[links[child]] < maxDepth
    ensures var w := VisitedMarks(m, child, m.dist[links[child]] + 1);
      TooDeep(links, root, maxDepth, w.dist, w.seen) <==> TooDeep(links, root, maxDepth, m.dist, m.seen)
  {
    var w := VisitedMarks(m, child, m.dist[links[child]] + 1);
    forall c | c in w.seen ensures links[c] in m.dist && w.dist[links[c]] == m.dist[links[c]] {}
  }

  lemma VisitStep(links: Links, root: Id, maxDepth: nat, s: Search, m: Marks, child: Id)
    requires Consistent(links, root, maxDepth, s, m)
    requires child in links && links[child] in m.dist && child !in m.seen
    requires child !in s.visited && m.dist[links[child]] < maxDepth
    ensures var d := m.dist[links[child]] + 1;
      Consistent(links, root, maxDepth, Visit(s, child, d), VisitedMarks(m, child, d))
    ensures child !in m.done
  {
    hide Hits, Distinct, Up;
    var d := m.dist[links[child]] + 1;
    VisitSearching(links, root, maxDepth, m, child);
    VisitTooDeep(links, root, maxDepth, m, child);
    DistinctAppend(s.ids, child);
    DistinctAppend(m.pending, child);
    var v, w := Visit(s, child, d), VisitedMarks(m, child, d);
    assert Listed(v.ids, root, w.dist);
    assert QueueHolds(v.queue, w.pending, w.dist, w.done);
  }

  lemma PopStep(links: Links, root: Id, maxDepth: nat, s: Search, m: Marks)
    requires Consistent(links, root, maxDepth, s, m) && s.queue != []
    ensures var (id, depth) := s.queue[0];
      && id in m.dist && m.dist[id] == depth && id !in m.done
      && Consistent(links, root, maxDepth, s.(queue := s.queue[1..]), m.(pending := m.pending[1..], done := m.done + {id}))
  {
    hide Hits, Distinct;
    DistinctTail(m.pending);
    assert m.pending[0] in m.pending;
  }

  lemma AllDone(links: Links, root: Id, maxDepth: nat, s: Search, m: Marks)
    requires Consistent(links, root, maxDepth, s, m) && s.queue == []
    ensures m.done == m.dist.Keys
  {
    hide Hits;
    assert forall x :: x in m.dist ==> x !in m.pending && x in m.done;
  }

  lemma DeepestPop(depth: nat, dist: map<Id, nat>, done: set<Id>, id: Id)
    requires DeepestOf(depth, dist, done) && id in dist
    ensures DeepestOf(if dist[id] > depth then dist[id] else depth, dist, done + {id})
  {
    if depth > 0 {
      var x :| x in done && x in dist && dist[x] == depth;
      assert x in done + {id};
    }
    assert id in done + {id};
  }

  method TraverseDescendantRevocation(root: Id, index: Index, maxDepth: nat) returns (t: Traversal)
    requires index.Valid()
    ensures ExactTraversal(t, index.Links(), root, maxDepth)
  {
    ghost var links := index.Links();
    var children := BuildChildrenMap(index);
    var depthReached, s := 0, Search([(root, 0)], {root}, [], false, false);
    ghost var m := Marks([root], map[root := 0], {}, {});
    assert Consistent(links, root, maxDepth, s, m);
    hide Consistent, Kids, Index.Links, DeepestOf;
    while s.queue != []
      invariant Consistent(links, root, maxDepth, s, m) && HandledAll(links, m.done, m.seen)
      invariant m.dist.Keys <= index.at.Keys + {root}
      invariant DeepestOf(depthReached, m.dist, m.done)
      decreases index.at.Keys + {root} - m.done
    {
      PopStep(links, root, maxDepth, s, m);
      var (id, depth) := s.queue[0];
      DeepestPop(depthReached, m.dist, m.done, id);
      if depth > depthReached { depthReached := depth; }
      s, m := s.(queue := s.queue[1..]), m.(pending := m.pending[1..], done := m.done + {id});
      s, m := VisitChildren(Kids(children, id), children, index, root, maxDepth, id, depth, depthReached, s, m);
    }
    t := Traversal(root, s.ids, depthReached,
                   if s.cycle then Some(CycleDetected) else if s.exceeded then Some(DepthExceeded) else None);
    AllDone(links, root, maxDepth, s, m);
    Finish(links, root, maxDepth, s, m);
    TraversalIsExact(t, links, root, maxDepth, m.dist, m.seen);
  }

  lemma Finish(links: Links, root: Id, maxDepth: nat, s: Search, m: Marks)
    requires Consistent(links, root, maxDepth, s, m)
    ensures Searching(links, root, maxDepth, m.dist, m.done, m.seen) && Listed(s.ids, root, m.dist)
    ensures (s.cycle <==> root in m.seen) && (s.exceeded <==> TooDeep(links, root, maxDepth, m.dist, m.seen))
  {}

  /** The loop over the children of one id. */
  method VisitChildren(kids: seq<Id>, ghost children: map<Id, seq<Id>>, ghost index: Index, root: Id, maxDepth: nat,
                       id: Id, depth: nat, ghost deepest: nat, s0: Search, ghost m0: Marks)
    returns (s: Search, ghost m: Marks)
    requires ChildLists(children, index.Links()) && kids == Kids(children, id)
    requires Consistent(index.Links(), root, maxDepth, s0, m0)
    requires id in m0.dist && m0.dist[id] == depth && id in m0.done
    requires HandledAll(index.Links(), m0.done - {id}, m0.seen)
    requires m0.dist.Keys <= index.at.Keys + {root} && DeepestOf(deepest, m0.dist, m0.done)
    ensures Consistent(index.Links(), root, maxDepth, s, m)
    ensures m.done == m0.done && HandledAll(index.Links(), m.done, m.seen)
    ensures m.dist.Keys <= index.at.Keys + {root} && DeepestOf(deepest, m.dist, m.done)
  {
    ghost var links := index.Links();
    s, m := s0, m0;
    hide Consistent, Kids, Index.Links;
    for i := 0 to |kids|
      invariant Consistent(links, root, maxDepth, s, m)
      invariant m.done == m0.done && id in m.dist && m.dist[id] == depth
      invariant forall c :: c in m.seen <==> c in links && (links[c] in m0.done - {id} || c in kids[..i])
      invariant m.dist.Keys <= index.at.Keys + {root} && DeepestOf(deepest, m.dist, m.done)
    {
      var child := kids[i];
      NextKid(children, links, id, i);
      FlagStep(links, root, maxDepth, s, m, child);
      if child in s.visited {
        s, m := s.(cycle := true), m.(seen := m.seen + {child});
      } else if depth + 1 > maxDepth {
        s, m := s.(exceeded := true), m.(seen := m.seen + {child});
      } else {
        VisitStep(links, root, maxDepth, s, m, child);
        LinkedIsIndexed(index, child);
        s, m := Visit(s, child, depth + 1), VisitedMarks(m, child, depth + 1);
      }
    }
    assert kids[..|kids|] == kids;
  }

  // ----- Propagation completeness -----

  ghost predicate RecordRoot(records: seq<Evidence>, r: Id) {
    exists e :: e in records && e.root == r
  }

  ghost predicate ListedBelowRecord(results: seq<Traversal>, records: seq<Evidence>, x: Id) {
    exists t :: t in results && RecordRoot(records, t.root) && x in t.ids
  }

  method VerifyRevocationPropagationCompleteness(results: seq<Traversal>, records: seq<Evidence>, index: Index)
    returns (complete: bool, incomplete: seq<Id>)
    ensures complete <==> incomplete == []
    ensures forall x :: x in incomplete <==> x in index.at && Live(index.at[x]) && ListedBelowRecord(results, records, x)
  {
    var roots := set e | e in records :: e.root;
    assert forall r :: r in roots <==> RecordRoot(records, r);
    var seen: set<Id> := {};
    incomplete := [];
    for i := 0 to |results|
      invariant forall x :: x in seen <==> ListedBelowRecord(results[..i], records, x)
      invariant forall x :: x in incomplete <==> x in seen && x in index.at && Live(index.at[x])
    {
      ghost var before := seen;
      if results[i].root in roots {
        var ids := results[i].ids;
        for j := 0 to |ids|
          invariant forall x :: x in seen <==> x in before || x in ids[..j]
          invariant forall x :: x in incomplete <==> x in seen && x in index.at && Live(index.at[x])
        {
          var id := ids[j];
          assert ids[..j + 1] == ids[..j] + [id];
          if id !in seen {
            seen := seen + {id};
            if id in index.at && Live(index.at[id]) {
              incomplete := incomplete + [id];
            }
          }
        }
        assert ids[..|ids|] == ids;
      }
      assert results[..i + 1] == results[..i] + [results[i]];
    }
    assert results[..|results|] == results;
    complete := incomplete == [];
  }

  // ----- Stale lineage collapse -----

  ghost predicate LiveBelow(index: Index, r: Id, x: Id) {
    x != r && Below(index.Links(), r, x) && x in index.at && Live(index.at[x])
  }

  ghost predicate Reached(links: Links, root: Id, visited: set<Id>, seen: set<Id>) {
    && visited == {root} + seen
    && (forall c :: c in seen ==> c in links && links[c] in visited && Below(links, root, c))
  }

  ghost predicate ActiveListed(active: seq<Id>, root: Id, visited: set<Id>, index: Index) {
    forall x :: x in active <==> x in visited && x != root && x in index.at && Live(index.at[x])
  }

  ghost predicate Waiting(queue: seq<Id>, visited: set<Id>, done: set<Id>) {
    done <= visited && Distinct(queue) && forall x :: x in queue <==> x in visited && x !in done
  }

  method ActiveDescendants(root: Id, children: map<Id, seq<Id>>, index: Index) returns (active: seq<Id>)
    requires index.Valid() && ChildLists(children, index.Links())
    ensures forall x :: x in active <==> LiveBelow(index, root, x)
  {
    ghost var links := index.Links();
    active := [];
    var queue, visited := [root], {root};
    ghost var done: set<Id>, seen: set<Id> := {}, {};
    DistinctSingle(root);
    assert ActiveListed(active, root, visited, index);
    hide Distinct, Below, Kids, Index.Links, ActiveListed;
    while queue != []
      invariant Reached(links, root, visited, seen) && HandledAll(links, done, seen)
      invariant visited <= index.at.Keys + {root}
      invariant Waiting(queue, visited, done) && ActiveListed(active, root, visited, index)
      decreases index.at.Keys + {root} - done
    {
      var current := queue[0];
      DistinctTail(queue);
      queue := queue[1..];
      done := done + {current};
      queue, visited, active, seen :=
        QueueChildren(Kids(children, current), children, index, root, current, queue, visited, active, done, seen);
    }
    LiveBelowIsVisited(index, root, visited, seen, active);
  }

  lemma ReachStep(links: Links, root: Id, visited: set<Id>, seen: set<Id>, child: Id)
    requires Reached(links, root, visited, seen)
    requires child in links && links[child] in visited && Below(links, root, child)
    ensures Reached(links, root, visited + {child}, seen + {child})
  {
    hide Below;
  }

  lemma ParentIsReached(links: Links, root: Id, visited: set<Id>, seen: set<Id>, x: Id)
    requires Reached(links, root, visited, seen) && x in visited
    ensures x == root || Below(links, root, x)
    ensures root in visited
  {}

  lemma WaitStep(queue: seq<Id>, visited: set<Id>, done: set<Id>, child: Id)
    requires Waiting(queue, visited, done) && child !in visited
    ensures Waiting(queue + [child], visited + {child}, done)
  {
    DistinctAppend(queue, child);
  }

  lemma ActiveStep(active: seq<Id>, root: Id, visited: set<Id>, index: Index, child: Id)
    requires ActiveListed(active, root, visited, index) && child != root
    ensures ActiveListed(if child in index.at && Live(index.at[child]) then active + [child] else active, root, visited + {child}, index)
  {
    hide Live;
  }

  lemma DoneIsVisited(queue: seq<Id>, visited: set<Id>, done: set<Id>)
    requires Waiting(queue, visited, done)
    ensures done <= visited
  {}

  /** The loop over the children of one id. */
  method QueueChildren(kids: seq<Id>, ghost children: map<Id, seq<Id>>, index: Index, ghost root: Id, ghost current: Id,
                       queue0: seq<Id>, visited0: set<Id>, active0: seq<Id>, ghost done: set<Id>, ghost seen0: set<Id>)
    returns (queue: seq<Id>, visited: set<Id>, active: seq<Id>, ghost seen: set<Id>)
    requires ChildLists(children, index.Links()) && kids == Kids(children, current)
    requires Reached(index.Links(), root, visited0, seen0) && HandledAll(index.Links(), done - {current}, seen0)
    requires current in done && visited0 <= index.at.Keys + {root}
    requires Waiting(queue0, visited0, done) && ActiveListed(active0, root, visited0, index)
    ensures Reached(index.Links(), root, visited, seen) && HandledAll(index.Links(), done, seen)
    ensures visited <= index.at.Keys + {root}
    ensures Waiting(queue, visited, done) && ActiveListed(active, root, visited, index)
  {
    ghost var links := index.Links();
    queue, visited, active, seen := queue0, visited0, active0, seen0;
    DoneIsVisited(queue, visited, done);
    hide Distinct, Below, Live, Kids, Index.Links, Reached, Waiting, ActiveListed;
    for i := 0 to |kids|
      invariant Reached(links, root, visited, seen) && done <= visited
      invariant forall c :: c in seen <==> c in links && (links[c] in done - {current} || c in kids[..i])
      invariant visited <= index.at.Keys + {root}
      invariant Waiting(queue, visited, done) && ActiveListed(active, root, visited, index)
    {
      var child := kids[i];
      NextKid(children, links, current, i);
      ParentIsReached(links, root, visited, seen, current);
      ChildIsBelow(links, root, child);
      LinkedIsIndexed(index, child);
      ReachStep(links, root, visited, seen, child);
      seen := seen + {child};
      if child !in visited {
        WaitStep(queue, visited, done, child);
        ActiveStep(active, root, visited, index, child);
        visited := visited + {child};
        if child in index.at && Live(index.at[child]) {
          active := active + [child];
        }
        queue := queue + [child];
      } else {
        assert visited + {child} == visited;
      }
    }
    assert kids[..|kids|] == kids;
  }

  lemma LiveBelowIsVisited(index: Index, root: Id, visited: set<Id>, seen: set<Id>, active: seq<Id>)
    requires Reached(index.Links(), root, visited, seen) && HandledAll(index.Links(), visited, seen)
    requires ActiveListed(active, root, visited, index)
    ensures forall x :: x in active <==> LiveBelow(index, root, x)
  {
    var links := index.Links();
    forall x, n: nat | Up(links, x, n) == Some(root) ensures x in visited {
      EverythingBelowIsVisited(links, root, visited, seen, x, n);
    }
  }

  lemma ChildIsBelow(links: Links, root: Id, c: Id)
    requires c in links && (links[c] == root || Below(links, root, links[c]))
    ensures Below(links, root, c)
  {
    if links[c] == root {
      assert Up(links, c, 1) == Up(links, links[c], 0) == Some(root);
    } else {
      var n: nat :| n >= 1 && Up(links, links[c], n) == Some(root);
      assert Up(links, c, n + 1) == Some(root);
    }
  }

  lemma {:induction false} EverythingBelowIsVisited(links: Links, root: Id, visited: set<Id>, seen: set<Id>, x: Id, n: nat)
    requires root in visited && seen <= visited && HandledAll(links, visited, seen)
    requires Up(links, x, n) == Some(root)
    ensures x in visited
    decreases n
  {
    if n > 0 {
      EverythingBelowIsVisited(links, root, visited, seen, links[x], n - 1);
    }
  }

  /** One collapse for each barriered entry that still has live descendants, listing all of them. */
  ghost predicate ExactCollapses(collapses: seq<Collapse>, index: Index, barriered: set<Id>) {
    && (forall i :: 0 <= i < |collapses| ==>
          collapses[i].root in barriered && collapses[i].active != []
          && forall x :: x in collapses[i].active <==> LiveBelow(index, collapses[i].root, x))
    && (forall i, j :: 0 <= i < j < |collapses| ==> collapses[i].root != collapses[j].root)
    && (forall r, x :: r in barriered && LiveBelow(index, r, x) ==> exists i :: 0 <= i < |collapses| && collapses[i].root == r)
  }

  ghost function BarrieredIds(index: Index, now: int): set<Id> {
    set x | x in index.at && Barriered(index.at[x], now)
  }

  method EnforceStaleLineageCollapse(index: Index, now: int) returns (collapses: seq<Collapse>)
    requires index.Valid()
    ensures ExactCollapses(collapses, index, BarrieredIds(index, now))
  {
    var children := BuildChildrenMap(index);
    collapses := [];
    var processed: set<Id> := {};
    for i := 0 to |index.order|
      invariant processed == set x | x in index.order[..i] && Barriered(index.at[x], now)
      invariant ExactCollapses(collapses, index, processed)
    {
      var root := index.order[i];
      assert index.order[..i + 1] == index.order[..i] + [root];
      if Barriered(index.at[root], now) && root !in processed {
        var active := ActiveDescendants(root, children, index);
        collapses := AddCollapse(collapses, root, active, index, processed);
        processed := processed + {root};
      }
    }
    assert index.order[..|index.order|] == index.order;
    assert processed == BarrieredIds(index, now);
  }

  method AddCollapse(before: seq<Collapse>, root: Id, active: seq<Id>, ghost index: Index, ghost processed: set<Id>)
    returns (collapses: seq<Collapse>)
    requires ExactCollapses(before, index, processed) && root !in processed
    requires forall x :: x in active <==> LiveBelow(index, root, x)
    ensures ExactCollapses(collapses, index, processed + {root})
  {
    hide LiveBelow;
    if active == [] {
      collapses := before;
    } else {
      collapses := before + [Collapse(root, active)];
      assert collapses[|before|].root == root;
      forall r, x | r in processed && LiveBelow(index, r, x)
        ensures exists i :: 0 <= i < |collapses| && collapses[i].root == r
      {
        var i :| 0 <= i < |before| && before[i].root == r;
        assert collapses[i].root == r;
      }
    }
  }

  // ----- Ancestry audit -----

  ghost predicate BarrieredAt(index: Index, now: int, x: Id, n: nat) {
    match Up(index.Links(), x, n)
    case None => false
    case Some(y) => y in index.at && Barriered(index.at[y], now)
  }

  /** The audit names the nearest barriered proper ancestor within `maxDepth` steps, if there is one. */
  ghost predicate ExactAudit(a: Audit, index: Index, now: int, x: Id, maxDepth: nat) {
    && (forall i :: 0 <= i < |a.chain| ==> Up(index.Links(), x, i) == Some(a.chain[i]))
    && match a.revokedAncestor
       case None => forall n: nat :: 1 <= n <= maxDepth ==> !BarrieredAt(index, now, x, n)
       case Some(y) =>
         var n := |a.chain| - 1;
         && 1 <= n <= maxDepth && a.chain[n] == y && BarrieredAt(index, now, x, n)
         && forall k: nat :: 1 <= k < n ==> !BarrieredAt(index, now, x, k)
  }

  method AuditRevocationAncestry(x: Id, index: Index, maxDepth: nat, now: int) returns (a: Audit)
    requires index.Valid()
    ensures a.id == x && ExactAudit(a, index, now, x, maxDepth)
  {
    ghost var links := index.Links();
    var chain: seq<Id>, visited: set<Id>, current := [], {}, x;
    while true
      invariant |chain| <= maxDepth
      invariant Up(links, x, |chain|) == Some(current)
      invariant forall i :: 0 <= i < |chain| ==> Up(links, x, i) == Some(chain[i])
      invariant forall y :: y in visited <==> y in chain
      invariant forall k: nat :: 1 <= k <= |chain| ==> !BarrieredAt(index, now, x, k)
      decreases maxDepth - |chain|
    {
      if current in visited {
        var j :| 0 <= j < |chain| && chain[j] == current;
        NothingAfterRepeat(index, now, x, j, |chain|);
        break;
      }
      visited := visited + {current};
      chain := chain + [current];
      UpNext(links, x, |chain| - 1);
      if |chain| > maxDepth {
        break;
      }
      if current !in index.at || index.at[current].parent == None {
        forall n: nat | n >= |chain| ensures !BarrieredAt(index, now, x, n) { UpStaysNone(links, x, |chain|, n); }
        break;
      }
      var parent := index.at[current].parent.value;
      if parent in index.at && Barriered(index.at[parent], now) {
        return Audit(x, Some(parent), chain + [parent]);
      }
      current := parent;
    }
    a := Audit(x, None, chain);
  }

  lemma NothingAfterRepeat(index: Index, now: int, x: Id, j: nat, m: nat)
    requires j < m && Up(index.Links(), x, j) == Up(index.Links(), x, m)
    requires forall k: nat :: 1 <= k <= m ==> !BarrieredAt(index, now, x, k)
    ensures forall n: nat :: n >= 1 ==> !BarrieredAt(index, now, x, n)
  {
    forall n: nat | n >= 1 ensures !BarrieredAt(index, now, x, n) {
      if n > m {
        var k := UpRepeats(index.Links(), x, j, m, n);
        assert !BarrieredAt(index, now, x, k);
      }
    }
  }

  /** The upward audit and the downward collapse see the same revocations. */
  lemma AuditAgreesWithCollapse(index: Index, now: int, x: Id, maxDepth: nat, a: Audit, collapses: seq<Collapse>)
    requires ExactAudit(a, index, now, x, maxDepth)
    requires ExactCollapses(collapses, index, BarrieredIds(index, now))
    ensures a.revokedAncestor.Some? && x != a.revokedAncestor.value && x in index.at && Live(index.at[x]) ==>
              exists i :: 0 <= i < |collapses| && collapses[i].root == a.revokedAncestor.value && x in collapses[i].active
    ensures (exists i, n: nat :: 0 <= i < |collapses| && x in collapses[i].active && 1 <= n <= maxDepth
               && Up(index.Links(), x, n) == Some(collapses[i].root)) ==> a.revokedAncestor.Some?
  {
    if a.revokedAncestor.Some? && x != a.revokedAncestor.value && x in index.at && Live(index.at[x]) {
      var r := a.revokedAncestor.value;
      assert Up(index.Links(), x, |a.chain| - 1) == Some(r);
      assert r in BarrieredIds(index, now) && LiveBelow(index, r, x);
    }
    forall i, n: nat | 0 <= i < |collapses| && x in collapses[i].active && 1 <= n <= maxDepth
                       && Up(index.Links(), x, n) == Some(collapses[i].root)
      ensures a.revokedAncestor.Some?
    {
      assert BarrieredAt(index, now, x, n);
    }
  }

  // ----- The verdict -----

  ghost predicate RevokedRoot(index: Index, records: seq<Evidence>, now: int, r: Id) {
    r in BarrieredIds(index, now) || RecordRoot(records, r)
  }

  ghost predicate HasFailure(index: Index, records: seq<Evidence>, now: int, maxDepth: nat) {
    exists r :: RevokedRoot(index, records, now, r)
                && (OnCycleWithin(index.Links(), r, maxDepth + 1) || DeeperThan(index.Links(), r, maxDepth))
  }

  ghost predicate LiveWithin(index: Index, r: Id, x: Id, maxDepth: nat) {
    && x != r && x in index.at && Live(index.at[x])
    && exists n: nat :: 1 <= n <= maxDepth && Up(index.Links(), x, n) == Some(r)
  }

  ghost predicate HasIncomplete(index: Index, records: seq<Evidence>, maxDepth: nat) {
    exists r, x :: RecordRoot(records, r) && LiveWithin(index, r, x, maxDepth)
  }

  ghost predicate HasStale(index: Index, now: int) {
    exists r, x :: r in BarrieredIds(index, now) && LiveBelow(index, r, x)
  }

  ghost function Verdict(views: seq<View>, index: Index, records: seq<Evidence>, maxDepth: nat, now: int): Outcome {
    if views == [] || index.order == [] then NullPropagation
    else if HasFailure(index, records, now, maxDepth) then PropagationCollapsed
    else if HasIncomplete(index, records, maxDepth) then PropagationIncomplete
    else if HasStale(index, now) then PropagationStale
    else if |views| > 1 && !OneHash(views) then PropagationConvergenceFailed
    else PropagationComplete
  }

  method PropagateRevocationLineage(views: seq<View>, records: seq<Evidence>, maxDepth: nat, now: int)
    returns (outcome: Outcome, index: Index)
    ensures index.Valid() && Merges(index, Flatten(views))
    ensures outcome == Verdict(views, index, records, maxDepth, now)
  {
    index := MergeViews(views);
    if views == [] || index.order == [] {
      return NullPropagation, index;
    }
    var roots := RevokedRoots(index, records, now);
    var results := TraverseAll(roots, index, maxDepth);
    var complete, incomplete := VerifyRevocationPropagationCompleteness(results, records, index);
    var collapses := EnforceStaleLineageCollapse(index, now);
    var topHash, topCount := TopHash(views);
    FailureIsExact(index, records, now, maxDepth, roots, results);
    IncompleteIsExact(index, records, now, maxDepth, roots, results, incomplete);
    StaleIsExact(index, now, collapses);
    if exists i :: 0 <= i < |results| && results[i].failure != None {
      outcome := PropagationCollapsed;
    } else if !complete {
      outcome := PropagationIncomplete;
    } else if |collapses| > 0 {
      outcome := PropagationStale;
    } else if |views| > 1 && topCount != |views| {
      outcome := PropagationConvergenceFailed;
    } else {
      outcome := PropagationComplete;
    }
  }

  method RevokedRoots(index: Index, records: seq<Evidence>, now: int) returns (roots: seq<Id>)
    requires index.Valid()
    ensures Distinct(roots) && forall r :: r in roots <==> RevokedRoot(index, records, now, r)
  {
    roots := [];
    for i := 0 to |index.order|
      invariant Distinct(roots) && forall r :: r in roots <==> r in index.order[..i] && Barriered(index.at[r], now)
    {
      assert index.order[..i + 1] == index.order[..i] + [index.order[i]];
      if Barriered(index.at[index.order[i]], now) {
        roots := roots + [index.order[i]];
      }
    }
    assert index.order[..|index.order|] == index.order;
    for i := 0 to |records|
      invariant Distinct(roots) && forall r :: r in roots <==> r in BarrieredIds(index, now) || RecordRoot(records[..i], r)
    {
      var root := records[i].root;
      assert records[..i + 1] == records[..i] + [records[i]];
      if root !in roots {
        DistinctAppend(roots, root);
        roots := roots + [root];
      }
    }
    assert records[..|records|] == records;
  }

  ghost predicate TraversalsOf(results: seq<Traversal>, roots: seq<Id>, index: Index, maxDepth: nat) {
    |results| == |roots| && forall i :: 0 <= i < |results| ==> ExactTraversal(results[i], index.Links(), roots[i], maxDepth)
  }

  method TraverseAll(roots: seq<Id>, index: Index, maxDepth: nat) returns (results: seq<Traversal>)
    requires index.Valid()
    ensures TraversalsOf(results, roots, index, maxDepth)
  {
    results := [];
    for i := 0 to |roots|
      invariant TraversalsOf(results, roots[..i], index, maxDepth)
    {
      hide ExactTraversal;
      var t := TraverseDescendantRevocation(roots[i], index, maxDepth);
      results := results + [t];
    }
    assert roots[..|roots|] == roots;
  }

  lemma FailureIsExact(index: Index, records: seq<Evidence>, now: int, maxDepth: nat, roots: seq<Id>, results: seq<Traversal>)
    requires forall r :: r in roots <==> RevokedRoot(index, records, now, r)
    requires TraversalsOf(results, roots, index, maxDepth)
    ensures HasFailure(index, records, now, maxDepth) <==> exists i :: 0 <= i < |results| && results[i].failure != None
  {
    hide RevokedRoot, OnCycleWithin, DeeperThan, Index.Links;
    forall i | 0 <= i < |results| && results[i].failure != None ensures HasFailure(index, records, now, maxDepth) {
      assert roots[i] in roots;
      match results[i].failure.value
      case CycleDetected =>
      case DepthExceeded =>
    }
    forall r | RevokedRoot(index, records, now, r)
               && (OnCycleWithin(index.Links(), r, maxDepth + 1) || DeeperThan(index.Links(), r, maxDepth))
      ensures exists i :: 0 <= i < |results| && results[i].failure != None
    {
      var i :| 0 <= i < |roots| && roots[i] == r;
      assert results[i].failure != None;
    }
  }

  lemma IncompleteIsExact(index: Index, records: seq<Evidence>, now: int, maxDepth: nat, roots: seq<Id>,
                          results: seq<Traversal>, incomplete: seq<Id>)
    requires forall r :: r in roots <==> RevokedRoot(index, records, now, r)
    requires TraversalsOf(results, roots, index, maxDepth)
    requires forall x :: x in incomplete <==> x in index.at && Live(index.at[x]) && ListedBelowRecord(results, records, x)
    ensures HasIncomplete(index, records, maxDepth) <==> incomplete != []
  {
    hide RecordRoot, Live, Index.Links, OnCycleWithin, DeeperThan;
    if incomplete != [] {
      var x := incomplete[0];
      assert x in incomplete;
      var t :| t in results && RecordRoot(records, t.root) && x in t.ids;
      assert LiveWithin(index, t.root, x, maxDepth);
    }
    forall r, x | RecordRoot(records, r) && LiveWithin(index, r, x, maxDepth) ensures incomplete != [] {
      assert r in roots;
      var i :| 0 <= i < |roots| && roots[i] == r;
      assert results[i] in results && x in results[i].ids;
      assert x in incomplete;
    }
  }

  lemma StaleIsExact(index: Index, now: int, collapses: seq<Collapse>)
    requires ExactCollapses(collapses, index, BarrieredIds(index, now))
    ensures HasStale(index, now) <==> collapses != []
  {
    hide LiveBelow;
    if collapses != [] {
      assert collapses[0].active[0] in collapses[0].active;
    }
  }

  /** The revocation invariant the engine is for: after PROPAGATION_COMPLETE no ACTIVE, unrevoked
      entry lies below a barriered entry or a recorded root, at any depth, cycles included. */
  lemma CompleteMeansRevoked(views: seq<View>, index: Index, records: seq<Evidence>, maxDepth: nat, now: int, r: Id, x: Id)
    requires Verdict(views, index, records, maxDepth, now) == PropagationComplete
    requires RevokedRoot(index, records, now, r) && Below(index.Links(), r, x)
    ensures !(x in index.at && Live(index.at[x]))
    ensures x != r
  {
    var links := index.Links();
    var n: nat :| n >= 1 && Up(links, x, n) == Some(r);
    var m := FirstHit(links, links[x], r, n - 1);
    assert m <= maxDepth;
    assert Up(links, x, m + 1) == Some(r);
    assert x != r;
    HitsChild(links, x, r, m);
    if x in index.at && Live(index.at[x]) {
      assert m + 1 <= maxDepth;
      assert LiveWithin(index, r, x, maxDepth) && LiveBelow(index, r, x);
    }
  }
}
