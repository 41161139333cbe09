/** src/distributed-continuity-lineage-reconciliation.ts: orphan detection, the ancestry walk, the
    propagation check, replay eligibility, convergence and the reconciliation verdict. */
module LineageReconciliation {
  import opened Prelude
  import opened ContinuityRegistry
  import opened Ancestry

  datatype Evidence = Evidence(root: Id, propagated: seq<Id>)

  datatype Replay = Replay(id: Id, hash: string)

  datatype Walk = WalkOk(depth: nat) | WalkCycle(depth: nat) | WalkTooDeep(depth: nat)

  datatype Ineligibility = NoEntry | RevokedOrExpired | HashMismatch | CascadeDetected

  datatype Outcome = Reconciled | Diverged | Orphaned | Revoked | Stale | Collapsed | NullReconciliation

  // ----- Orphans -----

  method DetectOrphanedContinuityLineage(index: Index) returns (orphaned: seq<Id>)
    requires index.Valid()
    ensures Distinct(orphaned) && forall x :: x in orphaned <==> Orphan(index, x)
  {
    orphaned := [];
    for i := 0 to |index.order|
      invariant Distinct(orphaned) && forall x :: x in orphaned <==> x in index.order[..i] && Orphan(index, x)
    {
      var e := index.at[index.order[i]];
      assert index.order[..i + 1] == index.order[..i] + [e.id];
      if e.parent.Some? && e.parent.value !in index.at {
        DistinctAppend(orphaned, e.id);
        orphaned := orphaned + [e.id];
      }
    }
    assert index.order[..|index.order|] == index.order;
  }

  // ----- Ancestry walk -----

  ghost predicate RepeatsWithin(links: Links, x: Id, bound: nat) {
    exists j: nat, m: nat :: j < m <= bound && Up(links, x, m).Some? && Up(links, x, j) == Up(links, x, m)
  }

  /** Within `maxDepth` entries the walk ends, or some id repeats, or neither. */
  ghost predicate ExactWalk(w: Walk, links: Links, x: Id, maxDepth: nat) {
    && (w.WalkOk? <==> Up(links, x, maxDepth) == None)
    && (w.WalkCycle? <==> RepeatsWithin(links, x, maxDepth))
    && (w.WalkTooDeep? ==> w.depth == maxDepth + 1)
    && (w.WalkOk? ==> w.depth <= maxDepth && Up(links, x, w.depth) == None && (w.depth == 0 || Up(links, x, w.depth - 1).Some?))
  }

  /** The ids passed on the way up from `x`, none of them twice. */
  ghost predicate Climbed(links: Links, x: Id, chain: seq<Id>) {
    Distinct(chain) && forall i :: 0 <= i < |chain| ==> Up(links, x, i) == Some(chain[i])
  }

  lemma ClimbFirst(links: Links, x: Id)
    ensures Climbed(links, x, []) && Up(links, x, 0) == Some(x)
  {}

  lemma ClimbNext(links: Links, x: Id, chain: seq<Id>, current: Id)
    requires Climbed(links, x, chain) && Up(links, x, |chain|) == Some(current) && current !in chain
    ensures Climbed(links, x, chain + [current])
    ensures Up(links, x, |chain| + 1) == if current in links then Some(links[current]) else None
  {
    DistinctAppend(chain, current);
    UpNext(links, x, |chain|);
  }

  /** Back at an id of the chain, the walk repeats and never ends. */
  lemma ClimbedBack(links: Links, x: Id, chain: seq<Id>, current: Id, bound: nat)
    requires Climbed(links, x, chain) && Up(links, x, |chain|) == Some(current) && current in chain && |chain| <= bound
    ensures Up(links, x, bound).Some? && RepeatsWithin(links, x, bound)
  {
    var j :| 0 <= j < |chain| && chain[j] == current;
    RepeatingNeverEnds(links, x, j, |chain|, bound);
  }

  /** More ids than the bound, all different: neither an end nor a repeat within it. */
  lemma ClimbedTooFar(links: Links, x: Id, chain: seq<Id>, bound: nat)
    requires Climbed(links, x, chain) && |chain| == bound + 1
    ensures Up(links, x, bound).Some? && !RepeatsWithin(links, x, bound)
  {
    assert Up(links, x, bound) == Some(chain[bound]);
    forall j: nat, m: nat | j < m <= bound ensures Up(links, x, j) != Up(links, x, m) {
      assert Up(links, x, j) == Some(chain[j]) && Up(links, x, m) == Some(chain[m]);
    }
  }

  lemma ClimbedLast(links: Links, x: Id, chain: seq<Id>)
    requires Climbed(links, x, chain) && chain != []
    ensures Up(links, x, |chain| - 1).Some?
  {}

  method TraverseAncestry(start: Id, index: Index, maxDepth: nat) returns (w: Walk)
    requires index.Valid()
    ensures ExactWalk(w, index.Links(), start, maxDepth)
  {
    ghost var links, chain := index.Links(), [];
    var visited: set<Id>, current, depth := {}, Some(start), 0;
    ClimbFirst(links, start);
    hide Up, RepeatsWithin, Climbed;
    while current.Some?
      invariant depth == |chain| <= maxDepth && Climbed(links, start, chain) && Up(links, start, depth) == current
      invariant forall y :: y in visited <==> y in chain
      invariant current == None ==> chain != []
      decreases maxDepth - depth, current
    {
      if current.value in visited {
        ClimbedBack(links, start, chain, current.value, maxDepth);
        return WalkCycle(depth);
      }
      ClimbNext(links, start, chain, current.value);
      visited := visited + {current.value};
      chain := chain + [current.value];
      depth := depth + 1;
      if depth > maxDepth {
        ClimbedTooFar(links, start, chain, maxDepth);
        return WalkTooDeep(depth);
      }
      ClimbedLast(links, start, chain);
      if current.value !in index.at {
        NeverRepeats(links, start, depth, maxDepth);
        return WalkOk(depth);
      }
      current := index.at[current.value].parent;
    }
    ClimbedLast(links, start, chain);
    NeverRepeats(links, start, depth, maxDepth);
    w := WalkOk(depth);
  }

  lemma RepeatingNeverEnds(links: Links, x: Id, j: nat, m: nat, bound: nat)
    requires j < m <= bound && Up(links, x, m).Some? && Up(links, x, j) == Up(links, x, m)
    ensures Up(links, x, bound).Some? && RepeatsWithin(links, x, bound)
  {
    var k := UpRepeats(links, x, j, m, bound);
    if Up(links, x, k) == None { UpStaysNone(links, x, k, m); }
  }

  /** A walk that ends at step `depth` repeats nothing. */
  lemma NeverRepeats(links: Links, x: Id, depth: nat, bound: nat)
    requires depth <= bound && Up(links, x, depth) == None
    ensures Up(links, x, bound) == None && !RepeatsWithin(links, x, bound)
  {
    UpStaysNone(links, x, depth, bound);
    forall j: nat, m: nat | j < m <= bound && Up(links, x, m).Some? ensures Up(links, x, j) != Up(links, x, m) {
      if Up(links, x, j) == Up(links, x, m) {
        RepeatingNeverEnds(links, x, j, m, bound);
      }
    }
  }

  // ----- Revocation propagation -----

  predicate Covered(rev: Evidence, x: Id) { x == rev.root || x in rev.propagated }

  ghost predicate MissedChild(evidence: seq<Evidence>, index: Index, x: Id) {
    && x in index.at && Active(index.at[x]) && index.at[x].parent.Some?
    && exists rev :: rev in evidence && Covered(rev, index.at[x].parent.value) && !Covered(rev, x)
  }

  method VerifyRevocationPropagationCompleteness(evidence: seq<Evidence>, index: Index) returns (missing: seq<Id>)
    requires index.Valid()
    ensures forall x :: x in missing <==> MissedChild(evidence, index, x)
  {
    missing := [];
    for i := 0 to |evidence|
      invariant forall x :: x in missing <==> MissedChild(evidence[..i], index, x)
    {
      var rev := evidence[i];
      assert evidence[..i + 1] == evidence[..i] + [rev];
      for k := 0 to |index.order|
        invariant forall x :: x in missing <==> (MissedChild(evidence[..i], index, x)
                                                    || (x in index.order[..k] && MissedChild([rev], index, x)))
      {
        var e := index.at[index.order[k]];
        assert index.order[..k + 1] == index.order[..k] + [e.id];
        if e.parent.Some? && Covered(rev, e.parent.value) && !Covered(rev, e.id) {
          if Active(e) {
            assert rev in [rev];
            missing := missing + [e.id];
          }
        }
      }
      assert index.order[..|index.order|] == index.order;
      forall x ensures MissedChild(evidence[..i + 1], index, x) <==>
                       MissedChild(evidence[..i], index, x) || MissedChild([rev], index, x)
      {
        assert rev in evidence[..i + 1] && forall r :: r in evidence[..i] ==> r in evidence[..i + 1];
        assert rev in [rev];
      }
    }
    assert evidence[..|evidence|] == evidence;
  }

  /** Entry `x` lies `n` steps below `r`, and every entry on the way from `x` is ACTIVE. */
  ghost predicate BelowThroughActive(index: Index, r: Id, x: Id, n: nat) {
    && Up(index.Links(), x, n) == Some(r)
    && forall k: nat :: k < n ==> ActiveAt(index, x, k)
  }

  ghost predicate ActiveAt(index: Index, x: Id, k: nat) {
    var up := Up(index.Links(), x, k);
    up.Some? && up.value in index.at && Active(index.at[up.value])
  }

  /** Complete propagation reaches every entry below a revoked root through ACTIVE entries. */
  lemma {:induction false} CascadeReaches(evidence: seq<Evidence>, index: Index, rev: Evidence, x: Id, n: nat)
    requires forall y :: !MissedChild(evidence, index, y)
    requires rev in evidence && BelowThroughActive(index, rev.root, x, n)
    ensures Covered(rev, x)
    decreases n
  {
    if n > 0 {
      var p := index.Links()[x];
      assert Up(index.Links(), x, 0) == Some(x);
      assert ActiveAt(index, x, 0);
      forall k: nat | k < n - 1 ensures ActiveAt(index, p, k) {
        assert ActiveAt(index, x, k + 1);
        assert Up(index.Links(), p, k) == Up(index.Links(), x, k + 1);
      }
      CascadeReaches(evidence, index, rev, p, n - 1);
      assert !MissedChild(evidence, index, x);
    }
  }

  // ----- Freshness and replay -----

  ghost predicate StaleEntry(e: Entry, horizon: Option<int>, now: int) {
    horizon.Some? && e.expiresAt.Some? && e.expiresAt.value > 0 && e.expiresAt.value - now < horizon.value
  }

  method CheckFreshnessBarrier(index: Index, horizon: Option<int>, now: int) returns (stale: seq<Id>)
    requires index.Valid()
    ensures forall x :: x in stale <==> x in index.at && StaleEntry(index.at[x], horizon, now)
  {
    stale := [];
    if horizon.Some? {
      for i := 0 to |index.order|
        invariant forall x :: x in stale <==> x in index.order[..i] && StaleEntry(index.at[x], horizon, now)
      {
        var e := index.at[index.order[i]];
        assert index.order[..i + 1] == index.order[..i] + [e.id];
        if e.expiresAt.Some? && e.expiresAt.value > 0 && e.expiresAt.value - now < horizon.value {
          stale := stale + [e.id];
        }
      }
      assert index.order[..|index.order|] == index.order;
    }
  }

  function IsSha256(h: string): bool {
    |h| == 64 && forall i :: 0 <= i < |h| ==> '0' <= h[i] <= '9' || 'a' <= h[i] <= 'f'
  }

  /** None when the replay is eligible. */
  function VerifyReplayLineageEligibility(replay: Replay, index: Index, evidence: seq<Evidence>, now: int): Option<Ineligibility> {
    if replay.id !in index.at then Some(NoEntry)
    else if Barriered(index.at[replay.id], now) then Some(RevokedOrExpired)
    else if IsSha256(index.at[replay.id].hash) && IsSha256(replay.hash) && index.at[replay.id].hash != replay.hash then Some(HashMismatch)
    else if exists rev | rev in evidence :: Covered(rev, replay.id) then Some(CascadeDetected)
    else None
  }

  /** Once no propagation is missing, an eligible replay belongs to a live, unexpired entry that lies below no
      revocation root through ACTIVE entries, at any depth: replaying it revives no revoked lineage. */
  lemma EligibleReplay(replay: Replay, index: Index, evidence: seq<Evidence>, now: int, rev: Evidence, n: nat)
    requires forall y :: !MissedChild(evidence, index, y)
    requires VerifyReplayLineageEligibility(replay, index, evidence, now) == None && rev in evidence
    ensures replay.id in index.at && Live(index.at[replay.id]) && !Expired(index.at[replay.id], now)
    ensures !BelowThroughActive(index, rev.root, replay.id, n)
  {
    if BelowThroughActive(index, rev.root, replay.id, n) {
      CascadeReaches(evidence, index, rev, replay.id, n);
    }
  }

  /** The same after the verdict LINEAGE_RECONCILED, which is given only when no propagation is missing. */
  lemma ReconciledReplay(views: seq<View>, index: Index, replays: seq<Replay>, evidence: seq<Evidence>, horizon: Option<int>,
                         maxDepth: nat, now: int, replay: Replay, rev: Evidence, n: nat)
    requires Verdict(views, index, replays, evidence, horizon, maxDepth, now) == Reconciled
    requires VerifyReplayLineageEligibility(replay, index, evidence, now) == None && rev in evidence
    ensures !BelowThroughActive(index, rev.root, replay.id, n)
  {
    hide BelowThroughActive, VerifyReplayLineageEligibility, MissedChild;
    EligibleReplay(replay, index, evidence, now, rev, n);
  }

  // ----- The verdict -----

  ghost predicate SomeWalkFails(index: Index, maxDepth: nat) {
    exists x :: x in index.at && Up(index.Links(), x, maxDepth).Some?
  }

  ghost predicate HasStale(index: Index, replays: seq<Replay>, evidence: seq<Evidence>, horizon: Option<int>, now: int) {
    || (exists x :: x in index.at && StaleEntry(index.at[x], horizon, now))
    || (exists r :: r in replays && VerifyReplayLineageEligibility(r, index, evidence, now) == Some(RevokedOrExpired))
  }

  ghost function Verdict(views: seq<View>, index: Index, replays: seq<Replay>, evidence: seq<Evidence>,
                         horizon: Option<int>, maxDepth: nat, now: int): Outcome {
    if views == [] then NullReconciliation
    else if exists x :: Orphan(index, x) then Orphaned
    else if SomeWalkFails(index, maxDepth) then Collapsed
    else if exists x :: MissedChild(evidence, index, x) then Revoked
    else if !OneHash(views) then Diverged
    else if HasStale(index, replays, evidence, horizon, now) then Stale
    else Reconciled
  }

  method Reconcile(views: seq<View>, replays: seq<Replay>, evidence: seq<Evidence>, horizon: Option<int>, maxDepth: nat, now: int)
    returns (outcome: Outcome, index: Index)
    ensures index.Valid() && Merges(index, Flatten(views))
    ensures outcome == Verdict(views, index, replays, evidence, horizon, maxDepth, now)
  {
    index := MergeViews(views);
    if views == [] {
      return NullReconciliation, index;
    }
    var orphaned := DetectOrphanedContinuityLineage(index);
    var failed := AnyWalkFails(index, maxDepth);
    var stale := CheckFreshnessBarrier(index, horizon, now);
    var missing := VerifyRevocationPropagationCompleteness(evidence, index);
    var staleReplay := exists r | r in replays :: VerifyReplayLineageEligibility(r, index, evidence, now) == Some(RevokedOrExpired);
    var topHash, topCount := TopHash(views);
    hide Orphan, MissedChild, StaleEntry, VerifyReplayLineageEligibility, OneHash, Index.Links;
    assert orphaned != [] ==> orphaned[0] in orphaned;
    assert missing != [] ==> missing[0] in missing;
    assert stale != [] ==> stale[0] in stale;
    if |orphaned| > 0 {
      outcome := Orphaned;
    } else if failed {
      outcome := Collapsed;
    } else if |missing| > 0 {
      outcome := Revoked;
    } else if topCount != |views| {
      outcome := Diverged;
    } else if |stale| > 0 || staleReplay {
      outcome := Stale;
    } else {
      outcome := Reconciled;
    }
  }

  method AnyWalkFails(index: Index, maxDepth: nat) returns (failed: bool)
    requires index.Valid()
    ensures failed <==> SomeWalkFails(index, maxDepth)
  {
    failed := false;
    hide Index.Links;
    for i := 0 to |index.order|
      invariant failed <==> exists x :: x in index.order[..i] && Up(index.Links(), x, maxDepth).Some?
    {
      var x := index.order[i];
      var w := TraverseAncestry(x, index, maxDepth);
      assert index.order[..i + 1] == index.order[..i] + [x];
      assert x in index.order[..i + 1];
      failed := failed || !w.WalkOk?;
    }
    assert index.order[..|index.order|] == index.order;
  }

  // ----- What LINEAGE_RECONCILED means -----

  ghost predicate IsRoot(index: Index, x: Id) { x in index.at && index.at[x].parent == None }

  /** From `x` a root is `n` steps up, every id on the way is in the index, and none repeats. */
  ghost predicate EndsAtRoot(index: Index, x: Id, n: nat) {
    && Up(index.Links(), x, n).Some? && IsRoot(index, Up(index.Links(), x, n).value)
    && (forall k: nat :: k <= n ==> Up(index.Links(), x, k).Some? && Up(index.Links(), x, k).value in index.at)
    && forall j: nat, m: nat :: j < m <= n ==> Up(index.Links(), x, j) != Up(index.Links(), x, m)
  }

  /** A reconciled registry is a forest of bounded depth: each parent resolves, each walk ends at a
      root after at most `maxDepth` entries, ranks fall along every link, and all views agree. */
  lemma ReconciledIsBoundedForest(views: seq<View>, index: Index, replays: seq<Replay>, evidence: seq<Evidence>,
                                  horizon: Option<int>, maxDepth: nat, now: int)
    returns (rank: map<Id, nat>)
    requires Verdict(views, index, replays, evidence, horizon, maxDepth, now) == Reconciled
    ensures rank.Keys == index.at.Keys
    ensures forall x :: x in index.at ==> rank[x] < maxDepth && EndsAtRoot(index, x, rank[x])
    ensures forall x :: x in index.at && index.at[x].parent.Some? ==>
              index.at[x].parent.value in index.at && rank[index.at[x].parent.value] + 1 == rank[x]
    ensures OneHash(views)
  {
    rank := ForestRanks(index, maxDepth);
  }

  lemma ForestRanks(index: Index, maxDepth: nat) returns (rank: map<Id, nat>)
    requires forall x :: !Orphan(index, x)
    requires !SomeWalkFails(index, maxDepth)
    ensures rank.Keys == index.at.Keys
    ensures forall x :: x in index.at ==> rank[x] < maxDepth && EndsAtRoot(index, x, rank[x])
    ensures forall x :: x in index.at && index.at[x].parent.Some? ==>
              index.at[x].parent.value in index.at && rank[index.at[x].parent.value] + 1 == rank[x]
  {
    hide EndsAtRoot, Orphan;
    forall x | x in index.at ensures exists n: nat :: n < maxDepth && EndsAtRoot(index, x, n) {
      assert Up(index.Links(), x, maxDepth) == None;
      var n := WalkToRoot(index, x, maxDepth);
    }
    rank := map x | x in index.at :: var n: nat :| n < maxDepth && EndsAtRoot(index, x, n); n;
    forall x | x in index.at && index.at[x].parent.Some?
      ensures index.at[x].parent.value in index.at && rank[index.at[x].parent.value] + 1 == rank[x]
    {
      ParentResolves(index, x);
      RootsAgree(index, x, rank[x], rank[index.at[x].parent.value] + 1);
    }
  }

  lemma ParentResolves(index: Index, x: Id)
    requires x in index.at && index.at[x].parent.Some? && !Orphan(index, x)
    ensures index.at[x].parent.value in index.at
  {}

  lemma {:induction false} WalkToRoot(index: Index, x: Id, bound: nat) returns (n: nat)
    requires x in index.at && Up(index.Links(), x, bound) == None
    requires forall y :: !Orphan(index, y)
    ensures n < bound && EndsAtRoot(index, x, n)
    decreases bound
  {
    var links := index.Links();
    assert Up(links, x, 0) == Some(x);
    if index.at[x].parent == None {
      n := 0;
    } else {
      assert !Orphan(index, x);
      var p := links[x];
      var m := WalkToRoot(index, p, bound - 1);
      n := m + 1;
      forall k: nat | k <= n ensures Up(links, x, k).Some? && Up(links, x, k).value in index.at {
        if k > 0 { assert Up(links, x, k) == Up(links, p, k - 1); }
      }
      NeverRepeats(links, x, bound, bound);
      forall i: nat, j: nat | i < j <= n ensures Up(links, x, i) != Up(links, x, j) {
        assert Up(links, x, j).Some?;
        assert j <= bound;
      }
    }
  }

  lemma RootsAgree(index: Index, x: Id, m: nat, n: nat)
    requires EndsAtRoot(index, x, m)
    requires n > 0 && x in index.Links() && EndsAtRoot(index, index.Links()[x], n - 1)
    ensures m == n
  {
    var links := index.Links();
    assert Up(links, x, n) == Up(links, links[x], n - 1);
    UpNext(links, x, m);
    UpNext(links, x, n);
    SameEnd(links, x, m, n);
  }

  lemma SameEnd(links: Links, x: Id, m: nat, n: nat)
    requires Up(links, x, m).Some? && Up(links, x, m + 1) == None
    requires Up(links, x, n).Some? && Up(links, x, n + 1) == None
    ensures m == n
  {
    if m < n {
      UpStaysNone(links, x, m + 1, n);
    } else if n < m {
      UpStaysNone(links, x, n + 1, m);
    }
  }
}
