/** src/lib/causal-legitimacy-clock.ts: vector clock comparison and the classification of sets of
    clocks. */
module CausalClock {
  import opened Prelude

  type Vector = map<string, real>

  datatype Ordering = Before | After | Concurrent | AmbiguousOrder | NullOrder

  datatype Clock = Clock(id: string, vector: Vector, ambiguous: bool)

  datatype Finality = AmbiguousFinality | NullFinality

  // ----- The pointwise order -----

  function At(v: Vector, n: string): real { if n in v then v[n] else 0.0 }

  ghost predicate Leq(a: Vector, b: Vector) { forall n :: At(a, n) <= At(b, n) }

  ghost predicate Less(a: Vector, b: Vector) { Leq(a, b) && !Leq(b, a) }

  ghost function Compared(a: Vector, b: Vector): Ordering {
    if Less(a, b) then Before else if Less(b, a) then After else Concurrent
  }

  /** The loop with its early exit, in any order of the node names, decides the pointwise order. */
  method VectorClockCompare(va: Vector, vb: Vector) returns (r: Ordering)
    ensures r == Compared(va, vb)
  {
    var nodes := va.Keys + vb.Keys;
    var aLtB, bLtA := false, false;
    var rest := nodes;
    while rest != {}
      invariant rest <= nodes
      invariant aLtB <==> exists n :: n in nodes - rest && At(va, n) < At(vb, n)
      invariant bLtA <==> exists n :: n in nodes - rest && At(vb, n) < At(va, n)
      decreases rest
    {
      var n :| n in rest;
      var ai, bi := At(va, n), At(vb, n);
      assert nodes - (rest - {n}) == (nodes - rest) + {n};
      assert n in nodes - (rest - {n});
      rest := rest - {n};
      if ai < bi { aLtB := true; }
      if bi < ai { bLtA := true; }
      if aLtB && bLtA {
        return Concurrent;
      }
    }
    assert nodes - rest == nodes;
    assert forall n :: n !in nodes ==> At(va, n) == At(vb, n);
    assert Leq(va, vb) <==> !bLtA;
    assert Leq(vb, va) <==> !aLtB;
    if aLtB && !bLtA {
      return Before;
    }
    if bLtA && !aLtB {
      return After;
    }
    return Concurrent;
  }

  /** BEFORE is a strict partial order and AFTER is its dual. */
  lemma BeforeIsStrictOrder(a: Vector, b: Vector, c: Vector)
    ensures Compared(a, a) == Concurrent
    ensures Compared(a, b) == Before && Compared(b, c) == Before ==> Compared(a, c) == Before
    ensures Compared(a, b) == Before <==> Compared(b, a) == After
    ensures Compared(a, b) == Concurrent <==> Leq(a, b) == Leq(b, a)
  {
    if Less(a, b) && Less(b, c) {
      assert forall n :: At(a, n) <= At(b, n) <= At(c, n);
      var n :| At(b, n) > At(a, n);
      assert At(c, n) > At(a, n);
    }
  }

  ghost function ComparedClocks(a: Option<Clock>, b: Option<Clock>): Ordering {
    if a == None || b == None then NullOrder
    else if a.value.ambiguous || b.value.ambiguous then AmbiguousOrder
    else Compared(a.value.vector, b.value.vector)
  }

  method CompareCausalClocks(a: Option<Clock>, b: Option<Clock>) returns (r: Ordering)
    ensures r == ComparedClocks(a, b)
  {
    if a == None || b == None {
      return NullOrder;
    }
    if a.value.ambiguous || b.value.ambiguous {
      return AmbiguousOrder;
    }
    r := VectorClockCompare(a.value.vector, b.value.vector);
  }

  // ----- Sets of clocks -----

  ghost predicate Ordered(a: Clock, b: Clock) {
    !a.ambiguous && !b.ambiguous && (Less(a.vector, b.vector) || Less(b.vector, a.vector))
  }

  ghost predicate Chain(clocks: seq<Clock>) {
    && (forall i :: 0 <= i < |clocks| ==> !clocks[i].ambiguous)
    && (forall i, j :: 0 <= i < j < |clocks| ==> Ordered(clocks[i], clocks[j]))
  }

  method DetectCausalAmbiguity(clocks: seq<Option<Clock>>) returns (ambiguous: bool)
    ensures ambiguous <==> !Chain(Present(clocks))
  {
    var valid := FilterPresent(clocks);
    if exists c | c in valid :: c.ambiguous {
      return true;
    }
    assert forall i :: 0 <= i < |valid| ==> valid[i] in valid;
    for i := 0 to |valid|
      invariant forall k, j :: 0 <= k < i && k < j < |valid| ==> Ordered(valid[k], valid[j])
    {
      for j := i + 1 to |valid|
        invariant forall k :: i < k < j ==> Ordered(valid[i], valid[k])
      {
        var r := CompareCausalClocks(Some(valid[i]), Some(valid[j]));
        if r == Concurrent || r == AmbiguousOrder {
          assert !Ordered(valid[i], valid[j]);
          return true;
        }
        assert Ordered(valid[i], valid[j]);
      }
    }
    return false;
  }

  ghost function Present(clocks: seq<Option<Clock>>): seq<Clock> {
    if clocks == [] then []
    else Present(clocks[..|clocks| - 1]) + match clocks[|clocks| - 1] case None => [] case Some(c) => [c]
  }

  method FilterPresent(clocks: seq<Option<Clock>>) returns (valid: seq<Clock>)
    ensures valid == Present(clocks)
  {
    valid := [];
    for i := 0 to |clocks|
      invariant valid == Present(clocks[..i])
    {
      assert clocks[..i + 1][..i] == clocks[..i];
      if clocks[i].Some? {
        valid := valid + [clocks[i].value];
      }
    }
    assert clocks[..|clocks|] == clocks;
  }

  lemma {:induction false} AllPresent(clocks: seq<Option<Clock>>)
    requires forall i :: 0 <= i < |clocks| ==> clocks[i].Some?
    ensures |Present(clocks)| == |clocks| && forall i :: 0 <= i < |clocks| ==> Present(clocks)[i] == clocks[i].value
  {
    if clocks != [] {
      AllPresent(clocks[..|clocks| - 1]);
    }
  }

  /** The classification, where None is the null override: the clocks may be used. */
  ghost function Classification(clocks: seq<Option<Clock>>): Option<Finality> {
    if exists i :: 0 <= i < |clocks| && clocks[i] == None then Some(NullFinality)
    else if !Chain(Present(clocks)) then Some(AmbiguousFinality)
    else None
  }

  method ClassifyCausalLegitimacyClocks(clocks: seq<Option<Clock>>) returns (r: Option<Finality>)
    ensures r == Classification(clocks)
  {
    if |clocks| == 0 {
      return None;
    }
    if exists i | 0 <= i < |clocks| :: clocks[i] == None {
      return Some(NullFinality);
    }
    var ambiguous := DetectCausalAmbiguity(clocks);
    return if ambiguous then Some(AmbiguousFinality) else None;
  }

  // ----- Happens-before -----

  ghost function Preceding(target: Clock, candidates: seq<Option<Clock>>): seq<string> {
    if candidates == [] || target.ambiguous then []
    else
      var n := |candidates| - 1;
      Preceding(target, candidates[..n])
      + if candidates[n].Some? && candidates[n].value.id != target.id && ComparedClocks(candidates[n], Some(target)) == Before
        then [candidates[n].value.id] else []
  }

  method ComputeHappensBefore(target: Clock, candidates: seq<Option<Clock>>) returns (result: seq<string>)
    ensures result == Preceding(target, candidates)
  {
    if target.ambiguous {
      return [];
    }
    result := [];
    for i := 0 to |candidates|
      invariant result == Preceding(target, candidates[..i])
    {
      assert candidates[..i + 1][..i] == candidates[..i];
      if candidates[i] == None || candidates[i].value.id == target.id {
        continue;
      }
      var r := CompareCausalClocks(candidates[i], Some(target));
      if r == Before {
        result := result + [candidates[i].value.id];
      }
    }
    assert candidates[..|candidates|] == candidates;
  }

  // ----- A classified set is a chain whose ranks are 0 to n-1 -----

  ghost function Lower(clocks: seq<Clock>, i: nat): set<nat>
    requires i < |clocks|
  {
    set j | j in NumbersBelow(|clocks|) && Less(clocks[j].vector, clocks[i].vector)
  }

  ghost predicate DistinctIds(clocks: seq<Clock>) {
    forall i, j :: 0 <= i < j < |clocks| ==> clocks[i].id != clocks[j].id
  }

  ghost predicate Lifted(options: seq<Option<Clock>>, clocks: seq<Clock>) {
    |options| == |clocks| && forall i :: 0 <= i < |clocks| ==> options[i] == Some(clocks[i])
  }

  ghost function UpTo(s: set<nat>, n: nat): set<nat> { set j | j in s && j < n }

  lemma UpToNext(s: set<nat>, n: nat)
    ensures |UpTo(s, n + 1)| == |UpTo(s, n)| + if n in s then 1 else 0
  {
    assert UpTo(s, n + 1) == if n in s then UpTo(s, n) + {n} else UpTo(s, n);
  }

  /** The list has one id for each lower clock. */
  lemma {:induction false} PrecedingCounts(clocks: seq<Clock>, options: seq<Option<Clock>>, i: nat, n: nat)
    requires Chain(clocks) && DistinctIds(clocks) && Lifted(options, clocks) && i < |clocks| && n <= |clocks|
    ensures |Preceding(clocks[i], options[..n])| == |UpTo(Lower(clocks, i), n)|
    decreases n
  {
    hide Less, Lower, ComparedClocks;
    if n > 0 {
      PrecedingCounts(clocks, options, i, n - 1);
      assert options[..n][..n - 1] == options[..n - 1] && options[..n][n - 1] == Some(clocks[n - 1]);
      InLower(clocks, i, n - 1);
      UpToNext(Lower(clocks, i), n - 1);
    }
  }

  lemma InLower(clocks: seq<Clock>, i: nat, j: nat)
    requires Chain(clocks) && DistinctIds(clocks) && i < |clocks| && j < |clocks|
    ensures j in Lower(clocks, i) <==>
              clocks[j].id != clocks[i].id && ComparedClocks(Some(clocks[j]), Some(clocks[i])) == Before
  {}

  lemma LowerGrows(clocks: seq<Clock>, i: nat, j: nat)
    requires i < |clocks| && j < |clocks| && Less(clocks[i].vector, clocks[j].vector)
    ensures |Lower(clocks, i)| < |Lower(clocks, j)|
  {
    forall k | k in Lower(clocks, i) ensures k in Lower(clocks, j) {
      BeforeIsStrictOrder(clocks[k].vector, clocks[i].vector, clocks[j].vector);
    }
    assert i in Lower(clocks, j) && i !in Lower(clocks, i);
    SubsetCardinality(Lower(clocks, i) + {i}, Lower(clocks, j));
  }

  lemma LowerIsSmall(clocks: seq<Clock>, i: nat)
    requires i < |clocks|
    ensures |Lower(clocks, i)| < |clocks|
  {
    assert i !in Lower(clocks, i);
    SubsetCardinality(Lower(clocks, i) + {i}, NumbersBelow(|clocks|));
  }

  ghost function Ranks(clocks: seq<Clock>, options: seq<Option<Clock>>): seq<nat> {
    seq(|clocks|, i requires 0 <= i < |clocks| => |Preceding(clocks[i], options)|)
  }

  /** If a set of clocks with distinct ids classifies as null, any two clocks are strictly ordered, and the
      happens-before lists have the sizes 0 to n-1, each once. */
  lemma ClassifiedIsRanked(options: seq<Option<Clock>>)
    requires Classification(options) == None && DistinctIds(Present(options))
    ensures |Present(options)| == |options| && forall i :: 0 <= i < |options| ==> options[i] == Some(Present(options)[i])
    ensures var clocks := Present(options);
      && (forall i, j :: 0 <= i < |clocks| && 0 <= j < |clocks| && i != j ==>
            (Less(clocks[i].vector, clocks[j].vector) != Less(clocks[j].vector, clocks[i].vector)))
      && Distinct(Ranks(clocks, options))
      && forall k: nat :: k in Ranks(clocks, options) <==> k < |clocks|
  {
    var clocks := Present(options);
    AllPresent(options);
    hide Less, Ranks, Present;
    RanksAreDistinct(clocks, options);
    Pigeonhole(Ranks(clocks, options));
    forall i, j | 0 <= i < |clocks| && 0 <= j < |clocks| && i != j
      ensures Less(clocks[i].vector, clocks[j].vector) != Less(clocks[j].vector, clocks[i].vector)
    {
      OneWay(clocks[i], clocks[j]);
      assert Ordered(clocks[i], clocks[j]) || Ordered(clocks[j], clocks[i]);
    }
  }

  lemma RanksAreDistinct(clocks: seq<Clock>, options: seq<Option<Clock>>)
    requires Lifted(options, clocks) && Chain(clocks) && DistinctIds(clocks)
    ensures |Ranks(clocks, options)| == |clocks| && Distinct(Ranks(clocks, options))
    ensures forall k :: k in Ranks(clocks, options) ==> k < |clocks|
  {
    hide Less, Lower, Preceding;
    var ranks := Ranks(clocks, options);
    RanksAreLower(clocks, options);
    forall i, j | 0 <= i < j < |clocks| ensures ranks[i] != ranks[j] {
      assert Ordered(clocks[i], clocks[j]);
      if Less(clocks[i].vector, clocks[j].vector) {
        LowerGrows(clocks, i, j);
      } else {
        LowerGrows(clocks, j, i);
      }
    }
  }

  lemma OneWay(a: Clock, b: Clock)
    ensures !(Less(a.vector, b.vector) && Less(b.vector, a.vector))
  {}

  lemma RanksAreLower(clocks: seq<Clock>, options: seq<Option<Clock>>)
    requires Lifted(options, clocks) && Chain(clocks) && DistinctIds(clocks)
    ensures forall i :: 0 <= i < |clocks| ==> Ranks(clocks, options)[i] == |Lower(clocks, i)| < |clocks|
  {
    assert options[..|options|] == options;
    forall i | 0 <= i < |clocks| ensures Ranks(clocks, options)[i] == |Lower(clocks, i)| < |clocks| {
      PrecedingCounts(clocks, options, i, |clocks|);
      assert UpTo(Lower(clocks, i), |clocks|) == Lower(clocks, i);
      LowerIsSmall(clocks, i);
    }
  }
}
