/** continuity-core/src/lineage.rs: the lineage graph, whose nodes may have many parents and whose
    links may form cycles or lead to ids that are not present. */
module LineageGraph {
  import opened Prelude

  datatype LineageId = LineageId(text: string)

  datatype Kind = Authority | Proof | Execution

  datatype Node = Node(id: LineageId, parents: seq<LineageId>, kind: Kind)

  datatype State = Valid | Orphan | Ambiguous | Null

  type Nodes = map<LineageId, Node>

  // ----- Reachability -----

  /** `y` is reached from `x` over exactly `n` parent links. */
  ghost predicate Reach(nodes: Nodes, x: LineageId, y: LineageId, n: nat)
    decreases n
  {
    if n == 0 then x == y else x in nodes && exists p :: p in nodes[x].parents && Reach(nodes, p, y, n - 1)
  }

  ghost predicate Ancestor(nodes: Nodes, x: LineageId, y: LineageId) {
    exists n: nat :: n >= 1 && Reach(nodes, x, y, n)
  }

  lemma {:induction false} ReachNext(nodes: Nodes, x: LineageId, y: LineageId, z: LineageId, n: nat)
    requires Reach(nodes, x, y, n) && y in nodes && z in nodes[y].parents
    ensures Reach(nodes, x, z, n + 1)
    decreases n
  {
    if n == 0 {
      assert Reach(nodes, z, z, 0);
    } else {
      var p :| p in nodes[x].parents && Reach(nodes, p, y, n - 1);
      ReachNext(nodes, p, y, z, n - 1);
    }
  }

  lemma {:induction false} ReachPrevious(nodes: Nodes, x: LineageId, z: LineageId, n: nat) returns (y: LineageId)
    requires n > 0 && Reach(nodes, x, z, n)
    ensures Reach(nodes, x, y, n - 1) && y in nodes && z in nodes[y].parents
    ensures n == 1 ==> y == x
    decreases n
  {
    var p :| p in nodes[x].parents && Reach(nodes, p, z, n - 1);
    if n == 1 {
      y := x;
    } else {
      y := ReachPrevious(nodes, p, z, n - 1);
    }
  }

  // ----- The search as a function -----

  datatype Search = Search(queue: seq<LineageId>, seen: set<LineageId>, out: seq<LineageId>)

  /** Handles the parents from position `i` on; None when one of them is missing. */
  function AddParents(nodes: Nodes, parents: seq<LineageId>, i: nat, s: Search): (r: Option<Search>)
    requires i <= |parents|
    ensures r.Some? ==> s.seen <= r.value.seen && (r.value.seen == s.seen ==> r.value == s)
    ensures r.Some? && s.seen <= nodes.Keys ==> r.value.seen <= nodes.Keys
    decreases |parents| - i
  {
    if i == |parents| then Some(s)
    else if parents[i] in s.seen then AddParents(nodes, parents, i + 1, s)
    else if parents[i] !in nodes then None
    else AddParents(nodes, parents, i + 1, Search(s.queue + [parents[i]], s.seen + {parents[i]}, s.out + [parents[i]]))
  }

  function Run(nodes: Nodes, s: Search): Option<seq<LineageId>>
    requires s.seen <= nodes.Keys
    decreases nodes.Keys - s.seen, |s.queue|
  {
    if s.queue == [] then Some(s.out)
    else if s.queue[0] !in nodes then None
    else
      match AddParents(nodes, nodes[s.queue[0]].parents, 0, s.(queue := s.queue[1..]))
      case None => None
      case Some(next) => Run(nodes, next)
  }

  /** The ids that `ancestors` lists, in the order it lists them. */
  function AncestorIds(nodes: Nodes, id: LineageId): Option<seq<LineageId>> {
    if id !in nodes then None else Run(nodes, Search([id], {}, []))
  }

  // ----- The answer is exact -----

  ghost predicate Sound(nodes: Nodes, id: LineageId, s: Search) {
    && Distinct(s.out) && (forall x :: x in s.out <==> x in s.seen)
    && s.seen <= nodes.Keys && id in nodes
    && (forall x :: x in s.seen ==> Ancestor(nodes, id, x))
    && (forall x :: x in s.queue ==> x == id || x in s.seen)
    && (forall x :: (x == id || x in s.seen) && x !in s.queue ==> forall p :: p in nodes[x].parents ==> p in s.seen)
  }

  /** `Sound`, except that `current` left the queue with its first `i` parents handled. */
  ghost predicate Handling(nodes: Nodes, id: LineageId, s: Search, current: LineageId, i: nat) {
    && Distinct(s.out) && (forall x :: x in s.out <==> x in s.seen)
    && s.seen <= nodes.Keys && id in nodes && current in nodes && (current == id || current in s.seen)
    && (forall x :: x in s.seen ==> Ancestor(nodes, id, x))
    && (forall x :: x in s.queue ==> x == id || x in s.seen)
    && (forall x :: (x == id || x in s.seen) && x !in s.queue && x != current ==> forall p :: p in nodes[x].parents ==> p in s.seen)
    && i <= |nodes[current].parents| && (forall k :: 0 <= k < i ==> nodes[current].parents[k] in s.seen)
  }

  lemma ParentIsAncestor(nodes: Nodes, id: LineageId, x: LineageId, p: LineageId)
    requires x == id || Ancestor(nodes, id, x)
    requires x in nodes && p in nodes[x].parents
    ensures Ancestor(nodes, id, p)
  {
    if x == id {
      assert Reach(nodes, p, p, 0);
      assert Reach(nodes, id, p, 1);
    } else {
      var n: nat :| n >= 1 && Reach(nodes, id, x, n);
      ReachNext(nodes, id, x, p, n);
    }
  }

  lemma {:induction false} ParentsAreExact(nodes: Nodes, id: LineageId, s: Search, current: LineageId, i: nat)
    requires Handling(nodes, id, s, current, i)
    ensures var r := AddParents(nodes, nodes[current].parents, i, s);
      if r.Some? then Handling(nodes, id, r.value, current, |nodes[current].parents|)
      else exists p :: p !in nodes && Ancestor(nodes, id, p)
    decreases |nodes[current].parents| - i
  {
    hide Ancestor, Distinct;
    var parents := nodes[current].parents;
    if i < |parents| {
      ParentIsAncestor(nodes, id, current, parents[i]);
      if parents[i] in s.seen {
        ParentsAreExact(nodes, id, s, current, i + 1);
      } else if parents[i] in nodes {
        DistinctAppend(s.out, parents[i]);
        ParentsAreExact(nodes, id, Search(s.queue + [parents[i]], s.seen + {parents[i]}, s.out + [parents[i]]), current, i + 1);
      }
    }
  }

  lemma {:induction false} RunIsExact(nodes: Nodes, id: LineageId, s: Search)
    requires Sound(nodes, id, s)
    ensures var r := Run(nodes, s);
      if r.Some? then Distinct(r.value) && forall y :: y in r.value <==> Ancestor(nodes, id, y)
      else exists p :: p !in nodes && Ancestor(nodes, id, p)
    ensures Run(nodes, s).Some? ==> forall y :: y in Run(nodes, s).value ==> y in nodes
    decreases nodes.Keys - s.seen, |s.queue|
  {
    hide Ancestor, Distinct;
    if s.queue == [] {
      forall y | Ancestor(nodes, id, y) ensures y in s.seen { AncestorsAreSeen(nodes, id, s, y); }
    } else {
      var current := s.queue[0];
      assert forall x :: x in s.queue <==> x == current || x in s.queue[1..];
      var popped := s.(queue := s.queue[1..]);
      ParentsAreExact(nodes, id, popped, current, 0);
      var r := AddParents(nodes, nodes[current].parents, 0, popped);
      if r.Some? {
        RunIsExact(nodes, id, r.value);
      }
    }
  }

  lemma AncestorsAreSeen(nodes: Nodes, id: LineageId, s: Search, y: LineageId)
    requires Sound(nodes, id, s) && s.queue == [] && Ancestor(nodes, id, y)
    ensures y in s.seen
  {
    var n: nat :| n >= 1 && Reach(nodes, id, y, n);
    ReachedIsSeen(nodes, id, s, y, n);
  }

  lemma {:induction false} ReachedIsSeen(nodes: Nodes, id: LineageId, s: Search, y: LineageId, n: nat)
    requires Sound(nodes, id, s) && s.queue == [] && n >= 1 && Reach(nodes, id, y, n)
    ensures y in s.seen
    decreases n
  {
    hide Reach, Ancestor, Distinct;
    var x := ReachPrevious(nodes, id, y, n);
    if n > 1 {
      ReachedIsSeen(nodes, id, s, x, n - 1);
    }
  }

  /** Some exactly when the id and everything reachable from it is present; then the list holds
      exactly the ids reachable over one or more links, each once. */
  lemma AncestorsAreExact(nodes: Nodes, id: LineageId)
    ensures AncestorIds(nodes, id).Some? <==> id in nodes && forall y :: Ancestor(nodes, id, y) ==> y in nodes
    ensures AncestorIds(nodes, id).Some? ==>
              Distinct(AncestorIds(nodes, id).value) && forall y :: y in AncestorIds(nodes, id).value <==> Ancestor(nodes, id, y)
  {
    hide Ancestor;
    if id in nodes {
      RunIsExact(nodes, id, Search([id], {}, []));
    }
  }

  // ----- Later inserts change no answer -----

  lemma {:induction false} ParentsStable(nodes: Nodes, more: Nodes, parents: seq<LineageId>, i: nat, s: Search)
    requires i <= |parents| && nodes.Keys <= more.Keys
    ensures AddParents(nodes, parents, i, s).Some? ==> AddParents(more, parents, i, s) == AddParents(nodes, parents, i, s)
    decreases |parents| - i
  {
    if i < |parents| {
      ParentsStable(nodes, more, parents, i + 1, s);
      ParentsStable(nodes, more, parents, i + 1, Search(s.queue + [parents[i]], s.seen + {parents[i]}, s.out + [parents[i]]));
    }
  }

  lemma {:induction false} RunStable(nodes: Nodes, more: Nodes, s: Search)
    requires s.seen <= nodes.Keys && nodes.Keys <= more.Keys && forall x :: x in nodes ==> more[x] == nodes[x]
    ensures Run(nodes, s).Some? ==> Run(more, s) == Run(nodes, s)
    decreases nodes.Keys - s.seen, |s.queue|
  {
    if s.queue != [] && s.queue[0] in nodes {
      var parents, popped := nodes[s.queue[0]].parents, s.(queue := s.queue[1..]);
      ParentsStable(nodes, more, parents, 0, popped);
      var r := AddParents(nodes, parents, 0, popped);
      if r.Some? {
        RunStable(nodes, more, r.value);
      }
    }
  }

  /** A Some answer survives every later insert, list and order included. */
  lemma AncestorsStable(nodes: Nodes, more: Nodes, id: LineageId)
    requires nodes.Keys <= more.Keys && forall x :: x in nodes ==> more[x] == nodes[x]
    ensures AncestorIds(nodes, id).Some? ==> AncestorIds(more, id) == AncestorIds(nodes, id)
  {
    if id in nodes {
      RunStable(nodes, more, Search([id], {}, []));
    }
  }

  // ----- The graph object -----

  class LineageGraph {
    var nodes: Nodes

    ghost predicate Valid()
      reads this
    {
      forall x :: x in nodes ==> nodes[x].id == x
    }

    constructor ()
      ensures Valid() && nodes == map[]
    {
      nodes := map[];
    }

    /** The first node with an id stays; a second one is reported and changes nothing. */
    method Insert(node: Node) returns (state: State)
      requires Valid()
      modifies this
      ensures Valid()
      ensures state == if node.id in old(nodes) then State.Ambiguous else State.Valid
      ensures nodes == if node.id in old(nodes) then old(nodes) else old(nodes)[node.id := node]
      ensures forall x :: AncestorIds(old(nodes), x).Some? ==> AncestorIds(nodes, x) == AncestorIds(old(nodes), x)
    {
      if node.id in nodes {
        return State.Ambiguous;
      }
      ghost var before := nodes;
      nodes := nodes[node.id := node];
      forall x ensures AncestorIds(before, x).Some? ==> AncestorIds(nodes, x) == AncestorIds(before, x) {
        AncestorsStable(before, nodes, x);
      }
      return State.Valid;
    }

    function Classify(id: LineageId): (state: State)
      reads this
      ensures state == State.Null <==> id !in nodes
      ensures state == State.Orphan <==> id in nodes && exists p :: p in nodes[id].parents && p !in nodes
      ensures state != State.Ambiguous
    {
      if id !in nodes then State.Null
      else if exists p | p in nodes[id].parents :: p !in nodes then State.Orphan
      else State.Valid
    }

    function ClassifyAsValidation(id: LineageId): (state: State)
      reads this
      ensures state == State.Valid <==> id in nodes && forall p :: p in nodes[id].parents ==> p in nodes
      ensures state != State.Valid ==> state == State.Null
    {
      if Classify(id) == State.Orphan then State.Null else Classify(id)
    }

    method Ancestors(id: LineageId) returns (r: Option<seq<Node>>)
      requires Valid()
      ensures r.Some? <==> AncestorIds(nodes, id).Some?
      ensures r.Some? ==> |r.value| == |AncestorIds(nodes, id).value|
      ensures r.Some? ==> forall i :: 0 <= i < |r.value| ==>
                r.value[i].id == AncestorIds(nodes, id).value[i] && r.value[i].id in nodes && nodes[r.value[i].id] == r.value[i]
    {
      if id !in nodes {
        return None;
      }
      var out: seq<Node>, seen: set<LineageId>, queue := [], {}, [id];
      ghost var ids: seq<LineageId> := [];
      while queue != []
        invariant seen <= nodes.Keys && Run(nodes, Search(queue, seen, ids)) == AncestorIds(nodes, id)
        invariant |ids| == |out| && forall i :: 0 <= i < |out| ==> out[i].id == ids[i] && ids[i] in nodes && nodes[ids[i]] == out[i]
        decreases nodes.Keys - seen, |queue|
      {
        var current := queue[0];
        queue := queue[1..];
        if current !in nodes {
          return None;
        }
        var parents := nodes[current].parents;
        ghost var start := Search(queue, seen, ids);
        for i := 0 to |parents|
          invariant seen <= nodes.Keys && start.seen <= seen && (seen == start.seen ==> queue == start.queue)
          invariant AddParents(nodes, parents, i, Search(queue, seen, ids)) == AddParents(nodes, parents, 0, start)
          invariant |ids| == |out| && forall i :: 0 <= i < |out| ==> out[i].id == ids[i] && ids[i] in nodes && nodes[ids[i]] == out[i]
        {
          var parent := parents[i];
          if parent !in seen {
            if parent !in nodes {
              return None;
            }
            seen := seen + {parent};
            out := out + [nodes[parent]];
            ids := ids + [parent];
            queue := queue + [parent];
          }
        }
      }
      return Some(out);
    }
  }
}
