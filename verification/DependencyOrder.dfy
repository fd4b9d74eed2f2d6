/**
 The legacy dependency graph and its hand-written topological sort. An edge
 `from -> to` says that `from` depends on `to`; cycles, self-loops and repeated
 edges are all allowed.
*/
module DependencyOrder {
  import opened Ordering

  type Edges = map<string, seq<string>>

  // ---------------------------------------------------------------- what is computed

  function Deps(e: Edges, n: string): seq<string> {
    if n in e then e[n] else []
  }

  ghost function NodesOf(e: Edges, keys: set<string>): set<string>
    requires keys <= e.Keys
  {
    keys + set k, d | k in keys && d in e[k] :: d
  }

  ghost function Nodes(e: Edges): set<string> {
    NodesOf(e, e.Keys)
  }

  /** Everything n depends on has been placed. */
  ghost predicate Ready(e: Edges, n: string, placed: set<string>) {
    forall d :: d in Deps(e, n) ==> d in placed
  }

  ghost function ReadyNodes(e: Edges, placed: set<string>): set<string> {
    set n | n in Nodes(e) && Ready(e, n, placed)
  }

  /** The nodes whose last missing dependency is n. */
  ghost function Released(e: Edges, placed: set<string>, n: string): set<string> {
    set m | m in Nodes(e) && n in Deps(e, m) && n !in placed && Ready(e, m, placed + {n})
  }

  /** The placed nodes come after their dependencies, and the queue holds every other
      node that is ready. */
  ghost predicate Consistent(e: Edges, placed: seq<string>, queue: seq<string>) {
    && Distinct(placed) && Distinct(queue) && Elems(placed) !! Elems(queue)
    && Elems(placed) + Elems(queue) == ReadyNodes(e, Elems(placed))
    && DependenciesFirst(e, placed)
  }

  ghost predicate DependenciesFirst(e: Edges, order: seq<string>) {
    forall i, d :: 0 <= i < |order| && d in Deps(e, order[i]) ==> d in order[..i]
  }

  /** The sort as a function of the graph alone: take the front of the queue, then queue
      what it releases in name order. */
  ghost function Place(e: Edges, placed: seq<string>, queue: seq<string>): (order: seq<string>)
    requires Consistent(e, placed, queue)
    ensures Consistent(e, order, [])
    decreases |Nodes(e) - Elems(placed)|
  {
    if queue == [] then
      placed
    else
      PlaceStep(e, placed, queue);
      Place(e, placed + [queue[0]], queue[1..] + SortSet(Released(e, Elems(placed), queue[0])))
  }

  lemma PlaceStep(e: Edges, placed: seq<string>, queue: seq<string>)
    requires Consistent(e, placed, queue) && queue != []
    ensures Consistent(e, placed + [queue[0]], queue[1..] + SortSet(Released(e, Elems(placed), queue[0])))
    ensures |Nodes(e) - Elems(placed + [queue[0]])| < |Nodes(e) - Elems(placed)|
  {
    hide Distinct, ReadyNodes, Released, Elems, DependenciesFirst, Ready, Nodes, SortSet, Sorted;
    var n, freed := queue[0], SortSet(Released(e, Elems(placed), queue[0]));
    ElemsTail(queue);
    ElemsSnoc(placed, n);
    ReadyGrows(e, Elems(placed), n);
    ElemsConcat(queue[1..], freed);
    ReadyMeans(e, Elems(placed), n);
    DependenciesFirstSnoc(e, placed, n);
    SubsetSmaller(Nodes(e) - Elems(placed + [n]), Nodes(e) - Elems(placed));
  }

  lemma ReadyMeans(e: Edges, placed: set<string>, n: string)
    requires n in ReadyNodes(e, placed)
    ensures n in Nodes(e) && Ready(e, n, placed)
  {
  }

  lemma DependenciesFirstSnoc(e: Edges, placed: seq<string>, n: string)
    requires DependenciesFirst(e, placed) && Ready(e, n, Elems(placed))
    ensures DependenciesFirst(e, placed + [n])
  {
    forall i, d | 0 <= i < |placed + [n]| && d in Deps(e, (placed + [n])[i])
      ensures d in (placed + [n])[..i]
    {
      if i < |placed| {
        assert (placed + [n])[..i] == placed[..i];
      } else {
        assert (placed + [n])[..i] == placed;
        assert d in Elems(placed);
      }
    }
  }

  lemma ReadyGrows(e: Edges, placed: set<string>, n: string)
    requires n !in placed
    ensures ReadyNodes(e, placed + {n}) == ReadyNodes(e, placed) + Released(e, placed, n)
    ensures ReadyNodes(e, placed) !! Released(e, placed, n)
  {
    forall m | m in ReadyNodes(e, placed + {n}) && m !in ReadyNodes(e, placed)
      ensures m in Released(e, placed, n)
    {
      var d :| d in Deps(e, m) && d !in placed;
      assert d == n;
    }
  }

  ghost function Leaves(e: Edges): set<string> {
    ReadyNodes(e, {})
  }

  lemma LeavesConsistent(e: Edges)
    ensures Consistent(e, [], SortSet(Leaves(e)))
  {
    assert Elems<string>([]) == {};
  }

  /** The nodes that the queue reaches, in the order it reaches them. */
  ghost function Sortable(e: Edges): (order: seq<string>)
    ensures Consistent(e, order, [])
  {
    LeavesConsistent(e);
    Place(e, [], SortSet(Leaves(e)))
  }

  ghost function Order(e: Edges): seq<string> {
    Sortable(e) + SortSet(Nodes(e) - Elems(Sortable(e)))
  }

  // ---------------------------------------------------------------- what it means

  ghost predicate IsPath(e: Edges, p: seq<string>) {
    p != [] && forall i :: 0 <= i < |p| - 1 ==> p[i + 1] in Deps(e, p[i])
  }

  /** Following dependencies from n one can come through the same node twice. */
  ghost predicate ReachesCycle(e: Edges, n: string) {
    exists p :: IsPath(e, p) && p[0] == n && !Distinct(p)
  }

  lemma {:induction false} PathsDescend(e: Edges, order: seq<string>, i: nat, p: seq<string>)
    requires Distinct(order) && DependenciesFirst(e, order) && i < |order|
    requires IsPath(e, p) && p[0] == order[i]
    ensures Distinct(p) && forall x :: x in p ==> x in order[..i + 1]
    decreases |p|
  {
    if |p| > 1 {
      assert p[1] in order[..i];
      var j :| 0 <= j < i && order[j] == p[1];
      assert IsPath(e, p[1..]) by {
        forall k | 0 <= k < |p[1..]| - 1 ensures p[1..][k + 1] in Deps(e, p[1..][k]) {
          assert p[k + 2] in Deps(e, p[k + 1]);
        }
      }
      PathsDescend(e, order, j, p[1..]);
      assert order[..j + 1] <= order[..i];
      assert p[0] !in p[1..];
      assert p == [p[0]] + p[1..];
      ElemsConcat([p[0]], p[1..]);
    }
  }

  /** A node that is left over has a left-over dependency, so one can walk on for ever. */
  lemma {:induction false} WalkOn(e: Edges, n: string, length: nat) returns (p: seq<string>)
    requires n in Nodes(e) && n !in Sortable(e) && length >= 1
    ensures IsPath(e, p) && p[0] == n && |p| == length
    ensures forall x :: x in p ==> x in Nodes(e)
    decreases length
  {
    if length == 1 {
      p := [n];
    } else {
      var k := Sortable(e);
      assert n !in Elems(k) && n !in ReadyNodes(e, Elems(k));
      var d :| d in Deps(e, n) && d !in Elems(k);
      var tail := WalkOn(e, d, length - 1);
      p := [n] + tail;
    }
  }

  lemma SortableExactly(e: Edges, n: string)
    requires n in Nodes(e)
    ensures n in Sortable(e) <==> !ReachesCycle(e, n)
  {
    var k := Sortable(e);
    if n in k {
      var i :| 0 <= i < |k| && k[i] == n;
      forall p | IsPath(e, p) && p[0] == n ensures Distinct(p) {
        PathsDescend(e, k, i, p);
      }
    } else {
      var p := WalkOn(e, n, |Nodes(e)| + 1);
      DistinctIffSize(p);
      assert Elems(p) <= Nodes(e);
      SubsetSize(Elems(p), Nodes(e));
      assert !Distinct(p);
    }
  }

  lemma {:induction false} SubsetSize<T>(a: set<T>, b: set<T>)
    requires a <= b
    ensures |a| <= |b|
  {
    if a != {} {
      var x :| x in a;
      SubsetSize(a - {x}, b - {x});
    }
  }

  /** For any graph: the order lists every node exactly once; first come the nodes from
      which no cycle can be reached, each after everything it depends on; the rest is
      the nodes from which a cycle can be reached, sorted by name. */
  lemma OrderIsTopologicalThenCyclic(e: Edges)
    ensures Distinct(Order(e)) && Elems(Order(e)) == Nodes(e)
    ensures exists cut ::
      (0 <= cut <= |Order(e)|
       && DependenciesFirst(e, Order(e)[..cut])
       && Sorted(Order(e)[cut..])
       && forall i :: 0 <= i < |Order(e)| ==> (i < cut <==> !ReachesCycle(e, Order(e)[i])))
  {
    hide Order, Sortable, Nodes, ReachesCycle, DependenciesFirst, Sorted, Distinct, Elems;
    var k, tail, cut := OrderParts(e);
    assert Order(e)[..cut] == k && Order(e)[cut..] == tail;
  }

  lemma SortableFacts(e: Edges)
    ensures var k := Sortable(e);
      Distinct(k) && Elems(k) <= Nodes(e) && DependenciesFirst(e, k)
  {
    hide Sortable;
    assert forall n :: n in ReadyNodes(e, Elems(Sortable(e))) ==> n in Nodes(e);
  }

  lemma OrderParts(e: Edges) returns (k: seq<string>, tail: seq<string>, cut: nat)
    ensures Order(e) == k + tail && cut == |k|
    ensures Distinct(Order(e)) && Elems(Order(e)) == Nodes(e)
    ensures DependenciesFirst(e, k) && Sorted(tail)
    ensures forall i :: 0 <= i < |Order(e)| ==> (i < cut <==> !ReachesCycle(e, Order(e)[i]))
  {
    hide ReachesCycle, Distinct, Sorted, DependenciesFirst, Nodes, Sortable, Consistent, SortSet, Elems;
    SortableFacts(e);
    k := Sortable(e);
    tail := SortSet(Nodes(e) - Elems(k));
    cut := |k|;
    ElemsConcat(k, tail);
    forall i | 0 <= i < |Order(e)| ensures i < cut <==> !ReachesCycle(e, Order(e)[i]) {
      var n := Order(e)[i];
      ElemsMember(Order(e), n);
      SortableExactly(e, n);
      if i < cut {
        assert n == k[i];
      } else {
        ElemsMember(tail, n);
        ElemsMember(k, n);
      }
    }
  }

  /** The whole order is topological exactly when the graph has no cycle. */
  lemma TopologicalIffAcyclic(e: Edges)
    ensures DependenciesFirst(e, Order(e)) <==> forall n :: n in Nodes(e) ==> !ReachesCycle(e, n)
  {
    hide Order;
    var k, tail, cut := OrderParts(e);
    var order := Order(e);
    if DependenciesFirst(e, order) {
      forall n | n in Nodes(e) ensures !ReachesCycle(e, n) {
        assert n in Elems(order);
        var i :| 0 <= i < |order| && order[i] == n;
        forall p | IsPath(e, p) && p[0] == n ensures Distinct(p) {
          PathsDescend(e, order, i, p);
        }
      }
    } else {
      assert tail == [] ==> order == k;
      assert order[cut] in Elems(order);
    }
  }

  ghost predicate SameDependencies(e: Edges, f: Edges) {
    Nodes(e) == Nodes(f) && forall n, d :: d in Deps(e, n) <==> d in Deps(f, n)
  }

  lemma {:induction false} PlaceDependsOnDependencies(e: Edges, f: Edges, placed: seq<string>, queue: seq<string>)
    requires SameDependencies(e, f)
    requires Consistent(e, placed, queue) && Consistent(f, placed, queue)
    ensures Place(e, placed, queue) == Place(f, placed, queue)
    decreases |Nodes(e) - Elems(placed)|
  {
    hide Consistent, ReadyNodes, Nodes, Released;
    if queue != [] {
      PlaceStep(e, placed, queue);
      PlaceStep(f, placed, queue);
      SameReleased(e, f, Elems(placed), queue[0]);
      PlaceDependsOnDependencies(e, f, placed + [queue[0]],
        queue[1..] + SortSet(Released(e, Elems(placed), queue[0])));
    }
  }

  lemma SameReleased(e: Edges, f: Edges, placed: set<string>, n: string)
    requires SameDependencies(e, f)
    ensures Released(e, placed, n) == Released(f, placed, n)
    ensures ReadyNodes(e, placed) == ReadyNodes(f, placed)
  {
    assert forall m, s :: Ready(e, m, s) <==> Ready(f, m, s);
  }

  /** The order does not depend on how the edges are listed, nor on how often an edge is
      repeated: only on which node depends on which. */
  lemma OrderDependsOnDependencies(e: Edges, f: Edges)
    requires SameDependencies(e, f)
    ensures Order(e) == Order(f)
  {
    SameReleased(e, f, {}, "");
    LeavesConsistent(e);
    LeavesConsistent(f);
    PlaceDependsOnDependencies(e, f, [], SortSet(Leaves(e)));
  }

  /** How many nodes had been placed when all that n depends on had been. */
  ghost function Rank(e: Edges, order: seq<string>, n: string): (rank: nat)
    ensures rank <= |order|
  {
    if order == [] then 0
    else if Ready(e, n, Elems(order[..|order| - 1])) then Rank(e, order[..|order| - 1], n)
    else |order|
  }

  lemma {:induction false} RankIsFirst(e: Edges, order: seq<string>, n: string)
    requires Ready(e, n, Elems(order))
    ensures Ready(e, n, Elems(order[..Rank(e, order, n)]))
    ensures forall k :: 0 <= k < Rank(e, order, n) ==> !Ready(e, n, Elems(order[..k]))
  {
    hide Ready;
    if order == [] {
      assert order[..0] == order;
    } else {
      var front := order[..|order| - 1];
      assert forall k :: 0 <= k <= |front| ==> front[..k] == order[..k];
      if Ready(e, n, Elems(front)) {
        RankIsFirst(e, front, n);
      } else {
        assert order[..|order|] == order;
        forall k | 0 <= k < |order| ensures !Ready(e, n, Elems(order[..k])) {
          if Ready(e, n, Elems(order[..k])) {
            ReadyStays(e, n, order[..k], front);
          }
        }
      }
    }
  }

  lemma ReadyStays(e: Edges, n: string, a: seq<string>, b: seq<string>)
    requires a <= b && Ready(e, n, Elems(a))
    ensures Ready(e, n, Elems(b))
  {
    assert b == a + b[|a|..];
    ElemsConcat(a, b[|a|..]);
  }

  ghost predicate Precedes(e: Edges, order: seq<string>, a: string, b: string) {
    Rank(e, order, a) < Rank(e, order, b) || (Rank(e, order, a) == Rank(e, order, b) && Le(a, b))
  }

  /** What is placed and queued stands in the order in which it became ready, and by name
      where that was at the same time. */
  ghost predicate InTurn(e: Edges, placed: seq<string>, queue: seq<string>) {
    && (forall i :: 0 <= i < |placed + queue| ==> Ready(e, (placed + queue)[i], Elems(placed)))
    && (forall i, j :: 0 <= i < j < |placed + queue| ==> Precedes(e, placed, (placed + queue)[i], (placed + queue)[j]))
  }

  lemma RankStays(e: Edges, placed: seq<string>, x: string, n: string)
    ensures Ready(e, n, Elems(placed)) ==> Rank(e, placed + [x], n) == Rank(e, placed, n)
    ensures !Ready(e, n, Elems(placed)) ==> Rank(e, placed + [x], n) == |placed| + 1
  {
    hide Ready;
    assert (placed + [x])[..|placed|] == placed;
  }

  lemma TurnStep(e: Edges, placed: seq<string>, queue: seq<string>)
    requires Consistent(e, placed, queue) && queue != [] && InTurn(e, placed, queue)
    ensures InTurn(e, placed + [queue[0]], queue[1..] + SortSet(Released(e, Elems(placed), queue[0])))
  {
    hide Ready, Rank, Consistent, Nodes, ReadyNodes, Le, Distinct, Released;
    var x, freed := queue[0], SortSet(Released(e, Elems(placed), queue[0]));
    var was, now := placed + queue, placed + [x] + (queue[1..] + freed);
    assert now == was + freed;
    assert Sorted(freed);
    ReleasedAtOnce(e, placed, queue);
    hide Elems;
    forall i | 0 <= i < |now| ensures Ready(e, now[i], Elems(placed + [x])) {
      if i < |was| {
        ReadyStays(e, was[i], placed, placed + [x]);
      }
    }
    forall i, j | 0 <= i < j < |now| ensures Precedes(e, placed + [x], now[i], now[j]) {
      RankStays(e, placed, x, now[i]);
      RankStays(e, placed, x, now[j]);
      if j < |was| {
        assert Precedes(e, placed, was[i], was[j]);
      } else if i >= |was| {
        assert Le(freed[i - |was|], freed[j - |was|]);
      }
    }
  }

  /** What a placement releases was not ready before it and is ready after. */
  lemma ReleasedAtOnce(e: Edges, placed: seq<string>, queue: seq<string>)
    requires Consistent(e, placed, queue) && queue != []
    ensures var freed := SortSet(Released(e, Elems(placed), queue[0]));
      forall i :: 0 <= i < |freed| ==> !Ready(e, freed[i], Elems(placed)) && Ready(e, freed[i], Elems(placed + [queue[0]]))
  {
    var freed := SortSet(Released(e, Elems(placed), queue[0]));
    ElemsSnoc(placed, queue[0]);
    forall i | 0 <= i < |freed|
      ensures !Ready(e, freed[i], Elems(placed)) && Ready(e, freed[i], Elems(placed + [queue[0]]))
    {
      assert freed[i] in Elems(freed);
      assert queue[0] in Elems(queue) && queue[0] !in Elems(placed);
    }
    hide DependenciesFirst, ReadyNodes, Nodes, Distinct, Sorted;
  }

  lemma {:induction false} PlacedInTurn(e: Edges, placed: seq<string>, queue: seq<string>)
    requires Consistent(e, placed, queue) && InTurn(e, placed, queue)
    ensures InTurn(e, Place(e, placed, queue), [])
    decreases |Nodes(e) - Elems(placed)|
  {
    hide InTurn, Consistent, Nodes, Released;
    if queue == [] {
      assert queue == [];
    } else {
      PlaceStep(e, placed, queue);
      TurnStep(e, placed, queue);
      PlacedInTurn(e, placed + [queue[0]], queue[1..] + SortSet(Released(e, Elems(placed), queue[0])));
    }
  }

  /** The sort is first come, first served: of two nodes it places, the one that became ready
      after fewer placements comes first, and of two that became ready together the one whose
      name is less. */
  lemma FirstComeFirstServed(e: Edges)
    ensures var order := Sortable(e);
      forall i, j :: 0 <= i < j < |order| ==>
        || Rank(e, order, order[i]) < Rank(e, order, order[j])
        || (Rank(e, order, order[i]) == Rank(e, order, order[j]) && Le(order[i], order[j]))
  {
    hide Place, Rank, Consistent;
    var leaves := SortSet(Leaves(e));
    LeavesConsistent(e);
    assert InTurn(e, [], leaves) by {
      LeavesInTurn(e);
    }
    PlacedInTurn(e, [], leaves);
    var order := Sortable(e);
    assert order + [] == order;
    forall i, j | 0 <= i < j < |order| ensures Precedes(e, order, order[i], order[j]) {
      assert Precedes(e, order, (order + [])[i], (order + [])[j]);
    }
  }

  lemma LeavesInTurn(e: Edges)
    ensures InTurn(e, [], SortSet(Leaves(e)))
  {
    hide InTurn, Leaves, Ready;
    var leaves := SortSet(Leaves(e));
    forall n | n in leaves ensures Ready(e, n, Elems<string>([])) {
      LeavesReady(e, n);
    }
    SortedInTurn(e, leaves);
  }

  lemma SortedInTurn(e: Edges, leaves: seq<string>)
    requires Sorted(leaves) && forall n :: n in leaves ==> Ready(e, n, Elems<string>([]))
    ensures InTurn(e, [], leaves)
  {
    hide Ready, Le, Rank, Elems;
    assert [] + leaves == leaves;
    forall n: string ensures Rank(e, [], n) == 0 {
      NoRank(e, n);
    }
  }

  lemma LeavesReady(e: Edges, n: string)
    requires n in SortSet(Leaves(e))
    ensures Ready(e, n, Elems<string>([]))
  {
    hide Nodes;
    assert n in Elems(SortSet(Leaves(e)));
    assert Elems<string>([]) == {};
  }

  lemma NoRank(e: Edges, n: string)
    ensures Rank(e, [], n) == 0
  {
  }

  // ---------------------------------------------------------------- the code

  /** How many entries of a dependency list are still unplaced, repeats included. */
  ghost function Missing(deps: seq<string>, placed: set<string>): nat {
    if deps == [] then 0
    else (if deps[0] in placed then 0 else 1) + Missing(deps[1..], placed)
  }

  lemma {:induction false} MissingZero(deps: seq<string>, placed: set<string>)
    ensures Missing(deps, placed) == 0 <==> forall d :: d in deps ==> d in placed
  {
    if deps != [] {
      MissingZero(deps[1..], placed);
      assert deps == [deps[0]] + deps[1..];
    }
  }

  lemma {:induction false} MissingNone(deps: seq<string>)
    ensures Missing(deps, {}) == |deps|
  {
    if deps != [] {
      MissingNone(deps[1..]);
    }
  }

  lemma {:induction false} MissingOneLess(deps: seq<string>, placed: set<string>, n: string)
    requires n !in placed
    ensures Missing(deps, placed + {n}) == Missing(deps, placed) - Count(deps, n)
  {
    if deps != [] {
      MissingOneLess(deps[1..], placed, n);
      assert deps == [deps[0]] + deps[1..];
    }
  }

  lemma CountEmpty()
    ensures forall x: string :: Count([], x) == 0
  {
  }

  lemma ReleasedMeans(e: Edges, placed: set<string>, n: string, m: string)
    requires n !in placed
    ensures m in Released(e, placed, n) <==>
      m in Nodes(e) && Count(Deps(e, m), n) > 0 && Missing(Deps(e, m), placed + {n}) == 0
  {
    MissingZero(Deps(e, m), placed + {n});
    CountPositive(Deps(e, m), n);
  }

  class DependencyGraph {
    var edges: Edges
    var order: seq<string>

    constructor ()
      ensures edges == map[] && order == []
    {
      edges, order := map[], [];
    }

    method AddDependency(from: string, to: string)
      modifies this`edges
      ensures edges.Keys == old(edges).Keys + {from}
      ensures Deps(edges, from) == Deps(old(edges), from) + [to]
      ensures forall n :: n != from ==> Deps(edges, n) == Deps(old(edges), n)
    {
      edges := edges[from := Deps(edges, from) + [to]];
    }

    /** Hash-map iteration order is arbitrary: each loop over a map takes some entry it
        has not taken yet. */
    method CollectNodes() returns (all: set<string>)
      ensures all == Nodes(edges)
    {
      all := {};
      var todo := edges.Keys;
      while todo != {}
        invariant todo <= edges.Keys
        invariant all == NodesOf(edges, edges.Keys - todo)
      {
        var from :| from in todo;
        ghost var seen := all;
        all := all + {from};
        for i := 0 to |edges[from]|
          invariant all == seen + {from} + Elems(edges[from][..i])
        {
          all := all + {edges[from][i]};
          assert edges[from][..i + 1] == edges[from][..i] + [edges[from][i]];
        }
        assert edges[from][..|edges[from]|] == edges[from];
        todo := todo - {from};
      }
    }

    method CountDependencies(all: set<string>) returns (inDegree: map<string, nat>)
      requires all == Nodes(edges)
      ensures inDegree.Keys == all
      ensures forall n :: n in all ==> inDegree[n] == |Deps(edges, n)|
    {
      inDegree := map n | n in all :: 0;
      var todo := edges.Keys;
      while todo != {}
        invariant todo <= edges.Keys && inDegree.Keys == all
        invariant forall n :: n in all ==> inDegree[n] == if n in todo then 0 else |Deps(edges, n)|
      {
        var from :| from in todo;
        inDegree := inDegree[from := |edges[from]|];
        todo := todo - {from};
      }
    }

    static function Lookup(reverse: map<string, seq<string>>, n: string): seq<string> {
      if n in reverse then reverse[n] else []
    }

    method ReverseEdges() returns (reverse: map<string, seq<string>>)
      ensures forall n, m :: Count(Lookup(reverse, n), m) == Count(Deps(edges, m), n)
    {
      hide Count;
      CountEmpty();
      forall n, m | m !in edges ensures Count(Deps(edges, m), n) == 0 {
      }
      reverse := map[];
      var todo := edges.Keys;
      while todo != {}
        invariant todo <= edges.Keys
        invariant forall n, m ::
          Count(Lookup(reverse, n), m) == if m in todo then 0 else Count(Deps(edges, m), n)
      {
        var from :| from in todo;
        var deps := edges[from];
        ghost var was := reverse;
        CountEmpty();
        for i := 0 to |deps|
          invariant forall n, m ::
            Count(Lookup(reverse, n), m) ==
              Count(Lookup(was, n), m) + if m == from then Count(deps[..i], n) else 0
        {
          ghost var before := reverse;
          reverse := reverse[deps[i] := Lookup(reverse, deps[i]) + [from]];
          assert deps[..i + 1] == deps[..i] + [deps[i]];
          forall n, m ensures Count(Lookup(reverse, n), m)
            == Count(Lookup(was, n), m) + if m == from then Count(deps[..i + 1], n) else 0
          {
            CountSnoc(Lookup(before, deps[i]), from, m);
            CountSnoc(deps[..i], deps[i], n);
          }
        }
        assert deps[..|deps|] == deps;
        todo := todo - {from};
      }
    }

    /** The queue the sort starts from. */
    method ZeroDegree(inDegree: map<string, nat>) returns (queue: seq<string>)
      ensures queue == SortSet(set n | n in inDegree && inDegree[n] == 0)
    {
      var v: seq<string> := [];
      var todo := inDegree.Keys;
      while todo != {}
        invariant todo <= inDegree.Keys
        invariant Distinct(v)
        invariant Elems(v) == set n | n in inDegree && n !in todo && inDegree[n] == 0
      {
        var n :| n in todo;
        if inDegree[n] == 0 {
          ElemsSnoc(v, n);
          v := v + [n];
        }
        todo := todo - {n};
      }
      SortOfListing(v);
      queue := Sort(v);
      assert Elems(v) == set n | n in inDegree && inDegree[n] == 0;
    }

    /** The inner loop: one node has been placed, its dependents lose a dependency each
        time they named it, and those that reach zero are queued. */
    method Release(node: string, dependents: seq<string>, degrees: map<string, nat>, ghost placed: set<string>)
      returns (inDegree: map<string, nat>, freed: seq<string>)
      requires Sorted(dependents) && node !in placed
      requires forall m :: Count(dependents, m) == Count(Deps(edges, m), node)
      requires degrees.Keys == Nodes(edges)
      requires forall m :: m in degrees ==> degrees[m] == Missing(Deps(edges, m), placed)
      ensures inDegree.Keys == Nodes(edges)
      ensures forall m :: m in inDegree ==> inDegree[m] == Missing(Deps(edges, m), placed + {node})
      ensures freed == SortSet(Released(edges, placed, node))
    {
      hide Count, Missing, Nodes, Released, Le, Deps, SortSet;
      inDegree, freed := degrees, [];
      CountEmpty();
      forall m | m in degrees
        ensures Missing(Deps(edges, m), placed + {node}) == degrees[m] - Count(dependents, m)
      {
        MissingOneLess(Deps(edges, m), placed, node);
      }
      for j := 0 to |dependents|
        invariant inDegree.Keys == Nodes(edges)
        invariant forall m :: m in inDegree ==> inDegree[m] == degrees[m] - Count(dependents[..j], m)
        invariant Sorted(freed) && Distinct(freed)
        invariant forall m :: m in Elems(freed) <==>
          m in degrees && Count(dependents[..j], m) > 0 && degrees[m] == Count(dependents[..j], m)
      {
        var dep := dependents[j];
        assert dependents[..j + 1] == dependents[..j] + [dep];
        forall m ensures Count(dependents[..j + 1], m) == Count(dependents[..j], m) + if m == dep then 1 else 0 {
          CountSnoc(dependents[..j], dep, m);
        }
        CountPrefix(dependents, j + 1, dep);
        assert dep in degrees by {
          CountPositive(dependents[..j + 1], dep);
          InGraph(dep, node);
        }
        var d := inDegree[dep];
        if d > 0 {
          inDegree := inDegree[dep := d - 1];
          if d - 1 == 0 {
            ElemsSnoc(freed, dep);
            forall i | 0 <= i < |freed| ensures Le(freed[i], dep) {
              assert freed[i] in Elems(freed);
              CountPositive(dependents[..j], freed[i]);
            }
            freed := freed + [dep];
          }
        }
      }
      assert dependents[..|dependents|] == dependents;
      assert Elems(freed) == Released(edges, placed, node) by {
        forall m ensures m in Elems(freed) <==> m in Released(edges, placed, node) {
          ReleasedMeans(edges, placed, node, m);
        }
      }
      SortedSetUnique(freed, SortSet(Released(edges, placed, node)));
    }

    lemma InGraph(m: string, n: string)
      requires Count(Deps(edges, m), n) > 0
      ensures m in Nodes(edges)
    {
    }

    method ComputeOrder()
      modifies this`order
      ensures order == Order(edges)
    {
      hide Count, Missing, Nodes, Distinct, ReadyNodes, Sorted, Sortable;
      var all := CollectNodes();
      var inDegree := CountDependencies(all);
      var reverse := ReverseEdges();
      var queue := ZeroDegree(inDegree);
      forall m | m in inDegree ensures inDegree[m] == Missing(Deps(edges, m), {}) {
        MissingNone(Deps(edges, m));
      }
      LeavesMeans(edges, inDegree);
      var placed := PlaceAll(reverse, inDegree, queue);
      var tail := Remaining(all, placed);
      order := placed + tail;
    }

    /** The main loop. */
    method PlaceAll(reverse: map<string, seq<string>>, degrees: map<string, nat>, leaves: seq<string>)
      returns (placed: seq<string>)
      requires forall n, m :: Count(Lookup(reverse, n), m) == Count(Deps(edges, m), n)
      requires degrees.Keys == Nodes(edges)
      requires forall m :: m in degrees ==> degrees[m] == Missing(Deps(edges, m), {})
      requires leaves == SortSet(Leaves(edges))
      ensures placed == Sortable(edges)
    {
      hide Count, Missing, Nodes, Released, Distinct, ReadyNodes, Sort, Sorted, Deps, Lookup, Elems, Consistent;
      LeavesConsistent(edges);
      ElemsEmpty();
      var inDegree, queue := degrees, leaves;
      placed := [];
      while queue != []
        invariant Consistent(edges, placed, queue)
        invariant Place(edges, placed, queue) == Sortable(edges)
        invariant inDegree.Keys == Nodes(edges)
        invariant forall m :: m in inDegree ==> inDegree[m] == Missing(Deps(edges, m), Elems(placed))
        decreases |Nodes(edges) - Elems(placed)|
      {
        PlaceStep(edges, placed, queue);
        FrontIsNew(edges, placed, queue);
        var node := queue[0];
        queue := queue[1..];
        var dependents := Sort(Lookup(reverse, node));
        forall m ensures Count(dependents, m) == Count(Deps(edges, m), node) {
          CountSort(Lookup(reverse, node), m);
        }
        var freed;
        inDegree, freed := Release(node, dependents, inDegree, Elems(placed));
        ElemsSnoc(placed, node);
        placed := placed + [node];
        queue := queue + freed;
      }
    }

    /** The nodes the queue never reached. */
    method Remaining(all: set<string>, placed: seq<string>) returns (tail: seq<string>)
      ensures tail == SortSet(all - Elems(placed))
    {
      hide Elems, Distinct, Sort, SortSet;
      ElemsEmpty();
      var todo := all;
      var v: seq<string> := [];
      while todo != {}
        invariant todo <= all && Distinct(v)
        invariant Elems(v) == (all - todo) - Elems(placed)
      {
        var n :| n in todo;
        ElemsMember(placed, n);
        if n !in placed {
          ElemsSnoc(v, n);
          v := v + [n];
        }
        todo := todo - {n};
      }
      SortOfListing(v);
      tail := Sort(v);
    }
  }

  lemma ElemsEmpty()
    ensures Elems<string>([]) == {} && Distinct<string>([])
  {
  }

  lemma ElemsMember(s: seq<string>, n: string)
    ensures n in Elems(s) <==> n in s
  {
  }

  lemma FrontIsNew(e: Edges, placed: seq<string>, queue: seq<string>)
    requires Consistent(e, placed, queue) && queue != []
    ensures queue[0] !in Elems(placed)
  {
    ElemsTail(queue);
  }

  lemma LeavesMeans(e: Edges, inDegree: map<string, nat>)
    requires inDegree.Keys == Nodes(e)
    requires forall m :: m in inDegree ==> inDegree[m] == Missing(Deps(e, m), {})
    ensures (set n | n in inDegree && inDegree[n] == 0) == Leaves(e)
  {
    forall m | m in inDegree ensures inDegree[m] == 0 <==> Ready(e, m, {}) {
      MissingZero(Deps(e, m), {});
    }
  }

  lemma SubsetSmaller<T>(a: set<T>, b: set<T>)
    requires a < b
    ensures |a| < |b|
  {
    var x :| x in b && x !in a;
    SubsetSize(a, b - {x});
  }
}
