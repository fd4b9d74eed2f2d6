/**
 The component and orchestration graphs: layering by longest dependency chain, the
 critical path, transitive dependencies, and the chain inferred for undeclared steps.

 Nodes are indices; `preds[v]` lists the prerequisites of v, with repeats for parallel
 edges. The topological sort of the graph library is a parameter of each algorithm,
 known only by what it promises: some topological order, or the news of a cycle.
*/
module Dag {
  import opened Ordering
  import opened Words

  datatype Graph = Graph(ids: seq<string>, preds: seq<seq<nat>>) {
    predicate Valid() {
      && |ids| == |preds|
      && forall v, u :: 0 <= v < |preds| && u in preds[v] ==> u < |ids|
    }

    /** A chain of prerequisites, first one first. */
    predicate Chain(p: seq<nat>)
      requires Valid()
    {
      && p != []
      && (forall i :: 0 <= i < |p| ==> p[i] < |ids|)
      && forall i :: 0 <= i < |p| - 1 ==> p[i] in preds[p[i + 1]]
    }

    ghost predicate ChainTo(p: seq<nat>, v: nat)
      requires Valid()
    {
      Chain(p) && p[|p| - 1] == v
    }

    predicate Topological(order: seq<nat>)
      requires Valid()
    {
      && Distinct(order) && |order| == |ids|
      && (forall i :: 0 <= i < |order| ==> order[i] < |ids|)
      && forall i, u :: 0 <= i < |order| && u in preds[order[i]] ==> u in order[..i]
    }

    /** What the library's topological sort promises. */
    ghost predicate Toposort(answer: Option<seq<nat>>)
      requires Valid()
    {
      match answer
      case Some(order) => Topological(order)
      case None => exists p :: Chain(p) && |p| > 1 && p[0] == p[|p| - 1]
    }

    /** d is the number of edges of the longest chain that ends at v. */
    ghost predicate Depth(v: nat, d: nat)
      requires Valid()
    {
      && (exists p :: ChainTo(p, v) && |p| == d + 1)
      && forall p :: ChainTo(p, v) ==> |p| <= d + 1
    }

    /** h is the number of edges of the longest chain of all. */
    ghost predicate Height(h: nat)
      requires Valid()
    {
      && (exists p :: Chain(p) && |p| == h + 1)
      && forall p :: Chain(p) ==> |p| <= h + 1
    }

    ghost function NodesAtDepth(d: nat): set<nat>
      requires Valid()
    {
      set v | 0 <= v < |ids| && Depth(v, d)
    }

    function NamesUpTo(nodes: set<nat>, n: nat): seq<string>
      requires n <= |ids|
    {
      if n == 0 then []
      else if n - 1 in nodes then NamesUpTo(nodes, n - 1) + [ids[n - 1]]
      else NamesUpTo(nodes, n - 1)
    }

    /** The names of these nodes in order; nodes with the same name are listed each. */
    function NamesOf(nodes: set<nat>): seq<string> {
      Sort(NamesUpTo(nodes, |ids|))
    }

    /** Each node stands in the layer numbered by its longest chain, layers are sorted, and
        there are as many as the longest chain of all has nodes. */
    ghost predicate Layered(layers: seq<seq<string>>)
      requires Valid()
    {
      && |layers| >= 1
      && (if ids == [] then |layers| == 1 else Height(|layers| - 1))
      && forall d :: 0 <= d < |layers| ==> layers[d] == NamesOf(NodesAtDepth(d))
    }
  }

  // ---------------------------------------------------------------- chains

  lemma ChainPrefix(g: Graph, p: seq<nat>)
    requires g.Valid() && g.Chain(p) && |p| > 1
    ensures g.ChainTo(p[..|p| - 1], p[|p| - 2]) && p[|p| - 2] in g.preds[p[|p| - 1]]
  {
    var q := p[..|p| - 1];
    forall i | 0 <= i < |q| - 1 ensures q[i] in g.preds[q[i + 1]] {
      assert p[i] in g.preds[p[i + 1]];
    }
    assert p[|p| - 2] in g.preds[p[|p| - 2 + 1]];
  }

  lemma ChainExtend(g: Graph, p: seq<nat>, v: nat)
    requires g.Valid() && g.Chain(p) && v < |g.ids| && p[|p| - 1] in g.preds[v]
    ensures g.ChainTo(p + [v], v)
  {
  }

  lemma DepthOfSource(g: Graph, v: nat)
    requires g.Valid() && v < |g.ids| && g.preds[v] == []
    ensures g.Depth(v, 0)
  {
    assert g.ChainTo([v], v);
    forall p | g.ChainTo(p, v) ensures |p| <= 1 {
      if |p| > 1 {
        ChainPrefix(g, p);
        assert false;
      }
    }
  }

  /** One more than the greatest depth among the prerequisites. */
  lemma DepthAbove(g: Graph, v: nat, u: nat, d: nat, depth: map<nat, nat>)
    requires g.Valid() && v < |g.ids| && u in g.preds[v]
    requires forall x :: x in g.preds[v] ==> x in depth && g.Depth(x, depth[x]) && depth[x] <= d
    requires depth[u] == d
    ensures g.Depth(v, d + 1)
  {
    var q :| g.ChainTo(q, u) && |q| == d + 1;
    ChainExtend(g, q, v);
    assert |q + [v]| == d + 2;
    forall p | g.ChainTo(p, v) ensures |p| <= d + 2 {
      if |p| > 1 {
        ChainPrefix(g, p);
        var x := p[|p| - 2];
        assert g.Depth(x, depth[x]) && g.ChainTo(p[..|p| - 1], x);
      }
    }
  }

  lemma DepthUnique(g: Graph, v: nat, a: nat, b: nat)
    requires g.Valid() && g.Depth(v, a) && g.Depth(v, b)
    ensures a == b
  {
    var p :| g.ChainTo(p, v) && |p| == a + 1;
    var q :| g.ChainTo(q, v) && |q| == b + 1;
  }

  /** A layering is determined by the graph: whatever topological order the library
      answers with, the layers are the same. */
  lemma LayersUnique(g: Graph, a: seq<seq<string>>, b: seq<seq<string>>)
    requires g.Valid() && g.Layered(a) && g.Layered(b)
    ensures a == b
  {
    if g.ids != [] {
      var p :| g.Chain(p) && |p| == |a|;
      var q :| g.Chain(q) && |q| == |b|;
    }
  }

  /** Every edge goes to a strictly later layer. */
  lemma EdgesGoForward(g: Graph, u: nat, v: nat, du: nat, dv: nat)
    requires g.Valid() && v < |g.ids| && u in g.preds[v]
    requires g.Depth(u, du) && g.Depth(v, dv)
    ensures du < dv
  {
    var p :| g.ChainTo(p, u) && |p| == du + 1;
    ChainExtend(g, p, v);
    assert |p + [v]| == du + 2;
  }

  /** A way of numbering the nodes so that every prerequisite has a lower number. */
  predicate RespectsEdges(g: Graph, level: seq<nat>)
    requires g.Valid()
  {
    && |level| == |g.ids|
    && forall v, u :: 0 <= v < |g.ids| && u in g.preds[v] ==> level[u] < level[v]
  }

  lemma {:induction false} LevelsRise(g: Graph, level: seq<nat>, p: seq<nat>)
    requires g.Valid() && RespectsEdges(g, level) && g.Chain(p)
    ensures level[p[|p| - 1]] >= |p| - 1
    decreases |p|
  {
    if |p| > 1 {
      ChainPrefix(g, p);
      LevelsRise(g, level, p[..|p| - 1]);
    }
  }

  /** No numbering that respects the edges gets by with fewer layers. */
  lemma NoShorterLayering(g: Graph, layers: seq<seq<string>>, level: seq<nat>, k: nat)
    requires g.Valid() && g.ids != [] && g.Layered(layers)
    requires RespectsEdges(g, level) && forall v :: 0 <= v < |level| ==> level[v] < k
    ensures k >= |layers|
  {
    var p :| g.Chain(p) && |p| == |layers|;
    LevelsRise(g, level, p);
  }

  /** In a graph with a topological order no chain comes back to where it started. */
  lemma {:induction false} ChainsAscend(g: Graph, order: seq<nat>, p: seq<nat>, k: nat)
    requires g.Valid() && g.Topological(order) && g.Chain(p)
    requires k < |order| && order[k] == p[|p| - 1]
    ensures |p| > 1 ==> p[0] in order[..k]
    decreases |p|
  {
    if |p| > 1 {
      ChainPrefix(g, p);
      var u := p[|p| - 2];
      assert u in order[..k];
      var j :| 0 <= j < k && order[j] == u;
      ChainsAscend(g, order, p[..|p| - 1], j);
      assert order[..j] <= order[..k];
    }
  }

  /** A topological order lists every node. */
  lemma TopologicalCovers(g: Graph, order: seq<nat>)
    requires g.Valid() && g.Topological(order)
    ensures Elems(order) == Below(|g.ids|)
  {
    DistinctIffSize(order);
    assert Elems(order) <= Below(|g.ids|);
    SameSize(Elems(order), Below(|g.ids|));
  }

  function Below(n: nat): (all: set<nat>)
    ensures |all| == n && forall v: nat :: v in all <==> v < n
  {
    if n == 0 then {} else Below(n - 1) + {n - 1}
  }

  lemma {:induction false} SameSize<T>(a: set<T>, b: set<T>)
    requires a <= b && |a| == |b|
    ensures a == b
  {
    if a != {} {
      var x :| x in a;
      SameSize(a - {x}, b - {x});
    }
  }

  // ---------------------------------------------------------------- layers and critical path

  /** The longest distance over the prerequisites of v, and one of those that has it. */
  method DeepestPrerequisite(g: Graph, v: nat, depth: map<nat, nat>) returns (best: Option<(nat, nat)>)
    requires g.Valid() && v < |g.ids|
    requires forall u :: u in g.preds[v] ==> u in depth
    ensures best.None? <==> g.preds[v] == []
    ensures best.Some? ==> best.value.0 in g.preds[v] && depth[best.value.0] == best.value.1
    ensures best.Some? ==> forall u :: u in g.preds[v] ==> depth[u] <= best.value.1
  {
    best := None;
    for i := 0 to |g.preds[v]|
      invariant best.None? <==> i == 0
      invariant best.Some? ==> best.value.0 in g.preds[v] && depth[best.value.0] == best.value.1
      invariant best.Some? ==> forall j :: 0 <= j < i ==> depth[g.preds[v][j]] <= best.value.1
    {
      var u := g.preds[v][i];
      if best.None? || depth[u] >= best.value.1 {
        best := Some((u, depth[u]));
      }
    }
  }

  /** Distances are chain lengths, and a predecessor is a prerequisite one step closer to
      the start; only nodes at distance zero have none. */
  ghost predicate Sound(g: Graph, dist: map<nat, nat>, pred: map<nat, nat>)
    requires g.Valid()
  {
    && (forall v :: v in dist ==> v < |g.ids| && g.Depth(v, dist[v]))
    && (forall v :: v in pred ==> v in dist && pred[v] in dist && pred[v] in g.preds[v])
    && (forall v :: v in pred ==> dist[v] == dist[pred[v]] + 1)
    && (forall v :: v in dist && v !in pred ==> dist[v] == 0)
  }

  lemma SoundSource(g: Graph, dist: map<nat, nat>, pred: map<nat, nat>, v: nat)
    requires g.Valid() && Sound(g, dist, pred) && v < |g.ids| && v !in dist && g.preds[v] == []
    ensures Sound(g, dist[v := 0], pred)
  {
    DepthOfSource(g, v);
  }

  lemma SoundAbove(g: Graph, dist: map<nat, nat>, pred: map<nat, nat>, v: nat, u: nat)
    requires g.Valid() && Sound(g, dist, pred) && v < |g.ids| && v !in dist && u in g.preds[v] && u in dist
    requires forall x :: x in g.preds[v] ==> x in dist && dist[x] <= dist[u]
    ensures Sound(g, dist[v := dist[u] + 1], pred[v := u])
  {
    hide Graph.Depth;
    assert g.Depth(v, dist[u] + 1) by {
      DepthAbove(g, v, u, dist[u], dist);
    }
  }

  lemma TopologicalStep(g: Graph, order: seq<nat>, i: nat)
    requires g.Valid() && g.Topological(order) && i < |order|
    ensures order[i] < |g.ids| && order[i] !in Elems(order[..i])
    ensures Elems(order[..i + 1]) == Elems(order[..i]) + {order[i]}
    ensures forall u :: u in g.preds[order[i]] ==> u in Elems(order[..i])
  {
    assert order[..i + 1] == order[..i] + [order[i]];
    ElemsSnoc(order[..i], order[i]);
  }

  /** The dynamic program both algorithms run along the topological order: for each node
      its distance, and a prerequisite one closer to the start if it has any. */
  method Distances(g: Graph, order: seq<nat>) returns (dist: map<nat, nat>, pred: map<nat, nat>)
    requires g.Valid() && g.Topological(order)
    ensures dist.Keys == Below(|g.ids|)
    ensures Sound(g, dist, pred)
  {
    TopologicalCovers(g, order);
    dist, pred := map[], map[];
    assert Sound(g, dist, pred);
    assert Elems(order[..0]) == {};
    assert order[..|order|] == order;
    hide Sound, Graph.Topological, Graph.Depth, Elems, Below;
    for i := 0 to |order|
      invariant dist.Keys == Elems(order[..i])
      invariant Sound(g, dist, pred)
    {
      TopologicalStep(g, order, i);
      dist, pred := Relax(g, order[i], dist, pred);
    }
  }

  /** One node of the dynamic program, its prerequisites being done. */
  method Relax(g: Graph, v: nat, dist0: map<nat, nat>, pred0: map<nat, nat>)
    returns (dist: map<nat, nat>, pred: map<nat, nat>)
    requires g.Valid() && Sound(g, dist0, pred0) && v < |g.ids| && v !in dist0
    requires forall u :: u in g.preds[v] ==> u in dist0
    ensures Sound(g, dist, pred) && dist.Keys == dist0.Keys + {v}
  {
    hide Sound;
    dist, pred := dist0, pred0;
    var best := DeepestPrerequisite(g, v, dist);
    match best
    case None =>
      SoundSource(g, dist, pred, v);
      dist := dist[v := 0];
    case Some((u, d)) =>
      SoundAbove(g, dist, pred, v, u);
      pred := pred[v := u];
      dist := dist[v := d + 1];
  }

  method ParallelLayers(g: Graph, toposort: Option<seq<nat>>) returns (layers: seq<seq<string>>)
    requires g.Valid() && g.Toposort(toposort)
    ensures toposort.None? ==> layers == []
    ensures toposort.Some? ==> g.Layered(layers)
  {
    if toposort.None? {
      return [];
    }
    var depth, _ := Distances(g, toposort.value);
    var maxDepth := MaxValue(depth);
    layers := Bucket(g, depth, maxDepth);
    LayersCorrect(g, depth, maxDepth, layers);
  }

  method MaxValue(depth: map<nat, nat>) returns (m: nat)
    ensures forall v :: v in depth ==> depth[v] <= m
    ensures if depth == map[] then m == 0 else exists v :: v in depth && depth[v] == m
  {
    m := 0;
    var todo := depth.Keys;
    while todo != {}
      invariant todo <= depth.Keys
      invariant forall v :: v in depth && v !in todo ==> depth[v] <= m
      invariant m == 0 || exists v :: v in depth && depth[v] == m
    {
      var v :| v in todo;
      if depth[v] > m {
        m := depth[v];
      }
      todo := todo - {v};
    }
    if depth != map[] && m == 0 {
      var v :| v in depth;
      assert depth[v] == m;
    }
  }

  function NodesWith(depth: map<nat, nat>, d: nat): set<nat> {
    set v | v in depth && depth[v] == d
  }

  /** What sorting yields depends on how often each name occurs, not on their order. */
  lemma SortIsOrderless(a: seq<string>, b: seq<string>)
    requires multiset(a) == multiset(b)
    ensures Sort(a) == Sort(b)
  {
    SortedUnique(Sort(a), Sort(b));
  }

  /** One more node is one more name. */
  lemma {:induction false} OneMoreName(g: Graph, nodes: set<nat>, v: nat, n: nat)
    requires v !in nodes && v < |g.ids| && n <= |g.ids|
    ensures multiset(g.NamesUpTo(nodes + {v}, n))
      == multiset(g.NamesUpTo(nodes, n)) + if v < n then multiset{g.ids[v]} else multiset{}
  {
    if n > 0 {
      OneMoreName(g, nodes, v, n - 1);
      var was, now := g.NamesUpTo(nodes, n - 1), g.NamesUpTo(nodes + {v}, n - 1);
      var x := g.ids[n - 1];
      assert multiset(was + [x]) == multiset(was) + multiset{x};
      assert multiset(now + [x]) == multiset(now) + multiset{x};
      if n - 1 != v {
        assert n - 1 in nodes + {v} <==> n - 1 in nodes;
      }
    }
  }

  lemma {:induction false} NoNames(g: Graph, n: nat)
    requires n <= |g.ids|
    ensures g.NamesUpTo({}, n) == []
  {
    if n > 0 {
      NoNames(g, n - 1);
    }
  }

  /** Where names are distinct, a sorted list of names has no repeats and says who they are. */
  lemma {:induction false} NamesUpToDistinct(g: Graph, nodes: set<nat>, n: nat)
    requires Distinct(g.ids) && n <= |g.ids|
    ensures Distinct(g.NamesUpTo(nodes, n))
    ensures forall x :: x in g.NamesUpTo(nodes, n) <==> Named(g, nodes, n, x)
  {
    if n > 0 {
      var front, last := g.NamesUpTo(nodes, n - 1), g.ids[n - 1];
      NamesUpToDistinct(g, nodes, n - 1);
      ElemsSnoc(front, last);
      assert !Named(g, nodes, n - 1, last);
      forall x ensures x in g.NamesUpTo(nodes, n) <==> Named(g, nodes, n, x) {
        assert x in front + [last] <==> x in front || x == last;
        if n - 1 in nodes && x == last {
          assert g.ids[n - 1] == x;
        }
      }
    }
  }

  ghost predicate Named(g: Graph, nodes: set<nat>, n: nat, x: string)
    requires n <= |g.ids|
  {
    exists v :: 0 <= v < n && v in nodes && g.ids[v] == x
  }

  lemma NamesAreDistinct(g: Graph, nodes: set<nat>)
    requires Distinct(g.ids) && forall v :: v in nodes ==> v < |g.ids|
    ensures g.NamesOf(nodes) == SortSet(set v | v in nodes :: g.ids[v])
  {
    hide Named, Graph.NamesUpTo, Distinct, Sorted;
    var listed, names := g.NamesUpTo(nodes, |g.ids|), set v | v in nodes :: g.ids[v];
    NamesUpToDistinct(g, nodes, |g.ids|);
    forall x ensures x in listed <==> x in names {
      NamedIsMember(g, nodes, x);
    }
    assert Elems(listed) == names;
    SortOfListing(listed);
  }

  lemma NamedIsMember(g: Graph, nodes: set<nat>, x: string)
    requires forall v :: v in nodes ==> v < |g.ids|
    ensures Named(g, nodes, |g.ids|, x) <==> x in set v | v in nodes :: g.ids[v]
  {
  }

  /** Pushes every name onto its layer, in whatever order the map yields the nodes, and
      sorts the layers. */
  method Bucket(g: Graph, depth: map<nat, nat>, maxDepth: nat) returns (layers: seq<seq<string>>)
    requires forall v :: v in depth ==> v < |g.ids| && depth[v] <= maxDepth
    ensures |layers| == maxDepth + 1
    ensures forall d :: 0 <= d < |layers| ==> layers[d] == g.NamesOf(NodesWith(depth, d))
  {
    hide Graph.NamesUpTo;
    layers := seq(maxDepth + 1, _ => []);
    var todo := depth.Keys;
    NoNames(g, |g.ids|);
    forall d ensures NodesWith(depth, d) - todo == {} { }
    while todo != {}
      invariant todo <= depth.Keys && |layers| == maxDepth + 1
      invariant forall d :: 0 <= d < |layers| ==>
        multiset(layers[d]) == multiset(g.NamesUpTo(NodesWith(depth, d) - todo, |g.ids|))
    {
      var v :| v in todo;
      var d := depth[v];
      OneMoreName(g, NodesWith(depth, d) - todo, v, |g.ids|);
      assert NodesWith(depth, d) - todo + {v} == NodesWith(depth, d) - (todo - {v});
      assert forall k :: k != d ==> NodesWith(depth, k) - todo == NodesWith(depth, k) - (todo - {v});
      layers := layers[d := layers[d] + [g.ids[v]]];
      todo := todo - {v};
    }
    assert forall d :: NodesWith(depth, d) - todo == NodesWith(depth, d);
    layers := SortLayers(g, depth, layers);
  }

  method SortLayers(g: Graph, depth: map<nat, nat>, raw: seq<seq<string>>) returns (layers: seq<seq<string>>)
    requires forall d :: 0 <= d < |raw| ==> multiset(raw[d]) == multiset(g.NamesUpTo(NodesWith(depth, d), |g.ids|))
    ensures |layers| == |raw|
    ensures forall d :: 0 <= d < |layers| ==> layers[d] == g.NamesOf(NodesWith(depth, d))
  {
    hide Graph.NamesUpTo, NodesWith, Sorted;
    layers := raw;
    for d := 0 to |layers|
      invariant |layers| == |raw|
      invariant forall k :: 0 <= k < d ==> layers[k] == g.NamesOf(NodesWith(depth, k))
      invariant forall k :: d <= k < |layers| ==> layers[k] == raw[k]
    {
      SortIsOrderless(layers[d], g.NamesUpTo(NodesWith(depth, d), |g.ids|));
      layers := layers[d := Sort(layers[d])];
    }
  }

  lemma LayersCorrect(g: Graph, depth: map<nat, nat>, maxDepth: nat, layers: seq<seq<string>>)
    requires g.Valid()
    requires depth.Keys == Below(|g.ids|)
    requires forall v :: v in depth ==> g.Depth(v, depth[v]) && depth[v] <= maxDepth
    requires if depth == map[] then maxDepth == 0 else exists v :: v in depth && depth[v] == maxDepth
    requires |layers| == maxDepth + 1
    requires forall d :: 0 <= d < |layers| ==> layers[d] == g.NamesOf(NodesWith(depth, d))
    ensures g.Layered(layers)
  {
    hide Graph.Depth, Graph.Height, Graph.NamesOf;
    forall d | 0 <= d < |layers| ensures NodesWith(depth, d) == g.NodesAtDepth(d) {
      SameNodes(g, depth, d);
    }
    hide Graph.NodesAtDepth, NodesWith;
    if g.ids == [] {
      assert depth.Keys == {};
      assert depth == map[];
    } else {
      assert 0 in depth;
      HeightFromDepths(g, depth, maxDepth);
    }
  }

  lemma SameNodes(g: Graph, depth: map<nat, nat>, d: nat)
    requires g.Valid() && depth.Keys == Below(|g.ids|)
    requires forall v :: v in depth ==> g.Depth(v, depth[v])
    ensures NodesWith(depth, d) == g.NodesAtDepth(d)
  {
    hide Graph.Depth;
    forall v: nat | v < |g.ids| && g.Depth(v, d) ensures v in depth && depth[v] == d {
      assert v in depth;
      DepthUnique(g, v, depth[v], d);
    }
  }

  lemma HeightFromDepths(g: Graph, depth: map<nat, nat>, maxDepth: nat)
    requires g.Valid()
    requires depth.Keys == Below(|g.ids|)
    requires forall v :: v in depth ==> g.Depth(v, depth[v]) && depth[v] <= maxDepth
    requires exists v :: v in depth && depth[v] == maxDepth
    ensures g.Height(maxDepth)
  {
    var v :| v in depth && depth[v] == maxDepth;
    var p :| g.ChainTo(p, v) && |p| == maxDepth + 1;
    forall q | g.Chain(q) ensures |q| <= maxDepth + 1 {
      var u := q[|q| - 1];
      assert u in depth && g.ChainTo(q, u);
    }
  }

  function Names(g: Graph, p: seq<nat>): seq<string>
    requires forall i :: 0 <= i < |p| ==> p[i] < |g.ids|
  {
    seq(|p|, i requires 0 <= i < |p| => g.ids[p[i]])
  }

  /** A chain that no chain exceeds. */
  ghost predicate LongestChain(g: Graph, p: seq<nat>)
    requires g.Valid()
  {
    g.Chain(p) && forall q :: g.Chain(q) ==> |q| <= |p|
  }

  method CriticalPath(g: Graph, toposort: Option<seq<nat>>) returns (path: seq<string>)
    requires g.Valid() && g.Toposort(toposort)
    ensures toposort.None? || g.ids == [] ==> path == []
    ensures toposort.Some? && g.ids != [] ==> exists p :: LongestChain(g, p) && path == Names(g, p)
  {
    if toposort.None? {
      return [];
    }
    var dist, pred := Distances(g, toposort.value);
    if dist == map[] {
      assert g.ids != [] ==> 0 in dist;
      return [];
    }
    var longest := MaxValue(dist);
    HeightFromDepths(g, dist, longest);
    var end :| end in dist && dist[end] == longest;
    hide Sound, Graph.Depth, Graph.Height;
    var nodes := WalkBack(g, dist, pred, end);
    path := Names(g, nodes);
    HeightIsLongest(g, longest, nodes);
  }

  lemma HeightIsLongest(g: Graph, h: nat, p: seq<nat>)
    requires g.Valid() && g.Height(h) && g.Chain(p) && |p| == h + 1
    ensures LongestChain(g, p)
  {
  }

  /** Follows the predecessors from the farthest node; the original collects the same
      nodes back to front and reverses them. */
  method WalkBack(g: Graph, dist: map<nat, nat>, pred: map<nat, nat>, end: nat) returns (nodes: seq<nat>)
    requires g.Valid() && Sound(g, dist, pred) && end in dist
    ensures g.ChainTo(nodes, end) && |nodes| == dist[end] + 1
  {
    hide Graph.Depth;
    var cur := end;
    nodes := [end];
    while cur in pred
      invariant cur in dist && g.ChainTo(nodes, end) && nodes[0] == cur
      invariant |nodes| + dist[cur] == dist[end] + 1
      decreases dist[cur]
    {
      var p := pred[cur];
      ChainPrepend(g, p, nodes);
      nodes := [p] + nodes;
      cur := p;
    }
  }

  lemma ChainPrepend(g: Graph, u: nat, p: seq<nat>)
    requires g.Valid() && g.Chain(p) && u in g.preds[p[0]]
    ensures g.ChainTo([u] + p, p[|p| - 1])
  {
    var q := [u] + p;
    forall i | 0 <= i < |q| - 1 ensures q[i] in g.preds[q[i + 1]] {
      if i > 0 {
        assert p[i - 1] in g.preds[p[i - 1 + 1]];
      }
    }
  }

  // ---------------------------------------------------------------- transitive dependencies

  /** u is a prerequisite of v at one or more removes. */
  ghost predicate Reaches(g: Graph, u: nat, v: nat)
    requires g.Valid()
  {
    exists p :: g.ChainTo(p, v) && |p| > 1 && p[0] == u
  }

  lemma ReachesDirect(g: Graph, u: nat, v: nat)
    requires g.Valid() && v < |g.ids| && u in g.preds[v]
    ensures Reaches(g, u, v)
  {
    assert g.ChainTo([u, v], v);
  }

  lemma ReachesFurther(g: Graph, u: nat, w: nat, v: nat)
    requires g.Valid() && w < |g.ids| && u in g.preds[w] && Reaches(g, w, v)
    ensures Reaches(g, u, v)
  {
    var p :| g.ChainTo(p, v) && |p| > 1 && p[0] == w;
    ChainPrepend(g, u, p);
  }

  /** A set closed under prerequisites holds everything reachable from it. */
  lemma {:induction false} ClosedHoldsAll(g: Graph, closed: set<nat>, start: nat, p: seq<nat>)
    requires g.Valid() && g.ChainTo(p, start)
    requires forall x :: x in closed || x == start ==> Expanded(g, x, closed)
    ensures |p| > 1 ==> p[0] in closed
    decreases |p|
  {
    if |p| > 1 {
      ChainTail(g, p);
      ClosedHoldsAll(g, closed, start, p[1..]);
      assert p[1] == p[1..][0];
      assert Expanded(g, p[1], closed);
      assert p[0] in g.preds[p[0 + 1]];
    }
  }

  lemma ChainTail(g: Graph, p: seq<nat>)
    requires g.Valid() && g.Chain(p) && |p| > 1
    ensures g.ChainTo(p[1..], p[|p| - 1])
  {
    forall i | 0 <= i < |p[1..]| - 1 ensures p[1..][i] in g.preds[p[1..][i + 1]] {
      assert p[i + 1] in g.preds[p[i + 2]];
    }
  }

  ghost function NodesReaching(g: Graph, v: nat): set<nat>
    requires g.Valid()
  {
    set u | 0 <= u < |g.ids| && Reaches(g, u, v)
  }

  method TransitiveDeps(g: Graph, index: map<string, nat>, id: string) returns (result: seq<string>)
    requires g.Valid()
    requires forall name :: name in index ==> index[name] < |g.ids|
    ensures id !in index ==> result == []
    ensures id in index ==> result == g.NamesOf(NodesReaching(g, index[id]))
  {
    if id !in index {
      return [];
    }
    var visited := Visit(g, index[id]);
    result := CollectNames(g, visited);
  }

  /** The walk along the edges, with a stack, from a node to everything before it. */
  method Visit(g: Graph, start: nat) returns (visited: set<nat>)
    requires g.Valid() && start < |g.ids|
    ensures visited == NodesReaching(g, start)
  {
    ghost var all := Below(|g.ids|);
    visited := {};
    var stack: seq<nat> := [start];
    while stack != []
      invariant start < |g.ids| && visited <= all
      invariant forall u :: u in visited ==> Reaches(g, u, start)
      invariant forall x :: x in stack ==> x == start || x in visited
      invariant forall x :: (x in visited || x == start) && x !in stack ==> Expanded(g, x, visited)
      decreases all - visited, |stack|
    {
      hide Reaches;
      var v := stack[|stack| - 1];
      assert v in stack;
      ghost var before, seen := stack, visited;
      stack := stack[..|stack| - 1];
      assert before == stack + [v];
      visited, stack := PushUnvisited(g, v, visited, stack);
      forall u | u in visited ensures Reaches(g, u, start) {
        if u !in seen {
          if v == start {
            ReachesDirect(g, u, v);
          } else {
            ReachesFurther(g, u, v, start);
          }
        }
      }
      forall x | (x in visited || x == start) && x !in stack ensures Expanded(g, x, visited) {
        if x != v {
          assert x !in before;
          assert Expanded(g, x, seen);
        }
      }
      assert all - visited <= all - seen;
      assert visited != seen ==> all - visited != all - seen;
    }
    forall u | 0 <= u < |g.ids| && Reaches(g, u, start) ensures u in visited {
      var p :| g.ChainTo(p, start) && |p| > 1 && p[0] == u;
      ClosedHoldsAll(g, visited, start, p);
    }
    assert visited == NodesReaching(g, start);
  }

  predicate Expanded(g: Graph, x: nat, visited: set<nat>)
    requires g.Valid()
  {
    x < |g.ids| ==> forall u :: u in g.preds[x] ==> u in visited
  }

  /** Visits the prerequisites of one node. */
  method PushUnvisited(g: Graph, v: nat, seen: set<nat>, base: seq<nat>)
    returns (visited: set<nat>, stack: seq<nat>)
    requires g.Valid() && v < |g.ids|
    ensures visited == seen + Elems(g.preds[v])
    ensures base <= stack
    ensures forall x :: x in stack ==> x in base || x in visited
    ensures forall x :: x in visited ==> x in seen || x in stack
    ensures visited == seen ==> stack == base
  {
    visited, stack := seen, base;
    for i := 0 to |g.preds[v]|
      invariant visited == seen + Elems(g.preds[v][..i])
      invariant base <= stack
      invariant forall x :: x in stack ==> x in base || x in visited
      invariant forall x :: x in visited ==> x in seen || x in stack
      invariant visited == seen ==> stack == base
    {
      var u := g.preds[v][i];
      assert g.preds[v][..i + 1] == g.preds[v][..i] + [u];
      if u !in visited {
        visited := visited + {u};
        stack := stack + [u];
      }
    }
    assert g.preds[v][..|g.preds[v]|] == g.preds[v];
  }

  method CollectNames(g: Graph, nodes: set<nat>) returns (names: seq<string>)
    requires forall v :: v in nodes ==> v < |g.ids|
    ensures names == g.NamesOf(nodes)
  {
    hide Graph.NamesUpTo;
    names := [];
    var todo := nodes;
    NoNames(g, |g.ids|);
    assert nodes - todo == {};
    while todo != {}
      invariant todo <= nodes
      invariant multiset(names) == multiset(g.NamesUpTo(nodes - todo, |g.ids|))
    {
      var v :| v in todo;
      OneMoreName(g, nodes - todo, v, |g.ids|);
      assert nodes - todo + {v} == nodes - (todo - {v});
      names := names + [g.ids[v]];
      todo := todo - {v};
    }
    assert nodes - todo == nodes;
    SortIsOrderless(names, g.NamesUpTo(nodes, |g.ids|));
    names := Sort(names);
  }

  /** In an acyclic graph no node is among its own dependencies, and where names are
      distinct its name is not among theirs. */
  lemma NeverItsOwnDependency(g: Graph, order: seq<nat>, v: nat)
    requires g.Valid() && g.Topological(order) && v < |g.ids|
    ensures v !in NodesReaching(g, v)
    ensures Distinct(g.ids) ==> g.ids[v] !in g.NamesOf(NodesReaching(g, v))
  {
    TopologicalCovers(g, order);
    assert v in Elems(order);
    var k :| 0 <= k < |order| && order[k] == v;
    forall p | g.ChainTo(p, v) && |p| > 1 ensures p[0] != v {
      ChainsAscend(g, order, p, k);
    }
    var nodes := NodesReaching(g, v);
    if Distinct(g.ids) {
      NotNamed(g, nodes, v);
    }
  }

  lemma NamesDiffer(g: Graph, nodes: set<nat>, v: nat)
    requires Distinct(g.ids) && v < |g.ids| && v !in nodes && forall u :: u in nodes ==> u < |g.ids|
    ensures g.ids[v] !in set u | u in nodes :: g.ids[u]
  {
  }

  lemma NotNamed(g: Graph, nodes: set<nat>, v: nat)
    requires Distinct(g.ids) && v < |g.ids| && v !in nodes && forall u :: u in nodes ==> u < |g.ids|
    ensures g.ids[v] !in g.NamesOf(nodes)
  {
    hide Sorted, Distinct;
    NamesAreDistinct(g, nodes);
    var names := g.NamesOf(nodes);
    hide Graph.NamesOf, SortSet;
    assert g.ids[v] !in Elems(names) by { NamesDiffer(g, nodes, v); }
  }

  // ---------------------------------------------------------------- orchestration steps

  datatype Step = Step(id: string, dependsOn: seq<string>)

  /** The node a step id names: the last step that carries it. */
  function IndexOf(steps: seq<Step>): (index: map<string, nat>)
    ensures forall id :: id in index ==> index[id] < |steps| && steps[index[id]].id == id
    ensures forall i :: 0 <= i < |steps| ==> steps[i].id in index && i <= index[steps[i].id]
  {
    if steps == [] then map[]
    else IndexOf(steps[..|steps| - 1])[steps[|steps| - 1].id := |steps| - 1]
  }

  predicate NothingDeclared(steps: seq<Step>) {
    forall i :: 0 <= i < |steps| ==> steps[i].dependsOn == []
  }

  /** u must come before v: declared so, or by the inferred chain when nothing is declared. */
  ghost predicate StepEdge(steps: seq<Step>, u: nat, v: nat) {
    if NothingDeclared(steps) && |steps| > 1
    then ChainEdge(steps, |steps|, u, v)
    else DeclaredBy(steps, |steps|, u, v)
  }

  ghost predicate IsStepGraph(steps: seq<Step>, g: Graph) {
    && |g.ids| == |steps| && (forall i :: 0 <= i < |steps| ==> g.ids[i] == steps[i].id)
    && g.Valid()
    && forall v, u :: 0 <= v < |g.ids| ==> (u in g.preds[v] <==> StepEdge(steps, u, v))
  }

  ghost predicate Cyclic(g: Graph)
    requires g.Valid()
  {
    exists v :: 0 <= v < |g.ids| && v in NodesReaching(g, v)
  }

  /** Stands for the library's test for a cycle. */
  method IsCyclic(g: Graph) returns (cyclic: bool)
    requires g.Valid()
    ensures cyclic <==> Cyclic(g)
  {
    hide NodesReaching;
    for v := 0 to |g.ids|
      invariant forall u :: 0 <= u < v ==> u !in NodesReaching(g, u)
    {
      var visited := Visit(g, v);
      if v in visited {
        return true;
      }
    }
    return false;
  }

  lemma SameChains(steps: seq<Step>, g: Graph, h: Graph, p: seq<nat>)
    requires IsStepGraph(steps, g) && IsStepGraph(steps, h) && g.Chain(p)
    ensures h.Chain(p)
  {
    hide StepEdge;
    assert |g.ids| == |h.ids|;
    forall i | 0 <= i < |p| - 1 ensures p[i] in h.preds[p[i + 1]] {
      assert p[i] in g.preds[p[i + 1]];
    }
  }

  /** Whether the steps have a cycle does not depend on how their edges are listed. */
  lemma StepGraphsAgree(steps: seq<Step>, g: Graph, h: Graph)
    requires IsStepGraph(steps, g) && IsStepGraph(steps, h) && Cyclic(g)
    ensures Cyclic(h)
  {
    hide StepEdge, Graph.Chain;
    var v :| 0 <= v < |g.ids| && v in NodesReaching(g, v);
    var p :| g.ChainTo(p, v) && |p| > 1 && p[0] == v;
    SameChains(steps, g, h, p);
    assert h.ChainTo(p, v);
    assert Reaches(h, v, v);
    assert v in NodesReaching(h, v);
  }

  /** The graph of the steps, unless it has a cycle. */
  method FromSteps(steps: seq<Step>) returns (r: Option<Graph>)
    ensures r.Some? ==> IsStepGraph(steps, r.value)
    ensures r.None? <==> forall g :: IsStepGraph(steps, g) ==> Cyclic(g)
  {
    hide StepEdge, Cyclic;
    var g := BuildSteps(steps);
    var cyclic := IsCyclic(g);
    forall h | cyclic && IsStepGraph(steps, h) ensures h.Valid() && Cyclic(h) {
      StepGraphsAgree(steps, g, h);
    }
    return if cyclic then None else Some(g);
  }

  method BuildSteps(steps: seq<Step>) returns (g: Graph)
    ensures IsStepGraph(steps, g)
  {
    var ids := seq(|steps|, i requires 0 <= i < |steps| => steps[i].id);
    var preds;
    if NothingDeclared(steps) && |steps| > 1 {
      preds := InferChain(steps);
    } else {
      preds := DeclaredEdges(steps);
    }
    g := Graph(ids, preds);
  }

  method InferChain(steps: seq<Step>) returns (preds: seq<seq<nat>>)
    requires |steps| > 1
    ensures |preds| == |steps|
    ensures forall v, u :: 0 <= v < |steps| ==> (u in preds[v] <==> ChainEdge(steps, |steps|, u, v))
  {
    hide ChainEdge, IndexOf;
    var index := IndexOf(steps);
    preds := seq(|steps|, _ => []);
    forall u, v ensures !ChainEdge(steps, 1, u, v) {
      ChainEdgeFirst(steps, u, v);
    }
    for i := 1 to |steps|
      invariant |preds| == |steps|
      invariant forall v, u :: 0 <= v < |steps| ==> (u in preds[v] <==> ChainEdge(steps, i, u, v))
    {
      var u, v := index[steps[i - 1].id], index[steps[i].id];
      ghost var was := preds;
      preds := preds[v := preds[v] + [u]];
      forall x, y | 0 <= x < |steps| ensures y in preds[x] <==> ChainEdge(steps, i + 1, y, x) {
        ChainEdgeNext(steps, i, y, x);
      }
    }
  }

  lemma ChainEdgeFirst(steps: seq<Step>, u: nat, v: nat)
    requires |steps| > 1
    ensures !ChainEdge(steps, 1, u, v)
  {
  }

  lemma ChainEdgeNext(steps: seq<Step>, i: nat, u: nat, v: nat)
    requires 1 <= i < |steps|
    ensures ChainEdge(steps, i + 1, u, v) <==>
      ChainEdge(steps, i, u, v) || (u == IndexOf(steps)[steps[i - 1].id] && v == IndexOf(steps)[steps[i].id])
  {
    hide IndexOf;
    if i0: nat :| 1 <= i0 < i + 1 && IndexOf(steps)[steps[i0 - 1].id] == u && IndexOf(steps)[steps[i0].id] == v {
      assert i0 < i || i0 == i;
    }
  }

  method DeclaredEdges(steps: seq<Step>) returns (preds: seq<seq<nat>>)
    ensures |preds| == |steps|
    ensures forall v, u :: 0 <= v < |steps| ==> (u in preds[v] <==> DeclaredBy(steps, |steps|, u, v))
  {
    var index := IndexOf(steps);
    preds := seq(|steps|, _ => []);
    for i := 0 to |steps|
      invariant |preds| == |steps|
      invariant forall v, u :: 0 <= v < |steps| ==> (u in preds[v] <==> DeclaredBy(steps, i, u, v))
    {
      var v := index[steps[i].id];
      ghost var was := preds;
      var more := ResolveAll(steps[i].dependsOn, index);
      preds := preds[v := preds[v] + more];
      forall x, u | 0 <= x < |steps| ensures u in preds[x] <==> DeclaredBy(steps, i + 1, u, x) {
        assert DeclaredBy(steps, i + 1, u, x) <==>
          DeclaredBy(steps, i, u, x) || (x == v && DeclaredHere(steps[i], index, u));
      }
    }
  }

  /** The nodes that a list of declared ids names; unknown ids are passed over. */
  method ResolveAll(ids: seq<string>, index: map<string, nat>) returns (nodes: seq<nat>)
    ensures forall u :: u in nodes <==> exists id :: id in ids && id in index && index[id] == u
  {
    nodes := [];
    for k := 0 to |ids|
      invariant forall u :: u in nodes <==> exists j :: 0 <= j < k && ids[j] in index && index[ids[j]] == u
    {
      if ids[k] in index {
        nodes := nodes + [index[ids[k]]];
      }
    }
  }

  ghost predicate DeclaredHere(step: Step, index: map<string, nat>, u: nat) {
    exists id :: id in step.dependsOn && id in index && index[id] == u
  }

  ghost predicate DeclaredBy(steps: seq<Step>, n: nat, u: nat, v: nat)
    requires n <= |steps|
  {
    exists i :: 0 <= i < n && IndexOf(steps)[steps[i].id] == v && DeclaredHere(steps[i], IndexOf(steps), u)
  }

  ghost predicate ChainEdge(steps: seq<Step>, n: nat, u: nat, v: nat)
    requires n <= |steps|
  {
    exists i :: 1 <= i < n && IndexOf(steps)[steps[i - 1].id] == u && IndexOf(steps)[steps[i].id] == v
  }

  /** Steps that declare nothing run in the order they are written: with distinct ids, the
      only topological order of the inferred chain is the order of the list. */
  lemma InferredChainKeepsOrder(steps: seq<Step>, g: Graph, order: seq<nat>)
    requires IsStepGraph(steps, g) && NothingDeclared(steps)
    requires Distinct(g.ids) && g.Topological(order)
    ensures forall i :: 0 <= i < |order| ==> order[i] == i
  {
    forall i | 0 <= i < |steps| ensures IndexOf(steps)[steps[i].id] == i {
      assert g.ids[IndexOf(steps)[steps[i].id]] == g.ids[i];
    }
    forall v: nat, w: nat | 1 <= v < |steps| && w == v - 1 ensures w in g.preds[v] {
      assert ChainEdge(steps, |steps|, w, v) by {
        assert IndexOf(steps)[steps[v - 1].id] == w && IndexOf(steps)[steps[v].id] == v;
      }
      assert StepEdge(steps, w, v);
    }
    TopologicalCovers(g, order);
    forall v: nat | v < |order| ensures LateEnough(order, v) {
      NotBefore(g, order, v);
    }
    ForcedIdentity(order, 0);
  }

  ghost predicate LateEnough(order: seq<nat>, v: nat) {
    exists k :: v <= k < |order| && order[k] == v
  }

  /** Node v of a chain has v nodes before it. */
  lemma {:induction false} NotBefore(g: Graph, order: seq<nat>, v: nat)
    requires g.Valid() && g.Topological(order) && Elems(order) == Below(|g.ids|)
    requires forall x: nat, w: nat :: 1 <= x < |g.ids| && w == x - 1 ==> w in g.preds[x]
    requires v < |order|
    ensures LateEnough(order, v)
    decreases v
  {
    assert v in Elems(order);
    var k :| 0 <= k < |order| && order[k] == v;
    if v > 0 {
      NotBefore(g, order, v - 1);
      var j :| v - 1 <= j < |order| && order[j] == v - 1;
      EarlierIsBefore(g, order, k, j);
    }
  }

  lemma EarlierIsBefore(g: Graph, order: seq<nat>, k: nat, j: nat)
    requires g.Valid() && g.Topological(order) && k < |order| && j < |order|
    requires order[k] < |g.ids| && order[j] in g.preds[order[k]]
    ensures j < k
  {
    assert order[j] in order[..k];
    var i :| 0 <= i < k && order[i] == order[j];
    assert i == j;
  }

  lemma {:induction false} ForcedIdentity(order: seq<nat>, from: nat)
    requires Distinct(order) && from <= |order|
    requires forall v: nat :: v < |order| ==> LateEnough(order, v)
    ensures forall i :: from <= i < |order| ==> order[i] == i
    decreases |order| - from
  {
    if from < |order| {
      ForcedIdentity(order, from + 1);
      assert LateEnough(order, from);
      var k :| from <= k < |order| && order[k] == from;
    }
  }
}
