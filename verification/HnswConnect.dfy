/** Layer 0 of a graph too small to be pruned stays connected. */
module HnswConnect {
  import opened Core
  import opened Config
  import opened Graph
  import opened Descent
  import opened Beam
  import opened BeamFacts
  import opened Hnsw
  import opened HnswLinking

  // Layer 0 holds at most 2m links a node; with at most 2m + 1 nodes that is
  // every other node.
  ghost predicate Small(g: Graph, config: HnswConfig) { |g.nodes| <= 2 * config.m + 1 }

  ghost predicate Mutual(g: Graph, i: nat, j: nat) { Reaches(g, 0, i, j) && Reaches(g, 0, j, i) }

  // Links of any layer join nodes that layer 0 connects both ways, and layer 0
  // connects all live nodes.
  ghost predicate Connected(g: Graph) {
    && (forall i: nat, l: nat, x :: x in g.Neighbors(i, l) ==> Mutual(g, i, x))
    && (forall i: nat, j: nat :: g.IsLive(i) && g.IsLive(j) ==> Mutual(g, i, j))
  }

  lemma ReachesSelf(g: Graph, layer: nat, i: nat)
    ensures Reaches(g, layer, i, i)
  {}

  lemma ReachesStep(g: Graph, layer: nat, i: nat, x: nat)
    requires x in g.Neighbors(i, layer)
    ensures Reaches(g, layer, i, x)
  {}

  lemma MutualTransitive(g: Graph, i: nat, j: nat, k: nat)
    requires Mutual(g, i, j) && Mutual(g, j, k)
    ensures Mutual(g, i, k)
  {}

  lemma MutualGrows(g: Graph, h: Graph, i: nat, j: nat)
    requires Mutual(g, i, j)
    requires forall a: nat, x :: x in g.Neighbors(a, 0) ==> x in h.Neighbors(a, 0)
    ensures Mutual(h, i, j)
  {
    forall s: set<nat> | ClosedOn(h, s, 0)
      ensures ClosedOn(g, s, 0)
    {
    }
  }

  lemma ReachesSame(g: Graph, h: Graph, layer: nat, i: nat, j: nat)
    requires forall a: nat :: g.Neighbors(a, layer) == h.Neighbors(a, layer)
    requires Reaches(g, layer, i, j)
    ensures Reaches(h, layer, i, j)
  {
    forall s: set<nat> | ClosedOn(h, s, layer)
      ensures ClosedOn(g, s, layer)
    {
    }
  }

  lemma {:induction false} ListCount(list: seq<nat>)
    requires NoDuplicates(list)
    ensures |AsSet(list)| == |list|
  {
    if list != [] {
      var n := |list| - 1;
      ListCount(list[..n]);
      assert AsSet(list) == AsSet(list[..n]) + {list[n]} by { assert list == list[..n] + [list[n]]; }
    }
  }

  lemma {:induction false} RangeCount(s: set<nat>, n: nat)
    requires forall x :: x in s ==> x < n
    ensures |s| <= n
  {
    if n > 0 {
      RangeCount(s - {n - 1}, n - 1);
      if n - 1 in s { assert s == (s - {n - 1}) + {n - 1}; }
    } else {
      assert s == {};
    }
  }

  // In a small graph a list that misses two nodes has room for one more.
  lemma SmallHasRoom(g: Graph, config: HnswConfig, node: nat, i: nat)
    requires GoodEdges(g, config) && Small(g, config) && Fresh(g, node, 0)
    requires node < |g.nodes| && i < |g.nodes| && i != node
    ensures |g.Neighbors(i, 0)| < config.Limit(0)
  {
    var list := g.Neighbors(i, 0);
    assert GoodList(g, i, 0, list, config.Limit(0));
    var s := AsSet(list);
    assert node !in s && i !in s;
    ListCount(list);
    RangeCount(s + {node, i}, |g.nodes|);
    assert |s + {node, i}| == |s| + 2;
  }

  // What linking does to layer 0 of a small graph: no link is lost, the new
  // node's links go both ways, and it has some.
  ghost predicate Joined(g: Graph, h: Graph, node: nat) {
    && (forall i: nat, x :: x in g.Neighbors(i, 0) ==> x in h.Neighbors(i, 0))
    && (forall i: nat :: node in h.Neighbors(i, 0) <==> i in h.Neighbors(node, 0))
    && h.Neighbors(node, 0) != []
  }

  // Some live node other than the new one can be reached over layer 0.
  ghost predicate Grounded(g: Graph, node: nat, cur: nat) {
    exists e: nat :: g.IsLive(e) && e != node && Reaches(g, 0, cur, e)
  }

  lemma CandidatesFound(g: Graph, k: Link, cur: nat)
    requires Ready(g, k, 1, cur) && Grounded(g, k.node, cur)
    ensures Candidates(k, 0, g, cur) != []
  {
    var e: nat :| g.IsLive(e) && e != k.node && Reaches(g, 0, cur, e);
    GoodInRange(g, k.config);
    BeamNonempty(Search(Probe(g, k.embedding, k.score), k.config.efConstruction, 0, AdmitAll), cur, e);
  }

  lemma LinkBaseJoins(k: Link, st: Linked)
    requires Ready(st.graph, k, 1, st.cur) && Small(st.graph, k.config) && Grounded(st.graph, k.node, st.cur)
    ensures Joined(st.graph, LinkLayer(k, 0, st).graph, k.node)
  {
    var g, h, chosen := st.graph, LinkLayer(k, 0, st).graph, Chosen(k, 0, st.graph, st.cur);
    LinkLayerReads(k, 0, st);
    ChosenFacts(g, k, 0, st.cur);
    CandidatesFound(g, k, st.cur);
    assert Fresh(g, k.node, 0);
    assert GoodList(g, k.node, 0, g.Neighbors(k.node, 0), k.config.Limit(0));
    forall i: nat
      ensures i in chosen ==> h.Neighbors(i, 0) == g.Neighbors(i, 0) + [k.node]
      ensures i != k.node && i !in chosen ==> h.Neighbors(i, 0) == g.Neighbors(i, 0)
      ensures h.Neighbors(k.node, 0) == chosen
    {
      if i in chosen {
        assert GoodList(g, i, 0, g.Neighbors(i, 0), k.config.Limit(0));
        SmallHasRoom(g, k.config, k.node, i);
        BackListFacts(g, k, 0, i);
      }
    }
    JoinedBy(g, h, k.node, chosen);
  }

  lemma JoinedBy(g: Graph, h: Graph, node: nat, chosen: seq<nat>)
    requires Fresh(g, node, 0) && g.Neighbors(node, 0) == [] && chosen != [] && node !in chosen
    requires h.Neighbors(node, 0) == chosen
    requires forall i: nat :: i in chosen ==> h.Neighbors(i, 0) == g.Neighbors(i, 0) + [node]
    requires forall i: nat :: i != node && i !in chosen ==> h.Neighbors(i, 0) == g.Neighbors(i, 0)
    ensures Joined(g, h, node)
  {}

  lemma NextStart(k: Link, layer: nat, st: Linked)
    requires Ready(st.graph, k, layer + 1, st.cur)
    ensures var cur := LinkLayer(k, layer, st).cur;
            cur == st.cur || (st.graph.IsLive(cur) && cur != k.node)
  {
    var c := Candidates(k, layer, st.graph, st.cur);
    CandidatesFacts(st.graph, k, layer, st.cur);
    if c != [] {
      assert c[0] in c && c[0].node in NodesOf(c);
    }
  }

  lemma GroundedSame(g: Graph, h: Graph, node: nat, cur: nat, next: nat)
    requires SameShape(g, h) && Grounded(g, node, cur)
    requires forall i: nat :: h.Neighbors(i, 0) == g.Neighbors(i, 0)
    requires next == cur || (g.IsLive(next) && next != node)
    ensures Grounded(h, node, next)
  {
    ShapeCounts(g, h);
    if next == cur {
      var e: nat :| g.IsLive(e) && e != node && Reaches(g, 0, cur, e);
      ReachesSame(g, h, 0, cur, e);
    } else {
      ReachesSelf(h, 0, next);
    }
  }

  // What grounds the search survives linking a layer above 0.
  lemma LinkUpperGrounded(k: Link, layer: nat, st: Linked)
    requires layer > 0 && Ready(st.graph, k, layer + 1, st.cur) && Grounded(st.graph, k.node, st.cur)
    ensures var next := LinkLayer(k, layer, st);
            && Grounded(next.graph, k.node, next.cur)
            && (forall i: nat :: next.graph.Neighbors(i, 0) == st.graph.Neighbors(i, 0))
  {
    var next := LinkLayer(k, layer, st);
    LinkLayerReads(k, layer, st);
    NextStart(k, layer, st);
    hide *;
    GroundedSame(st.graph, next.graph, k.node, st.cur, next.cur);
  }

  lemma {:induction false} LinkLayersJoin(k: Link, above: nat, st: Linked)
    requires above >= 1 && Ready(st.graph, k, above, st.cur)
    requires Small(st.graph, k.config) && Grounded(st.graph, k.node, st.cur)
    ensures Joined(st.graph, LinkLayers(k, above, st).graph, k.node)
  {
    hide LinkLayer, Ready, Grounded, SameShape;
    if above == 1 {
      LinkBaseJoins(k, st);
    } else {
      var next := LinkLayer(k, above - 1, st);
      LinkLayerStep(k, above - 1, st);
      LinkUpperGrounded(k, above - 1, st);
      ShapeCounts(st.graph, next.graph);
      LinkLayersJoin(k, above - 1, next);
    }
  }

  lemma ShapeCounts(g: Graph, h: Graph)
    requires SameShape(g, h)
    ensures |g.nodes| == |h.nodes| && forall i: nat :: g.IsLive(i) <==> h.IsLive(i)
  {}

  // g with one more live node that has no links yet.
  ghost predicate Extends(g: Graph, g1: Graph, node: nat) {
    && g1.IsLive(node) && !g.IsLive(node)
    && (forall i: nat :: i != node ==> (g1.IsLive(i) <==> g.IsLive(i)))
    && (forall i: nat, l: nat :: g1.Neighbors(i, l) == g.Neighbors(i, l))
    && (forall l: nat :: Fresh(g1, node, l))
  }

  lemma NewNodeJoined(g: Graph, g1: Graph, h: Graph, node: nat, i: nat)
    requires Connected(g) && Extends(g, g1, node)
    requires SameShape(g1, h) && OnlyNewLinks(g1, h, node) && Joined(g1, h, node)
    requires g.IsLive(i)
    ensures Mutual(h, node, i)
  {
    var b := h.Neighbors(node, 0)[0];
    assert b in h.Neighbors(node, 0);
    assert OldOrNew(g1, node, node, 0, b);
    assert Fresh(g1, node, 0);
    assert g.IsLive(b);
    ReachesStep(h, 0, node, b);
    ReachesStep(h, 0, b, node);
    MutualGrows(g, h, b, i);
    MutualTransitive(h, node, b, i);
  }

  // Linking a new node into a connected small graph keeps it connected.
  lemma ConnectedInsert(g: Graph, g1: Graph, h: Graph, node: nat)
    requires Connected(g) && Extends(g, g1, node)
    requires SameShape(g1, h) && OnlyNewLinks(g1, h, node) && Joined(g1, h, node)
    ensures Connected(h)
  {
    hide Joined, SameShape;
    ShapeCounts(g1, h);
    forall i: nat, l: nat, x | x in h.Neighbors(i, l)
      ensures Mutual(h, i, x)
    {
      assert OldOrNew(g1, node, i, l, x);
      if x in g.Neighbors(i, l) {
        JoinedKeeps(g, g1, h, node);
        MutualGrows(g, h, i, x);
      } else {
        NewNodeJoined(g, g1, h, node, if i == node then x else i);
      }
    }
    forall i: nat, j: nat | h.IsLive(i) && h.IsLive(j)
      ensures Mutual(h, i, j)
    {
      if i == node || j == node {
        if i == j {
          ReachesSelf(h, 0, i);
        } else {
          NewNodeJoined(g, g1, h, node, if i == node then j else i);
        }
      } else {
        JoinedKeeps(g, g1, h, node);
        MutualGrows(g, h, i, j);
      }
    }
  }

  lemma JoinedKeeps(g: Graph, g1: Graph, h: Graph, node: nat)
    requires Extends(g, g1, node) && Joined(g1, h, node)
    ensures forall a: nat, x :: x in g.Neighbors(a, 0) ==> x in h.Neighbors(a, 0)
  {}

  // A first live node is connected to itself; what was unlinked stays so.
  lemma ConnectedFirst(g: Graph, g1: Graph, node: nat)
    requires Connected(g) && Extends(g, g1, node)
    requires forall i: nat :: !g.IsLive(i)
    ensures Connected(g1)
  {
    forall i: nat, l: nat, x | x in g1.Neighbors(i, l)
      ensures Mutual(g1, i, x)
    {
      MutualGrows(g, g1, i, x);
    }
    ReachesSelf(g1, 0, node);
  }

  // Wherever a descent from a live node ends, layer 0 leads back to that node.
  lemma DescentGrounded(g: Graph, p: Probe, above: nat, to: nat, entry: nat)
    requires p.graph == g && InRange(g) && entry < |g.nodes|
    requires forall i: nat, l: nat, x :: x in g.Neighbors(i, l) ==> Mutual(g, i, x)
    ensures Mutual(g, entry, Descend(p, above, to, entry))
  {
    var s := set x: nat | x < |g.nodes| && Mutual(g, entry, x);
    ReachesSelf(g, 0, entry);
    forall l: nat
      ensures ClosedOn(g, s, l)
    {
      forall x, y | x in s && y in g.Neighbors(x, l)
        ensures y in s
      {
        MutualTransitive(g, entry, x, y);
      }
    }
    DescendStays(p, above, to, entry, s);
  }

  // Reachability over closed sets is reachability along a path.
  ghost predicate IsPath(g: Graph, layer: nat, path: seq<nat>) {
    path != [] && forall i :: 0 <= i < |path| - 1 ==> path[i + 1] in g.Neighbors(path[i], layer)
  }

  lemma {:induction false} PathStays(g: Graph, layer: nat, path: seq<nat>, s: set<nat>)
    requires IsPath(g, layer, path) && path[0] in s && ClosedOn(g, s, layer)
    ensures path[|path| - 1] in s
  {
    if |path| > 1 {
      PathStays(g, layer, path[..|path| - 1], s);
    }
  }

  lemma ReachesIffPath(g: Graph, layer: nat, a: nat, b: nat)
    requires InRange(g) && a < |g.nodes|
    ensures Reaches(g, layer, a, b) <==>
            exists path :: IsPath(g, layer, path) && path[0] == a && path[|path| - 1] == b
  {
    if path :| IsPath(g, layer, path) && path[0] == a && path[|path| - 1] == b {
      forall s: set<nat> | a in s && ClosedOn(g, s, layer)
        ensures b in s
      {
        PathStays(g, layer, path, s);
      }
    }
    if Reaches(g, layer, a, b) {
      var s := set x: nat | x < |g.nodes| && EndsPath(g, layer, a, x);
      assert IsPath(g, layer, [a]) && EndsPath(g, layer, a, a);
      forall x, y | x in s && y in g.Neighbors(x, layer)
        ensures y in s
      {
        var path :| IsPath(g, layer, path) && path[0] == a && path[|path| - 1] == x;
        assert IsPath(g, layer, path + [y]) && (path + [y])[0] == a && (path + [y])[|path|] == y;
      }
      assert ClosedOn(g, s, layer);
      assert b in s;
    }
  }

  ghost predicate EndsPath(g: Graph, layer: nat, a: nat, b: nat) {
    exists path :: IsPath(g, layer, path) && path[0] == a && path[|path| - 1] == b
  }
}
