/** GraphSnapshot: what is persisted of an index, and the index it restores. */
module HnswSnapshot {
  import opened Core
  import opened Config
  import opened Graph
  import opened Hnsw
  import opened HnswInvariant

  datatype SnapshotNode = SnapshotNode(id: VectorId, level: nat, tombstone: bool, neighbors: seq<seq<nat>>)

  datatype GraphSnapshot = GraphSnapshot(nodes: seq<SnapshotNode>, entry: Option<nat>, entryLevel: nat, rng: nat,
                                         liveCount: nat)

  datatype MetaState = MetaState(entry: Option<nat>, entryLevel: nat, rng: nat, nodeCount: nat)

  // The lists of layers 0 to above - 1.
  function ListsOf(g: Graph, i: nat, above: nat): seq<seq<nat>> {
    if above == 0 then [] else ListsOf(g, i, above - 1) + [g.Neighbors(i, above - 1)]
  }

  function NodeSnapshot(g: Graph, i: nat): Option<SnapshotNode> {
    if i >= |g.nodes| then None
    else Some(SnapshotNode(g.NodeId(i), g.NodeLevel(i), g.IsTombstone(i), ListsOf(g, i, g.NodeLevel(i) + 1)))
  }

  function StateMeta(ix: Index): MetaState {
    MetaState(ix.graph.entry,
              match ix.graph.entry case None => 0 case Some(e) => ix.graph.NodeLevel(e),
              ix.rng, |ix.graph.nodes|)
  }

  function SnapshotNodes(g: Graph, n: nat): seq<SnapshotNode> {
    if n == 0 then []
    else match NodeSnapshot(g, n - 1)
         case None => SnapshotNodes(g, n - 1)
         case Some(node) => SnapshotNodes(g, n - 1) + [node]
  }

  function LiveRows(nodes: seq<SnapshotNode>): nat {
    if nodes == [] then 0 else LiveRows(nodes[..|nodes| - 1]) + (if nodes[|nodes| - 1].tombstone then 0 else 1)
  }

  function Snapshot(ix: Index): GraphSnapshot {
    var nodes := SnapshotNodes(ix.graph, |ix.graph.nodes|);
    var meta := StateMeta(ix);
    GraphSnapshot(nodes, meta.entry, meta.entryLevel, meta.rng, LiveRows(nodes))
  }

  function SetAll(g: Graph, i: nat, lists: seq<seq<nat>>, above: nat): Graph
    requires above <= |lists|
  {
    if above == 0 then g else SetAll(g, i, lists, above - 1).SetNeighbors(i, above - 1, lists[above - 1])
  }

  // One round of from_snapshot: add, tombstone, set every layer's list.
  function RestoreNode(g: Graph, i: nat, node: SnapshotNode, values: Option<Embedding>): Result<Graph> {
    match values
    case None => Err(Backend)
    case Some(v) =>
      var e :- NewEmbedding(v);
      var added :- g.AddNode(node.id, e, node.level);
      Ok(SetAll(if node.tombstone then added.Tombstone(i) else added, i, node.neighbors, |node.neighbors|))
  }

  function RestoreNodes(nodes: seq<SnapshotNode>, n: nat, vectors: nat -> Option<Embedding>): Result<Graph>
    requires n <= |nodes|
  {
    if n == 0 then Ok(Empty)
    else
      var g :- RestoreNodes(nodes, n - 1, vectors);
      RestoreNode(g, n - 1, nodes[n - 1], vectors(n - 1))
  }

  // HnswIndex::from_snapshot
  function FromSnapshot(config: HnswConfig, dimension: nat, num: Numerics, snapshot: GraphSnapshot,
                        vectors: nat -> Option<Embedding>): Result<Index>
  {
    var g :- RestoreNodes(snapshot.nodes, |snapshot.nodes|, vectors);
    Ok(Index(config, dimension, num, g.(entry := snapshot.entry), snapshot.rng))
  }

  // A node is refused for a missing vector, then for an empty or non-finite
  // one, then for a length unlike the first node's, then for an id that is
  // already live; the first node refused decides the restoring.
  lemma RestoreNodeDecided(g: Graph, i: nat, node: SnapshotNode, values: Option<Embedding>)
    ensures var r := RestoreNode(g, i, node, values);
            match values
            case None => r == Err(Backend)
            case Some(v) =>
              if v == [] then r == Err(EmptyEmbedding)
              else if exists x :: x in v && !x.IsFinite() then r == Err(NonFiniteComponent)
              else if g.nodes != [] && |v| != |g.nodes[0].embedding| then r == Err(DimensionMismatch(|g.nodes[0].embedding|, |v|))
              else if node.id in g.live then r == Err(DuplicateId(node.id))
              else r.Ok?
  {
    hide SetAll;
  }

  lemma {:induction false} RestoreStops(nodes: seq<SnapshotNode>, count: nat, vectors: nat -> Option<Embedding>)
    returns (n: nat)
    requires count <= |nodes|
    ensures n <= count && RestoreNodes(nodes, n, vectors).Ok?
    ensures var r, g := RestoreNodes(nodes, count, vectors), RestoreNodes(nodes, n, vectors).value;
            if r.Ok? then n == count
            else n < count && (var refused := RestoreNode(g, n, nodes[n], vectors(n)); refused.Err? && r == Err(refused.error))
  {
    hide RestoreNode;
    n := count;
    if RestoreNodes(nodes, count, vectors).Err? {
      n := count - 1;
      if RestoreNodes(nodes, n, vectors).Err? {
        n := RestoreStops(nodes, n, vectors);
      }
    }
  }

  // --- restoring gives the index back ---

  lemma {:induction false} ListsOfAt(g: Graph, i: nat, above: nat)
    ensures |ListsOf(g, i, above)| == above
    ensures forall l :: 0 <= l < above ==> ListsOf(g, i, above)[l] == g.Neighbors(i, l)
  {
    if above > 0 { ListsOfAt(g, i, above - 1); }
  }

  lemma {:induction false} SnapshotNodesAt(g: Graph, n: nat)
    requires n <= |g.nodes|
    ensures |SnapshotNodes(g, n)| == n
    ensures forall i: nat :: i < n ==> Some(SnapshotNodes(g, n)[i]) == NodeSnapshot(g, i)
  {
    if n > 0 { SnapshotNodesAt(g, n - 1); }
  }

  lemma {:induction false} SetAllReads(g: Graph, i: nat, lists: seq<seq<nat>>, above: nat)
    requires i < |g.nodes| && above <= |lists| == |g.nodes[i].neighbors|
    ensures var h := SetAll(g, i, lists, above);
            SameShape(g, h) && h.nodes == g.nodes[i := g.nodes[i].(neighbors := lists[..above] + g.nodes[i].neighbors[above..])]
  {
    if above > 0 {
      SetAllReads(g, i, lists, above - 1);
      var prior := g.nodes[i].neighbors;
      assert (lists[..above - 1] + prior[above - 1..])[above - 1 := lists[above - 1]] == lists[..above] + prior[above..];
    } else {
      assert lists[..0] + g.nodes[i].neighbors[0..] == g.nodes[i].neighbors;
      assert g.nodes[i := g.nodes[i]] == g.nodes;
    }
  }

  // The graph as it was restored so far: the first n nodes.
  ghost function Prefix(g: Graph, n: nat): Graph
    requires n <= |g.nodes|
  {
    var live := map id | id in g.live && g.live[id] < n :: g.live[id];
    Graph(g.nodes[..n], live, None, |live|)
  }

  ghost predicate Carries(g: Graph, vectors: nat -> Option<Embedding>) {
    forall i: nat :: i < |g.nodes| ==> vectors(i) == Some(g.nodes[i].embedding)
  }

  lemma WellFormedAccepted(e: Embedding)
    requires WellFormedEmbedding(e)
    ensures NewEmbedding(e) == Ok(e)
  {}

  // Adding node n to the first n nodes is never refused: every earlier node
  // with its id is a tombstone.
  lemma PrefixAdd(ix: Index, n: nat)
    requires GoodLive(ix.graph) && GoodOrder(ix.graph) && GoodEmbeddings(ix.graph, ix.dimension)
    requires n < |ix.graph.nodes|
    ensures var node := ix.graph.nodes[n];
            Prefix(ix.graph, n).AddNode(node.id, node.embedding, node.level).Ok?
  {
    var g, node := ix.graph, ix.graph.nodes[n];
    assert node.id in g.live ==> g.nodes[g.live[node.id]].id == node.id;
    assert node.id !in Prefix(g, n).live;
  }

  // The node added and, if it was one, marked as a tombstone.
  ghost function Marked(g: Graph, n: nat): Graph
    requires n < |g.nodes|
    requires Prefix(g, n).AddNode(g.nodes[n].id, g.nodes[n].embedding, g.nodes[n].level).Ok?
  {
    var added := Prefix(g, n).AddNode(g.nodes[n].id, g.nodes[n].embedding, g.nodes[n].level).value;
    if g.nodes[n].tombstone then added.Tombstone(n) else added
  }

  lemma MarkedNodes(g: Graph, n: nat)
    requires n < |g.nodes|
    requires Prefix(g, n).AddNode(g.nodes[n].id, g.nodes[n].embedding, g.nodes[n].level).Ok?
    ensures Marked(g, n).nodes == g.nodes[..n] + [g.nodes[n].(neighbors := seq(g.nodes[n].level + 1, _ => []))]
    ensures Marked(g, n).entry == None
  {}

  lemma MarkedLive(g: Graph, n: nat)
    requires n < |g.nodes| && GoodLive(g)
    requires Prefix(g, n).AddNode(g.nodes[n].id, g.nodes[n].embedding, g.nodes[n].level).Ok?
    ensures Marked(g, n).live == Prefix(g, n + 1).live
    ensures Marked(g, n).liveCount == Prefix(g, n + 1).liveCount
  {
    var node, p := g.nodes[n], Prefix(g, n);
    PrefixStep(g, n);
    assert node.id !in p.live;
    hide GoodLive, Prefix;
    ExtendThenDrop(p.live, node.id, n);
  }

  lemma PrefixStep(g: Graph, n: nat)
    requires n < |g.nodes| && GoodLive(g)
    ensures Prefix(g, n + 1).live == if g.nodes[n].tombstone then Prefix(g, n).live else Prefix(g, n).live[g.nodes[n].id := n]
    ensures Prefix(g, n).liveCount == |Prefix(g, n).live|
  {
    if g.nodes[n].tombstone {
      assert forall id :: id in g.live ==> g.live[id] != n;
    }
  }

  lemma ExtendThenDrop(live: map<VectorId, nat>, id: VectorId, n: nat)
    requires id !in live
    ensures live[id := n] - {id} == live && |live[id := n]| == |live| + 1
  {
    assert live[id := n].Keys == live.Keys + {id};
  }

  lemma RestoreOne(ix: Index, n: nat)
    requires GoodEdges(ix.graph, ix.config) && GoodLive(ix.graph) && GoodOrder(ix.graph)
    requires GoodEmbeddings(ix.graph, ix.dimension) && n < |ix.graph.nodes|
    ensures RestoreNode(Prefix(ix.graph, n), n, NodeSnapshot(ix.graph, n).value, Some(ix.graph.nodes[n].embedding))
         == Ok(Prefix(ix.graph, n + 1))
  {
    var g, node := ix.graph, ix.graph.nodes[n];
    var lists := ListsOf(g, n, node.level + 1);
    PrefixAdd(ix, n);
    MarkedNodes(g, n);
    MarkedLive(g, n);
    ListsOfAt(g, n, node.level + 1);
    assert lists == node.neighbors;
    WellFormedAccepted(node.embedding);
    var marked := Marked(g, n);
    SetAllReads(marked, n, lists, |lists|);
    assert lists[..|lists|] + marked.nodes[n].neighbors[|lists|..] == lists;
    assert SetAll(marked, n, lists, |lists|).nodes == g.nodes[..n + 1];
  }

  lemma {:induction false} RestoreAll(ix: Index, n: nat, vectors: nat -> Option<Embedding>)
    requires GoodEdges(ix.graph, ix.config) && GoodLive(ix.graph) && GoodOrder(ix.graph)
    requires GoodEmbeddings(ix.graph, ix.dimension) && Carries(ix.graph, vectors) && n <= |ix.graph.nodes|
    requires |SnapshotNodes(ix.graph, |ix.graph.nodes|)| == |ix.graph.nodes|
    ensures RestoreNodes(SnapshotNodes(ix.graph, |ix.graph.nodes|), n, vectors) == Ok(Prefix(ix.graph, n))
  {
    hide GoodEdges, GoodLive, GoodOrder, GoodEmbeddings, RestoreNode;
    if n > 0 {
      SnapshotNodesAt(ix.graph, |ix.graph.nodes|);
      RestoreAll(ix, n - 1, vectors);
      RestoreOne(ix, n - 1);
    } else {
      assert Prefix(ix.graph, 0) == Empty;
    }
  }

  lemma WellFormedRestores(ix: Index, vectors: nat -> Option<Embedding>)
    requires GoodEdges(ix.graph, ix.config) && GoodLive(ix.graph) && GoodOrder(ix.graph)
    requires GoodEmbeddings(ix.graph, ix.dimension) && Carries(ix.graph, vectors)
    ensures FromSnapshot(ix.config, ix.dimension, ix.num, Snapshot(ix), vectors) == Ok(ix)
  {
    var g, n := ix.graph, |ix.graph.nodes|;
    SnapshotNodesAt(g, n);
    hide GoodEdges, GoodLive, GoodOrder, GoodEmbeddings, RestoreNodes, SnapshotNodes, Carries;
    RestoreAll(ix, n, vectors);
    PrefixWhole(g);
  }

  // A snapshot of a reachable index is never refused and restores the index
  // exactly: graph, live map, entry point and generator state.
  lemma SnapshotRestores(ix: Index, vectors: nat -> Option<Embedding>)
    requires Good(ix) && Carries(ix.graph, vectors)
    ensures FromSnapshot(ix.config, ix.dimension, ix.num, Snapshot(ix), vectors) == Ok(ix)
  {
    WellFormedRestores(ix, vectors);
  }

  lemma PrefixWhole(g: Graph)
    requires GoodLive(g)
    ensures Prefix(g, |g.nodes|).(entry := g.entry) == g
  {
    var p := Prefix(g, |g.nodes|);
    assert p.nodes == g.nodes;
    assert p.live == g.live;
  }

  // What a snapshot says, node by node and in its counters.
  lemma SnapshotReads(ix: Index)
    requires Good(ix)
    ensures var g, s := ix.graph, Snapshot(ix);
            && |s.nodes| == |g.nodes|
            && (forall i :: 0 <= i < |g.nodes| ==>
                  && s.nodes[i].id == g.nodes[i].id && s.nodes[i].level == g.nodes[i].level
                  && s.nodes[i].tombstone == g.nodes[i].tombstone && s.nodes[i].neighbors == g.nodes[i].neighbors)
            && s.entry == g.entry && s.rng == ix.rng && s.liveCount == g.liveCount
            && s.entryLevel == (if g.entry.Some? then g.nodes[g.entry.value].level else 0)
    ensures var meta := StateMeta(ix);
            && meta.entry == ix.graph.entry && meta.rng == ix.rng && meta.nodeCount == |ix.graph.nodes|
            && meta.entryLevel == (if ix.graph.entry.Some? then ix.graph.nodes[ix.graph.entry.value].level else 0)
  {
    hide SnapshotNodes, LiveRows, GoodEdges, GoodLive, GoodOrder, GoodEmbeddings, LiveBelow;
    var g, nodes := ix.graph, SnapshotNodes(ix.graph, |ix.graph.nodes|);
    RowsRead(ix);
    LiveRowsCount(g, nodes, |g.nodes|);
    assert nodes[..|nodes|] == nodes;
    LiveNodes(g);
    LiveSize(g);
  }

  lemma RowsRead(ix: Index)
    requires Good(ix)
    ensures var g, nodes := ix.graph, SnapshotNodes(ix.graph, |ix.graph.nodes|);
            && |nodes| == |g.nodes|
            && forall i :: 0 <= i < |g.nodes| ==>
                 nodes[i] == SnapshotNode(g.nodes[i].id, g.nodes[i].level, g.nodes[i].tombstone, g.nodes[i].neighbors)
  {
    var g, nodes := ix.graph, SnapshotNodes(ix.graph, |ix.graph.nodes|);
    SnapshotNodesAt(g, |g.nodes|);
    hide SnapshotNodes;
    forall i | 0 <= i < |g.nodes|
      ensures nodes[i] == SnapshotNode(g.nodes[i].id, g.nodes[i].level, g.nodes[i].tombstone, g.nodes[i].neighbors)
    {
      assert Some(nodes[i]) == NodeSnapshot(g, i);
      ListsOfAt(g, i, g.NodeLevel(i) + 1);
      assert ListsOf(g, i, g.NodeLevel(i) + 1) == g.nodes[i].neighbors;
    }
  }

  ghost function LiveBelow(g: Graph, n: nat): set<nat> { set i: nat | i < n && g.IsLive(i) }

  lemma {:induction false} LiveRowsCount(g: Graph, nodes: seq<SnapshotNode>, n: nat)
    requires n <= |nodes| == |g.nodes| && forall i :: 0 <= i < |nodes| ==> nodes[i].tombstone == g.nodes[i].tombstone
    ensures LiveRows(nodes[..n]) == |LiveBelow(g, n)|
  {
    if n > 0 {
      LiveRowsCount(g, nodes, n - 1);
      assert nodes[..n][..n - 1] == nodes[..n - 1];
      assert LiveBelow(g, n) == LiveBelow(g, n - 1) + (if g.IsLive(n - 1) then {n - 1} else {});
    } else {
      assert LiveBelow(g, 0) == {};
    }
  }

  lemma LiveNodes(g: Graph)
    requires GoodLive(g)
    ensures LiveBelow(g, |g.nodes|) == set n | n in g.live.Values
  {
    forall i: nat
      ensures i in LiveBelow(g, |g.nodes|) <==> i in g.live.Values
    {
      if i in LiveBelow(g, |g.nodes|) {
        assert g.nodes[i].id in g.live && g.live[g.nodes[i].id] == i;
      }
    }
  }

  lemma LiveSize(g: Graph)
    requires GoodLive(g)
    ensures |set n | n in g.live.Values| == g.liveCount
  {
    ValuesSize(g.live);
    assert (set n | n in g.live.Values) == g.live.Values;
  }

  lemma {:induction false} ValuesSize(m: map<VectorId, nat>)
    requires forall a, b :: a in m && b in m && a != b ==> m[a] != m[b]
    ensures |m.Values| == |m|
    decreases |m|
  {
    if m == map[] {
      assert m.Values == {};
    } else {
      var id :| id in m;
      var rest := m - {id};
      assert rest.Keys == m.Keys - {id};
      ValuesSize(rest);
      assert m[id] in m.Values;
      assert m[id] !in rest.Values;
      forall v
        ensures v in m.Values <==> v in rest.Values || v == m[id]
      {
        if v in m.Values && v != m[id] {
          var k :| k in m && m[k] == v;
          assert k in rest && rest[k] == v;
        }
        if v in rest.Values {
          var k :| k in rest && rest[k] == v;
          assert k in m && m[k] == v;
        }
      }
      assert m.Values == rest.Values + {m[id]};
    }
  }
}
