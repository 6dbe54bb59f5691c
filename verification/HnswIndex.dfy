/** The index object: every method against the function it computes. */
module HnswIndex {
  import opened Core
  import opened Ranking
  import opened Config
  import opened Graph
  import opened Descent
  import opened Beam
  import opened BeamFacts
  import opened Select
  import opened Hnsw
  import opened HnswLinking
  import opened HnswConnect
  import opened HnswInvariant
  import opened HnswRuns
  import opened HnswExact
  import opened HnswSnapshot
  import opened Rng
  import Oracle
  import Flat

  // The list a selected neighbour ends with.
  method PrunedList(g: Graph, k: Link, layer: nat, sel: nat) returns (list: seq<nat>)
    ensures list == BackList(g, k, layer, sel)
  {
    list := g.Neighbors(sel, layer) + [k.node];
    var limit := k.config.Limit(layer);
    if |list| > limit {
      var candidates := Sort(Rate(Probe(g, g.NodeEmbedding(sel), k.score), list), Key);
      list := Choose(g, k.score, candidates, limit);
    }
  }

  class HnswIndex {
    const config: HnswConfig
    const dimension: nat
    const num: Numerics
    var graph: HnswGraph
    var rng: SplitMix64

    function State(): Index
      reads this, graph, rng
    {
      Index(config, dimension, num, graph.State(), rng.state)
    }

    constructor (config: HnswConfig, dimension: nat, num: Numerics)
      ensures State() == New(config, dimension, num)
      ensures fresh(graph) && fresh(rng)
    {
      this.config, this.dimension, this.num := config, dimension, num;
      graph := new HnswGraph();
      rng := new SplitMix64(config.seed);
    }

    constructor Owning(config: HnswConfig, dimension: nat, num: Numerics, graph: HnswGraph, rng: SplitMix64)
      ensures this.graph == graph && this.rng == rng
      ensures State() == Index(config, dimension, num, graph.State(), rng.state)
    {
      this.config, this.dimension, this.num := config, dimension, num;
      this.graph, this.rng := graph, rng;
    }

    // Links every selected neighbour back to the new node.
    method LinkBack(k: Link, layer: nat, selected: seq<nat>)
      modifies graph
      ensures graph.State() == BackLinks(old(graph.State()), k, layer, selected)
    {
      for i := 0 to |selected|
        invariant BackLinks(graph.State(), k, layer, selected[i..]) == BackLinks(old(graph.State()), k, layer, selected)
      {
        assert selected[i..][0] == selected[i] && selected[i..][1..] == selected[i + 1..];
        var list := PrunedList(graph.State(), k, layer, selected[i]);
        graph.SetNeighbors(selected[i], layer, list);
      }
    }

    // One round of the layer loop of insert_tracked.
    method LinkOne(k: Link, layer: nat, cur: nat, touched: set<nat>) returns (next: nat, touched': set<nat>)
      requires cur < |graph.nodes|
      modifies graph
      ensures Linked(graph.State(), next, touched') == LinkLayer(k, layer, Linked(old(graph.State()), cur, touched))
    {
      var s := Search(Probe(graph.State(), k.embedding, k.score), k.config.efConstruction, layer, AdmitAll);
      var candidates := Explore(s, cur);
      var selected := Choose(graph.State(), k.score, candidates, k.config.Limit(layer));
      graph.SetNeighbors(k.node, layer, selected);
      LinkBack(k, layer, selected);
      touched' := touched + AsSet(selected);
      next := if candidates == [] then cur else candidates[0].node;
    }

    method LinkAll(k: Link, above: nat, start: nat, touched: set<nat>) returns (touched': set<nat>)
      requires Ready(graph.State(), k, above, start)
      modifies graph
      ensures var r := LinkLayers(k, above, Linked(old(graph.State()), start, touched));
              graph.State() == r.graph && touched' == r.touched
    {
      hide LinkLayer, GoodEdges, Fresh;
      var layer, cur := above, start;
      touched' := touched;
      ghost var end := LinkLayers(k, above, Linked(graph.State(), start, touched));
      while layer > 0
        invariant Ready(graph.State(), k, layer, cur)
        invariant LinkLayers(k, layer, Linked(graph.State(), cur, touched')) == end
      {
        layer := layer - 1;
        ghost var before := Linked(graph.State(), cur, touched');
        LinkLayerReady(k, layer, before);
        cur, touched' := LinkOne(k, layer, cur, touched');
        assert Linked(graph.State(), cur, touched') == LinkLayer(k, layer, before);
      }
    }

    // The part of insert_tracked that finds and links neighbours.
    method LinkNew(k: Link, entry: nat, level: nat) returns (touched: set<nat>)
      requires Ready(graph.State(), k, Min(level, graph.State().NodeLevel(entry)) + 1,
                     Landing(graph.State(), k, entry, level))
      modifies graph
      ensures var r := LinkIn(old(graph.State()), k, entry, level);
              graph.State() == r.graph && touched == r.touched
    {
      hide Ready, LinkLayers;
      var entryLevel := graph.State().NodeLevel(entry);
      var start := entry;
      if entryLevel > level {
        start := GreedyDescent(Probe(graph.State(), k.embedding, k.score), entry, entryLevel, level + 1);
      }
      touched := LinkAll(k, Min(level, entryLevel) + 1, start, {k.node});
    }

    method InsertTracked(id: VectorId, e: Embedding) returns (r: Result<InsertDelta>)
      requires Good(State())
      modifies this, graph, rng
      ensures graph == old(graph) && rng == old(rng)
      ensures (State(), r) == Insert(old(State()), id, e)
    {
      ghost var before := State();
      if |e| != dimension {
        return Err(DimensionMismatch(dimension, |e|));
      }
      if id in graph.live {
        return Err(DuplicateId(id));
      }
      var entryBefore := graph.entryPoint;
      var level := rng.NextLevel(num.levelFloor(config.m));
      var added := graph.AddNode(id, e, level);
      if added.Err? {
        return Err(added.error);
      }
      var node := added.value;
      if graph.entryPoint == None {
        graph.SetEntryPoint(Some(node));
        return Ok(InsertDelta(node, {node}, true));
      }
      var entry := graph.entryPoint.value;
      var entryLevel := graph.State().NodeLevel(entry);
      var k := Link(config, num.scorer(config.metric), e, node);
      ghost var g1 := graph.State();
      AddNodeFacts(before.graph, config, id, e, level);
      hide GoodEdges, GoodLive, GoodOrder, GoodEmbeddings, Connected, Ready, LinkIn, Landing, Extends;
      LandingFacts(before.graph, g1, k, entry, level);
      var touched := LinkNew(k, entry, level);
      if level > entryLevel {
        graph.SetEntryPoint(Some(node));
        r := Ok(InsertDelta(node, touched, true));
      } else {
        r := Ok(InsertDelta(node, touched, graph.entryPoint != entryBefore));
      }
    }

    method RemoveTracked(id: VectorId) returns (r: Option<RemoveDelta>)
      modifies graph
      ensures (State(), r) == Remove(old(State()), id)
    {
      if id !in graph.live {
        return None;
      }
      var node := graph.live[id];
      var wasEntry := graph.entryPoint == Some(node);
      var became := graph.Tombstone(node);
      if !became {
        return None;
      }
      if wasEntry {
        var best := MostElevated();
        graph.SetEntryPoint(best);
      }
      r := Some(RemoveDelta({node}, wasEntry));
    }

    // live_nodes().max_by_key(level): the last of the highest.
    method MostElevated() returns (best: Option<nat>)
      ensures best == Highest(graph.State(), |graph.nodes|)
    {
      best := None;
      for i := 0 to |graph.nodes|
        invariant best == Highest(graph.State(), i)
      {
        if !graph.nodes[i].tombstone
           && !(best.Some? && graph.State().NodeLevel(best.value) > graph.State().NodeLevel(i)) {
          best := Some(i);
        }
      }
    }

    method SearchGraph(query: Embedding, k: nat, metric: Metric, admit: VectorId -> bool) returns (r: Result<seq<Hit>>)
      requires Good(State())
      ensures r == SearchFiltered(State(), query, k, metric, admit)
    {
      if |query| != dimension {
        return Err(DimensionMismatch(dimension, |query|));
      }
      if metric != config.metric {
        return Err(UnsupportedMetric(metric));
      }
      if graph.entryPoint == None {
        return Ok([]);
      }
      var g := graph.State();
      var entry := graph.entryPoint.value;
      var entryLevel := g.NodeLevel(entry);
      var current := entry;
      if entryLevel > 0 {
        current := GreedyDescent(Probe(g, query, num.scorer(metric)), entry, entryLevel, 1);
      }
      StartInRange(State(), query, entry);
      var s := Search(Probe(g, query, num.scorer(metric)), Max(config.efSearch, k), 0, admit);
      var candidates := Explore(s, current);
      r := Ok(Take(Sort(Hits(Take(candidates, k)), HitKey), k));
    }

    method BulkInsert(points: seq<Flat.Point>) returns (r: Result<()>)
      requires Good(State()) && forall p :: p in points ==> WellFormedEmbedding(p.embedding)
      modifies this, graph, rng
      ensures graph == old(graph) && rng == old(rng)
      ensures (State(), r) == InsertAll(old(State()), points)
      ensures Good(State())
    {
      for i := 0 to |points|
        invariant graph == old(graph) && rng == old(rng)
        invariant Good(State())
        invariant InsertAll(State(), points[i..]) == InsertAll(old(State()), points)
      {
        assert points[i..][0] == points[i] && points[i..][1..] == points[i + 1..];
        InsertGood(State(), points[i].id, points[i].embedding);
        var inserted := InsertTracked(points[i].id, points[i].embedding);
        if inserted.Err? {
          return Err(inserted.error);
        }
      }
      r := Ok(());
    }

    // The live pairs, each embedding validated again.
    method CollectLive() returns (r: Result<seq<Flat.Point>>)
      ensures match Revalidate(LivePoints(graph.nodes))
              case Err(error) => r == Err(error)
              case Ok(_) => r == Ok(LivePoints(graph.nodes))
    {
      var points: seq<Flat.Point> := [];
      for i := 0 to |graph.nodes|
        invariant points == LivePoints(graph.nodes[..i])
        invariant Revalidate(points) == Ok(())
      {
        assert graph.nodes[..i + 1][..i] == graph.nodes[..i];
        var n := graph.nodes[i];
        if !n.tombstone {
          var e := NewEmbedding(n.embedding);
          assert LivePoints(graph.nodes[..i + 1]) == points + [Flat.Point(n.id, n.embedding)];
          RevalidateFirst(points, Flat.Point(n.id, n.embedding));
          if e.Err? {
            LivePointsPrefix(graph.nodes, i + 1);
            RevalidatePrefix(LivePoints(graph.nodes[..i + 1]), LivePoints(graph.nodes), e.error);
            return Err(e.error);
          }
          points := points + [Flat.Point(n.id, e.value)];
        }
      }
      assert graph.nodes[..|graph.nodes|] == graph.nodes;
      r := Ok(points);
    }

    method CompactGraph() returns (r: Result<()>)
      requires Good(State())
      modifies this, graph, rng
      ensures (fresh(graph) && fresh(rng)) || (graph == old(graph) && rng == old(rng))
      ensures (State(), r) == Compact(old(State()))
      ensures Good(State())
    {
      ghost var before := State();
      LivePointsMembers(before.graph.nodes);
      NewGood(config, dimension, num);
      assert forall p :: p in LivePoints(before.graph.nodes) ==> WellFormedEmbedding(p.embedding);
      hide Good, LivePoints, InsertAll, Revalidate;
      var live := CollectLive();
      if live.Err? {
        return Err(live.error);
      }
      rng := new SplitMix64(config.seed);
      graph := new HnswGraph();
      r := BulkInsert(live.value);
    }
  }

  method RestoreOneNode(graph: HnswGraph, i: nat, node: SnapshotNode, values: Option<Embedding>) returns (r: Result<()>)
    modifies graph
    ensures match RestoreNode(old(graph.State()), i, node, values)
            case Ok(g) => r == Ok(()) && graph.State() == g
            case Err(error) => r == Err(error)
  {
    if values.None? {
      return Err(Backend);
    }
    var e := NewEmbedding(values.value);
    if e.Err? {
      return Err(e.error);
    }
    var added := graph.AddNode(node.id, e.value, node.level);
    if added.Err? {
      return Err(added.error);
    }
    if node.tombstone {
      var _ := graph.Tombstone(i);
    }
    ghost var marked := graph.State();
    for layer := 0 to |node.neighbors|
      invariant graph.State() == SetAll(marked, i, node.neighbors, layer)
    {
      graph.SetNeighbors(i, layer, node.neighbors[layer]);
    }
    r := Ok(());
  }

  // from_snapshot
  method Restore(config: HnswConfig, dimension: nat, num: Numerics, snapshot: GraphSnapshot,
                 vectors: nat -> Option<Embedding>) returns (r: Result<HnswIndex>)
    ensures match FromSnapshot(config, dimension, num, snapshot, vectors)
            case Ok(ix) => r.Ok? && fresh(r.value) && fresh(r.value.graph) && fresh(r.value.rng) && r.value.State() == ix
            case Err(error) => r == Err(error)
  {
    var graph := new HnswGraph();
    for i := 0 to |snapshot.nodes|
      invariant RestoreNodes(snapshot.nodes, i, vectors) == Ok(graph.State())
      invariant fresh(graph)
    {
      var restored := RestoreOneNode(graph, i, snapshot.nodes[i], vectors(i));
      if restored.Err? {
        RestoreFails(snapshot.nodes, i + 1, vectors, restored.error);
        return Err(restored.error);
      }
    }
    graph.SetEntryPoint(snapshot.entry);
    var rng := new SplitMix64(snapshot.rng);
    var index := new HnswIndex.Owning(config, dimension, num, graph, rng);
    r := Ok(index);
  }

  lemma {:induction false} RestoreFails(nodes: seq<SnapshotNode>, n: nat, vectors: nat -> Option<Embedding>, error: IndexError)
    requires n <= |nodes| && RestoreNodes(nodes, n, vectors) == Err(error)
    ensures RestoreNodes(nodes, |nodes|, vectors) == Err(error)
    decreases |nodes| - n
  {
    if n < |nodes| {
      RestoreFails(nodes, n + 1, vectors, error);
    }
  }

  lemma RevalidateFirst(points: seq<Flat.Point>, p: Flat.Point)
    requires Revalidate(points) == Ok(())
    ensures match NewEmbedding(p.embedding)
            case Err(error) => Revalidate(points + [p]) == Err(error)
            case Ok(_) => Revalidate(points + [p]) == Ok(())
  {
    assert (points + [p])[..|points|] == points;
  }

  lemma {:induction false} LivePointsPrefix(nodes: seq<Node>, n: nat)
    requires n <= |nodes|
    ensures LivePoints(nodes[..n]) <= LivePoints(nodes)
  {
    if n == |nodes| {
      assert nodes[..n] == nodes;
    } else {
      var m := |nodes| - 1;
      LivePointsPrefix(nodes[..m], n);
      assert nodes[..m][..n] == nodes[..n];
    }
  }

  lemma {:induction false} RevalidatePrefix(a: seq<Flat.Point>, b: seq<Flat.Point>, error: IndexError)
    requires a <= b && Revalidate(a) == Err(error)
    ensures Revalidate(b) == Err(error)
  {
    if a != b {
      RevalidatePrefix(a, b[..|b| - 1], error);
    }
  }
}
