/** HnswIndex's operations as functions of its state. */
module Hnsw {
  import opened Core
  import opened Ranking
  import opened Config
  import opened Graph
  import opened Descent
  import opened Beam
  import opened Select
  import Rng
  import Flat

  datatype Index = Index(config: HnswConfig, dimension: nat, num: Numerics, graph: Graph, rng: nat) {
    function Scorer(): Scorer { num.scorer(config.metric) }
  }

  function New(config: HnswConfig, dimension: nat, num: Numerics): Index {
    Index(config, dimension, num, Empty, config.seed)
  }

  datatype InsertDelta = InsertDelta(newNode: nat, touched: set<nat>, entryChanged: bool)

  datatype RemoveDelta = RemoveDelta(touched: set<nat>, entryChanged: bool)

  // The node being linked and what it is linked by.
  datatype Link = Link(config: HnswConfig, score: Scorer, embedding: Embedding, node: nat)

  // Progress of linking: the graph so far, where the next layer's search
  // starts, and the nodes whose rows changed.
  datatype Linked = Linked(graph: Graph, cur: nat, touched: set<nat>)

  function Rate(p: Probe, list: seq<nat>): seq<Candidate> {
    if list == [] then []
    else Rate(p, list[..|list| - 1]) + [Candidate(p.Key(list[|list| - 1]).score, list[|list| - 1], p.Key(list[|list| - 1]).id)]
  }

  // sel's list with the new node appended, pruned if that makes it too long.
  function BackList(g: Graph, k: Link, layer: nat, sel: nat): seq<nat> {
    var grown := g.Neighbors(sel, layer) + [k.node];
    var limit := k.config.Limit(layer);
    if |grown| <= limit then grown
    else SelectNeighbors(g, k.score, Sort(Rate(Probe(g, g.NodeEmbedding(sel), k.score), grown), Key), limit)
  }

  function BackLinks(g: Graph, k: Link, layer: nat, selected: seq<nat>): Graph
    decreases |selected|
  {
    if selected == [] then g
    else BackLinks(g.SetNeighbors(selected[0], layer, BackList(g, k, layer, selected[0])), k, layer, selected[1..])
  }

  function Candidates(k: Link, layer: nat, g: Graph, cur: nat): seq<Candidate> {
    BeamSearch(Search(Probe(g, k.embedding, k.score), k.config.efConstruction, layer, AdmitAll), cur)
  }

  function Chosen(k: Link, layer: nat, g: Graph, cur: nat): seq<nat> {
    SelectNeighbors(g, k.score, Candidates(k, layer, g, cur), k.config.Limit(layer))
  }

  function AsSet(list: seq<nat>): set<nat> { set x | x in list }

  function LinkLayer(k: Link, layer: nat, st: Linked): Linked {
    var candidates := Candidates(k, layer, st.graph, st.cur);
    var selected := Chosen(k, layer, st.graph, st.cur);
    Linked(BackLinks(st.graph.SetNeighbors(k.node, layer, selected), k, layer, selected),
           if candidates == [] then st.cur else candidates[0].node,
           st.touched + AsSet(selected))
  }

  // Layers above - 1 down to 0.
  function LinkLayers(k: Link, above: nat, st: Linked): Linked {
    if above == 0 then st else LinkLayers(k, above - 1, LinkLayer(k, above - 1, st))
  }

  // Where linking starts: a greedy descent over the layers above the new
  // node's, when there are any.
  function Landing(g: Graph, k: Link, entry: nat, level: nat): nat {
    if g.NodeLevel(entry) > level
    then Descend(Probe(g, k.embedding, k.score), g.NodeLevel(entry) + 1, level + 1, entry)
    else entry
  }

  // insert_tracked once the new node has been added to the graph g.
  function LinkIn(g: Graph, k: Link, entry: nat, level: nat): Linked {
    LinkLayers(k, Min(level, g.NodeLevel(entry)) + 1, Linked(g, Landing(g, k, entry, level), {k.node}))
  }

  function LevelDrawn(ix: Index): nat {
    Rng.LevelOf(ix.num.levelFloor(ix.config.m), Rng.Mix(Rng.NextState(ix.rng)))
  }

  function Insert(ix: Index, id: VectorId, e: Embedding): (Index, Result<InsertDelta>) {
    if |e| != ix.dimension then (ix, Err(DimensionMismatch(ix.dimension, |e|)))
    else if id in ix.graph.live then (ix, Err(DuplicateId(id)))
    else
      var level := LevelDrawn(ix);
      var drawn := ix.(rng := Rng.NextState(ix.rng));
      match ix.graph.AddNode(id, e, level)
      case Err(error) => (drawn, Err(error))
      case Ok(g) =>
        var node := |ix.graph.nodes|;
        match g.entry
        case None => (drawn.(graph := g.(entry := Some(node))), Ok(InsertDelta(node, {node}, true)))
        case Some(entry) =>
          var linked := LinkIn(g, Link(ix.config, ix.Scorer(), e, node), entry, level);
          if level > g.NodeLevel(entry) then
            (drawn.(graph := linked.graph.(entry := Some(node))), Ok(InsertDelta(node, linked.touched, true)))
          else
            (drawn.(graph := linked.graph), Ok(InsertDelta(node, linked.touched, linked.graph.entry != ix.graph.entry)))
  }

  // The last live node of the highest level among the first n.
  function Highest(g: Graph, n: nat): Option<nat>
    requires n <= |g.nodes|
  {
    if n == 0 then None
    else
      var best := Highest(g, n - 1);
      if g.nodes[n - 1].tombstone then best
      else if best.Some? && g.NodeLevel(best.value) > g.NodeLevel(n - 1) then best
      else Some(n - 1)
  }

  function Remove(ix: Index, id: VectorId): (Index, Option<RemoveDelta>) {
    if id !in ix.graph.live then (ix, None)
    else
      var node := ix.graph.live[id];
      if !ix.graph.IsLive(node) then (ix, None)
      else
        var wasEntry := ix.graph.entry == Some(node);
        var g := ix.graph.Tombstone(node);
        (ix.(graph := if wasEntry then g.(entry := Highest(g, |g.nodes|)) else g), Some(RemoveDelta({node}, wasEntry)))
  }

  function Hits(list: seq<Candidate>): seq<Hit> {
    if list == [] then [] else Hits(list[..|list| - 1]) + [Key(list[|list| - 1])]
  }

  // The node layer 0 is searched from.
  function SearchFrom(ix: Index, query: Embedding, entry: nat): nat {
    if ix.graph.NodeLevel(entry) > 0
    then Descend(Probe(ix.graph, query, ix.Scorer()), ix.graph.NodeLevel(entry) + 1, 1, entry)
    else entry
  }

  function SearchFiltered(ix: Index, query: Embedding, k: nat, metric: Metric, admit: VectorId -> bool): Result<seq<Hit>> {
    if |query| != ix.dimension then Err(DimensionMismatch(ix.dimension, |query|))
    else if metric != ix.config.metric then Err(UnsupportedMetric(metric))
    else match ix.graph.entry
         case None => Ok([])
         case Some(entry) =>
           var s := Search(Probe(ix.graph, query, ix.Scorer()), Max(ix.config.efSearch, k), 0, admit);
           Ok(Take(Sort(Hits(Take(BeamSearch(s, SearchFrom(ix, query, entry)), k)), HitKey), k))
  }

  // The live (id, embedding) pairs in node order.
  function LivePoints(nodes: seq<Node>): seq<Flat.Point> {
    if nodes == [] then []
    else
      var n := |nodes| - 1;
      if nodes[n].tombstone then LivePoints(nodes[..n])
      else LivePoints(nodes[..n]) + [Flat.Point(nodes[n].id, nodes[n].embedding)]
  }

  // bulk_insert: stops at the first error.
  function InsertAll(ix: Index, points: seq<Flat.Point>): (Index, Result<()>)
    decreases |points|
  {
    if points == [] then (ix, Ok(()))
    else
      var (next, r) := Insert(ix, points[0].id, points[0].embedding);
      match r
      case Err(error) => (next, Err(error))
      case Ok(_) => InsertAll(next, points[1..])
  }

  // The first embedding Embedding::new would refuse.
  function Revalidate(points: seq<Flat.Point>): Result<()> {
    if points == [] then Ok(())
    else
      var _ :- Revalidate(points[..|points| - 1]);
      var _ :- NewEmbedding(points[|points| - 1].embedding);
      Ok(())
  }

  function Compact(ix: Index): (Index, Result<()>) {
    var points := LivePoints(ix.graph.nodes);
    match Revalidate(points)
    case Err(error) => (ix, Err(error))
    case Ok(_) => InsertAll(ix.(graph := Empty, rng := ix.config.seed), points)
  }
}
