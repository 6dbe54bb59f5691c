/** HnswConfig: validated parameters and the degree bounds derived from them. */
module Config {
  import opened Core

  datatype ConfigError = DegreeTooSmall(m: nat) | ZeroConstructionBeam | ZeroSearchBeam

  datatype HnswConfig = HnswConfig(metric: Metric, m: nat, efConstruction: nat, efSearch: nat, seed: nat) {
    ghost predicate Valid() {
      m >= 2 && efConstruction >= 1 && efSearch >= 1 && seed < 0x1_0000_0000_0000_0000
    }

    // m_max0 at layer 0, m_max above.
    function Limit(layer: nat): nat { if layer == 0 then 2 * m else m }
  }

  datatype Checked = Accepted(config: HnswConfig) | Rejected(error: ConfigError)

  function NewConfig(metric: Metric, m: nat, efConstruction: nat, efSearch: nat, seed: nat): Checked {
    if m < 2 then Rejected(DegreeTooSmall(m))
    else if efConstruction == 0 then Rejected(ZeroConstructionBeam)
    else if efSearch == 0 then Rejected(ZeroSearchBeam)
    else Accepted(HnswConfig(metric, m, efConstruction, efSearch, seed))
  }

  // A configuration is accepted exactly when the degree is at least two and
  // both beams are at least one, and it keeps what it was given; the first of
  // the three that fails is reported.
  lemma ConfigDecided(metric: Metric, m: nat, efConstruction: nat, efSearch: nat, seed: nat)
    ensures match NewConfig(metric, m, efConstruction, efSearch, seed)
            case Accepted(config) =>
              && m >= 2 && efConstruction >= 1 && efSearch >= 1
              && config.metric == metric && config.m == m && config.efConstruction == efConstruction
              && config.efSearch == efSearch && config.seed == seed
            case Rejected(DegreeTooSmall(got)) => got == m && m < 2
            case Rejected(ZeroConstructionBeam) => m >= 2 && efConstruction == 0
            case Rejected(ZeroSearchBeam) => m >= 2 && efConstruction >= 1 && efSearch == 0
  {}

  // What a metric computes and the logarithm are left to the caller: levelFloor
  // is floor(-ln u * m_l) for degree m and u = numerator / 2^64 above zero.
  datatype Numerics = Numerics(scorer: Metric -> Scorer, levelFloor: nat -> nat -> int)
}

/** The layered graph: nodes with one neighbour list per layer, tombstones, the
    map to live nodes and the entry point. */
module Graph {
  import opened Core
  import opened Config

  datatype Node = Node(id: VectorId, embedding: Embedding, neighbors: seq<seq<nat>>, level: nat, tombstone: bool)

  datatype Graph = Graph(nodes: seq<Node>, live: map<VectorId, nat>, entry: Option<nat>, liveCount: nat) {

    // Out-of-range arguments read as an absent node or an empty list.
    function Neighbors(n: nat, layer: nat): seq<nat> {
      if n < |nodes| && layer < |nodes[n].neighbors| then nodes[n].neighbors[layer] else []
    }

    function NodeEmbedding(n: nat): Embedding { if n < |nodes| then nodes[n].embedding else [] }

    function NodeId(n: nat): VectorId { if n < |nodes| then nodes[n].id else 0 }

    function NodeLevel(n: nat): nat { if n < |nodes| then nodes[n].level else 0 }

    function IsTombstone(n: nat): bool { n < |nodes| && nodes[n].tombstone }

    predicate Has(n: nat) { n < |nodes| }

    predicate IsLive(n: nat) { n < |nodes| && !nodes[n].tombstone }

    function SetNeighbors(n: nat, layer: nat, list: seq<nat>): (g: Graph)
      ensures SameShape(this, g)
    {
      if n < |nodes| && layer < |nodes[n].neighbors| then
        this.(nodes := nodes[n := nodes[n].(neighbors := nodes[n].neighbors[layer := list])])
      else this
    }

    function AddNode(id: VectorId, e: Embedding, level: nat): Result<Graph> {
      if nodes != [] && |e| != |nodes[0].embedding| then Err(DimensionMismatch(|nodes[0].embedding|, |e|))
      else if id in live then Err(DuplicateId(id))
      else
        Ok(Graph(nodes + [Node(id, e, seq(level + 1, _ => []), level, false)],
                 live[id := |nodes|], entry, liveCount + 1))
    }

    function Tombstone(n: nat): Graph {
      if IsLive(n) then
        Graph(nodes[n := nodes[n].(tombstone := true)], live - {nodes[n].id}, entry,
              if liveCount == 0 then 0 else liveCount - 1)
      else this
    }
  }

  const Empty := Graph([], map[], None, 0)

  // Only neighbour lists may differ.
  ghost predicate SameShape(g: Graph, h: Graph) {
    && |g.nodes| == |h.nodes| && g.live == h.live && g.entry == h.entry && g.liveCount == h.liveCount
    && forall i :: 0 <= i < |g.nodes| ==>
         && h.nodes[i] == g.nodes[i].(neighbors := h.nodes[i].neighbors)
         && |h.nodes[i].neighbors| == |g.nodes[i].neighbors|
  }

  lemma SetNeighborsReads(g: Graph, n: nat, layer: nat, list: seq<nat>, i: nat, l: nat)
    ensures g.SetNeighbors(n, layer, list).Neighbors(i, l)
         == if i == n && l == layer && n < |g.nodes| && layer < |g.nodes[n].neighbors| then list
            else g.Neighbors(i, l)
  {}

  predicate NoDuplicates(list: seq<nat>) {
    forall i, j :: 0 <= i < j < |list| ==> list[i] != list[j]
  }

  // list may stand as node i's neighbours on a layer.
  ghost predicate GoodList(g: Graph, i: nat, layer: nat, list: seq<nat>, limit: nat) {
    && NoDuplicates(list)
    && |list| <= limit
    && forall x :: x in list ==> x < |g.nodes| && x != i && layer <= g.nodes[x].level
  }

  // Every layer-l neighbour is another node that reaches layer l, listed once,
  // and no list exceeds its layer's degree bound.
  ghost predicate GoodEdges(g: Graph, config: HnswConfig) {
    && (forall i :: 0 <= i < |g.nodes| ==> |g.nodes[i].neighbors| == g.nodes[i].level + 1)
    && (forall i: nat, l: nat :: GoodList(g, i, l, g.Neighbors(i, l), config.Limit(l)))
  }

  // Only the last node carrying an id can be live.
  ghost predicate GoodOrder(g: Graph) {
    forall i, j :: 0 <= i < j < |g.nodes| && g.nodes[i].id == g.nodes[j].id ==> g.nodes[i].tombstone
  }

  // The live map and the nodes that are not tombstones are in bijection.
  ghost predicate GoodLive(g: Graph) {
    && (forall id :: id in g.live ==> g.IsLive(g.live[id]) && g.nodes[g.live[id]].id == id)
    && (forall i :: 0 <= i < |g.nodes| && !g.nodes[i].tombstone ==>
          g.nodes[i].id in g.live && g.live[g.nodes[i].id] == i)
    && g.liveCount == |g.live|
  }

  // The entry point is absent exactly when nothing is live; otherwise it is a
  // live node whose level no live node exceeds.
  ghost predicate GoodEntry(g: Graph) {
    match g.entry
    case None => forall i: nat :: !g.IsLive(i)
    case Some(e) => g.IsLive(e) && forall i: nat :: g.IsLive(i) ==> g.NodeLevel(i) <= g.NodeLevel(e)
  }

  class HnswGraph {
    var nodes: seq<Node>
    var live: map<VectorId, nat>
    var entryPoint: Option<nat>
    var liveCount: nat

    function State(): Graph
      reads this
    {
      Graph(nodes, live, entryPoint, liveCount)
    }

    constructor ()
      ensures State() == Empty
    {
      nodes, live, entryPoint, liveCount := [], map[], None, 0;
    }

    method AddNode(id: VectorId, e: Embedding, level: nat) returns (r: Result<nat>)
      modifies this
      ensures match old(State()).AddNode(id, e, level)
              case Ok(g) => State() == g && r == Ok(old(|nodes|))
              case Err(error) => State() == old(State()) && r == Err(error)
    {
      if nodes != [] && |e| != |nodes[0].embedding| {
        return Err(DimensionMismatch(|nodes[0].embedding|, |e|));
      }
      if id in live {
        return Err(DuplicateId(id));
      }
      var idx := |nodes|;
      nodes := nodes + [Node(id, e, seq(level + 1, _ => []), level, false)];
      live := live[id := idx];
      liveCount := liveCount + 1;
      r := Ok(idx);
    }

    method SetNeighbors(n: nat, layer: nat, list: seq<nat>)
      modifies this
      ensures State() == old(State()).SetNeighbors(n, layer, list)
    {
      if n < |nodes| && layer < |nodes[n].neighbors| {
        nodes := nodes[n := nodes[n].(neighbors := nodes[n].neighbors[layer := list])];
      }
    }

    method Tombstone(n: nat) returns (was: bool)
      modifies this
      ensures State() == old(State()).Tombstone(n)
      ensures was == old(State()).IsLive(n)
    {
      if n >= |nodes| || nodes[n].tombstone {
        return false;
      }
      nodes := nodes[n := nodes[n].(tombstone := true)];
      live := live - {nodes[n].id};
      liveCount := if liveCount == 0 then 0 else liveCount - 1;
      was := true;
    }

    method SetEntryPoint(n: Option<nat>)
      modifies this
      ensures State() == old(State()).(entry := n)
    {
      entryPoint := n;
    }
  }
}
