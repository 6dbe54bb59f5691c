/** What every run of inserts, removes and compactions keeps. */
module HnswInvariant {
  import opened Core
  import opened Config
  import opened Graph
  import opened Descent
  import opened Beam
  import opened BeamFacts
  import opened Hnsw
  import opened HnswLinking
  import opened HnswConnect
  import Rng
  import Oracle
  import Flat

  ghost predicate GoodEmbeddings(g: Graph, dimension: nat) {
    forall i :: 0 <= i < |g.nodes| ==> |g.nodes[i].embedding| == dimension && WellFormedEmbedding(g.nodes[i].embedding)
  }

  ghost predicate Good(ix: Index) {
    && ix.config.Valid() && ix.dimension > 0
    && GoodEdges(ix.graph, ix.config)
    && GoodLive(ix.graph)
    && GoodOrder(ix.graph)
    && GoodEntry(ix.graph)
    && GoodEmbeddings(ix.graph, ix.dimension)
    && ix.rng == Rng.Walk(ix.config.seed, |ix.graph.nodes|)
    && (Small(ix.graph, ix.config) ==> Connected(ix.graph))
  }

  // The live embeddings by id.
  ghost function Content(g: Graph): Oracle.Content {
    map id | id in g.live :: g.NodeEmbedding(g.live[id])
  }

  lemma NewGood(config: HnswConfig, dimension: nat, num: Numerics)
    requires config.Valid() && dimension > 0
    ensures Good(New(config, dimension, num))
    ensures Content(New(config, dimension, num).graph) == map[]
  {}

  // --- inserting ---

  lemma AddNodeFacts(g: Graph, config: HnswConfig, id: VectorId, e: Embedding, level: nat)
    requires GoodEdges(g, config) && GoodLive(g)
    requires g.AddNode(id, e, level).Ok?
    ensures var g1 := g.AddNode(id, e, level).value;
            && GoodEdges(g1, config)
            && Extends(g, g1, |g.nodes|)
            && g1.NodeLevel(|g.nodes|) == level
  {
    var g1 := g.AddNode(id, e, level).value;
    var node := |g.nodes|;
    forall i: nat, l: nat
      ensures g1.Neighbors(i, l) == g.Neighbors(i, l)
    {
    }
    forall i: nat, l: nat
      ensures GoodList(g1, i, l, g1.Neighbors(i, l), config.Limit(l))
      ensures node !in g1.Neighbors(i, l)
    {
      assert GoodList(g, i, l, g.Neighbors(i, l), config.Limit(l));
    }
  }

  lemma AddNodeLive(g: Graph, id: VectorId, e: Embedding, level: nat)
    requires GoodLive(g) && g.AddNode(id, e, level).Ok?
    ensures GoodLive(g.AddNode(id, e, level).value)
    ensures GoodOrder(g) ==> GoodOrder(g.AddNode(id, e, level).value)
  {
    var g1 := g.AddNode(id, e, level).value;
    assert g1.live.Keys == g.live.Keys + {id};
    if GoodOrder(g) {
      AddNodeOrder(g, id, e, level);
    }
    hide GoodOrder;
  }

  lemma AddNodeOrder(g: Graph, id: VectorId, e: Embedding, level: nat)
    requires GoodLive(g) && GoodOrder(g) && g.AddNode(id, e, level).Ok?
    ensures GoodOrder(g.AddNode(id, e, level).value)
  {}

  lemma AddNodeContent(g: Graph, id: VectorId, e: Embedding, level: nat)
    requires GoodLive(g) && g.AddNode(id, e, level).Ok?
    ensures Content(g.AddNode(id, e, level).value) == Content(g)[id := e]
  {
    var g1 := g.AddNode(id, e, level).value;
    forall x | x in g.live
      ensures g1.NodeEmbedding(g1.live[x]) == if x == id then e else g.NodeEmbedding(g.live[x])
    {
      assert g.IsLive(g.live[x]);
    }
  }

  lemma LiveSameShape(g: Graph, h: Graph)
    requires SameShape(g, h)
    ensures GoodLive(g) ==> GoodLive(h)
    ensures GoodOrder(g) ==> GoodOrder(h)
    ensures Content(g) == Content(h)
    ensures forall i: nat :: h.NodeLevel(i) == g.NodeLevel(i)
  {
    assert forall i: nat :: g.IsLive(i) <==> h.IsLive(i);
    assert forall i: nat :: g.NodeEmbedding(i) == h.NodeEmbedding(i);
  }

  // The descent lands on a node of the layers still to link, from which layer 0
  // leads to the entry point when the graph is connected.
  lemma LandingFacts(g: Graph, g1: Graph, k: Link, entry: nat, level: nat)
    requires k.config.Valid() && GoodEdges(g1, k.config) && Extends(g, g1, k.node)
    requires k.node < |g1.nodes| && g1.NodeLevel(k.node) == level
    requires g.IsLive(entry)
    ensures Ready(g1, k, Min(level, g1.NodeLevel(entry)) + 1, Landing(g1, k, entry, level))
    ensures Connected(g) ==> Grounded(g1, k.node, Landing(g1, k, entry, level))
  {
    hide Landing, Connected, Grounded;
    LandingOthers(g1, k, entry, level);
    GoodInRange(g1, k.config);
    if Connected(g) {
      LandingGrounded(g, g1, k, entry, level);
    }
  }

  lemma LandingOthers(g1: Graph, k: Link, entry: nat, level: nat)
    requires GoodEdges(g1, k.config) && forall l: nat :: Fresh(g1, k.node, l)
    requires entry < |g1.nodes| && entry != k.node
    ensures Landing(g1, k, entry, level) in Others(g1, k.node, Min(level, g1.NodeLevel(entry)))
  {
    hide Fresh, GoodEdges, Descend;
    if g1.NodeLevel(entry) > level {
      DescendOthers(Probe(g1, k.embedding, k.score), k.config, k.node, g1.NodeLevel(entry) + 1, level + 1, entry);
    }
  }

  lemma DescendOthers(p: Probe, config: HnswConfig, node: nat, above: nat, to: nat, entry: nat)
    requires GoodEdges(p.graph, config) && forall l: nat :: Fresh(p.graph, node, l)
    requires entry in Others(p.graph, node, to)
    ensures Descend(p, above, to, entry) in Others(p.graph, node, to)
  {
    var s := Others(p.graph, node, to);
    forall l: nat
      ensures to <= l ==> ClosedOn(p.graph, s, l)
    {
      if to <= l {
        OthersClosed(p.graph, config, node, to, l);
      }
    }
    DescendStays(p, above, to, entry, s);
  }

  lemma LandingGrounded(g: Graph, g1: Graph, k: Link, entry: nat, level: nat)
    requires Connected(g) && Extends(g, g1, k.node) && InRange(g1)
    requires g.IsLive(entry) && g1.IsLive(entry) && entry != k.node
    ensures Grounded(g1, k.node, Landing(g1, k, entry, level))
  {
    forall i: nat, l: nat, x | x in g1.Neighbors(i, l)
      ensures Mutual(g1, i, x)
    {
      MutualGrows(g, g1, i, x);
    }
    ReachesSelf(g1, 0, entry);
    DescentGrounded(g1, Probe(g1, k.embedding, k.score), g1.NodeLevel(entry) + 1, level + 1, entry);
  }

  // The accepted case of an insert, stage by stage: the graph with the node
  // added, and the graph after linking.
  ghost function Added(ix: Index, id: VectorId, e: Embedding): Graph
    requires ix.graph.AddNode(id, e, LevelDrawn(ix)).Ok?
  {
    ix.graph.AddNode(id, e, LevelDrawn(ix)).value
  }

  ghost function LinkOf(ix: Index, e: Embedding): Link { Link(ix.config, ix.Scorer(), e, |ix.graph.nodes|) }

  ghost function LinkedIn(ix: Index, id: VectorId, e: Embedding): Linked
    requires ix.graph.AddNode(id, e, LevelDrawn(ix)).Ok? && ix.graph.entry.Some?
  {
    LinkIn(Added(ix, id, e), LinkOf(ix, e), ix.graph.entry.value, LevelDrawn(ix))
  }

  ghost predicate Accepts(ix: Index, id: VectorId, e: Embedding) {
    |e| == ix.dimension && id !in ix.graph.live
  }

  // An insert is rejected, changing nothing, exactly for a wrong dimension or
  // an id that is live.
  lemma InsertAccepted(ix: Index, id: VectorId, e: Embedding)
    requires GoodEmbeddings(ix.graph, ix.dimension)
    ensures Insert(ix, id, e).1.Ok? <==> Accepts(ix, id, e)
    ensures !Accepts(ix, id, e) ==> Insert(ix, id, e).0 == ix
    ensures Accepts(ix, id, e) ==> ix.graph.AddNode(id, e, LevelDrawn(ix)).Ok?
  {}

  // Linking a node that has just been added: the lists stay well formed, only
  // links with the new node appear, every changed row is reported, and a small
  // graph stays connected.
  lemma LinkInFacts(g: Graph, g1: Graph, k: Link, entry: nat, level: nat)
    requires k.config.Valid() && GoodEdges(g1, k.config) && Extends(g, g1, k.node)
    requires k.node < |g1.nodes| && g1.NodeLevel(k.node) == level
    requires g.IsLive(entry)
    requires Small(g1, k.config) ==> Connected(g)
    ensures var r := LinkIn(g1, k, entry, level);
            && SameShape(g1, r.graph)
            && GoodEdges(r.graph, k.config)
            && OnlyNewLinks(g1, r.graph, k.node)
            && Reported(Linked(g1, 0, {k.node}), r)
            && (Small(r.graph, k.config) ==> Connected(r.graph))
  {
    hide GoodEdges, Extends, Connected, Reported, SameShape, OnlyNewLinks, LinkLayers, Landing, Ready, Grounded;
    LandingFacts(g, g1, k, entry, level);
    var above := Min(level, g1.NodeLevel(entry)) + 1;
    var st := Linked(g1, Landing(g1, k, entry, level), {k.node});
    var r := LinkLayers(k, above, st);
    LinkLayersGood(k, above, st);
    LinkLayersOnlyNew(k, above, st);
    LinkLayersReported(k, above, st);
    ReportedStart(g1, st.cur, k.node, r);
    ShapeCounts(g1, r.graph);
    if Small(g1, k.config) {
      LinkLayersJoin(k, above, st);
      ConnectedInsert(g, g1, r.graph, k.node);
    }
  }

  lemma LinkedFacts(ix: Index, id: VectorId, e: Embedding)
    requires Good(ix) && Accepts(ix, id, e) && ix.graph.entry.Some?
    requires ix.graph.AddNode(id, e, LevelDrawn(ix)).Ok?
    ensures var g1, h := Added(ix, id, e), LinkedIn(ix, id, e);
            && Extends(ix.graph, g1, |ix.graph.nodes|)
            && SameShape(g1, h.graph)
            && GoodEdges(h.graph, ix.config)
            && OnlyNewLinks(g1, h.graph, |ix.graph.nodes|)
            && Reported(Linked(g1, 0, {|ix.graph.nodes|}), h)
            && (Small(h.graph, ix.config) ==> Connected(h.graph))
  {
    AddNodeFacts(ix.graph, ix.config, id, e, LevelDrawn(ix));
    hide GoodEdges, GoodLive, GoodOrder, GoodEmbeddings, Connected, Extends, OnlyNewLinks, Reported, SameShape, LinkIn;
    LinkInFacts(ix.graph, Added(ix, id, e), LinkOf(ix, e), ix.graph.entry.value, LevelDrawn(ix));
  }

  lemma ReportedStart(g: Graph, cur: nat, node: nat, r: Linked)
    requires Reported(Linked(g, cur, {node}), r)
    ensures Reported(Linked(g, 0, {node}), r)
  {}

  lemma InsertEntry(g: Graph, g1: Graph, h: Graph, node: nat)
    requires GoodEntry(g) && g.entry.Some? && Extends(g, g1, node) && g1.entry == g.entry && SameShape(g1, h)
    requires forall i: nat :: i != node ==> g1.NodeLevel(i) == g.NodeLevel(i)
    ensures g1.NodeLevel(node) > g1.NodeLevel(g.entry.value) ==> GoodEntry(h.(entry := Some(node)))
    ensures g1.NodeLevel(node) <= g1.NodeLevel(g.entry.value) ==> GoodEntry(h)
  {
    ShapeCounts(g1, h);
    assert forall i: nat :: h.NodeLevel(i) == g1.NodeLevel(i);
    var h' := h.(entry := Some(node));
    assert forall i: nat :: h'.NodeLevel(i) == h.NodeLevel(i) && (h'.IsLive(i) <==> h.IsLive(i));
  }

  // The entry point plays no part in the other invariants.
  lemma EntryIrrelevant(g: Graph, config: HnswConfig, entry: Option<nat>)
    ensures var h := g.(entry := entry);
            && (GoodEdges(g, config) ==> GoodEdges(h, config))
            && (GoodLive(g) ==> GoodLive(h))
            && (GoodOrder(g) ==> GoodOrder(h))
            && Content(h) == Content(g)
            && (Connected(g) ==> Connected(h))
  {
    var h := g.(entry := entry);
    assert forall i: nat, l: nat :: h.Neighbors(i, l) == g.Neighbors(i, l);
    assert forall i: nat :: h.IsLive(i) <==> g.IsLive(i);
    if GoodEdges(g, config) {
      forall i: nat, l: nat
        ensures GoodList(h, i, l, h.Neighbors(i, l), config.Limit(l))
      {
        assert GoodList(g, i, l, g.Neighbors(i, l), config.Limit(l));
      }
    }
    if Connected(g) {
      forall i: nat, j: nat | Mutual(g, i, j)
        ensures Mutual(h, i, j)
      {
        MutualGrows(g, h, i, j);
      }
    }
  }

  lemma InsertGood(ix: Index, id: VectorId, e: Embedding)
    requires Good(ix) && WellFormedEmbedding(e)
    ensures Good(Insert(ix, id, e).0)
    ensures Content(Insert(ix, id, e).0.graph) == Oracle.Apply(Content(ix.graph), ix.dimension, Oracle.Insert(id, e))
  {
    InsertAccepted(ix, id, e);
    if Accepts(ix, id, e) {
      if ix.graph.entry == None {
        InsertFirst(ix, id, e);
      } else {
        InsertLinked(ix, id, e);
      }
    }
  }

  lemma EmbeddingsAdded(g: Graph, id: VectorId, e: Embedding, level: nat, dimension: nat)
    requires GoodEmbeddings(g, dimension) && |e| == dimension && WellFormedEmbedding(e)
    requires g.AddNode(id, e, level).Ok?
    ensures GoodEmbeddings(g.AddNode(id, e, level).value, dimension)
  {}

  lemma EmbeddingsSameShape(g: Graph, h: Graph, dimension: nat)
    requires SameShape(g, h)
    ensures GoodEmbeddings(g, dimension) ==> GoodEmbeddings(h, dimension)
  {}

  lemma AddedFacts(ix: Index, id: VectorId, e: Embedding)
    requires Good(ix) && WellFormedEmbedding(e) && Accepts(ix, id, e)
    requires ix.graph.AddNode(id, e, LevelDrawn(ix)).Ok?
    ensures var g1, node := Added(ix, id, e), |ix.graph.nodes|;
            && GoodEdges(g1, ix.config) && GoodLive(g1) && GoodOrder(g1) && GoodEmbeddings(g1, ix.dimension)
            && Extends(ix.graph, g1, node)
            && |g1.nodes| == node + 1 && g1.entry == ix.graph.entry && g1.NodeLevel(node) == LevelDrawn(ix)
            && (forall i: nat :: i != node ==> g1.NodeLevel(i) == ix.graph.NodeLevel(i))
            && Content(g1) == Content(ix.graph)[id := e]
  {
    var level := LevelDrawn(ix);
    var g1, node := Added(ix, id, e), |ix.graph.nodes|;
    assert forall i: nat :: i != node ==> g1.NodeLevel(i) == ix.graph.NodeLevel(i);
    hide GoodEdges, GoodLive, GoodOrder, GoodEmbeddings, Connected, Extends, Content, LevelDrawn;
    AddNodeLive(ix.graph, id, e, level);
    AddNodeContent(ix.graph, id, e, level);
    AddNodeFacts(ix.graph, ix.config, id, e, level);
    EmbeddingsAdded(ix.graph, id, e, level, ix.dimension);
  }

  lemma FirstEntry(g: Graph, g1: Graph, node: nat)
    requires GoodEntry(g) && g.entry == None && Extends(g, g1, node)
    ensures GoodEntry(g1.(entry := Some(node)))
    ensures forall i: nat :: !g.IsLive(i)
  {
    var h := g1.(entry := Some(node));
    assert forall i: nat :: h.IsLive(i) <==> g1.IsLive(i);
  }

  lemma InsertFirst(ix: Index, id: VectorId, e: Embedding)
    requires Good(ix) && WellFormedEmbedding(e) && Accepts(ix, id, e) && ix.graph.entry == None
    ensures Good(Insert(ix, id, e).0)
    ensures Content(Insert(ix, id, e).0.graph) == Content(ix.graph)[id := e]
  {
    var node := |ix.graph.nodes|;
    InsertAccepted(ix, id, e);
    var g1 := Added(ix, id, e);
    assert Insert(ix, id, e).0 == ix.(graph := g1.(entry := Some(node)), rng := Rng.NextState(ix.rng));
    AddedFacts(ix, id, e);
    hide GoodEdges, GoodLive, GoodOrder, GoodEntry, GoodEmbeddings, Connected, Extends, Content, LevelDrawn, Insert;
    FirstEntry(ix.graph, g1, node);
    EntryIrrelevant(g1, ix.config, Some(node));
    EmbeddingsEntry(g1, ix.dimension, Some(node));
    if Small(g1, ix.config) {
      ConnectedFirst(ix.graph, g1, node);
    }
  }

  // The graph an accepted insert ends with.
  ghost function Final(ix: Index, id: VectorId, e: Embedding): Graph
    requires ix.graph.AddNode(id, e, LevelDrawn(ix)).Ok? && ix.graph.entry.Some?
  {
    var h := LinkedIn(ix, id, e).graph;
    if LevelDrawn(ix) > Added(ix, id, e).NodeLevel(ix.graph.entry.value) then h.(entry := Some(|ix.graph.nodes|)) else h
  }

  lemma InsertResult(ix: Index, id: VectorId, e: Embedding)
    requires Accepts(ix, id, e) && ix.graph.AddNode(id, e, LevelDrawn(ix)).Ok? && ix.graph.entry.Some?
    ensures Insert(ix, id, e).0 == ix.(graph := Final(ix, id, e), rng := Rng.NextState(ix.rng))
    ensures Insert(ix, id, e).1.Ok?
    ensures Insert(ix, id, e).1.value.touched == LinkedIn(ix, id, e).touched
  {
    hide LinkIn;
  }

  lemma InsertLinked(ix: Index, id: VectorId, e: Embedding)
    requires Good(ix) && WellFormedEmbedding(e) && Accepts(ix, id, e) && ix.graph.entry.Some?
    ensures Good(Insert(ix, id, e).0)
    ensures Content(Insert(ix, id, e).0.graph) == Content(ix.graph)[id := e]
  {
    InsertAccepted(ix, id, e);
    FinalGood(ix, id, e);
    InsertResult(ix, id, e);
    hide LinkIn, GoodEdges, GoodLive, GoodOrder, GoodEntry, GoodEmbeddings, Connected, Final, Insert;
  }

  lemma FinalGood(ix: Index, id: VectorId, e: Embedding)
    requires Good(ix) && WellFormedEmbedding(e) && Accepts(ix, id, e) && ix.graph.entry.Some?
    requires ix.graph.AddNode(id, e, LevelDrawn(ix)).Ok?
    ensures var f := Final(ix, id, e);
            && |f.nodes| == |ix.graph.nodes| + 1
            && GoodEdges(f, ix.config) && GoodLive(f) && GoodOrder(f) && GoodEntry(f) && GoodEmbeddings(f, ix.dimension)
            && (Small(f, ix.config) ==> Connected(f))
            && Content(f) == Content(ix.graph)[id := e]
  {
    var node := |ix.graph.nodes|;
    var g1, h := Added(ix, id, e), LinkedIn(ix, id, e).graph;
    LinkedFacts(ix, id, e);
    AddedFacts(ix, id, e);
    hide LinkIn, GoodEdges, GoodLive, GoodOrder, GoodEntry, GoodEmbeddings, Connected, Extends, OnlyNewLinks, Reported, Content,
         LevelDrawn, SameShape;
    ShapeCounts(g1, h);
    LiveSameShape(g1, h);
    EmbeddingsSameShape(g1, h, ix.dimension);
    InsertEntry(ix.graph, g1, h, node);
    EntryIrrelevant(h, ix.config, Some(node));
    EmbeddingsEntry(h, ix.dimension, Some(node));
  }

  lemma EmbeddingsEntry(g: Graph, dimension: nat, entry: Option<nat>)
    ensures GoodEmbeddings(g.(entry := entry), dimension) <==> GoodEmbeddings(g, dimension)
  {}

  // --- removing ---

  lemma {:induction false} HighestFacts(g: Graph, n: nat)
    requires n <= |g.nodes|
    ensures match Highest(g, n)
            case None => forall i: nat :: i < n ==> !g.IsLive(i)
            case Some(b) => b < n && g.IsLive(b) && forall i: nat :: i < n && g.IsLive(i) ==> g.NodeLevel(i) <= g.NodeLevel(b)
  {
    if n > 0 {
      HighestFacts(g, n - 1);
    }
  }

  lemma TombstoneFacts(g: Graph, config: HnswConfig, n: nat)
    requires GoodEdges(g, config) && GoodLive(g) && g.IsLive(n)
    ensures var h := g.Tombstone(n);
            && GoodEdges(h, config)
            && (forall i: nat, l: nat :: h.Neighbors(i, l) == g.Neighbors(i, l))
            && (forall i: nat :: h.IsLive(i) <==> g.IsLive(i) && i != n)
            && (forall i: nat :: h.NodeLevel(i) == g.NodeLevel(i))
            && (GoodOrder(g) ==> GoodOrder(h))
  {
    var h := g.Tombstone(n);
    forall i: nat, l: nat
      ensures h.Neighbors(i, l) == g.Neighbors(i, l)
      ensures GoodList(h, i, l, h.Neighbors(i, l), config.Limit(l))
    {
      assert GoodList(g, i, l, g.Neighbors(i, l), config.Limit(l));
    }
  }

  lemma TombstoneLive(g: Graph, n: nat)
    requires GoodLive(g) && g.IsLive(n)
    ensures var h := g.Tombstone(n);
            GoodLive(h) && Content(h) == Content(g) - {g.nodes[n].id}
  {
    var h := g.Tombstone(n);
    var id := g.nodes[n].id;
    assert h.live.Keys == g.live.Keys - {id};
    assert |h.live.Keys| == |g.live.Keys| - 1;
    forall x | x in h.live
      ensures h.IsLive(h.live[x]) && h.nodes[h.live[x]].id == x && h.NodeEmbedding(h.live[x]) == g.NodeEmbedding(g.live[x])
    {
    }
  }

  lemma TombstoneConnected(g: Graph, h: Graph)
    requires Connected(g)
    requires forall i: nat, l: nat :: h.Neighbors(i, l) == g.Neighbors(i, l)
    requires forall i: nat :: h.IsLive(i) ==> g.IsLive(i)
    ensures Connected(h)
  {
    forall i: nat, j: nat | Mutual(g, i, j)
      ensures Mutual(h, i, j)
    {
      MutualGrows(g, h, i, j);
    }
  }

  lemma RemoveGood(ix: Index, id: VectorId)
    requires Good(ix)
    ensures Good(Remove(ix, id).0)
    ensures Content(Remove(ix, id).0.graph) == Content(ix.graph) - {id}
    ensures Remove(ix, id).1.Some? <==> id in Content(ix.graph)
  {
    if id in ix.graph.live {
      RemoveLive(ix, id);
    } else {
      assert Content(ix.graph) == Content(ix.graph) - {id};
    }
  }

  lemma RemoveLive(ix: Index, id: VectorId)
    requires Good(ix) && id in ix.graph.live
    ensures Good(Remove(ix, id).0)
    ensures Content(Remove(ix, id).0.graph) == Content(ix.graph) - {id}
  {
    var n := ix.graph.live[id];
    var g, h, next := ix.graph, ix.graph.Tombstone(n), Remove(ix, id).0.graph;
    TombstoneFacts(g, ix.config, n);
    TombstoneLive(g, n);
    EntryIrrelevant(h, ix.config, next.entry);
    EmbeddingsEntry(h, ix.dimension, next.entry);
    RemoveEntry(ix, id);
    assert next == h.(entry := next.entry);
    assert GoodEmbeddings(h, ix.dimension);
    assert ix.graph.nodes[n].id == id && |h.nodes| == |g.nodes|;
    hide GoodEdges, GoodLive, GoodOrder, GoodEntry, GoodEmbeddings, Content, Connected;
    if Small(next, ix.config) {
      TombstoneConnected(g, h);
    }
  }

  lemma RemoveEntry(ix: Index, id: VectorId)
    requires GoodEdges(ix.graph, ix.config) && GoodLive(ix.graph) && GoodEntry(ix.graph) && id in ix.graph.live
    ensures GoodEntry(Remove(ix, id).0.graph)
  {
    var n := ix.graph.live[id];
    var h := ix.graph.Tombstone(n);
    TombstoneFacts(ix.graph, ix.config, n);
    HighestFacts(h, |h.nodes|);
    var next := Remove(ix, id).0.graph;
    assert forall i: nat :: next.IsLive(i) <==> h.IsLive(i);
    assert forall i: nat :: next.NodeLevel(i) == h.NodeLevel(i);
  }
}
