/** What linking a new node does to every neighbour list. */
module HnswLinking {
  import opened Core
  import opened Ranking
  import opened Config
  import opened Graph
  import opened Descent
  import opened Beam
  import opened BeamFacts
  import opened Select
  import opened Hnsw

  // Lists rated, sorted and selected from depend on ids and embeddings only.
  lemma {:induction false} RateCongruent(p: Probe, q: Probe, list: seq<nat>)
    requires p.query == q.query && p.score == q.score && SameShape(p.graph, q.graph)
    ensures Rate(p, list) == Rate(q, list)
  {
    if list != [] {
      RateCongruent(p, q, list[..|list| - 1]);
    }
  }

  lemma {:induction false} SelectCongruent(g: Graph, h: Graph, score: Scorer, candidates: seq<Candidate>, limit: nat,
                                           kept: seq<nat>)
    requires SameShape(g, h)
    ensures SelectFrom(g, score, candidates, limit, kept) == SelectFrom(h, score, candidates, limit, kept)
  {
    if candidates != [] && |kept| < limit {
      var next := if Crowded(g, score, candidates[0], kept) then kept else kept + [candidates[0].node];
      SelectCongruent(g, h, score, candidates[1..], limit, next);
    }
  }

  lemma BackListCongruent(g: Graph, h: Graph, k: Link, layer: nat, sel: nat)
    requires SameShape(g, h) && g.Neighbors(sel, layer) == h.Neighbors(sel, layer)
    ensures BackList(g, k, layer, sel) == BackList(h, k, layer, sel)
  {
    var grown := g.Neighbors(sel, layer) + [k.node];
    var p, q := Probe(g, g.NodeEmbedding(sel), k.score), Probe(h, h.NodeEmbedding(sel), k.score);
    RateCongruent(p, q, grown);
    SelectCongruent(g, h, k.score, Sort(Rate(p, grown), Key), k.config.Limit(layer), []);
  }

  // Exactly the selected nodes' lists change, each to its back list.
  lemma {:induction false} BackLinksReads(g: Graph, k: Link, layer: nat, selected: seq<nat>)
    requires NoDuplicates(selected)
    requires forall x :: x in selected ==> x < |g.nodes| && layer < |g.nodes[x].neighbors|
    ensures var h := BackLinks(g, k, layer, selected);
            && SameShape(g, h)
            && forall i: nat, l: nat ::
                 h.Neighbors(i, l) == if i in selected && l == layer then BackList(g, k, layer, i) else g.Neighbors(i, l)
    decreases |selected|
  {
    if selected != [] {
      var first, rest := selected[0], selected[1..];
      var g1 := g.SetNeighbors(first, layer, BackList(g, k, layer, first));
      assert first !in rest && forall x :: x in rest ==> x in selected;
      BackLinksReads(g1, k, layer, rest);
      var h := BackLinks(g1, k, layer, rest);
      forall i: nat, l: nat
        ensures h.Neighbors(i, l)
             == if i in selected && l == layer then BackList(g, k, layer, i) else g.Neighbors(i, l)
      {
        SetNeighborsReads(g, first, layer, BackList(g, k, layer, first), i, l);
        if i in rest && l == layer {
          BackListCongruent(g, g1, k, layer, i);
        }
      }
    }
  }

  // The new node has no links on a layer, in either direction.
  ghost predicate Fresh(g: Graph, node: nat, layer: nat) {
    g.Neighbors(node, layer) == [] && forall i: nat :: node !in g.Neighbors(i, layer)
  }

  // The layers below above are still to be linked.
  ghost predicate Ready(g: Graph, k: Link, above: nat, cur: nat) {
    && k.config.Valid()
    && GoodEdges(g, k.config)
    && k.node < |g.nodes| && above <= g.nodes[k.node].level + 1
    && (forall l: nat :: l < above ==> Fresh(g, k.node, l))
    && cur < |g.nodes| && cur != k.node && above <= g.nodes[cur].level + 1
  }

  lemma GoodInRange(g: Graph, config: HnswConfig)
    requires GoodEdges(g, config)
    ensures InRange(g)
  {
    forall i: nat, l: nat, x | x in g.Neighbors(i, l)
      ensures x < |g.nodes|
    {
      assert GoodList(g, i, l, g.Neighbors(i, l), config.Limit(l));
    }
  }

  // The nodes a search of a layer may walk through before the new node is
  // linked there.
  ghost function Others(g: Graph, node: nat, layer: nat): set<nat> {
    set x: nat | x < |g.nodes| && g.Has(x) && x != node && layer <= g.nodes[x].level
  }

  lemma OthersClosed(g: Graph, config: HnswConfig, node: nat, floor: nat, layer: nat)
    requires GoodEdges(g, config) && Fresh(g, node, layer) && floor <= layer
    ensures ClosedOn(g, Others(g, node, floor), layer)
  {
    forall x, y | x in Others(g, node, floor) && y in g.Neighbors(x, layer)
      ensures y in Others(g, node, floor)
    {
      assert GoodList(g, x, layer, g.Neighbors(x, layer), config.Limit(layer));
    }
  }

  // The new node never appears among its own candidates.
  lemma CandidatesFacts(g: Graph, k: Link, layer: nat, cur: nat)
    requires Ready(g, k, layer + 1, cur)
    ensures var c := Candidates(k, layer, g, cur);
            && DistinctNodes(c)
            && forall x :: x in NodesOf(c) ==> g.IsLive(x) && x in Others(g, k.node, layer) && Reaches(g, layer, cur, x)
  {
    var s := Search(Probe(g, k.embedding, k.score), k.config.efConstruction, layer, AdmitAll);
    GoodInRange(g, k.config);
    BeamSound(s, cur);
    OthersClosed(g, k.config, k.node, layer, layer);
    forall x | x in NodesOf(BeamSearch(s, cur))
      ensures g.IsLive(x) && x in Others(g, k.node, layer) && Reaches(g, layer, cur, x)
    {
      assert x in Finish(s, cur).visited;
    }
  }

  lemma ChosenFacts(g: Graph, k: Link, layer: nat, cur: nat)
    requires Ready(g, k, layer + 1, cur)
    ensures var chosen := Chosen(k, layer, g, cur);
            && GoodList(g, k.node, layer, chosen, k.config.Limit(layer))
            && (forall x :: x in chosen ==> g.IsLive(x) && x in Others(g, k.node, layer))
            && (Candidates(k, layer, g, cur) != [] ==> Candidates(k, layer, g, cur)[0].node in chosen)
  {
    CandidatesFacts(g, k, layer, cur);
    SelectDistinct(g, k.score, Candidates(k, layer, g, cur), k.config.Limit(layer));
  }

  // Linking one layer, list by list: the new node gets the chosen ones, each
  // chosen one its back list, and no other list changes.
  lemma LinkLayerReads(k: Link, layer: nat, st: Linked)
    requires Ready(st.graph, k, layer + 1, st.cur)
    ensures var g, h, chosen := st.graph, LinkLayer(k, layer, st).graph, Chosen(k, layer, st.graph, st.cur);
            && SameShape(g, h)
            && forall i: nat, l: nat ::
                 h.Neighbors(i, l) == if l != layer then g.Neighbors(i, l)
                                      else if i == k.node then chosen
                                      else if i in chosen then BackList(g, k, layer, i)
                                      else g.Neighbors(i, l)
  {
    hide Candidates, Chosen, BackLinks, BackList;
    var g, h, chosen := st.graph, LinkLayer(k, layer, st).graph, Chosen(k, layer, st.graph, st.cur);
    ChosenFacts(g, k, layer, st.cur);
    var g1 := g.SetNeighbors(k.node, layer, chosen);
    BackLinksReads(g1, k, layer, chosen);
    forall i: nat, l: nat
      ensures h.Neighbors(i, l) == if l != layer then g.Neighbors(i, l)
                                   else if i == k.node then chosen
                                   else if i in chosen then BackList(g, k, layer, i)
                                   else g.Neighbors(i, l)
    {
      SetNeighborsReads(g, k.node, layer, chosen, i, l);
      if i in chosen {
        BackListCongruent(g, g1, k, layer, i);
      }
    }
  }

  lemma {:induction false} RateNodes(p: Probe, list: seq<nat>)
    ensures |Rate(p, list)| == |list|
    ensures forall i :: 0 <= i < |list| ==> Rate(p, list)[i].node == list[i]
  {
    if list != [] {
      RateNodes(p, list[..|list| - 1]);
    }
  }

  // A back list holds old neighbours and the new node only, without repeats
  // and within the bound; below the bound it is the old list and the new node.
  lemma BackListFacts(g: Graph, k: Link, layer: nat, sel: nat)
    requires NoDuplicates(g.Neighbors(sel, layer)) && k.node !in g.Neighbors(sel, layer)
    ensures var r, limit := BackList(g, k, layer, sel), k.config.Limit(layer);
            && NoDuplicates(r) && |r| <= limit
            && (forall x :: x in r ==> x in g.Neighbors(sel, layer) || x == k.node)
            && (|g.Neighbors(sel, layer)| < limit ==> r == g.Neighbors(sel, layer) + [k.node])
  {
    var grown := g.Neighbors(sel, layer) + [k.node];
    if |grown| > k.config.Limit(layer) {
      var p := Probe(g, g.NodeEmbedding(sel), k.score);
      var rated := Rate(p, grown);
      RateNodes(p, grown);
      BeamFacts.SortDistinct(rated);
      SelectDistinct(g, k.score, Sort(rated, Key), k.config.Limit(layer));
    }
  }

  lemma {:induction false} RateScores(p: Probe, list: seq<nat>)
    ensures forall c :: c in Rate(p, list) <==> c.node in list && Key(c) == p.Key(c.node)
  {
    if list != [] {
      var n := |list| - 1;
      RateScores(p, list[..n]);
      assert list == list[..n] + [list[n]];
    }
  }

  // What a full neighbour prunes: the old neighbours and the new node, rated
  // from that neighbour's own point of view and taken closest first. What is
  // left is a diverse selection of them that keeps the closest.
  lemma PrunedSelection(g: Graph, k: Link, layer: nat, sel: nat) returns (pool: seq<Candidate>, at: seq<nat>, end: nat)
    requires |g.Neighbors(sel, layer)| >= k.config.Limit(layer) > 0
    ensures Ordered(pool, Key) && |pool| == |g.Neighbors(sel, layer)| + 1
    ensures forall c :: c in pool <==>
              && (c.node in g.Neighbors(sel, layer) || c.node == k.node)
              && Key(c) == Hit(g.NodeId(c.node), k.score(g.NodeEmbedding(sel), g.NodeEmbedding(c.node)))
    ensures var r := BackList(g, k, layer, sel);
            && Selection(g, k.score, pool, k.config.Limit(layer), r, at, end)
            && (end == |pool| || |r| == k.config.Limit(layer))
            && r != [] && r[0] == pool[0].node
  {
    var grown := g.Neighbors(sel, layer) + [k.node];
    var p := Probe(g, g.NodeEmbedding(sel), k.score);
    pool := Sort(Rate(p, grown), Key);
    RateNodes(p, grown);
    RateScores(p, grown);
    SortOrdered(Rate(p, grown), Key);
    SortPermutes(Rate(p, grown), Key);
    SortMembers(Rate(p, grown), Key);
    hide Selection, Ordered, Sort, Rate, SelectNeighbors;
    at, end := SelectionOf(g, k.score, pool, k.config.Limit(layer));
  }

  lemma LinkLayerGood(k: Link, layer: nat, st: Linked)
    requires Ready(st.graph, k, layer + 1, st.cur)
    ensures GoodEdges(LinkLayer(k, layer, st).graph, k.config)
  {
    var g, h := st.graph, LinkLayer(k, layer, st).graph;
    LinkLayerReads(k, layer, st);
    ChosenFacts(g, k, layer, st.cur);
    forall i: nat, l: nat
      ensures GoodList(h, i, l, h.Neighbors(i, l), k.config.Limit(l))
    {
      assert GoodList(g, i, l, g.Neighbors(i, l), k.config.Limit(l));
      if l == layer && i in Chosen(k, layer, g, st.cur) {
        assert Fresh(g, k.node, layer);
        BackListFacts(g, k, layer, i);
      }
    }
  }

  lemma LinkLayerReady(k: Link, layer: nat, st: Linked)
    requires Ready(st.graph, k, layer + 1, st.cur)
    ensures Ready(LinkLayer(k, layer, st).graph, k, layer, LinkLayer(k, layer, st).cur)
  {
    var g, h := st.graph, LinkLayer(k, layer, st).graph;
    LinkLayerGood(k, layer, st);
    LinkLayerReads(k, layer, st);
    ChosenFacts(g, k, layer, st.cur);
    forall l: nat | l < layer
      ensures Fresh(h, k.node, l)
    {
      assert Fresh(g, k.node, l);
    }
  }

  // One layer done: the shape is kept and the rest is still ready.
  lemma LinkLayerStep(k: Link, layer: nat, st: Linked)
    requires Ready(st.graph, k, layer + 1, st.cur)
    ensures var next := LinkLayer(k, layer, st);
            SameShape(st.graph, next.graph) && Ready(next.graph, k, layer, next.cur)
  {
    LinkLayerReads(k, layer, st);
    LinkLayerReady(k, layer, st);
  }

  // Linking keeps every list well formed.
  lemma {:induction false} LinkLayersGood(k: Link, above: nat, st: Linked)
    requires Ready(st.graph, k, above, st.cur)
    ensures GoodEdges(LinkLayers(k, above, st).graph, k.config)
    ensures SameShape(st.graph, LinkLayers(k, above, st).graph)
  {
    hide LinkLayer, GoodEdges, Fresh, SameShape;
    if above > 0 {
      LinkLayerStep(k, above - 1, st);
      LinkLayersGood(k, above - 1, LinkLayer(k, above - 1, st));
      ShapeTransitive(st.graph, LinkLayer(k, above - 1, st).graph, LinkLayers(k, above, st).graph);
    } else {
      ShapeReflexive(st.graph);
    }
  }

  lemma ShapeReflexive(g: Graph)
    ensures SameShape(g, g)
  {}

  lemma ShapeTransitive(g: Graph, h: Graph, r: Graph)
    requires SameShape(g, h) && SameShape(h, r)
    ensures SameShape(g, r)
  {}

  // A link of h that g does not have joins the new node and a live one.
  ghost predicate OldOrNew(g: Graph, node: nat, i: nat, l: nat, x: nat) {
    x in g.Neighbors(i, l) || (x == node && i != node && g.IsLive(i)) || (i == node && x != node && g.IsLive(x))
  }

  ghost predicate OnlyNewLinks(g: Graph, h: Graph, node: nat) {
    forall i: nat, l: nat, x :: x in h.Neighbors(i, l) ==> OldOrNew(g, node, i, l, x)
  }

  lemma NoNewLinks(g: Graph, node: nat)
    ensures OnlyNewLinks(g, g, node)
  {}

  lemma OnlyNewTransitive(g: Graph, h: Graph, r: Graph, node: nat)
    requires SameShape(g, h) && OnlyNewLinks(g, h, node) && OnlyNewLinks(h, r, node)
    ensures OnlyNewLinks(g, r, node)
  {
    forall i: nat, l: nat, x | x in r.Neighbors(i, l)
      ensures OldOrNew(g, node, i, l, x)
    {
      assert OldOrNew(h, node, i, l, x);
      if x in h.Neighbors(i, l) {
        assert OldOrNew(g, node, i, l, x);
      }
    }
  }

  lemma BackListOnlyNew(g: Graph, k: Link, layer: nat, i: nat, x: nat)
    requires GoodEdges(g, k.config) && Fresh(g, k.node, layer) && g.IsLive(i) && i != k.node
    requires x in BackList(g, k, layer, i)
    ensures OldOrNew(g, k.node, i, layer, x)
  {
    assert GoodList(g, i, layer, g.Neighbors(i, layer), k.config.Limit(layer));
    BackListFacts(g, k, layer, i);
  }

  lemma LinkLayerOnlyNew(k: Link, layer: nat, st: Linked)
    requires Ready(st.graph, k, layer + 1, st.cur)
    ensures OnlyNewLinks(st.graph, LinkLayer(k, layer, st).graph, k.node)
  {
    var g, h, chosen := st.graph, LinkLayer(k, layer, st).graph, Chosen(k, layer, st.graph, st.cur);
    LinkLayerReads(k, layer, st);
    ChosenFacts(g, k, layer, st.cur);
    forall i: nat, l: nat, x | x in h.Neighbors(i, l)
      ensures OldOrNew(g, k.node, i, l, x)
    {
      if l == layer && i != k.node && i in chosen {
        BackListOnlyNew(g, k, layer, i, x);
      }
    }
  }

  lemma {:induction false} LinkLayersOnlyNew(k: Link, above: nat, st: Linked)
    requires Ready(st.graph, k, above, st.cur)
    ensures OnlyNewLinks(st.graph, LinkLayers(k, above, st).graph, k.node)
  {
    hide LinkLayer, Ready, SameShape, OnlyNewLinks;
    if above > 0 {
      var next := LinkLayer(k, above - 1, st);
      LinkLayerStep(k, above - 1, st);
      LinkLayerOnlyNew(k, above - 1, st);
      LinkLayersOnlyNew(k, above - 1, next);
      OnlyNewTransitive(st.graph, next.graph, LinkLayers(k, above - 1, next).graph, k.node);
    } else {
      NoNewLinks(st.graph, k.node);
    }
  }

  // Rows of nodes not reported as touched are unchanged.
  ghost predicate Reported(st: Linked, r: Linked) {
    && |st.graph.nodes| == |r.graph.nodes|
    && st.touched <= r.touched
    && (forall x :: x in r.touched ==> x < |st.graph.nodes| || x in st.touched)
    && forall i :: 0 <= i < |st.graph.nodes| && i !in r.touched ==> r.graph.nodes[i] == st.graph.nodes[i]
  }

  lemma ReportedReflexive(st: Linked)
    ensures Reported(st, st)
  {}

  lemma ReportedTransitive(a: Linked, b: Linked, c: Linked)
    requires Reported(a, b) && Reported(b, c)
    ensures Reported(a, c)
  {}

  lemma SameRow(g: Graph, h: Graph, i: nat)
    requires SameShape(g, h) && i < |g.nodes|
    requires forall l: nat :: h.Neighbors(i, l) == g.Neighbors(i, l)
    ensures h.nodes[i] == g.nodes[i]
  {
    forall l | 0 <= l < |g.nodes[i].neighbors|
      ensures h.nodes[i].neighbors[l] == g.nodes[i].neighbors[l]
    {
      assert h.Neighbors(i, l) == g.Neighbors(i, l);
    }
    assert h.nodes[i].neighbors == g.nodes[i].neighbors;
  }

  lemma LinkLayerReported(k: Link, layer: nat, st: Linked)
    requires Ready(st.graph, k, layer + 1, st.cur) && k.node in st.touched
    ensures Reported(st, LinkLayer(k, layer, st))
  {
    var next := LinkLayer(k, layer, st);
    LinkLayerReads(k, layer, st);
    ChosenFacts(st.graph, k, layer, st.cur);
    forall i | 0 <= i < |st.graph.nodes| && i !in next.touched
      ensures next.graph.nodes[i] == st.graph.nodes[i]
    {
      assert i !in Chosen(k, layer, st.graph, st.cur);
      SameRow(st.graph, next.graph, i);
    }
  }

  lemma {:induction false} LinkLayersReported(k: Link, above: nat, st: Linked)
    requires Ready(st.graph, k, above, st.cur) && k.node in st.touched
    ensures Reported(st, LinkLayers(k, above, st))
  {
    hide LinkLayer, Ready, Reported;
    if above > 0 {
      var next := LinkLayer(k, above - 1, st);
      LinkLayerStep(k, above - 1, st);
      LinkLayerReported(k, above - 1, st);
      LinkLayersReported(k, above - 1, next);
      ReportedTransitive(st, next, LinkLayers(k, above - 1, next));
    } else {
      ReportedReflexive(st);
    }
  }
}
