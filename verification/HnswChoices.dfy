/** What searching and linking choose: the candidates a beam search finds, the
    neighbours a new node gets on every layer, and what a query is answered
    with, told from the graph, the vectors and the scores alone. */
module HnswChoices {
  import opened Core
  import opened Ranking
  import opened Config
  import opened Graph
  import opened Descent
  import opened Beam
  import opened BeamFacts
  import opened Select
  import opened Hnsw
  import opened HnswLinking
  import opened HnswConnect
  import opened HnswInvariant
  import opened HnswRuns
  import opened HnswExact
  import Flat
  import Oracle
  import Rng

  // --- beam search ---

  // x is the start or a neighbour, on the layer, of a node of the pool.
  ghost predicate Beside(g: Graph, layer: nat, start: nat, pool: seq<Candidate>, x: nat) {
    x == start || exists c :: c in pool && x in g.Neighbors(c.node, layer)
  }

  // At most ef live admissible nodes reachable from the start over the layer's
  // links, each with its score against the query, best first. A reachable one
  // is left out only if the pool is full, and one that is the start or beside
  // a node of the pool only if it scores no higher than the whole pool.
  ghost predicate Found(g: Graph, query: Embedding, score: Scorer, ef: nat, layer: nat, start: nat, admit: VectorId -> bool,
                        pool: seq<Candidate>)
  {
    && |pool| <= ef && Ordered(pool, Key) && DistinctNodes(pool)
    && (forall c :: c in pool ==>
          && g.IsLive(c.node) && admit(g.NodeId(c.node)) && Reaches(g, layer, start, c.node)
          && Key(c) == Hit(g.NodeId(c.node), score(query, g.NodeEmbedding(c.node))))
    && (forall x: nat :: g.IsLive(x) && admit(g.NodeId(x)) && Reaches(g, layer, start, x) && x !in NodesOf(pool) ==> |pool| == ef)
    && (forall x: nat, d ::
          g.IsLive(x) && admit(g.NodeId(x)) && Beside(g, layer, start, pool, x) && x !in NodesOf(pool) && d in pool ==>
          score(query, g.NodeEmbedding(x)) <= d.score)
  }

  lemma BeamFinds(s: Search, entry: nat)
    requires s.ef >= 1 && entry < |s.probe.graph.nodes| && InRange(s.probe.graph)
    ensures Found(s.probe.graph, s.probe.query, s.probe.score, s.ef, s.layer, entry, s.admit, BeamSearch(s, entry))
  {
    var g, out, fin := s.probe.graph, BeamSearch(s, entry), Finish(s, entry);
    BeamSound(s, entry);
    forall x: nat | g.IsLive(x) && s.admit(g.NodeId(x)) && Reaches(g, s.layer, entry, x) && x !in NodesOf(out)
      ensures |out| == s.ef
    {
      if |out| < s.ef {
        FrontierExhausted(s, entry);
      }
    }
    BesideSeen(s, entry);
    hide BeamSearch, Finish, Reaches, Ordered, DistinctNodes;
  }

  // The start and the neighbours of every returned node have been seen.
  lemma BesideSeen(s: Search, entry: nat)
    requires s.ef >= 1 && entry < |s.probe.graph.nodes| && InRange(s.probe.graph)
    ensures forall x: nat :: Beside(s.probe.graph, s.layer, entry, BeamSearch(s, entry), x) ==> x in Finish(s, entry).visited
  {
    var g, out, fin := s.probe.graph, BeamSearch(s, entry), Finish(s, entry);
    BeamSound(s, entry);
    StartInv(s, entry);
    LoopKeeps(s, Start(s, entry));
    hide BeamSearch, Loop, Inv;
    forall x: nat | Beside(g, s.layer, entry, out, x)
      ensures x in fin.visited
    {
      if x != entry {
        var c :| c in out && x in g.Neighbors(c.node, s.layer);
        ReturnedIsExpanded(s, fin, out, c);
      }
    }
  }

  lemma ReturnedIsExpanded(s: Search, fin: State, out: seq<Candidate>, c: Candidate)
    requires GoodFrontier(s, fin) && GoodResult(s, fin.visited, out) && c in out
    requires forall f, d :: f in fin.frontier && d in out ==> f.score < d.score
    ensures c.node in fin.visited && c.node !in NodesOf(fin.frontier)
  {
    forall f | f in fin.frontier
      ensures f.node != c.node
    {
      assert f == s.At(f.node) && c == s.At(c.node) && f.score < c.score;
    }
  }

  // A node that is reachable but beside no node of the pool may score higher
  // than all of it: from node 0 the search is stopped by node 1 and never sees
  // node 2.
  lemma BeamMisses() returns (s: Search)
    ensures |s.probe.graph.nodes| == 3 && s.ef == 1 && InRange(s.probe.graph)
    ensures Reaches(s.probe.graph, s.layer, 0, 2) && s.Admissible(2)
    ensures BeamSearch(s, 0) == [s.At(0)] && s.At(2).score > s.At(0).score
  {
    var zero, one, two := F32(0, 0, 0, 0), F32(0, 0, 128, 63), F32(0, 0, 0, 64);
    var nodes := [Node(0, [zero], [[1]], 0, false), Node(1, [one], [[2]], 0, false), Node(2, [two], [[]], 0, false)];
    var g := Graph(nodes, map[0 := 0, 1 := 1, 2 := 2], Some(0), 3);
    var score: Scorer := (q: Embedding, e: Embedding) => if e == [zero] then 5.0 else if e == [one] then 3.0 else 10.0;
    s := Search(Probe(g, [], score), 1, 0, AdmitAll);
    assert [zero][0] != [one][0] && [one][0] != [two][0] && [zero][0] != [two][0];
    assert g.Neighbors(0, 0) == [1] && g.Neighbors(1, 0) == [2] && g.Neighbors(2, 0) == [];
    assert s.At(0).score == 5.0 && s.At(1).score == 3.0 && s.At(2).score == 10.0;
    ReachesStep(g, 0, 0, 1);
    ReachesStep(g, 0, 1, 2);
    ReachesOn(g, 0, 0, 1, 2);
    MissesLoop(s);
  }

  lemma ReachesOn(g: Graph, layer: nat, a: nat, b: nat, c: nat)
    requires Reaches(g, layer, a, b) && Reaches(g, layer, b, c)
    ensures Reaches(g, layer, a, c)
  {}

  lemma MissesLoop(s: Search)
    requires |s.probe.graph.nodes| == 3 && s.ef == 1 && s.probe.graph.Neighbors(0, s.layer) == [1]
    requires s.Admissible(0) && s.Admissible(1) && s.At(1).score < s.At(0).score
    ensures BeamSearch(s, 0) == [s.At(0)]
  {
    var st := Start(s, 0);
    var next := State({0, 1}, [s.At(1)], [s.At(0)]);
    assert Drop([s.At(0)], 0) == [];
    assert Visit(s, st.(frontier := []), 1) == next;
    assert Expand(s, next, []) == next;
    assert [1][1..] == [];
    assert Beam.Step(s, st) == next;
    assert !Stops(s, st) && Stops(s, next);
    assert Loop(s, st) == next;
    assert Sort([s.At(0)], Key) == [s.At(0)] by { SortFixed([s.At(0)], Key); }
  }

  // --- the order in which the search works ---

  // The search stops when nothing waits, or when the result is full and all
  // that waits scores strictly below all of it; otherwise it goes on from a
  // waiting candidate none comes before, and sees exactly its neighbours.
  lemma LoopOrder(s: Search, st: State)
    requires s.ef >= 1
    ensures (st.frontier == [] || (|st.result| >= s.ef &&
              forall c, d :: c in st.frontier && d in st.result ==> c.score < d.score))
            ==> Loop(s, st) == st
    ensures !(st.frontier == [] || (|st.result| >= s.ef &&
              forall c, d :: c in st.frontier && d in st.result ==> c.score < d.score))
            ==> Loop(s, st) == Loop(s, Beam.Step(s, st))
  {
    if st.frontier != [] && st.result != [] {
      var b, w := BestIndex(st.frontier), WorstIndex(st.result);
      assert st.frontier[b] in st.frontier && st.result[w] in st.result;
      forall c | c in st.frontier
        ensures c.score <= st.frontier[b].score
      {
        var j :| 0 <= j < |st.frontier| && st.frontier[j] == c;
        assert !Before(Key(st.frontier[j]), Key(st.frontier[b]));
      }
      forall d | d in st.result
        ensures st.result[w].score <= d.score
      {
        WorstIsLowest(st.result, d);
      }
    }
    hide Beam.Step, BestIndex, WorstIndex;
  }

  lemma StepExpands(s: Search, st: State) returns (at: nat)
    requires st.frontier != [] && InRange(s.probe.graph)
    ensures at < |st.frontier| && forall c :: c in st.frontier ==> !Before(Key(c), Key(st.frontier[at]))
    ensures Beam.Step(s, st).visited == st.visited + AsSet(s.probe.graph.Neighbors(st.frontier[at].node, s.layer))
    ensures forall x :: x in NodesOf(Beam.Step(s, st).frontier) <==>
              || x in NodesOf(Drop(st.frontier, at))
              || (x in s.probe.graph.Neighbors(st.frontier[at].node, s.layer) && x !in st.visited)
  {
    at := BestIndex(st.frontier);
    forall c | c in st.frontier
      ensures !Before(Key(c), Key(st.frontier[at]))
    {
      var j :| 0 <= j < |st.frontier| && st.frontier[j] == c;
    }
    var list, before := s.probe.graph.Neighbors(st.frontier[at].node, s.layer), st.(frontier := Drop(st.frontier, at));
    ExpandExactly(s, before, list);
    hide Expand;
  }

  lemma {:induction false} ExpandExactly(s: Search, st: State, list: seq<nat>)
    requires forall x :: x in list ==> x < |s.probe.graph.nodes|
    ensures Expand(s, st, list).visited == st.visited + AsSet(list)
    ensures forall x :: x in NodesOf(Expand(s, st, list).frontier) <==>
              x in NodesOf(st.frontier) || (x in list && x !in st.visited)
    decreases |list|
  {
    if list != [] {
      var next := Visit(s, st, list[0]);
      assert list[0] in list;
      assert forall x :: x in list[1..] ==> x in list;
      ExpandExactly(s, next, list[1..]);
      assert AsSet(list) == {list[0]} + AsSet(list[1..]) by {
        assert list == [list[0]] + list[1..];
      }
      VisitExactly(s, st, list[0]);
      assert forall x :: x in list <==> x == list[0] || x in list[1..];
      hide Visit, Expand, NodesOf;
    }
  }

  lemma VisitExactly(s: Search, st: State, n: nat)
    requires n < |s.probe.graph.nodes|
    ensures Visit(s, st, n).visited == st.visited + {n}
    ensures NodesOf(Visit(s, st, n).frontier) == NodesOf(st.frontier) + (if n in st.visited then {} else {n})
  {
    var longer := st.frontier + [s.At(n)];
    assert longer[|st.frontier|] == s.At(n) && longer[..|st.frontier|] == st.frontier;
    forall c
      ensures c in longer <==> c in st.frontier || c == s.At(n)
    {
    }
    hide Admit;
  }

  // What becomes of the result when a node is seen: it stays as it is unless
  // the node is admissible and there is room or a strictly lower score in it;
  // then the node is put in and, when that is one too many, the last of all in
  // the order of hits is taken out.
  lemma AdmitMeans(s: Search, result: seq<Candidate>, n: nat)
    requires s.ef >= 1 && |result| <= s.ef
    ensures var r, grown := Admit(s, result, n), result + [s.At(n)];
            if !s.Admissible(n) || (|result| == s.ef && forall d :: d in result ==> s.At(n).score <= d.score) then r == result
            else if |result| < s.ef then r == grown
            else exists out: nat :: out < |grown| && r == Drop(grown, out)
                                    && forall c :: c in grown ==> !Before(Key(grown[out]), Key(c))
  {
    var grown := result + [s.At(n)];
    if |result| == s.ef {
      var w, out := WorstIndex(result), WorstIndex(grown);
      assert result[w] in result;
      forall d | d in result
        ensures result[w].score <= d.score
      {
        WorstIsLowest(result, d);
      }
      assert |Drop(grown, out)| == s.ef;
      assert Evict(Drop(grown, out), s.ef) == Drop(grown, out);
      assert Evict(grown, s.ef) == Drop(grown, out);
      forall c | c in grown
        ensures !Before(Key(grown[out]), Key(c))
      {
        var j :| 0 <= j < |grown| && grown[j] == c;
      }
    }
    hide WorstIndex;
  }

  // --- greedy descent ---

  ghost predicate NoCloserNeighbor(p: Probe, layer: nat, x: nat) {
    forall y :: y in p.graph.Neighbors(x, layer) ==> !p.Closer(y, x)
  }

  // stops[i] is where the descent stops on layer to + i, the last one where it
  // starts: each stop is reached over the layer's links from the one above, is
  // that one or closer, and has no closer neighbour on its layer.
  ghost predicate DescentStops(p: Probe, to: nat, start: nat, stops: seq<nat>) {
    && stops != [] && stops[|stops| - 1] == start
    && forall i: nat :: i < |stops| - 1 ==> StopsAt(p, to + i, stops[i + 1], stops[i])
  }

  ghost predicate StopsAt(p: Probe, layer: nat, above: nat, stop: nat) {
    Reaches(p.graph, layer, above, stop) && (stop == above || p.Closer(stop, above)) && NoCloserNeighbor(p, layer, stop)
  }

  lemma {:induction false} DescentTrace(p: Probe, above: nat, to: nat, start: nat) returns (stops: seq<nat>)
    requires to <= above
    ensures |stops| == above - to + 1 && DescentStops(p, to, start, stops) && stops[0] == Descend(p, above, to, start)
    decreases above
  {
    hide StopsAt;
    if above == to {
      stops := [start];
    } else {
      var next := DescendLayer(p, above - 1, start);
      LayerStops(p, above - 1, start);
      var rest := DescentTrace(p, above - 1, to, next);
      stops := rest + [start];
    }
  }

  lemma LayerStops(p: Probe, layer: nat, start: nat)
    ensures StopsAt(p, layer, start, DescendLayer(p, layer, start))
  {
    DescendLayerBest(p, layer, start);
    DescendLayerReaches(p, layer, start);
  }

  lemma DescendLayerReaches(p: Probe, layer: nat, start: nat)
    ensures Reaches(p.graph, layer, start, DescendLayer(p, layer, start))
  {
    forall s: set<nat> | start in s && ClosedOn(p.graph, s, layer)
      ensures DescendLayer(p, layer, start) in s
    {
      DescendLayerStays(p, layer, start, s);
    }
  }

  // --- linking ---

  // list is what the heuristic keeps of the pool.
  ghost predicate Keeps(g: Graph, score: Scorer, pool: seq<Candidate>, limit: nat, list: seq<nat>) {
    exists at, end :: Selection(g, score, pool, limit, list, at, end) && (end == |pool| || |list| == limit)
  }

  // The layers 0 to |pools| - 1 as linking leaves them: on layer l the search
  // from starts[l] finds pools[l], the new node's list is what the heuristic
  // keeps of it, each kept neighbour gets its back list, and the search of the
  // next layer down starts from the best found. No other list changes.
  ghost predicate LinkedBy(g: Graph, h: Graph, k: Link, start: nat, starts: seq<nat>, pools: seq<seq<Candidate>>) {
    && |starts| == |pools| && (pools != [] ==> starts[|pools| - 1] == start)
    && (forall l: nat :: 0 < l < |pools| ==> starts[l - 1] == if pools[l] == [] then starts[l] else pools[l][0].node)
    && (forall l: nat :: l < |pools| ==> LayerLinked(g, h, k, l, starts[l], pools[l]))
    && (forall i: nat, l: nat :: i != k.node || l >= |pools| ==>
          h.Neighbors(i, l) == if l < |pools| && i in h.Neighbors(k.node, l) then BackList(g, k, l, i) else g.Neighbors(i, l))
  }

  ghost predicate LayerLinked(g: Graph, h: Graph, k: Link, l: nat, start: nat, pool: seq<Candidate>) {
    && Found(g, k.embedding, k.score, k.config.efConstruction, l, start, AdmitAll, pool)
    && Keeps(g, k.score, pool, k.config.Limit(l), h.Neighbors(k.node, l))
  }

  lemma ChosenBy(k: Link, layer: nat, st: Linked)
    requires Ready(st.graph, k, layer + 1, st.cur)
    ensures var pool, next := Candidates(k, layer, st.graph, st.cur), LinkLayer(k, layer, st);
            && Found(st.graph, k.embedding, k.score, k.config.efConstruction, layer, st.cur, AdmitAll, pool)
            && Keeps(st.graph, k.score, pool, k.config.Limit(layer), next.graph.Neighbors(k.node, layer))
            && next.cur == if pool == [] then st.cur else pool[0].node
  {
    var pool := Candidates(k, layer, st.graph, st.cur);
    GoodInRange(st.graph, k.config);
    BeamFinds(Search(Probe(st.graph, k.embedding, k.score), k.config.efConstruction, layer, AdmitAll), st.cur);
    var at, end := SelectionOf(st.graph, k.score, pool, k.config.Limit(layer));
    LinkLayerReads(k, layer, st);
    hide Found, Selection, BeamSearch, GoodEdges, SelectNeighbors, BackLinks, Fresh;
  }

  lemma FoundSame(g: Graph, h: Graph, query: Embedding, score: Scorer, ef: nat, layer: nat, start: nat, admit: VectorId -> bool,
                  pool: seq<Candidate>)
    requires SameShape(g, h) && (forall i: nat :: g.Neighbors(i, layer) == h.Neighbors(i, layer))
    requires Found(h, query, score, ef, layer, start, admit, pool)
    ensures Found(g, query, score, ef, layer, start, admit, pool)
  {
    ShapeReads(g, h);
    forall x: nat
      ensures Reaches(g, layer, start, x) <==> Reaches(h, layer, start, x)
    {
      ReachesBoth(g, h, layer, start, x);
    }
    forall x: nat
      ensures Beside(g, layer, start, pool, x) <==> Beside(h, layer, start, pool, x)
    {
    }
    hide Reaches, Beside, SameShape, Ordered, DistinctNodes;
  }

  lemma ReachesBoth(g: Graph, h: Graph, layer: nat, i: nat, j: nat)
    requires forall a: nat :: g.Neighbors(a, layer) == h.Neighbors(a, layer)
    ensures Reaches(g, layer, i, j) <==> Reaches(h, layer, i, j)
  {
    if Reaches(g, layer, i, j) {
      ReachesSame(g, h, layer, i, j);
    }
    if Reaches(h, layer, i, j) {
      ReachesSame(h, g, layer, i, j);
    }
  }

  lemma ShapeReads(g: Graph, h: Graph)
    requires SameShape(g, h)
    ensures forall i: nat :: h.NodeId(i) == g.NodeId(i) && h.NodeEmbedding(i) == g.NodeEmbedding(i)
    ensures forall i: nat :: h.IsLive(i) <==> g.IsLive(i)
    ensures forall i: nat :: h.NodeLevel(i) == g.NodeLevel(i)
  {}

  lemma KeepsSame(g: Graph, h: Graph, score: Scorer, pool: seq<Candidate>, limit: nat, list: seq<nat>)
    requires SameShape(g, h) && Keeps(h, score, pool, limit, list)
    ensures Keeps(g, score, pool, limit, list)
  {
    ShapeReads(g, h);
    var at, end :| Selection(h, score, pool, limit, list, at, end) && (end == |pool| || |list| == limit);
    SelectionSame(g, h, score, pool, limit, list, at, end);
  }

  lemma SelectionSame(g: Graph, h: Graph, score: Scorer, pool: seq<Candidate>, limit: nat, list: seq<nat>, at: seq<nat>, end: nat)
    requires forall i: nat :: h.NodeEmbedding(i) == g.NodeEmbedding(i)
    requires Selection(h, score, pool, limit, list, at, end)
    ensures Selection(g, score, pool, limit, list, at, end)
  {
    forall i | 0 <= i < end && i < |pool| && i !in at
      ensures Crowded(g, score, pool[i], list)
    {
      assert Crowded(h, score, pool[i], list);
    }
  }

  // Linking layer by layer, for any number of layers.
  lemma {:induction false} LinkLayersBy(k: Link, above: nat, st: Linked) returns (starts: seq<nat>, pools: seq<seq<Candidate>>)
    requires Ready(st.graph, k, above, st.cur)
    ensures |pools| == above && LinkedBy(st.graph, LinkLayers(k, above, st).graph, k, st.cur, starts, pools)
    decreases above
  {
    hide Found, Keeps, Candidates, Chosen, LinkLayer, Ready, BackList, LayerLinked, LinkedBy;
    if above == 0 {
      starts, pools := [], [];
      NothingLinked(st.graph, k, st.cur);
    } else {
      var top := above - 1;
      var g, next, pool := st.graph, LinkLayer(k, top, st), Candidates(k, top, st.graph, st.cur);
      ChosenBy(k, top, st);
      LinkLayerStep(k, top, st);
      TopLists(k, top, st);
      var lower, found := LinkLayersBy(k, top, next);
      starts, pools := lower + [st.cur], found + [pool];
      LayersJoin(g, next.graph, LinkLayers(k, top, next).graph, k, st.cur, next.cur, pool, lower, found);
    }
  }

  lemma NothingLinked(g: Graph, k: Link, start: nat)
    ensures LinkedBy(g, g, k, start, [], [])
  {}

  // The lists after linking one layer, in terms of the new node's list.
  ghost predicate OneLayer(g: Graph, m: Graph, k: Link, top: nat) {
    forall i: nat, l: nat :: i != k.node || l != top ==>
      m.Neighbors(i, l) == if l == top && i in m.Neighbors(k.node, top) then BackList(g, k, top, i) else g.Neighbors(i, l)
  }

  lemma TopLists(k: Link, top: nat, st: Linked)
    requires Ready(st.graph, k, top + 1, st.cur)
    ensures OneLayer(st.graph, LinkLayer(k, top, st).graph, k, top)
  {
    hide Ready, BackList, LinkLayer, Chosen;
    LinkLayerReads(k, top, st);
  }

  // The top layer linked first, the layers below it after.
  lemma LayersJoin(g: Graph, m: Graph, h: Graph, k: Link, start: nat, cur: nat, pool: seq<Candidate>, lower: seq<nat>,
                   found: seq<seq<Candidate>>)
    requires SameShape(g, m) && OneLayer(g, m, k, |found|)
    requires Found(g, k.embedding, k.score, k.config.efConstruction, |found|, start, AdmitAll, pool)
    requires Keeps(g, k.score, pool, k.config.Limit(|found|), m.Neighbors(k.node, |found|))
    requires cur == if pool == [] then start else pool[0].node
    requires LinkedBy(m, h, k, cur, lower, found)
    ensures LinkedBy(g, h, k, start, lower + [start], found + [pool])
  {
    var top, starts, pools := |found|, lower + [start], found + [pool];
    hide Found, Keeps, BackList;
    forall l: nat | l < |pools|
      ensures LayerLinked(g, h, k, l, starts[l], pools[l])
    {
      if l < top {
        LayerCarries(g, m, h, k, l, top, lower[l], found[l]);
      }
    }
    forall i: nat, l: nat | i != k.node || l >= |pools|
      ensures h.Neighbors(i, l)
           == if l < |pools| && i in h.Neighbors(k.node, l) then BackList(g, k, l, i) else g.Neighbors(i, l)
    {
      if l < top {
        BackListCarries(g, m, k, l, top, i);
      }
    }
    hide OneLayer, LayerLinked, SameShape;
  }

  lemma LayerCarries(g: Graph, m: Graph, h: Graph, k: Link, l: nat, top: nat, start: nat, pool: seq<Candidate>)
    requires SameShape(g, m) && OneLayer(g, m, k, top) && l < top && LayerLinked(m, h, k, l, start, pool)
    ensures LayerLinked(g, h, k, l, start, pool)
  {
    assert forall i: nat :: g.Neighbors(i, l) == m.Neighbors(i, l);
    hide OneLayer, SameShape;
    FoundSame(g, m, k.embedding, k.score, k.config.efConstruction, l, start, AdmitAll, pool);
    KeepsSame(g, m, k.score, pool, k.config.Limit(l), h.Neighbors(k.node, l));
  }

  lemma BackListCarries(g: Graph, m: Graph, k: Link, l: nat, top: nat, i: nat)
    requires SameShape(g, m) && OneLayer(g, m, k, top) && l < top
    ensures BackList(g, k, l, i) == BackList(m, k, l, i) && g.Neighbors(i, l) == m.Neighbors(i, l)
  {
    assert g.Neighbors(i, l) == m.Neighbors(i, l);
    BackListCongruent(g, m, k, l, i);
  }

  // Every list of the graph an accepted insert leaves: a greedy descent from
  // the entry point over the layers above the new node's, then on each layer
  // down from the lower of the two levels the neighbours found around the new
  // vector, and their back lists. No other list changes.
  lemma InsertLinks(ix: Index, id: VectorId, e: Embedding)
    returns (stops: seq<nat>, starts: seq<nat>, pools: seq<seq<Candidate>>)
    requires Good(ix) && Accepts(ix, id, e) && ix.graph.entry.Some?
    ensures ix.graph.AddNode(id, e, LevelDrawn(ix)).Ok?
    ensures var g1, entry, node := ix.graph.AddNode(id, e, LevelDrawn(ix)).value, ix.graph.entry.value, |ix.graph.nodes|;
            var level, high := LevelDrawn(ix), ix.graph.NodeLevel(entry);
            && |stops| == (if high > level then high - level else 0) + 1
            && DescentStops(Probe(g1, e, ix.Scorer()), level + 1, entry, stops)
            && |pools| == Min(level, high) + 1
            && LinkedBy(g1, Insert(ix, id, e).0.graph, Link(ix.config, ix.Scorer(), e, node), stops[0], starts, pools)
  {
    hide Good, GoodEdges, LinkLayers, DescentStops, Descend, LinkedBy, LevelDrawn, Insert, Extends, Connected, Ready,
         GoodEmbeddings;
    GoodGivesEmbeddings(ix);
    InsertAccepted(ix, id, e);
    GoodParts(ix);
    var g1, entry, node := ix.graph.AddNode(id, e, LevelDrawn(ix)).value, ix.graph.entry.value, |ix.graph.nodes|;
    var level, high := LevelDrawn(ix), ix.graph.NodeLevel(entry);
    AddedLevels(ix.graph, id, e, level, entry);
    var k := Link(ix.config, ix.Scorer(), e, node);
    AddNodeFacts(ix.graph, ix.config, id, e, level);
    LandingFacts(ix.graph, g1, k, entry, level);
    stops := LandingStops(g1, k, entry, level);
    starts, pools := LinkLayersBy(k, Min(level, high) + 1, Linked(g1, Landing(g1, k, entry, level), {node}));
    InsertResult(ix, id, e);
    SameLists(g1, LinkIn(g1, k, entry, level).graph, Insert(ix, id, e).0.graph, k, stops[0], starts, pools);
  }

  lemma AddedLevels(g: Graph, id: VectorId, e: Embedding, level: nat, entry: nat)
    requires g.AddNode(id, e, level).Ok? && entry < |g.nodes|
    ensures var g1 := g.AddNode(id, e, level).value;
            |g1.nodes| == |g.nodes| + 1 && g1.NodeLevel(entry) == g.NodeLevel(entry) && g1.NodeLevel(|g.nodes|) == level
  {}

  lemma LandingStops(g: Graph, k: Link, entry: nat, level: nat) returns (stops: seq<nat>)
    ensures |stops| == (if g.NodeLevel(entry) > level then g.NodeLevel(entry) - level else 0) + 1
    ensures DescentStops(Probe(g, k.embedding, k.score), level + 1, entry, stops) && stops[0] == Landing(g, k, entry, level)
  {
    if g.NodeLevel(entry) > level {
      stops := DescentTrace(Probe(g, k.embedding, k.score), g.NodeLevel(entry) + 1, level + 1, entry);
    } else {
      stops := [entry];
    }
  }

  lemma GoodParts(ix: Index)
    requires Good(ix) && ix.graph.entry.Some?
    ensures ix.config.Valid() && GoodEdges(ix.graph, ix.config) && GoodLive(ix.graph)
    ensures ix.graph.IsLive(ix.graph.entry.value)
  {}

  lemma SameLists(g: Graph, h: Graph, f: Graph, k: Link, start: nat, starts: seq<nat>, pools: seq<seq<Candidate>>)
    requires LinkedBy(g, h, k, start, starts, pools) && f.nodes == h.nodes
    ensures LinkedBy(g, f, k, start, starts, pools)
  {
    assert forall i: nat, l: nat :: f.Neighbors(i, l) == h.Neighbors(i, l);
    hide Found, Keeps, BackList;
  }

  // Linking touches the nodes the new one keeps on some layer, and no other.
  lemma {:induction false} LinkLayersTouch(k: Link, above: nat, st: Linked)
    requires Ready(st.graph, k, above, st.cur)
    ensures var r := LinkLayers(k, above, st);
            forall x :: x in r.touched <==> x in st.touched || exists l: nat :: l < above && x in r.graph.Neighbors(k.node, l)
    decreases above
  {
    hide Chosen, Ready, LinkLayer, LinkedBy;
    if above > 0 {
      var top := above - 1;
      var next, r := LinkLayer(k, top, st), LinkLayers(k, above, st);
      LinkLayerStep(k, top, st);
      LinkLayersTouch(k, top, next);
      LayerTouches(k, top, st);
      TopKept(k, top, next);
      assert r.graph.Neighbors(k.node, top) == next.graph.Neighbors(k.node, top);
      forall x
        ensures x in r.touched <==> x in st.touched || exists l: nat :: l < above && x in r.graph.Neighbors(k.node, l)
      {
        if l: nat :| l < above && x in r.graph.Neighbors(k.node, l) {
          assert l == top || l < top;
        }
      }
    }
  }

  lemma LayerTouches(k: Link, top: nat, st: Linked)
    requires Ready(st.graph, k, top + 1, st.cur)
    ensures var next := LinkLayer(k, top, st);
            forall x :: x in next.touched <==> x in st.touched || x in next.graph.Neighbors(k.node, top)
  {
    hide Ready, BackList, BackLinks, Candidates, Chosen;
    LinkLayerReads(k, top, st);
  }

  lemma TopKept(k: Link, top: nat, st: Linked)
    requires Ready(st.graph, k, top, st.cur)
    ensures LinkLayers(k, top, st).graph.Neighbors(k.node, top) == st.graph.Neighbors(k.node, top)
  {
    hide Ready, BackList, LinkLayers, LayerLinked;
    var starts, pools := LinkLayersBy(k, top, st);
  }

  lemma LinkInTouches(g: Graph, k: Link, entry: nat, level: nat)
    requires Ready(g, k, Min(level, g.NodeLevel(entry)) + 1, Landing(g, k, entry, level))
    requires forall l: nat :: g.Neighbors(k.node, l) == []
    ensures var r := LinkIn(g, k, entry, level);
            forall x :: x in r.touched <==> x == k.node || exists l: nat :: x in r.graph.Neighbors(k.node, l)
  {
    hide LinkLayers, Landing, Ready, LinkedBy, Graph.Neighbors;
    var above, st := Min(level, g.NodeLevel(entry)) + 1, Linked(g, Landing(g, k, entry, level), {k.node});
    LinkLayersTouch(k, above, st);
    var starts, pools := LinkLayersBy(k, above, st);
    NoListsAbove(g, LinkLayers(k, above, st).graph, k, st.cur, starts, pools);
  }

  // An accepted insert reports as changed its own node and those it keeps on
  // some layer, and no other.
  lemma InsertTouches(ix: Index, id: VectorId, e: Embedding)
    requires Good(ix) && Accepts(ix, id, e)
    ensures var (next, r) := Insert(ix, id, e);
            && r.Ok?
            && forall x :: x in r.value.touched <==>
                 x == |ix.graph.nodes| || exists l: nat :: x in next.graph.Neighbors(|ix.graph.nodes|, l)
  {
    hide Good, GoodEdges, LinkIn, LevelDrawn, Insert, Extends, Connected, Ready, GoodEmbeddings, Graph.Neighbors, Landing;
    GoodGivesEmbeddings(ix);
    InsertAccepted(ix, id, e);
    if ix.graph.entry == None {
      FirstTouches(ix, id, e);
    } else {
      GoodParts(ix);
      var g1, entry := Added(ix, id, e), ix.graph.entry.value;
      AddedLevels(ix.graph, id, e, LevelDrawn(ix), entry);
      AddNodeFacts(ix.graph, ix.config, id, e, LevelDrawn(ix));
      LandingFacts(ix.graph, g1, LinkOf(ix, e), entry, LevelDrawn(ix));
      NewLists(ix.graph, id, e, LevelDrawn(ix));
      LinkInTouches(g1, LinkOf(ix, e), entry, LevelDrawn(ix));
      InsertResult(ix, id, e);
      EntryKeepsLists(ix, id, e);
    }
  }

  lemma EntryKeepsLists(ix: Index, id: VectorId, e: Embedding)
    requires ix.graph.AddNode(id, e, LevelDrawn(ix)).Ok? && ix.graph.entry.Some?
    ensures forall i: nat, l: nat :: Final(ix, id, e).Neighbors(i, l) == LinkedIn(ix, id, e).graph.Neighbors(i, l)
  {
    hide LinkedIn, LevelDrawn;
  }

  lemma NoListsAbove(g: Graph, h: Graph, k: Link, start: nat, starts: seq<nat>, pools: seq<seq<Candidate>>)
    requires LinkedBy(g, h, k, start, starts, pools)
    ensures forall l: nat :: l >= |pools| ==> h.Neighbors(k.node, l) == g.Neighbors(k.node, l)
  {
    hide LayerLinked, BackList;
  }

  lemma NewLists(g: Graph, id: VectorId, e: Embedding, level: nat)
    requires g.AddNode(id, e, level).Ok?
    ensures forall l: nat :: g.AddNode(id, e, level).value.Neighbors(|g.nodes|, l) == []
  {}

  lemma FirstTouches(ix: Index, id: VectorId, e: Embedding)
    requires Accepts(ix, id, e) && ix.graph.entry == None && ix.graph.AddNode(id, e, LevelDrawn(ix)).Ok?
    ensures Insert(ix, id, e).1.Ok? && Insert(ix, id, e).1.value.touched == {|ix.graph.nodes|}
    ensures forall l: nat :: Insert(ix, id, e).0.graph.Neighbors(|ix.graph.nodes|, l) == []
  {
    hide LevelDrawn;
  }

  // The new node becomes the entry point exactly if there was none or its
  // level is strictly higher.
  lemma InsertElects(ix: Index, id: VectorId, e: Embedding)
    requires Good(ix) && Accepts(ix, id, e)
    ensures var g, h, node := ix.graph, Insert(ix, id, e).0.graph, |ix.graph.nodes|;
            h.entry == if g.entry == None || h.NodeLevel(node) > g.NodeLevel(g.entry.value) then Some(node) else g.entry
  {
    GoodGivesEmbeddings(ix);
    InsertAccepted(ix, id, e);
    InsertEntryReported(ix, id, e);
    if ix.graph.entry.Some? {
      GoodParts(ix);
      AddedLevels(ix.graph, id, e, LevelDrawn(ix), ix.graph.entry.value);
      LinkedFacts(ix, id, e);
      InsertResult(ix, id, e);
    }
    hide Good, GoodEdges, LinkIn, LevelDrawn, Extends, Connected, GoodEmbeddings, OnlyNewLinks, Reported;
  }

  // --- answering ---

  // Every query is decided: refused for its length, then for its metric,
  // answered with nothing by an empty index, and otherwise with the k best of
  // what the beam finds on layer 0 from the end of a greedy descent to layer 1.
  lemma SearchAnswers(ix: Index, query: Embedding, k: nat, metric: Metric, admit: VectorId -> bool)
    returns (stops: seq<nat>, pool: seq<Candidate>)
    requires Good(ix)
    ensures var r := SearchFiltered(ix, query, k, metric, admit);
            if |query| != ix.dimension then r == Err(DimensionMismatch(ix.dimension, |query|))
            else if metric != ix.config.metric then r == Err(UnsupportedMetric(metric))
            else if ix.graph.entry == None then r == Ok([])
            else
              var entry, score := ix.graph.entry.value, ix.num.scorer(metric);
              && |stops| == ix.graph.NodeLevel(entry) + 1
              && DescentStops(Probe(ix.graph, query, score), 1, entry, stops)
              && Found(ix.graph, query, score, Max(ix.config.efSearch, k), 0, stops[0], admit, pool)
              && r.Ok? && |r.value| == Min(k, |pool|)
              && forall i :: 0 <= i < |r.value| ==> r.value[i] == Key(pool[i])
  {
    stops, pool := [], [];
    if |query| == ix.dimension && metric == ix.config.metric && ix.graph.entry.Some? {
      var entry := ix.graph.entry.value;
      hide Found, DescentStops, BeamSearch, Descend, Good, GoodEdges, GoodLive, Hits, Sort, IsAnswer, InRange;
      GoodParts(ix);
      stops := FromStops(ix, query, entry);
      StartInRange(ix, query, entry);
      GoodInRange(ix.graph, ix.config);
      var s := SearchOf(ix, query, k, admit);
      pool := BeamSearch(s, stops[0]);
      BeamFinds(s, stops[0]);
      RankedPool(s, stops[0], k);
    }
  }

  lemma RankedPool(s: Search, start: nat, k: nat)
    requires s.ef >= 1 && start < |s.probe.graph.nodes| && InRange(s.probe.graph) && GoodLive(s.probe.graph)
    ensures var pool := BeamSearch(s, start);
            var r := Take(Sort(Hits(Take(pool, k)), HitKey), k);
            |r| == Min(k, |pool|) && forall i :: 0 <= i < |r| ==> r[i] == Key(pool[i])
  {
    hide BeamSearch, Hits, Sort, InRange, GoodLive;
    BeamAnswer(s, start);
    ResultIsPrefix(BeamSearch(s, start), k);
    HitsAt(BeamSearch(s, start));
  }

  lemma FromStops(ix: Index, query: Embedding, entry: nat) returns (stops: seq<nat>)
    ensures |stops| == ix.graph.NodeLevel(entry) + 1
    ensures DescentStops(Probe(ix.graph, query, ix.Scorer()), 1, entry, stops) && stops[0] == SearchFrom(ix, query, entry)
  {
    if ix.graph.NodeLevel(entry) > 0 {
      stops := DescentTrace(Probe(ix.graph, query, ix.Scorer()), ix.graph.NodeLevel(entry) + 1, 1, entry);
    } else {
      stops := [entry];
    }
  }

  // The first live node of a graph becomes its entry point and changes no list.
  lemma InsertFirstLinks(ix: Index, id: VectorId, e: Embedding)
    requires Good(ix) && Accepts(ix, id, e) && ix.graph.entry == None
    ensures var next := Insert(ix, id, e).0;
            && next.graph.entry == Some(|ix.graph.nodes|)
            && (forall i: nat, l: nat :: next.graph.Neighbors(i, l) == ix.graph.Neighbors(i, l))
  {
    GoodGivesEmbeddings(ix);
    InsertAccepted(ix, id, e);
    hide Good, LevelDrawn, GoodEmbeddings;
  }

  // No node has more than 2m neighbours on layer 0 or m on a layer above.
  lemma DegreesBounded(ix: Index, i: nat, l: nat)
    requires Good(ix)
    ensures |ix.graph.Neighbors(i, 0)| <= 2 * ix.config.m
    ensures l > 0 ==> |ix.graph.Neighbors(i, l)| <= ix.config.m
  {
    assert GoodList(ix.graph, i, 0, ix.graph.Neighbors(i, 0), ix.config.Limit(0));
    assert GoodList(ix.graph, i, l, ix.graph.Neighbors(i, l), ix.config.Limit(l));
  }

  // --- removing ---

  lemma {:induction false} HighestIsLast(g: Graph, n: nat)
    requires n <= |g.nodes| && Highest(g, n).Some?
    ensures forall i: nat :: Highest(g, n).value < i < n && g.IsLive(i) ==> g.NodeLevel(i) < g.NodeLevel(Highest(g, n).value)
  {
    if n > 0 && Highest(g, n - 1).Some? {
      HighestIsLast(g, n - 1);
      HighestFacts(g, n - 1);
    }
  }

  // A removal marks the id's node and nothing else; the entry point stays,
  // unless it was that node: then it is the last of the live nodes of the
  // highest level there is.
  lemma RemoveElects(ix: Index, id: VectorId)
    requires Good(ix) && id in ix.graph.live
    ensures var g, h := ix.graph, Remove(ix, id).0.graph;
            && (forall i: nat :: h.IsLive(i) <==> g.IsLive(i) && i != g.live[id])
            && (forall i: nat ::
                  h.NodeLevel(i) == g.NodeLevel(i) && h.NodeId(i) == g.NodeId(i) && h.NodeEmbedding(i) == g.NodeEmbedding(i))
            && (g.entry != Some(g.live[id]) ==> h.entry == g.entry)
            && (g.entry == Some(g.live[id]) ==>
                  match h.entry
                  case None => forall i: nat :: !h.IsLive(i)
                  case Some(b) =>
                    && h.IsLive(b)
                    && (forall i: nat :: h.IsLive(i) ==> h.NodeLevel(i) <= h.NodeLevel(b))
                    && (forall i: nat :: h.IsLive(i) && i > b ==> h.NodeLevel(i) < h.NodeLevel(b)))
  {
    var n := ix.graph.live[id];
    var h, next := ix.graph.Tombstone(n), Remove(ix, id).0.graph;
    TombstoneFacts(ix.graph, ix.config, n);
    HighestFacts(h, |h.nodes|);
    if Highest(h, |h.nodes|).Some? {
      HighestIsLast(h, |h.nodes|);
    }
    assert forall i: nat :: next.IsLive(i) <==> h.IsLive(i);
    assert forall i: nat :: next.NodeLevel(i) == h.NodeLevel(i);
    hide Highest, GoodEdges, Connected, GoodEntry, GoodOrder;
  }

  // It reports the marked node, and the entry point as changed exactly if it
  // was that node.
  lemma RemoveReports(ix: Index, id: VectorId)
    requires Good(ix) && id in ix.graph.live
    ensures Remove(ix, id).1 == Some(RemoveDelta({ix.graph.live[id]}, ix.graph.entry == Some(ix.graph.live[id])))
  {
    hide Highest, GoodEdges, Connected, GoodOrder, GoodEntry, GoodEmbeddings;
  }

  // --- levels ---

  // Node i's level comes from the draw number i + 1 of the seed.
  ghost predicate LevelsDrawn(ix: Index) {
    forall i: nat :: i < |ix.graph.nodes| ==>
      ix.graph.NodeLevel(i)
      == Rng.LevelOf(ix.num.levelFloor(ix.config.m),
                     Rng.Mix((ix.config.seed + (i + 1) * 0x9E37_79B9_7F4A_7C15) % 0x1_0000_0000_0000_0000))
  }

  lemma InsertLevels(ix: Index, id: VectorId, e: Embedding)
    requires Good(ix) && LevelsDrawn(ix)
    ensures LevelsDrawn(Insert(ix, id, e).0)
  {
    GoodGivesEmbeddings(ix);
    InsertAccepted(ix, id, e);
    if Accepts(ix, id, e) {
      InsertNodes(ix, id, e);
      InsertEntryReported(ix, id, e);
      NextDraw(ix);
      hide Good, Insert, Rng.LevelOf, Rng.Mix, GoodEmbeddings, LevelDrawn;
      LevelsGrow(ix, Insert(ix, id, e).0);
    }
  }

  lemma NextDraw(ix: Index)
    requires Good(ix)
    ensures LevelDrawn(ix)
         == Rng.LevelOf(ix.num.levelFloor(ix.config.m),
                        Rng.Mix((ix.config.seed + (|ix.graph.nodes| + 1) * 0x9E37_79B9_7F4A_7C15) % 0x1_0000_0000_0000_0000))
  {
    hide Rng.Mix, GoodEdges, GoodLive, GoodOrder, GoodEntry, GoodEmbeddings, Connected;
    Rng.WalkClosedForm(ix.config.seed, |ix.graph.nodes| + 1);
  }

  lemma LevelsGrow(ix: Index, next: Index)
    requires LevelsDrawn(ix) && next.config == ix.config && next.num == ix.num
    requires |next.graph.nodes| == |ix.graph.nodes| + 1
    requires forall i :: 0 <= i < |ix.graph.nodes| ==> SameNode(ix.graph.nodes[i], next.graph.nodes[i])
    requires next.graph.NodeLevel(|ix.graph.nodes|)
          == Rng.LevelOf(ix.num.levelFloor(ix.config.m),
                         Rng.Mix((ix.config.seed + (|ix.graph.nodes| + 1) * 0x9E37_79B9_7F4A_7C15) % 0x1_0000_0000_0000_0000))
    ensures LevelsDrawn(next)
  {
    hide Rng.LevelOf, Rng.Mix;
    assert forall i: nat :: i < |ix.graph.nodes| ==> next.graph.NodeLevel(i) == ix.graph.NodeLevel(i);
  }

  lemma {:induction false} InsertAllLevels(ix: Index, points: seq<Flat.Point>)
    requires Good(ix) && LevelsDrawn(ix) && Insertable(ix, points)
    ensures LevelsDrawn(InsertAll(ix, points).0)
    decreases |points|
  {
    hide Insert, Good, LevelsDrawn;
    if points != [] {
      InsertOne(ix, points);
      InsertLevels(ix, points[0].id, points[0].embedding);
      InsertAllLevels(Insert(ix, points[0].id, points[0].embedding).0, points[1..]);
    }
  }

  lemma CompactLevels(ix: Index)
    requires Good(ix)
    ensures LevelsDrawn(Compact(ix).0)
  {
    CompactCanonical(ix);
    var fresh0 := New(ix.config, ix.dimension, ix.num);
    NewGood(ix.config, ix.dimension, ix.num);
    LivePointsInsertable(ix);
    assert LevelsDrawn(fresh0);
    hide Good, Compact, InsertAll, Insertable, LivePoints, LevelsDrawn;
    InsertAllLevels(fresh0, LivePoints(ix.graph.nodes));
  }

  lemma LivePointsInsertable(ix: Index)
    requires Good(ix)
    ensures Insertable(New(ix.config, ix.dimension, ix.num), LivePoints(ix.graph.nodes))
  {
    LivePointsMembers(ix.graph.nodes);
    LivePointsHold(ix.graph);
  }

  lemma RemoveLevels(ix: Index, id: VectorId)
    requires Good(ix) && LevelsDrawn(ix)
    ensures LevelsDrawn(Remove(ix, id).0)
  {
    hide Rng.LevelOf, Rng.Mix, Good, Remove;
    RemoveShape(ix, id);
  }

  lemma RemoveShape(ix: Index, id: VectorId)
    ensures var next := Remove(ix, id).0;
            && next.config == ix.config && next.num == ix.num && |next.graph.nodes| == |ix.graph.nodes|
            && forall i: nat :: next.graph.NodeLevel(i) == ix.graph.NodeLevel(i)
  {
    hide Highest;
  }

  // After any run every node has the level its place in the graph draws.
  lemma {:induction false} RunLevels(config: HnswConfig, dimension: nat, num: Numerics, ops: seq<Oracle.Op>)
    requires config.Valid() && dimension > 0 && ValidOps(ops)
    ensures LevelsDrawn(HnswRuns.Run(New(config, dimension, num), ops))
  {
    if ops != [] {
      var n := |ops| - 1;
      assert ValidOps(ops[..n]);
      RunLevels(config, dimension, num, ops[..n]);
      RunRefines(config, dimension, num, ops[..n]);
      var ix := HnswRuns.Run(New(config, dimension, num), ops[..n]);
      hide Good, LevelsDrawn, Insert, Remove, Compact;
      match ops[n] {
        case Insert(id, e) => { InsertLevels(ix, id, e); }
        case Remove(id) => { RemoveLevels(ix, id); }
        case Compact => { CompactLevels(ix); }
      }
    }
  }

  // --- bulk insertion ---

  // Everything goes in, or everything before the first point that is refused,
  // with that point's error.
  lemma {:induction false} InsertAllStops(ix: Index, points: seq<Flat.Point>) returns (n: nat)
    ensures n <= |points| && InsertAll(ix, points[..n]).1 == Ok(())
    ensures var before, r := InsertAll(ix, points[..n]).0, InsertAll(ix, points);
            if n == |points| then r == (before, Ok(()))
            else
              var (next, refused) := Insert(before, points[n].id, points[n].embedding);
              refused.Err? && r == (next, Err(refused.error))
    decreases |points|
  {
    hide Insert;
    n := 0;
    assert InsertAll(ix, points[..0]) == (ix, Ok(()));
    if points != [] {
      var (next, r) := Insert(ix, points[0].id, points[0].embedding);
      if r.Ok? {
        var m := InsertAllStops(next, points[1..]);
        n := m + 1;
        assert points[..n][1..] == points[1..][..m];
      }
    }
  }
}
