/** Whole runs of the in-memory index: invariants, compaction, and agreement
    with the oracle. */
module HnswRuns {
  import opened Core
  import opened Config
  import opened Graph
  import opened Hnsw
  import opened HnswLinking
  import opened HnswConnect
  import opened HnswInvariant
  import Rng
  import Oracle
  import Flat

  // --- what an accepted insert leaves of the nodes ---

  // b is node a as far as id, embedding, level and tombstone go.
  ghost predicate SameNode(a: Node, b: Node) {
    a.id == b.id && a.embedding == b.embedding && a.level == b.level && a.tombstone == b.tombstone
  }

  lemma InsertNodes(ix: Index, id: VectorId, e: Embedding)
    requires Good(ix) && Accepts(ix, id, e)
    ensures var before, after := ix.graph.nodes, Insert(ix, id, e).0.graph.nodes;
            && |after| == |before| + 1
            && (forall i :: 0 <= i < |before| ==> SameNode(before[i], after[i]))
            && after[|before|].id == id && after[|before|].embedding == e && !after[|before|].tombstone
    ensures Insert(ix, id, e).0.config == ix.config && Insert(ix, id, e).0.dimension == ix.dimension
    ensures Insert(ix, id, e).0.num == ix.num
  {
    hide Good, LinkIn, LevelDrawn, GoodEmbeddings, GoodEdges, Connected, OnlyNewLinks, Reported, Extends;
    GoodGivesEmbeddings(ix);
    InsertAccepted(ix, id, e);
    if ix.graph.entry.Some? {
      LinkedFacts(ix, id, e);
      InsertResult(ix, id, e);
    }
  }

  lemma GoodGivesEmbeddings(ix: Index)
    requires Good(ix)
    ensures GoodEmbeddings(ix.graph, ix.dimension)
  {}

  // The deltas report a change of the entry point exactly when there is one,
  // and the new node's place and level are the next index and the draw.
  lemma InsertEntryReported(ix: Index, id: VectorId, e: Embedding)
    requires Good(ix) && Accepts(ix, id, e)
    ensures var (next, r) := Insert(ix, id, e);
            && r.Ok? && r.value.newNode == |ix.graph.nodes|
            && next.graph.IsLive(r.value.newNode) && next.graph.NodeLevel(r.value.newNode) == LevelDrawn(ix)
            && (r.value.entryChanged <==> next.graph.entry != ix.graph.entry)
  {
    InsertAccepted(ix, id, e);
    InsertNodes(ix, id, e);
    if ix.graph.entry.Some? {
      LinkedFacts(ix, id, e);
      GoodEntryInRange(ix);
    }
    hide LinkIn, Good, GoodEdges, OnlyNewLinks, Reported, Connected, Extends, LevelDrawn;
  }

  lemma GoodEntryInRange(ix: Index)
    requires Good(ix) && ix.graph.entry.Some?
    ensures ix.graph.entry.value < |ix.graph.nodes|
  {}

  lemma RemoveEntryReported(ix: Index, id: VectorId)
    requires Good(ix) && Remove(ix, id).1.Some?
    ensures var (next, r) := Remove(ix, id);
            r.value.entryChanged <==> next.graph.entry != ix.graph.entry
  {
    RemoveEntry(ix, id);
    hide GoodEdges, Connected, Highest;
  }

  // --- live points ---

  lemma {:induction false} LivePointsSame(a: seq<Node>, b: seq<Node>)
    requires |a| == |b| && forall i :: 0 <= i < |a| ==> SameNode(a[i], b[i])
    ensures LivePoints(a) == LivePoints(b)
  {
    if a != [] {
      LivePointsSame(a[..|a| - 1], b[..|b| - 1]);
    }
  }

  lemma {:induction false} LivePointsMembers(nodes: seq<Node>)
    ensures forall p :: p in LivePoints(nodes) <==>
              exists i :: 0 <= i < |nodes| && !nodes[i].tombstone && p == Flat.Point(nodes[i].id, nodes[i].embedding)
    ensures |LivePoints(nodes)| <= |nodes|
    ensures (forall i :: 0 <= i < |nodes| ==> !nodes[i].tombstone) <==> |LivePoints(nodes)| == |nodes|
  {
    if nodes != [] {
      LivePointsMembers(nodes[..|nodes| - 1]);
    }
  }

  ghost predicate DistinctLiveIds(nodes: seq<Node>) {
    forall i, j :: 0 <= i < j < |nodes| && !nodes[i].tombstone && !nodes[j].tombstone ==> nodes[i].id != nodes[j].id
  }

  lemma {:induction false} LivePointsDistinct(nodes: seq<Node>)
    requires DistinctLiveIds(nodes)
    ensures var ps := LivePoints(nodes); forall i, j :: 0 <= i < j < |ps| ==> ps[i].id != ps[j].id
  {
    if nodes != [] {
      var n := |nodes| - 1;
      LivePointsDistinct(nodes[..n]);
      LivePointsMembers(nodes[..n]);
      var ps := LivePoints(nodes[..n]);
      assert forall i :: 0 <= i < |ps| ==> ps[i] in ps;
    }
  }

  // The live points are the content, listed once.
  lemma LivePointsHold(g: Graph)
    requires GoodLive(g)
    ensures Flat.Holds(LivePoints(g.nodes), Content(g))
  {
    LivePointsMembers(g.nodes);
    LivePointsDistinct(g.nodes);
    forall id | id in Content(g)
      ensures Flat.Point(id, Content(g)[id]) in LivePoints(g.nodes)
    {
      var i := g.live[id];
      assert !g.nodes[i].tombstone;
    }
  }

  lemma InsertLivePoints(ix: Index, id: VectorId, e: Embedding)
    requires Good(ix) && Accepts(ix, id, e)
    ensures LivePoints(Insert(ix, id, e).0.graph.nodes) == LivePoints(ix.graph.nodes) + [Flat.Point(id, e)]
  {
    var before, after := ix.graph.nodes, Insert(ix, id, e).0.graph.nodes;
    InsertNodes(ix, id, e);
    hide *;
    LivePointsGrow(before, after, id, e);
  }

  lemma LivePointsGrow(before: seq<Node>, after: seq<Node>, id: VectorId, e: Embedding)
    requires |after| == |before| + 1 && forall i :: 0 <= i < |before| ==> SameNode(before[i], after[i])
    requires after[|before|].id == id && after[|before|].embedding == e && !after[|before|].tombstone
    ensures LivePoints(after) == LivePoints(before) + [Flat.Point(id, e)]
  {
    LivePointsSame(before, after[..|before|]);
  }

  // --- bulk insertion and compaction ---

  // Points that can all be inserted.
  ghost predicate Insertable(ix: Index, points: seq<Flat.Point>) {
    && (forall i, j :: 0 <= i < j < |points| ==> points[i].id != points[j].id)
    && (forall p :: p in points ==>
          p.id !in ix.graph.live && |p.embedding| == ix.dimension && WellFormedEmbedding(p.embedding))
  }

  ghost predicate BulkLoaded(ix: Index, points: seq<Flat.Point>, next: Index) {
    && Good(next)
    && next.config == ix.config && next.dimension == ix.dimension && next.num == ix.num
    && |next.graph.nodes| == |ix.graph.nodes| + |points|
    && LivePoints(next.graph.nodes) == LivePoints(ix.graph.nodes) + points
  }

  lemma {:induction false} InsertAllGood(ix: Index, points: seq<Flat.Point>)
    requires Good(ix) && Insertable(ix, points)
    ensures InsertAll(ix, points).1 == Ok(())
    ensures BulkLoaded(ix, points, InsertAll(ix, points).0)
    decreases |points|
  {
    hide Insert, Good;
    if points != [] {
      var p, next := points[0], Insert(ix, points[0].id, points[0].embedding).0;
      InsertOne(ix, points);
      InsertAllGood(next, points[1..]);
      assert LivePoints(ix.graph.nodes) + [p] + points[1..] == LivePoints(ix.graph.nodes) + points;
    } else {
      assert LivePoints(ix.graph.nodes) + points == LivePoints(ix.graph.nodes);
    }
  }

  lemma InsertOne(ix: Index, points: seq<Flat.Point>)
    requires Good(ix) && Insertable(ix, points) && points != []
    ensures var (next, r) := Insert(ix, points[0].id, points[0].embedding);
            r.Ok? && BulkLoaded(ix, [points[0]], next) && Insertable(next, points[1..])
  {
    hide Insert, Good;
    assert points[0] in points;
    assert forall q :: q in points[1..] ==> q in points && q.id != points[0].id;
    InsertPoint(ix, points[0]);
  }

  lemma InsertPoint(ix: Index, p: Flat.Point)
    requires Good(ix) && Accepts(ix, p.id, p.embedding) && WellFormedEmbedding(p.embedding)
    ensures var (next, r) := Insert(ix, p.id, p.embedding);
            r.Ok? && BulkLoaded(ix, [p], next) && next.graph.live.Keys == ix.graph.live.Keys + {p.id}
  {
    hide Insert, LivePoints, GoodEdges, GoodLive, GoodEntry, GoodOrder, Connected;
    var next := Insert(ix, p.id, p.embedding).0;
    InsertAccepted(ix, p.id, p.embedding);
    InsertGood(ix, p.id, p.embedding);
    InsertNodes(ix, p.id, p.embedding);
    InsertLivePoints(ix, p.id, p.embedding);
    assert Content(next.graph).Keys == next.graph.live.Keys && Content(ix.graph).Keys == ix.graph.live.Keys;
  }

  // A bulk insert succeeds exactly for distinct ids that are not live and
  // embeddings of the right length.
  lemma {:induction false} BulkInsertDecided(ix: Index, points: seq<Flat.Point>)
    requires Good(ix) && forall p :: p in points ==> WellFormedEmbedding(p.embedding)
    ensures InsertAll(ix, points).1.Ok? <==>
            && (forall i, j :: 0 <= i < j < |points| ==> points[i].id != points[j].id)
            && (forall p :: p in points ==> p.id !in ix.graph.live && |p.embedding| == ix.dimension)
    decreases |points|
  {
    hide Insert, Good;
    if Insertable(ix, points) {
      InsertAllGood(ix, points);
    } else if points != [] {
      var p := points[0];
      assert p in points;
      GoodSized(ix);
      InsertAccepted(ix, p.id, p.embedding);
      if Accepts(ix, p.id, p.embedding) {
        InsertPoint(ix, p);
        var next := Insert(ix, p.id, p.embedding).0;
        assert forall q :: q in points[1..] ==> q in points;
        BulkInsertDecided(next, points[1..]);
        if InsertAll(next, points[1..]).1.Ok? {
          NextInsertable(ix, next, points);
        }
      }
    }
  }

  lemma GoodSized(ix: Index)
    requires Good(ix)
    ensures GoodEmbeddings(ix.graph, ix.dimension)
  {}

  lemma NextInsertable(ix: Index, next: Index, points: seq<Flat.Point>)
    requires points != [] && points[0].id !in ix.graph.live && |points[0].embedding| == ix.dimension
    requires forall p :: p in points ==> WellFormedEmbedding(p.embedding)
    requires next.graph.live.Keys == ix.graph.live.Keys + {points[0].id} && next.dimension == ix.dimension
    requires Insertable(next, points[1..])
    ensures Insertable(ix, points)
  {
    var rest := points[1..];
    forall i, j | 0 <= i < j < |points|
      ensures points[i].id != points[j].id
    {
      assert rest[j - 1] in rest;
      assert i > 0 ==> rest[i - 1].id != rest[j - 1].id;
      assert rest[j - 1].id !in next.graph.live.Keys;
    }
    forall p | p in points
      ensures p.id !in ix.graph.live && |p.embedding| == ix.dimension
    {
      assert p == points[0] || p in rest;
      assert p in rest ==> p.id !in next.graph.live.Keys;
    }
  }

  lemma {:induction false} RevalidateOk(points: seq<Flat.Point>)
    requires forall p :: p in points ==> WellFormedEmbedding(p.embedding)
    ensures Revalidate(points) == Ok(())
  {
    if points != [] {
      RevalidateOk(points[..|points| - 1]);
      assert points[|points| - 1] in points;
    }
  }

  // Compaction rebuilds exactly the index a bulk load of the live points in
  // node order builds from nothing, and keeps the live points.
  lemma CompactCanonical(ix: Index)
    requires Good(ix)
    ensures var (next, r) := Compact(ix);
            && r == Ok(())
            && Good(next) && next.config == ix.config && next.dimension == ix.dimension && next.num == ix.num
            && next == InsertAll(New(ix.config, ix.dimension, ix.num), LivePoints(ix.graph.nodes)).0
            && LivePoints(next.graph.nodes) == LivePoints(ix.graph.nodes)
            && |next.graph.nodes| == |LivePoints(ix.graph.nodes)|
            && Content(next.graph) == Content(ix.graph)
  {
    var points := LivePoints(ix.graph.nodes);
    var blank := New(ix.config, ix.dimension, ix.num);
    LivePointsMembers(ix.graph.nodes);
    LivePointsHold(ix.graph);
    NewGood(ix.config, ix.dimension, ix.num);
    RevalidateOk(points);
    assert blank == ix.(graph := Empty, rng := ix.config.seed);
    assert LivePoints(blank.graph.nodes) == [];
    hide Good, InsertAll;
    InsertAllGood(blank, points);
    var next := InsertAll(blank, points).0;
    assert [] + points == points;
    GoodGivesLive(next);
    LivePointsHold(next.graph);
    HoldsDetermines(points, Content(next.graph), Content(ix.graph));
  }

  lemma GoodGivesLive(ix: Index)
    requires Good(ix)
    ensures GoodLive(ix.graph)
  {}

  lemma HoldsDetermines(points: seq<Flat.Point>, a: Oracle.Content, b: Oracle.Content)
    requires Flat.Holds(points, a) && Flat.Holds(points, b)
    ensures a == b
  {
    forall id
      ensures id in a <==> id in b
      ensures id in a ==> a[id] == b[id]
    {
      assert id in a ==> Flat.Point(id, a[id]) in points;
      assert id in b ==> Flat.Point(id, b[id]) in points;
    }
  }

  // A second compaction changes nothing, generator state included.
  lemma CompactIdempotent(ix: Index)
    requires Good(ix)
    ensures Compact(Compact(ix).0) == Compact(ix)
  {
    hide Compact, InsertAll, Good;
    CompactCanonical(ix);
    CompactCanonical(Compact(ix).0);
    assert Compact(Compact(ix).0).0 == Compact(ix).0;
    assert Compact(Compact(ix).0).1 == Compact(ix).1;
  }

  // --- runs ---

  function Step(ix: Index, op: Oracle.Op): (Index, Oracle.Outcome) {
    match op
    case Insert(id, e) =>
      var (next, r) := Insert(ix, id, e);
      (next, if r.Ok? then Oracle.Done else Oracle.Failed(r.error))
    case Remove(id) =>
      var (next, r) := Remove(ix, id);
      (next, Oracle.Present(r.Some?))
    case Compact =>
      var (next, r) := Compact(ix);
      (next, if r.Ok? then Oracle.Done else Oracle.Failed(r.error))
  }

  function Run(ix: Index, ops: seq<Oracle.Op>): Index {
    if ops == [] then ix else Step(Run(ix, ops[..|ops| - 1]), ops[|ops| - 1]).0
  }

  // Embeddings reach the index through Embedding::new.
  ghost predicate ValidOps(ops: seq<Oracle.Op>) {
    forall op :: op in ops && op.Insert? ==> WellFormedEmbedding(op.embedding)
  }

  lemma StepRefines(ix: Index, op: Oracle.Op)
    requires Good(ix) && ValidOps([op])
    ensures var (next, outcome) := Step(ix, op);
            && Good(next)
            && next.config == ix.config && next.dimension == ix.dimension && next.num == ix.num
            && Content(next.graph) == Oracle.Apply(Content(ix.graph), ix.dimension, op)
            && outcome == Oracle.Answer(Content(ix.graph), ix.dimension, op)
  {
    match op
    case Insert(id, e) =>
      assert op in [op];
      InsertAccepted(ix, id, e);
      InsertGood(ix, id, e);
      if Accepts(ix, id, e) { InsertNodes(ix, id, e); }
      hide Good;
    case Remove(id) =>
      RemoveGood(ix, id);
      hide Good;
    case Compact =>
      CompactCanonical(ix);
      hide Good, Compact;
  }

  // Every run keeps the invariant and holds what the oracle holds.
  lemma {:induction false} RunRefines(config: HnswConfig, dimension: nat, num: Numerics, ops: seq<Oracle.Op>)
    requires config.Valid() && dimension > 0 && ValidOps(ops)
    ensures var ix := Run(New(config, dimension, num), ops);
            && Good(ix)
            && ix.config == config && ix.dimension == dimension && ix.num == num
            && Content(ix.graph) == Oracle.Run(map[], dimension, ops)
  {
    hide Good, Step;
    NewGood(config, dimension, num);
    if ops != [] {
      var n := |ops| - 1;
      RunRefines(config, dimension, num, ops[..n]);
      StepRefines(Run(New(config, dimension, num), ops[..n]), ops[n]);
    }
  }
}
