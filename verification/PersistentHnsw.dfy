/** PersistentHnswIndex as functions: the redb tables, the segment and the
    index in RAM. */
module PersistentHnsw {
  import opened Core
  import opened Ranking
  import opened Config
  import opened Graph
  import opened Hnsw
  import opened HnswSnapshot
  import Manifest
  import Seg = Segment

  datatype NodeRow = NodeRow(id: VectorId, level: nat, tombstone: bool)

  datatype AdjKey = AdjKey(node: nat, layer: nat)

  datatype MetaConfig = MetaConfig(metricByte: Byte, dimension: nat, m: nat, efConstruction: nat, efSearch: nat, seed: nat)

  datatype Tables = Tables(config: MetaConfig, nodes: map<nat, NodeRow>, adj: map<AdjKey, seq<nat>>, state: MetaState)

  datatype Store = Store(index: Index, tables: Tables, segment: Seg.State)

  datatype Disk = Disk(tables: Tables, file: seq<Byte>)

  function DiskOf(p: Store): Disk { Disk(p.tables, p.segment.file) }

  function ConfigRow(ix: Index): MetaConfig {
    MetaConfig(Manifest.MetricToByte(ix.config.metric), ix.dimension, ix.config.m, ix.config.efConstruction,
               ix.config.efSearch, ix.config.seed)
  }

  function RowOf(g: Graph, i: nat): NodeRow { NodeRow(g.NodeId(i), g.NodeLevel(i), g.IsTombstone(i)) }

  // The list rows of node i on the layers below above.
  function WriteLists(adj: map<AdjKey, seq<nat>>, g: Graph, i: nat, above: nat): map<AdjKey, seq<nat>> {
    if above == 0 then adj else WriteLists(adj, g, i, above - 1)[AdjKey(i, above - 1) := g.Neighbors(i, above - 1)]
  }

  // The rows of the first n nodes, written into empty tables.
  function FlushNodes(g: Graph, n: nat): map<nat, NodeRow> {
    if n == 0 then map[] else FlushNodes(g, n - 1)[n - 1 := RowOf(g, n - 1)]
  }

  function FlushLists(g: Graph, n: nat): map<AdjKey, seq<nat>> {
    if n == 0 then map[] else WriteLists(FlushLists(g, n - 1), g, n - 1, g.NodeLevel(n - 1) + 1)
  }

  // flush_snapshot_to_redb: all tables rewritten from the index.
  function Flush(config: MetaConfig, ix: Index): Tables {
    Tables(config, FlushNodes(ix.graph, |ix.graph.nodes|), FlushLists(ix.graph, |ix.graph.nodes|), StateMeta(ix))
  }

  // Node and list rows of the touched nodes overwritten.
  ghost predicate RowsWritten(before: Tables, after: Tables, g: Graph, touched: set<nat>, lists: bool) {
    NodesWritten(before.nodes, after.nodes, g, touched) && ListsWritten(before.adj, after.adj, g, touched, lists)
  }

  ghost predicate NodesWritten(before: map<nat, NodeRow>, after: map<nat, NodeRow>, g: Graph, touched: set<nat>) {
    && (forall i: nat :: i in after <==> i in before || (i in touched && i < |g.nodes|))
    && (forall i: nat :: i in after ==> after[i] == if i in touched && i < |g.nodes| then RowOf(g, i) else before[i])
  }

  ghost predicate ListsWritten(before: map<AdjKey, seq<nat>>, after: map<AdjKey, seq<nat>>, g: Graph, touched: set<nat>,
                               lists: bool)
  {
    && (forall k :: k in after <==> k in before || (lists && Written(g, touched, k)))
    && (forall k :: k in after ==>
          after[k] == if lists && Written(g, touched, k) then g.Neighbors(k.node, k.layer) else before[k])
  }

  ghost predicate Written(g: Graph, touched: set<nat>, k: AdjKey) {
    k.node in touched && k.node < |g.nodes| && k.layer <= g.NodeLevel(k.node)
  }

  // One read of the tables on open: node rows in index order, list rows by
  // key, an absent list reading as empty.
  function ReadLists(t: Tables, i: nat, above: nat): seq<seq<nat>> {
    if above == 0 then []
    else
      var k := AdjKey(i, above - 1);
      ReadLists(t, i, above - 1) + [if k in t.adj then t.adj[k] else []]
  }

  function ReadNode(t: Tables, i: nat): SnapshotNode
    requires i in t.nodes
  {
    SnapshotNode(t.nodes[i].id, t.nodes[i].level, t.nodes[i].tombstone, ReadLists(t, i, t.nodes[i].level + 1))
  }

  function IndexKey(i: nat): Hit { Hit(i, 0.0) }

  function ReadNodes(t: Tables, keys: seq<nat>): seq<SnapshotNode>
    requires forall i :: i in keys ==> i in t.nodes
  {
    if keys == [] then []
    else
      assert keys[|keys| - 1] in keys;
      ReadNodes(t, keys[..|keys| - 1]) + [ReadNode(t, keys[|keys| - 1])]
  }

  function ReadConfig(row: MetaConfig): Result<HnswConfig> {
    var metric :- Manifest.MetricFromByte(row.metricByte);
    match NewConfig(metric, row.m, row.efConstruction, row.efSearch, row.seed)
    case Accepted(config) => Ok(config)
    case Rejected(_) => Err(Corruption)
  }

  function VectorsIn(segment: Seg.State): nat -> Option<Embedding> {
    (i: nat) => Seg.Record(segment, i)
  }

  ghost predicate Enumerates(keys: seq<nat>, nodes: map<nat, NodeRow>) {
    Distinct(keys) && forall i :: i in keys <==> i in nodes
  }

  // PersistentHnswIndex::open, given the order the node table is iterated in.
  ghost function Open(disk: Disk, keys: seq<nat>, num: Numerics): Result<Store>
    requires Enumerates(keys, disk.tables.nodes)
  {
    var t := disk.tables;
    if t.config.dimension == 0 || t.config.dimension >= 0x1_0000_0000 then Err(Corruption)
    else
      var config :- ReadConfig(t.config);
      var segment :- Seg.Open(disk.file, config.metric, t.config.dimension, t.state.nodeCount);
      SortMembers(keys, IndexKey);
      var nodes := ReadNodes(t, Sort(keys, IndexKey));
      var snapshot := GraphSnapshot(nodes, t.state.entry, t.state.entryLevel, t.state.rng, LiveRows(nodes));
      var ix :- FromSnapshot(config, t.config.dimension, num, snapshot, VectorsIn(segment));
      Ok(Store(ix, t, segment))
  }
}

/** The tables always equal the full snapshot, and what reopening restores. */
module PersistentHnswFacts {
  import opened Core
  import opened Bytes
  import opened Ranking
  import opened Config
  import opened Graph
  import opened Hnsw
  import opened HnswLinking
  import opened HnswConnect
  import opened HnswInvariant
  import opened HnswRuns
  import opened HnswSnapshot
  import opened PersistentHnsw
  import Manifest
  import Seg = Segment
  import Flat
  import Oracle

  // --- the tables ---

  lemma {:induction false} WriteListsReads(adj: map<AdjKey, seq<nat>>, g: Graph, i: nat, above: nat)
    ensures var r := WriteLists(adj, g, i, above);
            && (forall k :: k in r <==> k in adj || (k.node == i && k.layer < above))
            && (forall k :: k in r ==>
                  r[k] == if k.node == i && k.layer < above then g.Neighbors(i, k.layer) else adj[k])
  {
    if above > 0 { WriteListsReads(adj, g, i, above - 1); }
  }

  lemma {:induction false} FlushNodesReads(g: Graph, n: nat)
    ensures var r := FlushNodes(g, n);
            && (forall i: nat :: i in r <==> i < n)
            && (forall i: nat :: i in r ==> r[i] == RowOf(g, i))
  {
    if n > 0 { FlushNodesReads(g, n - 1); }
  }

  lemma {:induction false} FlushListsReads(g: Graph, n: nat)
    ensures var r := FlushLists(g, n);
            && (forall k :: k in r <==> k.node < n && k.layer <= g.NodeLevel(k.node))
            && (forall k :: k in r ==> r[k] == g.Neighbors(k.node, k.layer))
  {
    hide WriteLists;
    if n > 0 {
      FlushListsReads(g, n - 1);
      WriteListsReads(FlushLists(g, n - 1), g, n - 1, g.NodeLevel(n - 1) + 1);
    }
  }

  // The tables hold exactly the index's rows.
  ghost predicate Mirrors(t: Tables, ix: Index) {
    t == Flush(ConfigRow(ix), ix)
  }

  lemma MirrorsPointwise(t: Tables, ix: Index)
    requires t.config == ConfigRow(ix) && t.state == StateMeta(ix)
    requires forall i: nat :: i in t.nodes <==> i < |ix.graph.nodes|
    requires forall i: nat :: i in t.nodes ==> t.nodes[i] == RowOf(ix.graph, i)
    requires forall k :: k in t.adj <==> k.node < |ix.graph.nodes| && k.layer <= ix.graph.NodeLevel(k.node)
    requires forall k :: k in t.adj ==> t.adj[k] == ix.graph.Neighbors(k.node, k.layer)
    ensures Mirrors(t, ix)
  {
    hide StateMeta, ConfigRow, Graph.NodeLevel, Graph.Neighbors, Graph.NodeId, Graph.IsTombstone, WriteLists, RowOf;
    FlushNodesReads(ix.graph, |ix.graph.nodes|);
    FlushListsReads(ix.graph, |ix.graph.nodes|);
    assert t.nodes == FlushNodes(ix.graph, |ix.graph.nodes|);
    assert t.adj == FlushLists(ix.graph, |ix.graph.nodes|);
  }

  // Row by row: one node row per node, one list row per node and layer up to
  // the node's level, and what reopening needs besides.
  lemma MirrorsMeans(t: Tables, ix: Index)
    ensures Mirrors(t, ix) <==>
            && (forall i: nat :: i in t.nodes <==> i < |ix.graph.nodes|)
            && (forall i: nat :: i in t.nodes ==>
                  t.nodes[i] == NodeRow(ix.graph.NodeId(i), ix.graph.NodeLevel(i), ix.graph.IsTombstone(i)))
            && (forall k :: k in t.adj <==> k.node < |ix.graph.nodes| && k.layer <= ix.graph.NodeLevel(k.node))
            && (forall k :: k in t.adj ==> t.adj[k] == ix.graph.Neighbors(k.node, k.layer))
            && t.config == ConfigRow(ix) && t.state == StateMeta(ix)
  {
    hide StateMeta, ConfigRow, Graph.NodeLevel, Graph.Neighbors, Graph.NodeId, Graph.IsTombstone, WriteLists;
    var g := ix.graph;
    FlushNodesReads(g, |g.nodes|);
    FlushListsReads(g, |g.nodes|);
    if && (forall i: nat :: i in t.nodes <==> i < |g.nodes|)
       && (forall i: nat :: i in t.nodes ==> t.nodes[i] == RowOf(g, i))
       && (forall k :: k in t.adj <==> k.node < |g.nodes| && k.layer <= g.NodeLevel(k.node))
       && (forall k :: k in t.adj ==> t.adj[k] == g.Neighbors(k.node, k.layer))
       && t.config == ConfigRow(ix) && t.state == StateMeta(ix)
    {
      MirrorsPointwise(t, ix);
    }
  }

  // Node rows outside touched are the same before and after.
  ghost predicate OthersKept(g: Graph, h: Graph, touched: set<nat>) {
    && |g.nodes| <= |h.nodes|
    && (forall i :: 0 <= i < |g.nodes| && i !in touched ==> h.nodes[i] == g.nodes[i])
    && (forall i :: |g.nodes| <= i < |h.nodes| ==> i in touched)
  }

  // Writing only the touched rows brings the tables up to date.
  lemma TouchedSuffice(before: Tables, after: Tables, ix: Index, next: Index, touched: set<nat>)
    requires Mirrors(before, ix) && ConfigRow(ix) == ConfigRow(next)
    requires OthersKept(ix.graph, next.graph, touched)
    requires forall i :: 0 <= i < |ix.graph.nodes| ==> ix.graph.nodes[i].level == next.graph.nodes[i].level
    requires RowsWritten(before, after, next.graph, touched, true)
    requires after.config == before.config && after.state == StateMeta(next)
    ensures Mirrors(after, next)
  {
    var g, h := ix.graph, next.graph;
    FlushNodesReads(g, |g.nodes|);
    FlushListsReads(g, |g.nodes|);
    hide Flush, FlushNodes, FlushLists;
    forall i: nat | i in after.nodes
      ensures i < |h.nodes| && after.nodes[i] == RowOf(h, i)
    {
      if i !in touched {
        assert h.nodes[i] == g.nodes[i];
      }
    }
    forall k | k in after.adj
      ensures k.node < |h.nodes| && k.layer <= h.NodeLevel(k.node) && after.adj[k] == h.Neighbors(k.node, k.layer)
    {
      if k.node !in touched {
        assert h.nodes[k.node] == g.nodes[k.node];
      }
    }
    forall k: AdjKey | k.node < |h.nodes| && k.layer <= h.NodeLevel(k.node)
      ensures k in after.adj
    {
      if k.node !in touched {
        assert h.nodes[k.node] == g.nodes[k.node];
      }
    }
    MirrorsPointwise(after, next);
  }

  // Every row an accepted insert changes is among those it reports.
  lemma InsertReports(ix: Index, id: VectorId, e: Embedding)
    requires Good(ix) && Accepts(ix, id, e)
    ensures Insert(ix, id, e).1.Ok?
    ensures var (next, r) := Insert(ix, id, e);
            OthersKept(ix.graph, next.graph, r.value.touched) && forall x :: x in r.value.touched ==> x < |next.graph.nodes|
  {
    InsertAccepted(ix, id, e);
    hide Insert, Final, LinkedIn, OthersKept, Good, LevelDrawn;
    if ix.graph.entry.Some? {
      LinkedReports(ix, id, e);
      InsertResult(ix, id, e);
    } else {
      FirstReports(ix, id, e);
    }
  }

  lemma FirstReports(ix: Index, id: VectorId, e: Embedding)
    requires Accepts(ix, id, e) && ix.graph.entry == None && ix.graph.AddNode(id, e, LevelDrawn(ix)).Ok?
    ensures var (next, r) := Insert(ix, id, e);
            && r.Ok? && OthersKept(ix.graph, next.graph, r.value.touched)
            && forall x :: x in r.value.touched ==> x < |next.graph.nodes|
  {}

  lemma AddedNodes(ix: Index, id: VectorId, e: Embedding)
    requires ix.graph.AddNode(id, e, LevelDrawn(ix)).Ok?
    ensures var g1 := Added(ix, id, e);
            |g1.nodes| == |ix.graph.nodes| + 1 && forall i :: 0 <= i < |ix.graph.nodes| ==> g1.nodes[i] == ix.graph.nodes[i]
  {}

  lemma LinkedReports(ix: Index, id: VectorId, e: Embedding)
    requires Good(ix) && Accepts(ix, id, e) && ix.graph.entry.Some?
    requires ix.graph.AddNode(id, e, LevelDrawn(ix)).Ok?
    ensures var f, touched := Final(ix, id, e), LinkedIn(ix, id, e).touched;
            OthersKept(ix.graph, f, touched) && forall x :: x in touched ==> x < |f.nodes|
  {
    hide LinkedIn, LinkIn, Added, Good, OnlyNewLinks, LevelDrawn, Extends, Connected, GoodEdges, SameShape;
    AddedNodes(ix, id, e);
    LinkedFacts(ix, id, e);
  }

  lemma InsertMirrored(before: Tables, after: Tables, ix: Index, id: VectorId, e: Embedding)
    requires Good(ix) && Accepts(ix, id, e) && Mirrors(before, ix)
    requires Insert(ix, id, e).1.Ok?
    requires var (next, r) := Insert(ix, id, e);
             && RowsWritten(before, after, next.graph, r.value.touched, true)
             && after.config == before.config && after.state == StateMeta(next)
    ensures Mirrors(after, Insert(ix, id, e).0)
  {
    InsertReports(ix, id, e);
    InsertNodes(ix, id, e);
    var (next, r) := Insert(ix, id, e);
    hide Insert, Good, Mirrors, RowsWritten, OthersKept;
    TouchedSuffice(before, after, ix, next, r.value.touched);
  }

  // A removal changes one node row and no list.
  lemma RemoveMirrored(before: Tables, after: Tables, ix: Index, id: VectorId)
    requires Good(ix) && Mirrors(before, ix) && Remove(ix, id).1.Some?
    requires var (next, r) := Remove(ix, id);
             && RowsWritten(before, after, next.graph, r.value.touched, false)
             && after.config == before.config && after.state == StateMeta(next)
    ensures Mirrors(after, Remove(ix, id).0)
  {
    hide Good, Remove, Mirrors, Graph.Neighbors, Graph.NodeLevel, Graph.NodeId, Graph.IsTombstone, ConfigRow, StateMeta;
    var (next, r) := Remove(ix, id);
    RemoveRows(ix, id);
    MirrorsMeans(before, ix);
    MirrorsPointwise(after, next);
  }

  lemma RemoveRows(ix: Index, id: VectorId)
    requires Remove(ix, id).1.Some?
    ensures var (next, r) := Remove(ix, id);
            && ConfigRow(next) == ConfigRow(ix) && |next.graph.nodes| == |ix.graph.nodes|
            && (forall i: nat, l: nat :: next.graph.Neighbors(i, l) == ix.graph.Neighbors(i, l))
            && (forall i: nat :: next.graph.NodeLevel(i) == ix.graph.NodeLevel(i))
            && (forall i: nat :: i < |ix.graph.nodes| && i !in r.value.touched ==> RowOf(next.graph, i) == RowOf(ix.graph, i))
  {}

  // --- reading the tables back ---

  lemma {:induction false} ReadListsBack(t: Tables, ix: Index, i: nat, above: nat)
    requires Mirrors(t, ix) && i < |ix.graph.nodes| && above <= ix.graph.NodeLevel(i) + 1
    ensures ReadLists(t, i, above) == ListsOf(ix.graph, i, above)
  {
    if above > 0 {
      ReadListsBack(t, ix, i, above - 1);
      FlushListsReads(ix.graph, |ix.graph.nodes|);
      assert AdjKey(i, above - 1) in t.adj;
    }
  }

  lemma {:induction false} ReadNodesBack(t: Tables, ix: Index, keys: seq<nat>)
    requires Mirrors(t, ix) && |keys| <= |ix.graph.nodes|
    requires forall i :: 0 <= i < |keys| ==> keys[i] == i
    requires forall i :: i in keys ==> i in t.nodes
    ensures ReadNodes(t, keys) == SnapshotNodes(ix.graph, |keys|)
  {
    if keys != [] {
      var n := |keys| - 1;
      assert keys[n] in keys && forall i :: i in keys[..n] ==> i in keys;
      ReadNodesBack(t, ix, keys[..n]);
      FlushNodesReads(ix.graph, |ix.graph.nodes|);
      ReadListsBack(t, ix, n, ix.graph.NodeLevel(n) + 1);
    }
  }

  // The keys 0 to n - 1, in any order, sort to counting up.
  lemma {:induction false} DenseKeys(keys: seq<nat>, n: nat)
    requires Distinct(keys) && forall i: nat :: i in keys <==> i < n
    ensures |Sort(keys, IndexKey)| == n && forall i :: 0 <= i < n ==> Sort(keys, IndexKey)[i] == i
  {
    var order := Sort(keys, IndexKey);
    SortMembers(keys, IndexKey);
    SortKeepsDistinct(keys, IndexKey);
    SortOrdered(keys, IndexKey);
    forall i, j | 0 <= i < j < |order|
      ensures order[i] < order[j]
    {
      assert !Before(IndexKey(order[j]), IndexKey(order[i]));
    }
    CountingUp(order, n);
  }

  lemma {:induction false} CountingUp(order: seq<nat>, n: nat)
    requires forall i, j :: 0 <= i < j < |order| ==> order[i] < order[j]
    requires forall i: nat :: i in order <==> i < n
    ensures |order| == n && forall i :: 0 <= i < n ==> order[i] == i
  {
    assert order != [] ==> order[0] in order;
    if n > 0 {
      var last := |order| - 1;
      assert n - 1 in order;
      assert order[last] in order;
      assert order[last] == n - 1;
      forall i: nat
        ensures i in order[..last] <==> i < n - 1
      {
        assert i in order <==> i in order[..last] || i == n - 1 by { assert order == order[..last] + [n - 1]; }
        if i in order[..last] {
          var j :| 0 <= j < last && order[j] == i;
        }
      }
      CountingUp(order[..last], n - 1);
    }
  }

  lemma ConfigReadBack(ix: Index)
    requires ix.config.Valid()
    ensures ReadConfig(ConfigRow(ix)) == Ok(ix.config)
  {}

  // --- vectors ---

  function VectorsOf(nodes: seq<Node>): seq<Embedding> {
    if nodes == [] then [] else VectorsOf(nodes[..|nodes| - 1]) + [nodes[|nodes| - 1].embedding]
  }

  lemma {:induction false} VectorsOfAt(nodes: seq<Node>)
    ensures |VectorsOf(nodes)| == |nodes|
    ensures forall i :: 0 <= i < |nodes| ==> VectorsOf(nodes)[i] == nodes[i].embedding
  {
    if nodes != [] { VectorsOfAt(nodes[..|nodes| - 1]); }
  }

  // The graph with node i's embedding replaced by record i.
  function Revector(g: Graph, records: seq<Embedding>): Graph
    requires |records| >= |g.nodes|
  {
    g.(nodes := seq(|g.nodes|, i requires 0 <= i < |g.nodes| => g.nodes[i].(embedding := records[i])))
  }

  lemma {:induction false} SnapshotIgnoresVectors(g: Graph, records: seq<Embedding>, n: nat)
    requires |records| >= |g.nodes| && n <= |g.nodes|
    ensures SnapshotNodes(Revector(g, records), n) == SnapshotNodes(g, n)
  {
    if n > 0 {
      SnapshotIgnoresVectors(g, records, n - 1);
      ListsIgnoreVectors(g, records, n - 1, g.NodeLevel(n - 1) + 1);
    }
  }

  lemma {:induction false} ListsIgnoreVectors(g: Graph, records: seq<Embedding>, i: nat, above: nat)
    requires |records| >= |g.nodes|
    ensures ListsOf(Revector(g, records), i, above) == ListsOf(g, i, above)
  {
    if above > 0 { ListsIgnoreVectors(g, records, i, above - 1); }
  }

  ghost predicate GoodRecords(records: seq<Embedding>, dimension: nat) {
    forall r :: r in records ==> |r| == dimension && WellFormedEmbedding(r)
  }

  lemma RevectorGood(ix: Index, records: seq<Embedding>)
    requires Good(ix) && |records| >= |ix.graph.nodes| && GoodRecords(records, ix.dimension)
    ensures var h := Revector(ix.graph, records);
            GoodEdges(h, ix.config) && GoodLive(h) && GoodOrder(h) && GoodEmbeddings(h, ix.dimension)
  {
    var g, h := ix.graph, Revector(ix.graph, records);
    RevectorEdges(g, ix.config, records);
    hide GoodEdges;
    assert forall i :: 0 <= i < |h.nodes| ==> h.nodes[i].embedding == records[i] && records[i] in records;
  }

  lemma RevectorEdges(g: Graph, config: HnswConfig, records: seq<Embedding>)
    requires GoodEdges(g, config) && |records| >= |g.nodes|
    ensures GoodEdges(Revector(g, records), config)
  {
    var h := Revector(g, records);
    forall i: nat, l: nat
      ensures GoodList(h, i, l, h.Neighbors(i, l), config.Limit(l))
    {
      assert GoodList(g, i, l, g.Neighbors(i, l), config.Limit(l));
    }
  }

  lemma RecordsMapped(metric: Metric, dimension: nat, records: seq<Embedding>, i: nat)
    requires Seg.AllSized(records, dimension) && i < |records|
    ensures var file := Seg.FileOf(metric, dimension, records);
            VectorsIn(Seg.State(dimension, file, Some(file), |records|))(i) == Some(records[i])
  {
    hide Seg.FileOf, Seg.Offset, Bytes.CastToFloats, Bytes.CastToBytes, Seg.AllSized;
    Seg.RecordReads(metric, dimension, records, [], i);
    assert Seg.FileOf(metric, dimension, records) + [] == Seg.FileOf(metric, dimension, records);
  }

  // What reopening does in general: the graph in the tables comes back exactly,
  // with the segment's first records as its vectors.
  lemma ReopenYields(disk: Disk, keys: seq<nat>, ix: Index, records: seq<Embedding>, torn: seq<Byte>)
    requires Good(ix) && ix.dimension < 0x1_0000_0000 && Mirrors(disk.tables, ix)
    requires Enumerates(keys, disk.tables.nodes)
    requires |records| == |ix.graph.nodes| && GoodRecords(records, ix.dimension)
    requires disk.file == Seg.FileOf(ix.config.metric, ix.dimension, records) + torn
    ensures var file := Seg.FileOf(ix.config.metric, ix.dimension, records);
            Open(disk, keys, ix.num) ==
            Ok(Store(ix.(graph := Revector(ix.graph, records)), disk.tables,
                     Seg.State(ix.dimension, file, Some(file), |records|)))
  {
    var n, t := |ix.graph.nodes|, disk.tables;
    var file := Seg.FileOf(ix.config.metric, ix.dimension, records);
    var segment := Seg.State(ix.dimension, file, Some(file), n);
    ConfigReadBack(ix);
    Seg.OpenCuts(ix.config.metric, ix.dimension, records, torn);
    SortMembers(keys, IndexKey);
    TableKeys(t, ix);
    DenseKeys(keys, n);
    ReadNodesBack(t, ix, Sort(keys, IndexKey));
    RestoreFrom(ix, records);
    hide Seg.FileOf, Seg.Open, FromSnapshot, ReadNodes, Sort, Mirrors, Good, Revector, Enumerates, SnapshotNodes, GoodRecords;
    assert t.config == ConfigRow(ix) && t.state == StateMeta(ix);
  }

  // What reopening refuses before it reads any node: a dimension, metric byte
  // or configuration no store is created with, or a segment of another kind.
  lemma OpenRefuses(disk: Disk, keys: seq<nat>, num: Numerics)
    requires Enumerates(keys, disk.tables.nodes)
    ensures var c, r := disk.tables.config, Open(disk, keys, num);
            if || c.dimension == 0 || c.dimension >= 0x1_0000_0000 || c.metricByte > 2
               || c.m < 2 || c.efConstruction == 0 || c.efSearch == 0
            then r == Err(Corruption)
            else
              var metric := if c.metricByte == 0 then Cosine else if c.metricByte == 1 then DotProduct else Euclidean;
              r.Ok? ==> && |disk.file| >= 32 && disk.file[..17] == Seg.Header(metric, c.dimension)[..17]
                        && r.value.index.config == HnswConfig(metric, c.m, c.efConstruction, c.efSearch, c.seed)
                        && r.value.index.dimension == c.dimension && r.value.tables == disk.tables
  {
    var c := disk.tables.config;
    if 0 < c.dimension < 0x1_0000_0000 {
      var config := ReadConfig(c);
      if config.Ok? {
        Seg.OpenAccepts(disk.file, config.value.metric, c.dimension, disk.tables.state.nodeCount);
      }
      SortMembers(keys, IndexKey);
    }
    hide Seg.Open, Seg.Header, ReadNodes, Sort, Enumerates, RestoreNodes, LiveRows;
  }

  lemma TableKeys(t: Tables, ix: Index)
    requires Mirrors(t, ix)
    ensures forall i: nat :: i in t.nodes <==> i < |ix.graph.nodes|
    ensures t.config == ConfigRow(ix) && t.state == StateMeta(ix)
  {
    FlushNodesReads(ix.graph, |ix.graph.nodes|);
  }

  lemma RestoreFrom(ix: Index, records: seq<Embedding>)
    requires Good(ix) && |records| == |ix.graph.nodes| && GoodRecords(records, ix.dimension)
    ensures var file := Seg.FileOf(ix.config.metric, ix.dimension, records);
            var vectors := VectorsIn(Seg.State(ix.dimension, file, Some(file), |records|));
            FromSnapshot(ix.config, ix.dimension, ix.num, Snapshot(ix), vectors) ==
            Ok(ix.(graph := Revector(ix.graph, records)))
  {
    hide Seg.FileOf, VectorsIn, GoodEdges, GoodLive, GoodOrder, GoodEmbeddings, SnapshotNodes, FromSnapshot, LiveRows;
    var file := Seg.FileOf(ix.config.metric, ix.dimension, records);
    var vectors := VectorsIn(Seg.State(ix.dimension, file, Some(file), |records|));
    var jx := ix.(graph := Revector(ix.graph, records));
    RevectorGood(ix, records);
    assert Carries(jx.graph, vectors) by {
      forall i: nat | i < |jx.graph.nodes|
        ensures vectors(i) == Some(jx.graph.nodes[i].embedding)
      {
        RecordsMapped(ix.config.metric, ix.dimension, records, i);
      }
    }
    SnapshotIgnoresVectors(ix.graph, records, |ix.graph.nodes|);
    assert Snapshot(jx) == Snapshot(ix);
    WellFormedRestores(jx, vectors);
  }
}
