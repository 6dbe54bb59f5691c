/** The durable graph index as an object, against the functions it computes. */
module HnswStore {
  import opened Core
  import opened Config
  import opened Ranking
  import opened Graph
  import opened Hnsw
  import opened HnswInvariant
  import opened HnswRuns
  import opened HnswSnapshot
  import opened PersistentHnsw
  import opened PersistentHnswFacts
  import opened PersistentHnswRuns
  import HI = HnswIndex
  import FlatStore
  import Seg = Segment
  import Flat

  lemma RowsDetermined(before: Tables, after: Tables, g: Graph, touched: set<nat>, lists: bool)
    requires RowsWritten(before, after, g, touched, lists) && after.config == before.config
    ensures after == Write(before, g, touched, lists, after.state)
  {
    var w := Write(before, g, touched, lists, after.state);
    WriteWrites(before, g, touched, lists, after.state);
    hide Write, Written;
    assert after.nodes == w.nodes;
    assert after.adj == w.adj;
    WriteKeeps(before, g, touched, lists, after.state);
  }

  lemma RowsExtend(before: Tables, mid: Tables, after: Tables, g: Graph, done: set<nat>, i: nat, lists: bool)
    requires RowsWritten(before, mid, g, done, lists)
    requires i < |g.nodes| ==> after.nodes == mid.nodes[i := RowOf(g, i)]
    requires i < |g.nodes| ==> after.adj == if lists then WriteLists(mid.adj, g, i, g.NodeLevel(i) + 1) else mid.adj
    requires i >= |g.nodes| ==> after.nodes == mid.nodes && after.adj == mid.adj
    ensures RowsWritten(before, after, g, done + {i}, lists)
  {
    hide ListsWritten;
    if lists && i < |g.nodes| {
      ListsExtend(before.adj, mid.adj, g, done, i);
    } else {
      ListsIgnore(before.adj, mid.adj, g, done, i, lists);
    }
  }

  lemma ListsExtend(before: map<AdjKey, seq<nat>>, mid: map<AdjKey, seq<nat>>, g: Graph, done: set<nat>, i: nat)
    requires ListsWritten(before, mid, g, done, true) && i < |g.nodes|
    ensures ListsWritten(before, WriteLists(mid, g, i, g.NodeLevel(i) + 1), g, done + {i}, true)
  {
    WriteListsReads(mid, g, i, g.NodeLevel(i) + 1);
    hide WriteLists;
  }

  lemma ListsIgnore(before: map<AdjKey, seq<nat>>, mid: map<AdjKey, seq<nat>>, g: Graph, done: set<nat>, i: nat, lists: bool)
    requires ListsWritten(before, mid, g, done, lists) && (!lists || i >= |g.nodes|)
    ensures ListsWritten(before, mid, g, done + {i}, lists)
  {}

  class PersistentHnswIndex {
    const index: HI.HnswIndex
    const segment: FlatStore.SegmentFile
    var tables: Tables

    function State(): Store
      reads this, segment, index, index.graph, index.rng
    {
      Store(index.State(), tables, segment.State())
    }

    constructor (index: HI.HnswIndex, segment: FlatStore.SegmentFile, tables: Tables)
      ensures this.index == index && this.segment == segment && this.tables == tables
    {
      this.index, this.segment, this.tables := index, segment, tables;
    }

    // The list rows of one node, layer by layer.
    method PutLists(g: Graph, i: nat)
      modifies this
      ensures tables == old(tables).(adj := WriteLists(old(tables.adj), g, i, g.NodeLevel(i) + 1))
    {
      for layer := 0 to g.NodeLevel(i) + 1
        invariant tables == old(tables).(adj := WriteLists(old(tables.adj), g, i, layer))
      {
        tables := tables.(adj := tables.adj[AdjKey(i, layer) := g.Neighbors(i, layer)]);
      }
    }

    // The rows of the touched nodes.
    method PutTouched(g: Graph, touched: set<nat>, lists: bool)
      modifies this
      ensures RowsWritten(old(tables), tables, g, touched, lists)
      ensures tables.config == old(tables.config) && tables.state == old(tables.state)
    {
      hide RowsWritten, WriteLists;
      var rest := touched;
      NothingWritten(tables, g, lists);
      while rest != {}
        invariant rest <= touched
        invariant RowsWritten(old(tables), tables, g, touched - rest, lists)
        invariant tables.config == old(tables.config) && tables.state == old(tables.state)
      {
        var i :| i in rest;
        ghost var before := tables;
        if i < |g.nodes| {
          tables := tables.(nodes := tables.nodes[i := RowOf(g, i)]);
          if lists {
            PutLists(g, i);
          }
        }
        RowsExtend(old(tables), before, tables, g, touched - rest, i, lists);
        assert touched - rest + {i} == touched - (rest - {i});
        rest := rest - {i};
      }
      assert touched - rest == touched;
    }

    method WriteThroughInsert(id: VectorId, e: Embedding) returns (r: Result<()>)
      requires Good(index.State())
      modifies this, segment, index, index.graph, index.rng
      ensures index.graph == old(index.graph) && index.rng == old(index.rng)
      ensures (State(), r) == InsertThrough(old(State()), id, e)
    {
      hide Good, Insert, Seg.Append, Write, RowsWritten;
      r := segment.Append(e, None);
      if r.Err? {
        return;
      }
      var delta := index.InsertTracked(id, e);
      if delta.Err? {
        return Err(delta.error);
      }
      ghost var before := tables;
      PutTouched(index.graph.State(), delta.value.touched, true);
      tables := tables.(state := StateMeta(index.State()));
      StateIrrelevant(before, tables, index.graph.State(), delta.value.touched, true);
      RowsDetermined(before, tables, index.graph.State(), delta.value.touched, true);
      r := Ok(());
    }

    method WriteThroughRemove(id: VectorId) returns (present: bool)
      modifies this, index.graph
      ensures (State(), present) == RemoveThrough(old(State()), id)
    {
      hide Remove, Write, RowsWritten;
      var delta := index.RemoveTracked(id);
      if delta.None? {
        return false;
      }
      ghost var before := tables;
      PutTouched(index.graph.State(), delta.value.touched, false);
      tables := tables.(state := StateMeta(index.State()));
      StateIrrelevant(before, tables, index.graph.State(), delta.value.touched, false);
      RowsDetermined(before, tables, index.graph.State(), delta.value.touched, false);
      present := true;
    }

    // flush_snapshot_to_redb
    method FlushAll()
      modifies this
      ensures tables == Flush(old(tables.config), index.State())
    {
      var g := index.graph.State();
      tables := tables.(nodes := map[], adj := map[]);
      for i := 0 to |g.nodes|
        invariant tables.config == old(tables.config)
        invariant tables.nodes == FlushNodes(g, i) && tables.adj == FlushLists(g, i)
      {
        tables := tables.(nodes := tables.nodes[i := RowOf(g, i)]);
        PutLists(g, i);
      }
      tables := tables.(state := StateMeta(index.State()));
    }

    method CompactAll() returns (r: Result<()>)
      requires Good(index.State())
      modifies this, index, index.graph, index.rng
      ensures (State(), r) == CompactThrough(old(State()))
    {
      hide Good, Compact, Flush;
      r := index.CompactGraph();
      if r.Err? {
        return;
      }
      FlushAll();
      r := Ok(());
    }
  }

  // The list rows of one node, an absent row reading as empty.
  method LoadLists(t: Tables, i: nat, above: nat) returns (lists: seq<seq<nat>>)
    ensures lists == ReadLists(t, i, above)
  {
    lists := [];
    for layer := 0 to above
      invariant lists == ReadLists(t, i, layer)
    {
      var key := AdjKey(i, layer);
      lists := lists + [if key in t.adj then t.adj[key] else []];
    }
  }

  // The node rows in index order, whatever order the table is iterated in.
  method LoadNodes(t: Tables, keys: seq<nat>) returns (nodes: seq<SnapshotNode>)
    requires forall i :: i in keys ==> i in t.nodes
    ensures (forall i :: i in Sort(keys, IndexKey) ==> i in t.nodes) && nodes == ReadNodes(t, Sort(keys, IndexKey))
  {
    SortMembers(keys, IndexKey);
    var sorted := Sort(keys, IndexKey);
    hide Sort;
    nodes := [];
    for n := 0 to |sorted|
      invariant forall i :: i in sorted[..n] ==> i in t.nodes
      invariant nodes == ReadNodes(t, sorted[..n])
    {
      var i := sorted[n];
      assert i in sorted;
      var lists := LoadLists(t, i, t.nodes[i].level + 1);
      nodes := nodes + [SnapshotNode(t.nodes[i].id, t.nodes[i].level, t.nodes[i].tombstone, lists)];
      assert sorted[..n + 1][..n] == sorted[..n];
    }
    assert sorted[..|sorted|] == sorted;
  }

  // PersistentHnswIndex::open
  method OpenStore(disk: Disk, keys: seq<nat>, num: Numerics) returns (r: Result<PersistentHnswIndex>)
    requires Enumerates(keys, disk.tables.nodes)
    ensures match Open(disk, keys, num)
            case Ok(s) => r.Ok? && fresh(r.value) && r.value.State() == s
            case Err(error) => r == Err(error)
  {
    hide Sort, ReadNodes, FromSnapshot, Seg.Open, LiveRows, ReadConfig, VectorsIn, Distinct;
    var t := disk.tables;
    if t.config.dimension == 0 || t.config.dimension >= 0x1_0000_0000 {
      return Err(Corruption);
    }
    var config := ReadConfig(t.config);
    if config.Err? {
      return Err(config.error);
    }
    var segment := FlatStore.OpenSegment(disk.file, config.value.metric, t.config.dimension, t.state.nodeCount);
    if segment.Err? {
      return Err(segment.error);
    }
    var nodes := LoadNodes(t, keys);
    var snapshot := GraphSnapshot(nodes, t.state.entry, t.state.entryLevel, t.state.rng, LiveRows(nodes));
    var index := HI.Restore(config.value, t.config.dimension, num, snapshot, VectorsIn(segment.value.State()));
    if index.Err? {
      return Err(index.error);
    }
    var store := new PersistentHnswIndex(index.value, segment.value, t);
    r := Ok(store);
  }

  lemma NothingWritten(t: Tables, g: Graph, lists: bool)
    ensures forall s :: s == {} ==> RowsWritten(t, t, g, s, lists)
  {}

  lemma StateIrrelevant(before: Tables, after: Tables, g: Graph, touched: set<nat>, lists: bool)
    requires RowsWritten(before, after.(state := before.state), g, touched, lists)
    ensures RowsWritten(before, after, g, touched, lists)
  {}
}
