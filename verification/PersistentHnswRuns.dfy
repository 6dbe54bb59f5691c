/** Write-through operations, reopening and crashes over whole runs. */
module PersistentHnswRuns {
  import opened Core
  import opened Bytes
  import opened Config
  import opened Graph
  import opened Hnsw
  import opened HnswInvariant
  import opened HnswRuns
  import opened HnswSnapshot
  import opened PersistentHnsw
  import opened PersistentHnswFacts
  import PersistentFlatFacts
  import Seg = Segment
  import Flat
  import Oracle

  // --- the operations ---

  function TouchedKeys(g: Graph, touched: set<nat>): set<AdjKey> {
    set i: nat, l: nat | i in touched && i < |g.nodes| && l <= g.NodeLevel(i) && g.Has(i) :: AdjKey(i, l)
  }

  // One transaction: the touched rows and the state row.
  function Write(t: Tables, g: Graph, touched: set<nat>, lists: bool, state: MetaState): Tables {
    Tables(t.config,
           t.nodes + (map i: nat | i in touched && i < |g.nodes| :: RowOf(g, i)),
           if lists then t.adj + (map k | k in TouchedKeys(g, touched) :: g.Neighbors(k.node, k.layer)) else t.adj,
           state)
  }

  function Create(config: HnswConfig, dimension: nat, num: Numerics): Result<Store> {
    var ix := New(config, dimension, num);
    var segment :- Seg.Create(config.metric, dimension);
    Ok(Store(ix, Tables(ConfigRow(ix), map[], map[], MetaState(None, 0, config.seed, 0)), segment))
  }

  // write_through_insert: the vector is appended before the index decides.
  function InsertThrough(p: Store, id: VectorId, e: Embedding): (Store, Result<()>) {
    match Seg.Append(p.segment, e)
    case Err(error) => (p, Err(error))
    case Ok(segment) =>
      var (ix, r) := Insert(p.index, id, e);
      match r
      case Err(error) => (Store(ix, p.tables, segment), Err(error))
      case Ok(delta) => (Store(ix, Write(p.tables, ix.graph, delta.touched, true, StateMeta(ix)), segment), Ok(()))
  }

  // write_through_remove
  function RemoveThrough(p: Store, id: VectorId): (Store, bool) {
    var (ix, r) := Remove(p.index, id);
    match r
    case None => (p.(index := ix), false)
    case Some(delta) => (p.(index := ix, tables := Write(p.tables, ix.graph, delta.touched, false, StateMeta(ix))), true)
  }

  // compact: the index and the tables are rebuilt, the segment is not.
  function CompactThrough(p: Store): (Store, Result<()>) {
    var (ix, r) := Compact(p.index);
    match r
    case Err(error) => (p.(index := ix), Err(error))
    case Ok(_) => (p.(index := ix, tables := Flush(p.tables.config, ix)), Ok(()))
  }

  // bulk_load: all vectors appended, all points inserted in RAM, one flush.
  function BulkLoad(config: HnswConfig, dimension: nat, num: Numerics, points: seq<Flat.Point>): Result<Store> {
    var p :- Create(config, dimension, num);
    var segment :- AppendAll(p.segment, points);
    var (ix, r) := InsertAll(p.index, points);
    match r
    case Err(error) => Err(error)
    case Ok(_) => Ok(Store(ix, Flush(p.tables.config, ix), segment))
  }

  function AppendAll(segment: Seg.State, points: seq<Flat.Point>): Result<Seg.State> {
    if points == [] then Ok(segment)
    else
      var before :- AppendAll(segment, points[..|points| - 1]);
      Seg.Append(before, points[|points| - 1].embedding)
  }

  // What is on disk when the process dies inside write_through_insert before
  // its transaction commits.
  function TornInsert(p: Store, e: Embedding, n: nat): Disk {
    Disk(p.tables, Seg.TornAppend(p.segment, e, n).file)
  }

  // The append is all that dying there can leave behind: the first n bytes of
  // the vector, or nothing if it is refused.
  lemma TornInsertLeaves(p: Store, e: Embedding, n: nat)
    requires p.segment.dimension > 0
    ensures TornInsert(p, e, n).tables == p.tables
    ensures var torn := if |e| % p.segment.dimension == 0 then Take(CastToBytes(e), n) else [];
            TornInsert(p, e, n).file == p.segment.file + torn
  {
    assert p.segment.file + [] == p.segment.file;
    hide CastToBytes;
  }

  // --- the invariant ---

  // Tables mirror the index and record i of the segment is node i's vector.
  ghost predicate Durable(p: Store) {
    && Good(p.index) && p.index.dimension < 0x1_0000_0000
    && Mirrors(p.tables, p.index)
    && p.segment.dimension == p.index.dimension
    && p.segment.file == Seg.FileOf(p.index.config.metric, p.index.dimension, VectorsOf(p.index.graph.nodes))
  }

  lemma WriteWrites(t: Tables, g: Graph, touched: set<nat>, lists: bool, state: MetaState)
    ensures RowsWritten(t, Write(t, g, touched, lists, state), g, touched, lists)
  {
    forall k
      ensures k in TouchedKeys(g, touched) <==> Written(g, touched, k)
    {
      assert k == AdjKey(k.node, k.layer);
    }
  }

  lemma CreateDurable(config: HnswConfig, dimension: nat, num: Numerics)
    requires config.Valid() && 0 < dimension < 0x1_0000_0000
    ensures Create(config, dimension, num).Ok?
    ensures Durable(Create(config, dimension, num).value)
    ensures Create(config, dimension, num).value.index == New(config, dimension, num)
  {
    NewGood(config, dimension, num);
    Seg.HeaderLength(config.metric, dimension);
    assert Seg.FileOf(config.metric, dimension, []) == Seg.Header(config.metric, dimension) by { assert CastToBytes([]) == []; }
    hide Seg.Header, Seg.FileOf;
  }

  lemma VectorsGood(ix: Index)
    requires Good(ix)
    ensures GoodRecords(VectorsOf(ix.graph.nodes), ix.dimension) && Seg.AllSized(VectorsOf(ix.graph.nodes), ix.dimension)
    ensures |VectorsOf(ix.graph.nodes)| == |ix.graph.nodes|
  {
    VectorsOfAt(ix.graph.nodes);
  }

  lemma VectorsRevector(g: Graph)
    ensures |VectorsOf(g.nodes)| == |g.nodes|
    ensures Revector(g, VectorsOf(g.nodes)) == g
  {
    VectorsOfAt(g.nodes);
    assert Revector(g, VectorsOf(g.nodes)).nodes == g.nodes;
  }

  // Whatever a torn append left behind, reopening gives back the very index
  // that was in RAM.
  lemma ReopenExact(p: Store, disk: Disk, keys: seq<nat>, torn: seq<Byte>)
    requires Durable(p) && disk.tables == p.tables && disk.file == p.segment.file + torn
    requires Enumerates(keys, disk.tables.nodes)
    ensures Open(disk, keys, p.index.num).Ok?
    ensures var q := Open(disk, keys, p.index.num).value;
            q.index == p.index && q.tables == p.tables && Durable(q)
  {
    var ix := p.index;
    VectorsGood(ix);
    VectorsRevector(ix.graph);
    hide Seg.FileOf, Good, Mirrors, GoodRecords, Open, Revector, VectorsOf, Enumerates;
    ReopenYields(disk, keys, ix, VectorsOf(ix.graph.nodes), torn);
  }

  lemma {:induction false} VectorsCongruent(a: seq<Node>, b: seq<Node>)
    requires |a| == |b| && forall i :: 0 <= i < |a| ==> a[i].embedding == b[i].embedding
    ensures VectorsOf(a) == VectorsOf(b)
  {
    if a != [] { VectorsCongruent(a[..|a| - 1], b[..|b| - 1]); }
  }

  lemma InsertVectors(ix: Index, id: VectorId, e: Embedding)
    requires Good(ix) && Accepts(ix, id, e)
    ensures VectorsOf(Insert(ix, id, e).0.graph.nodes) == VectorsOf(ix.graph.nodes) + [e]
  {
    var before, after := ix.graph.nodes, Insert(ix, id, e).0.graph.nodes;
    InsertNodes(ix, id, e);
    hide Insert, Good;
    VectorsCongruent(before, after[..|before|]);
  }

  lemma AppendOne(segment: Seg.State, e: Embedding)
    requires segment.dimension > 0 && |e| == segment.dimension
    ensures Seg.Append(segment, e) == Ok(segment.(file := segment.file + CastToBytes(e)))
  {
    PersistentFlatFacts.AppendAccepted(segment, [e]);
    Seg.FlattenOne(e);
  }

  // An accepted insert keeps the store durable.
  lemma InsertAcceptedDurable(p: Store, id: VectorId, e: Embedding)
    requires Durable(p) && WellFormedEmbedding(e) && Accepts(p.index, id, e)
    ensures var (q, r) := InsertThrough(p, id, e);
            r.Ok? && Durable(q) && q.index == Insert(p.index, id, e).0
  {
    var ix, next := p.index, Insert(p.index, id, e).0;
    InsertAccepted(ix, id, e);
    InsertGood(ix, id, e);
    InsertNodes(ix, id, e);
    InsertVectors(ix, id, e);
    AppendOne(p.segment, e);
    var records := VectorsOf(ix.graph.nodes);
    Seg.FileAppend(ix.config.metric, ix.dimension, records, [e]);
    Seg.FlattenOne(e);
    hide Seg.FileOf, Seg.Append, Seg.Flatten, CastToBytes, Insert, Good, Mirrors, Write, VectorsOf;
    InsertTables(p.tables, ix, id, e);
  }

  lemma InsertTables(t: Tables, ix: Index, id: VectorId, e: Embedding)
    requires Good(ix) && Mirrors(t, ix) && Accepts(ix, id, e) && Insert(ix, id, e).1.Ok?
    ensures var (next, r) := Insert(ix, id, e); Mirrors(Write(t, next.graph, r.value.touched, true, StateMeta(next)), next)
  {
    var (next, r) := Insert(ix, id, e);
    var after := Write(t, next.graph, r.value.touched, true, StateMeta(next));
    WriteWrites(t, next.graph, r.value.touched, true, StateMeta(next));
    WriteKeeps(t, next.graph, r.value.touched, true, StateMeta(next));
    hide Insert, Good, Mirrors, Write, RowsWritten;
    InsertMirrored(t, after, ix, id, e);
  }

  lemma WriteKeeps(t: Tables, g: Graph, touched: set<nat>, lists: bool, state: MetaState)
    ensures Write(t, g, touched, lists, state).config == t.config && Write(t, g, touched, lists, state).state == state
  {}

  // The append comes before the decision: an insert that is rejected leaves
  // its vector in the segment unless its length is no multiple of the
  // dimension, and the store is then no longer durable.
  lemma InsertDurable(p: Store, id: VectorId, e: Embedding)
    requires Durable(p) && WellFormedEmbedding(e)
    ensures var (q, r) := InsertThrough(p, id, e);
            && (r.Ok? <==> Accepts(p.index, id, e))
            && q.index == Insert(p.index, id, e).0
            && (Durable(q) <==> (Accepts(p.index, id, e) || |e| % p.index.dimension != 0))
  {
    InsertAccepted(p.index, id, e);
    if Accepts(p.index, id, e) {
      InsertAcceptedDurable(p, id, e);
    } else if |e| % p.index.dimension == 0 {
      CastLength(e);
      assert |p.segment.file + CastToBytes(e)| > |p.segment.file|;
    }
  }

  lemma RemoveDurable(p: Store, id: VectorId)
    requires Durable(p)
    ensures var (q, r) := RemoveThrough(p, id);
            Durable(q) && q.index == Remove(p.index, id).0 && r == (id in Content(p.index.graph))
  {
    var ix, next := p.index, Remove(p.index, id).0;
    RemoveGood(ix, id);
    if Remove(ix, id).1.Some? {
      RemoveVectors(ix, id);
      hide Seg.FileOf, Remove, Good, Mirrors, Write, VectorsOf, Content;
      RemoveTables(p.tables, ix, id);
    } else {
      assert id !in ix.graph.live ==> next == ix;
      RemoveNothing(ix, id);
    }
  }

  lemma RemoveTables(t: Tables, ix: Index, id: VectorId)
    requires Good(ix) && Mirrors(t, ix) && Remove(ix, id).1.Some?
    ensures var (next, r) := Remove(ix, id); Mirrors(Write(t, next.graph, r.value.touched, false, StateMeta(next)), next)
  {
    var (next, r) := Remove(ix, id);
    var after := Write(t, next.graph, r.value.touched, false, StateMeta(next));
    WriteWrites(t, next.graph, r.value.touched, false, StateMeta(next));
    WriteKeeps(t, next.graph, r.value.touched, false, StateMeta(next));
    hide Remove, Good, Mirrors, Write, RowsWritten;
    RemoveMirrored(t, after, ix, id);
  }

  lemma RemoveNothing(ix: Index, id: VectorId)
    requires Remove(ix, id).1.None?
    ensures Remove(ix, id).0 == ix
  {}

  lemma RemoveVectors(ix: Index, id: VectorId)
    requires Good(ix) && Remove(ix, id).1.Some?
    ensures VectorsOf(Remove(ix, id).0.graph.nodes) == VectorsOf(ix.graph.nodes)
    ensures Remove(ix, id).0.config == ix.config && Remove(ix, id).0.dimension == ix.dimension
  {
    VectorsCongruent(ix.graph.nodes, Remove(ix, id).0.graph.nodes);
  }

  // Compaction renumbers the nodes but leaves the segment as it is: the store
  // stays durable exactly when there was no tombstone to drop.
  lemma CompactDurable(p: Store)
    requires Durable(p)
    ensures var (q, r) := CompactThrough(p);
            && r == Ok(()) && q.index == Compact(p.index).0
            && (Durable(q) <==> forall i :: 0 <= i < |p.index.graph.nodes| ==> !p.index.graph.nodes[i].tombstone)
  {
    var ix, next := p.index, Compact(p.index).0;
    CompactCanonical(ix);
    LivePointsMembers(ix.graph.nodes);
    VectorsGood(ix);
    VectorsGood(next);
    Seg.FileLength(ix.config.metric, ix.dimension, VectorsOf(ix.graph.nodes));
    Seg.FileLength(ix.config.metric, ix.dimension, VectorsOf(next.graph.nodes));
    hide Compact, Good, Seg.FileOf, VectorsOf;
    assert Mirrors(Flush(p.tables.config, next), next);
    if forall i :: 0 <= i < |ix.graph.nodes| ==> !ix.graph.nodes[i].tombstone {
      LivePointsMembers(next.graph.nodes);
      LiveVectors(ix.graph.nodes);
      LiveVectors(next.graph.nodes);
    } else {
      OffsetInjective(ix.dimension, |next.graph.nodes|, |ix.graph.nodes|);
    }
  }

  lemma OffsetInjective(dimension: nat, a: nat, b: nat)
    requires dimension > 0 && a < b
    ensures Seg.Offset(dimension, a) < Seg.Offset(dimension, b)
  {
    PersistentFlatFacts.Monotone(a + 1, b, dimension * 4);
    assert (a + 1) * (dimension * 4) == a * (dimension * 4) + dimension * 4;
  }

  // With nothing tombstoned the live points carry the vectors node by node.
  lemma {:induction false} LiveVectors(nodes: seq<Node>)
    requires forall i :: 0 <= i < |nodes| ==> !nodes[i].tombstone
    ensures VectorsOf(nodes) == PointVectors(LivePoints(nodes))
  {
    if nodes != [] {
      LiveVectors(nodes[..|nodes| - 1]);
      var points := LivePoints(nodes[..|nodes| - 1]);
      assert LivePoints(nodes)[..|points|] == points;
    }
  }

  function PointVectors(points: seq<Flat.Point>): seq<Embedding> {
    if points == [] then [] else PointVectors(points[..|points| - 1]) + [points[|points| - 1].embedding]
  }

  // --- bulk loading ---

  lemma {:induction false} AppendAllFile(segment: Seg.State, metric: Metric, points: seq<Flat.Point>)
    requires segment.dimension > 0 && segment.file == Seg.FileOf(metric, segment.dimension, [])
    requires forall p :: p in points ==> |p.embedding| == segment.dimension
    ensures AppendAll(segment, points)
         == Ok(segment.(file := Seg.FileOf(metric, segment.dimension, PointVectors(points))))
  {
    if points != [] {
      var n := |points| - 1;
      assert points[n] in points && forall p :: p in points[..n] ==> p in points;
      AppendAllFile(segment, metric, points[..n]);
      var before := segment.(file := Seg.FileOf(metric, segment.dimension, PointVectors(points[..n])));
      AppendOne(before, points[n].embedding);
      Seg.FileAppend(metric, segment.dimension, PointVectors(points[..n]), [points[n].embedding]);
      Seg.FlattenOne(points[n].embedding);
      hide Seg.FileOf, Seg.Append, Seg.Flatten, CastToBytes;
    }
  }

  lemma {:induction false} AppendAllDecided(segment: Seg.State, points: seq<Flat.Point>)
    requires segment.dimension > 0
    ensures var r := AppendAll(segment, points);
            if exists p :: p in points && |p.embedding| % segment.dimension != 0 then r == Err(Corruption)
            else r.Ok? && r.value.dimension == segment.dimension
  {
    if points != [] {
      var n := |points| - 1;
      AppendAllDecided(segment, points[..n]);
      assert points[n] in points;
      assert points == points[..n] + [points[n]];
      hide CastToBytes;
    }
  }

  lemma CreateSized(config: HnswConfig, dimension: nat, num: Numerics)
    requires config.Valid() && 0 < dimension < 0x1_0000_0000
    ensures var r := Create(config, dimension, num);
            r.Ok? && r.value.segment.dimension == dimension && r.value.index == New(config, dimension, num)
  {
    hide Durable;
    CreateDurable(config, dimension, num);
  }

  lemma LoadedFrom(config: HnswConfig, dimension: nat, num: Numerics, points: seq<Flat.Point>, p: Store)
    requires Create(config, dimension, num) == Ok(p)
    ensures var r, segment, (next, ram) := BulkLoad(config, dimension, num, points), AppendAll(p.segment, points),
              InsertAll(p.index, points);
            if segment.Err? then r == Err(segment.error)
            else if ram.Err? then r == Err(ram.error)
            else r == Ok(Store(next, Flush(p.tables.config, next), segment.value))
  {
    hide Create, Insert, Seg.Append;
    var segment, ram := AppendAll(p.segment, points), InsertAll(p.index, points);
    if segment.Ok? && ram.1.Ok? {
      assert BulkLoad(config, dimension, num, points) == Ok(Store(ram.0, Flush(p.tables.config, ram.0), segment.value));
    }
  }

  // A bulk load answers as the bulk insert in RAM, unless some vector is not
  // whole records: that refusal comes before the index sees any point.
  lemma BulkLoadAnswers(config: HnswConfig, dimension: nat, num: Numerics, points: seq<Flat.Point>)
    requires config.Valid() && 0 < dimension < 0x1_0000_0000
    ensures var r, (next, ram) := BulkLoad(config, dimension, num, points), InsertAll(New(config, dimension, num), points);
            if exists p :: p in points && |p.embedding| % dimension != 0 then r == Err(Corruption)
            else if ram.Err? then r == Err(ram.error)
            else r.Ok? && r.value.index == next
  {
    hide *;
    CreateSized(config, dimension, num);
    var p := Create(config, dimension, num).value;
    AppendAllDecided(p.segment, points);
    LoadedFrom(config, dimension, num, points, p);
  }

  // A bulk load of points with distinct ids is durable and equals the index
  // built in RAM.
  lemma BulkLoadDurable(config: HnswConfig, dimension: nat, num: Numerics, points: seq<Flat.Point>)
    requires config.Valid() && 0 < dimension < 0x1_0000_0000
    requires Insertable(New(config, dimension, num), points)
    ensures var r := BulkLoad(config, dimension, num, points);
            r.Ok? && Durable(r.value) && r.value.index == InsertAll(New(config, dimension, num), points).0
  {
    hide Good, Durable, Seg.FileOf, InsertAll, AppendAll, VectorsOf, PointVectors, LivePoints, Insertable, BulkLoad, Create;
    var ix := New(config, dimension, num);
    NewGood(config, dimension, num);
    CreateSized(config, dimension, num);
    CreateFile(config, dimension, num);
    var p := Create(config, dimension, num).value;
    assert forall q :: q in points ==> |q.embedding| == dimension by { InsertableSized(ix, points); }
    AppendAllFile(p.segment, config.metric, points);
    InsertAllGood(ix, points);
    LoadedFrom(config, dimension, num, points, p);
    var next := InsertAll(ix, points).0;
    AllLive(ix, points, next);
    FlushedDurable(p.tables.config, next, AppendAll(p.segment, points).value);
  }

  lemma InsertableSized(ix: Index, points: seq<Flat.Point>)
    requires Insertable(ix, points)
    ensures forall p :: p in points ==> |p.embedding| == ix.dimension
  {}

  lemma CreateFile(config: HnswConfig, dimension: nat, num: Numerics)
    requires config.Valid() && 0 < dimension < 0x1_0000_0000
    ensures Create(config, dimension, num).Ok?
    ensures var p := Create(config, dimension, num).value;
            && p.tables.config == ConfigRow(New(config, dimension, num))
            && p.segment.file == Seg.FileOf(config.metric, dimension, [])
  {
    CreateDurable(config, dimension, num);
    assert VectorsOf(New(config, dimension, num).graph.nodes) == [];
  }

  lemma AllLive(ix: Index, points: seq<Flat.Point>, next: Index)
    requires ix.graph == Empty && BulkLoaded(ix, points, next)
    ensures VectorsOf(next.graph.nodes) == PointVectors(points)
  {
    hide Good, VectorsOf, PointVectors;
    assert LivePoints(ix.graph.nodes) + points == points;
    LivePointsMembers(next.graph.nodes);
    LiveVectors(next.graph.nodes);
  }

  lemma FlushedDurable(row: MetaConfig, ix: Index, segment: Seg.State)
    requires Good(ix) && ix.dimension < 0x1_0000_0000 && row == ConfigRow(ix) && segment.dimension == ix.dimension
    requires segment.file == Seg.FileOf(ix.config.metric, ix.dimension, VectorsOf(ix.graph.nodes))
    ensures Durable(Store(ix, Flush(row, ix), segment))
  {
    hide Good, Seg.FileOf, VectorsOf, Flush;
  }

  // --- runs ---

  // Do runs an operation to its end; CrashedInsert dies inside an insert after
  // n bytes of the append, and reopens. keys is the order the node table is
  // iterated in on opening.
  datatype Event = Do(op: Oracle.Op) | Reopen(keys: seq<nat>) | CrashedInsert(e: Embedding, n: nat, keys: seq<nat>)

  ghost function Recover(p: Store, disk: Disk, keys: seq<nat>): Store {
    if Enumerates(keys, disk.tables.nodes) then
      match Open(disk, keys, p.index.num)
      case Ok(q) => q
      case Err(_) => p
    else p
  }

  ghost function Exec(p: Store, event: Event): Store {
    match event
    case Do(op) =>
      (match op
       case Insert(id, e) => InsertThrough(p, id, e).0
       case Remove(id) => RemoveThrough(p, id).0
       case Compact => CompactThrough(p).0)
    case Reopen(keys) => Recover(p, DiskOf(p), keys)
    case CrashedInsert(e, n, keys) => Recover(p, TornInsert(p, e, n), keys)
  }

  // A simple guard that keeps a store durable, event by event: the insert will
  // be accepted, or its length is no multiple of the dimension; there is nothing
  // to compact away. It asks for more than exact reopening needs.
  ghost predicate Guard(ix: Index, event: Event) {
    match event
    case Do(op) =>
      (match op
       case Insert(id, e) => WellFormedEmbedding(e) && (Accepts(ix, id, e) || (ix.dimension != 0 && |e| % ix.dimension != 0))
       case Remove(id) => true
       case Compact => forall i :: 0 <= i < |ix.graph.nodes| ==> !ix.graph.nodes[i].tombstone)
    case _ => true
  }

  // The same event for an index that lives in RAM only and never dies.
  ghost function InRam(ix: Index, event: Event): Index {
    match event
    case Do(op) => Step(ix, op).0
    case _ => ix
  }

  ghost function Run(p: Store, events: seq<Event>): Store {
    if events == [] then p else Exec(Run(p, events[..|events| - 1]), events[|events| - 1])
  }

  ghost function RunInRam(ix: Index, events: seq<Event>): Index {
    if events == [] then ix else InRam(RunInRam(ix, events[..|events| - 1]), events[|events| - 1])
  }

  ghost predicate Guarded(ix: Index, events: seq<Event>) {
    events == []
    || (Guarded(ix, events[..|events| - 1]) && Guard(RunInRam(ix, events[..|events| - 1]), events[|events| - 1]))
  }

  lemma RecoverDurable(p: Store, disk: Disk, keys: seq<nat>, torn: seq<Byte>)
    requires Durable(p) && disk.tables == p.tables && disk.file == p.segment.file + torn
    ensures Durable(Recover(p, disk, keys)) && Recover(p, disk, keys).index == p.index
  {
    hide Durable, Open;
    if Enumerates(keys, disk.tables.nodes) {
      ReopenExact(p, disk, keys, torn);
    }
  }

  lemma TornTail(p: Store, e: Embedding, n: nat) returns (torn: seq<Byte>)
    ensures TornInsert(p, e, n).tables == p.tables
    ensures TornInsert(p, e, n).file == p.segment.file + torn
  {
    torn := if TornInsert(p, e, n).file == p.segment.file then [] else Take(CastToBytes(e), n);
    assert p.segment.file + [] == p.segment.file;
  }

  lemma ExecDurable(p: Store, event: Event)
    requires Durable(p) && Guard(p.index, event)
    ensures Durable(Exec(p, event)) && Exec(p, event).index == InRam(p.index, event)
  {
    hide Durable, InsertThrough, RemoveThrough, CompactThrough, Recover, TornInsert, Insert, Remove, Compact;
    match event
    case Do(op) =>
      match op {
        case Insert(id, e) => InsertDurable(p, id, e);
        case Remove(id) => RemoveDurable(p, id);
        case Compact => CompactDurable(p);
      }
    case Reopen(keys) =>
      assert p.segment.file + [] == p.segment.file;
      RecoverDurable(p, DiskOf(p), keys, []);
    case CrashedInsert(e, n, keys) =>
      var torn := TornTail(p, e, n);
      RecoverDurable(p, TornInsert(p, e, n), keys, torn);
  }

  // For every guarded run, with any reopens and crashes in between, the durable
  // index is the index a process that never died would hold.
  lemma {:induction false} RunExact(config: HnswConfig, dimension: nat, num: Numerics, events: seq<Event>)
    requires config.Valid() && 0 < dimension < 0x1_0000_0000
    requires Guarded(New(config, dimension, num), events)
    ensures Create(config, dimension, num).Ok?
    ensures var p := Run(Create(config, dimension, num).value, events);
            Durable(p) && p.index == RunInRam(New(config, dimension, num), events)
  {
    hide Durable, Create, Exec, InRam, Guard;
    CreateDurable(config, dimension, num);
    if events != [] {
      var n := |events| - 1;
      RunExact(config, dimension, num, events[..n]);
      ExecDurable(Run(Create(config, dimension, num).value, events[..n]), events[n]);
    }
  }
}
