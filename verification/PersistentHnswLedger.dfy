/** What reopening a durable graph index returns, after any run: the segment
    may hold more records than there are nodes, and not in node order. */
module PersistentHnswLedger {
  import opened Core
  import opened Bytes
  import opened Ranking
  import opened Config
  import opened Graph
  import opened Hnsw
  import opened HnswConnect
  import opened HnswInvariant
  import opened HnswRuns
  import opened HnswSnapshot
  import opened PersistentHnsw
  import opened PersistentHnswFacts
  import opened PersistentHnswRuns
  import PersistentFlatFacts
  import Seg = Segment
  import Flat
  import Oracle

  // --- the invariant of every run ---

  // The tables mirror the index; the segment holds whole well-formed records,
  // at least one for each node.
  ghost predicate Backed(p: Store, records: seq<Embedding>) {
    && Good(p.index) && p.index.dimension < 0x1_0000_0000
    && Mirrors(p.tables, p.index)
    && p.segment.dimension == p.index.dimension
    && GoodRecords(records, p.index.dimension) && |p.index.graph.nodes| <= |records|
    && p.segment.file == Seg.FileOf(p.index.config.metric, p.index.dimension, records)
  }

  // The records begin with the nodes' vectors, node by node.
  ghost predicate Aligned(ix: Index, records: seq<Embedding>) {
    VectorsOf(ix.graph.nodes) <= records
  }

  lemma DurableIsBacked(p: Store)
    ensures Durable(p) <==> Backed(p, VectorsOf(p.index.graph.nodes))
  {
    VectorsOfAt(p.index.graph.nodes);
    hide Seg.FileOf, Mirrors, GoodEdges, GoodLive, GoodOrder, GoodEntry, Connected;
  }

  // --- records appended ---

  // A vector cut into records, as an append stores it.
  function Chunks(e: Embedding, d: nat): seq<Embedding>
    requires d > 0
    decreases |e|
  {
    if |e| < d then [] else Chunks(e[..|e| - d], d) + [e[|e| - d..]]
  }

  lemma {:induction false} ChunksFlatten(e: Embedding, d: nat)
    requires d > 0 && |e| % d == 0
    ensures Seg.Flatten(Chunks(e, d)) == e
    decreases |e|
  {
    if |e| < d {
      SmallMultiple(|e|, d);
    } else {
      LessOne(|e|, d);
      ChunksFlatten(e[..|e| - d], d);
      var all := Chunks(e, d);
      assert all[..|all| - 1] == Chunks(e[..|e| - d], d);
    }
  }

  lemma SmallMultiple(n: nat, d: nat)
    requires n < d && n % d == 0
    ensures n == 0
  {}

  lemma LessOne(n: nat, d: nat)
    requires d > 0 && n >= d
    ensures (n - d) % d == n % d
  {
    PersistentFlatFacts.Euclid(n, d);
    PersistentFlatFacts.Euclid(n - d, d);
    var k := n / d - (n - d) / d - 1;
    assert k * d == (n - d) % d - n % d;
    if k >= 1 {
      PersistentFlatFacts.Monotone(1, k, d);
    }
    if k <= -1 {
      PersistentFlatFacts.Monotone(k, -1, d);
    }
  }

  lemma {:induction false} ChunksGood(e: Embedding, d: nat)
    requires d > 0 && forall x :: x in e ==> x.IsFinite()
    ensures GoodRecords(Chunks(e, d), d)
    decreases |e|
  {
    if |e| >= d {
      ChunksGood(e[..|e| - d], d);
      assert WellFormedEmbedding(e[|e| - d..]);
    }
  }

  lemma {:induction false} ChunksFirst(e: Embedding, d: nat)
    requires d > 0 && |e| >= d && |e| % d == 0
    ensures Chunks(e, d) != [] && Chunks(e, d)[0] == e[..d]
    ensures |e| == d ==> Chunks(e, d) == [e]
    decreases |e|
  {
    LessOne(|e|, d);
    if |e| - d < d {
      SmallMultiple(|e| - d, d);
      assert Chunks(e[..0], d) == [];
    } else {
      ChunksFirst(e[..|e| - d], d);
    }
  }

  lemma AppendChunks(segment: Seg.State, metric: Metric, records: seq<Embedding>, e: Embedding)
    requires segment.dimension > 0 && segment.file == Seg.FileOf(metric, segment.dimension, records)
    ensures Seg.Append(segment, e) ==
            if |e| % segment.dimension != 0 then Err(Corruption)
            else
              var more := Chunks(e, segment.dimension);
              Ok(segment.(file := Seg.FileOf(metric, segment.dimension, records + more)))
  {
    if |e| % segment.dimension == 0 {
      ChunksFlatten(e, segment.dimension);
      Seg.FileAppend(metric, segment.dimension, records, Chunks(e, segment.dimension));
    }
    hide Seg.FileOf, Seg.Flatten, CastToBytes;
  }

  lemma AcceptedLength(ix: Index, id: VectorId, e: Embedding)
    requires Good(ix) && Accepts(ix, id, e)
    ensures ix.dimension > 0 && |e| == ix.dimension && |e| % ix.dimension == 0 && Chunks(e, ix.dimension) == [e]
  {
    assert |e| % |e| == 0;
    ChunksFirst(e, ix.dimension);
  }

  // --- the ledger: what a run leaves, without files ---

  datatype Ledger = Ledger(index: Index, records: seq<Embedding>) {
    ghost predicate Sound() {
      Good(index) && GoodRecords(records, index.dimension) && |index.graph.nodes| <= |records|
    }
  }

  // keys lists the nodes, in some order.
  ghost predicate ListsNodes(keys: seq<nat>, ix: Index) {
    Distinct(keys) && forall i: nat :: i in keys <==> i < |ix.graph.nodes|
  }

  // The records an insert appends, accepted or not.
  function Appended(ix: Index, e: Embedding): seq<Embedding> {
    if ix.dimension == 0 || |e| % ix.dimension != 0 then [] else Chunks(e, ix.dimension)
  }

  // Reopening cuts the records to the nodes and reads the vectors from them.
  function Reread(l: Ledger): Ledger
    requires |l.index.graph.nodes| <= |l.records|
  {
    Ledger(l.index.(graph := Revector(l.index.graph, l.records)), l.records[..|l.index.graph.nodes|])
  }

  ghost predicate Rereads(event: Event, ix: Index) {
    (event.Reopen? || event.CrashedInsert?) && ListsNodes(event.keys, ix)
  }

  ghost function Next(l: Ledger, event: Event): Ledger
    requires |l.index.graph.nodes| <= |l.records|
  {
    match event
    case Do(op) =>
      (match op
       case Insert(id, e) => Ledger(Insert(l.index, id, e).0, l.records + Appended(l.index, e))
       case Remove(id) => l.(index := Remove(l.index, id).0)
       case Compact => l.(index := Compact(l.index).0))
    case _ => if Rereads(event, l.index) then Reread(l) else l
  }

  // Embeddings reach the index through Embedding::new.
  ghost predicate Proper(event: Event) {
    event.Do? ==> ValidOps([event.op])
  }

  lemma ProperInsert(event: Event)
    requires Proper(event) && event.Do? && event.op.Insert?
    ensures WellFormedEmbedding(event.op.embedding)
  {
    assert event.op in [event.op];
  }

  // --- alignment, step by step ---

  // What keeps the records aligned with the nodes, event by event, told from
  // the state before: an accepted insert needs its vector to be the next
  // record, a compaction the live vectors to come first; reopening aligns
  // whatever was there.
  ghost predicate KeepsAligned(l: Ledger, event: Event) {
    match event
    case Do(op) =>
      (match op
       case Insert(id, e) =>
         && Aligned(l.index, l.records)
         && (Accepts(l.index, id, e) && |l.records| > |l.index.graph.nodes| ==> l.records[|l.index.graph.nodes|] == e)
       case Remove(id) => Aligned(l.index, l.records)
       case Compact => PointVectors(LivePoints(l.index.graph.nodes)) <= l.records)
    case _ => Rereads(event, l.index) || Aligned(l.index, l.records)
  }

  lemma AlignedStep(l: Ledger, event: Event)
    requires l.Sound() && Proper(event)
    ensures Next(l, event).Sound()
    ensures Aligned(Next(l, event).index, Next(l, event).records) <==> KeepsAligned(l, event)
  {
    hide Good, Insert, Remove, Compact, Aligned, Rereads, Appended, GoodRecords;
    match event {
      case Do(op) => {
        match op {
          case Insert(id, e) => {
            ProperInsert(event);
            InsertAligned(l, id, e);
          }
          case Remove(id) => { RemoveAligned(l, id); }
          case Compact => { CompactAligned(l); }
        }
      }
      case _ => {
        if Rereads(event, l.index) {
          RereadAligned(l);
        }
      }
    }
  }

  lemma AppendedGood(ix: Index, e: Embedding, records: seq<Embedding>)
    requires Good(ix) && WellFormedEmbedding(e) && GoodRecords(records, ix.dimension)
    ensures GoodRecords(records + Appended(ix, e), ix.dimension)
  {
    ChunksGood(e, ix.dimension);
    hide Good, WellFormedEmbedding, Chunks;
  }

  lemma InsertAligned(l: Ledger, id: VectorId, e: Embedding)
    requires l.Sound() && WellFormedEmbedding(e)
    ensures var next := Ledger(Insert(l.index, id, e).0, l.records + Appended(l.index, e));
            && next.Sound()
            && (Aligned(next.index, next.records) <==>
                && Aligned(l.index, l.records)
                && (Accepts(l.index, id, e) && |l.records| > |l.index.graph.nodes| ==> l.records[|l.index.graph.nodes|] == e))
  {
    var ix, nodes := l.index, l.index.graph.nodes;
    GoodGivesEmbeddings(ix);
    InsertAccepted(ix, id, e);
    InsertGood(ix, id, e);
    AppendedGood(ix, e, l.records);
    VectorsOfAt(nodes);
    if Accepts(ix, id, e) {
      InsertVectors(ix, id, e);
      InsertNodes(ix, id, e);
      AcceptedLength(ix, id, e);
      hide Insert, Good, VectorsOf, GoodRecords, GoodEmbeddings, Accepts;
      PrefixGrows(VectorsOf(nodes), l.records, e);
    } else {
      hide Insert, Good, VectorsOf, GoodRecords, GoodEmbeddings, Accepts, Appended;
      PrefixKept(VectorsOf(nodes), l.records, Appended(ix, e));
    }
  }

  lemma PrefixGrows(a: seq<Embedding>, records: seq<Embedding>, e: Embedding)
    requires |a| <= |records|
    ensures a + [e] <= records + [e] <==> a <= records && (|records| > |a| ==> records[|a|] == e)
  {
    var n := |a|;
    assert (a + [e])[..n] == a && (a + [e])[n] == e;
    assert (records + [e])[..n] == records[..n];
    assert (records + [e])[..n + 1] == records[..n] + [(records + [e])[n]];
  }

  lemma PrefixKept(a: seq<Embedding>, records: seq<Embedding>, more: seq<Embedding>)
    requires |a| <= |records|
    ensures a <= records + more <==> a <= records
  {
    assert (records + more)[..|a|] == records[..|a|];
  }

  lemma RemoveAligned(l: Ledger, id: VectorId)
    requires l.Sound()
    ensures var next := l.(index := Remove(l.index, id).0);
            next.Sound() && (Aligned(next.index, next.records) <==> Aligned(l.index, l.records))
  {
    RemoveGood(l.index, id);
    VectorsOfAt(l.index.graph.nodes);
    VectorsOfAt(Remove(l.index, id).0.graph.nodes);
    if Remove(l.index, id).1.Some? {
      RemoveVectors(l.index, id);
    } else {
      RemoveNothing(l.index, id);
    }
    hide Remove, Good, VectorsOf, GoodRecords;
  }

  lemma CompactAligned(l: Ledger)
    requires l.Sound()
    ensures var next := l.(index := Compact(l.index).0);
            next.Sound() && (Aligned(next.index, next.records) <==> PointVectors(LivePoints(l.index.graph.nodes)) <= l.records)
  {
    var next := Compact(l.index).0;
    CompactCanonical(l.index);
    LivePointsMembers(l.index.graph.nodes);
    LivePointsMembers(next.graph.nodes);
    hide Compact, Good, GoodRecords, InsertAll;
    LiveVectors(next.graph.nodes);
  }

  // --- what rereading keeps ---

  lemma RevectorIndexGood(ix: Index, records: seq<Embedding>)
    requires Good(ix) && |records| >= |ix.graph.nodes| && GoodRecords(records, ix.dimension)
    ensures Good(ix.(graph := Revector(ix.graph, records)))
  {
    RevectorGood(ix, records);
    RevectorShape(ix.graph, records);
    RevectorConnected(ix.graph, Revector(ix.graph, records));
    hide GoodEdges, GoodLive, GoodOrder, GoodEmbeddings, Connected, GoodRecords;
  }

  lemma RevectorShape(g: Graph, records: seq<Embedding>)
    requires |records| >= |g.nodes|
    ensures var h := Revector(g, records);
            && |h.nodes| == |g.nodes| && h.entry == g.entry && h.live == g.live
            && (forall i: nat, l: nat :: h.Neighbors(i, l) == g.Neighbors(i, l))
            && (forall i: nat :: h.IsLive(i) <==> g.IsLive(i))
            && (forall i: nat :: h.NodeLevel(i) == g.NodeLevel(i))
            && (forall i: nat :: RowOf(h, i) == RowOf(g, i))
  {}

  lemma RevectorConnected(g: Graph, h: Graph)
    requires forall i: nat, l: nat :: h.Neighbors(i, l) == g.Neighbors(i, l)
    requires forall i: nat :: h.IsLive(i) <==> g.IsLive(i)
    ensures Connected(g) ==> Connected(h)
  {
    if Connected(g) {
      TombstoneConnected(g, h);
    }
  }

  lemma RevectorVectors(g: Graph, records: seq<Embedding>)
    requires |records| >= |g.nodes|
    ensures VectorsOf(Revector(g, records).nodes) == records[..|g.nodes|]
  {
    VectorsOfAt(Revector(g, records).nodes);
  }

  lemma RereadAligned(l: Ledger)
    requires l.Sound()
    ensures Reread(l).Sound() && Aligned(Reread(l).index, Reread(l).records)
  {
    RevectorIndexGood(l.index, l.records);
    RevectorVectors(l.index.graph, l.records);
    VectorsOfAt(l.index.graph.nodes);
    hide Good, VectorsOf;
    assert forall r :: r in l.records[..|l.index.graph.nodes|] ==> r in l.records;
  }

  lemma RevectorMirrored(t: Tables, ix: Index, records: seq<Embedding>)
    requires Mirrors(t, ix) && |records| >= |ix.graph.nodes|
    ensures Mirrors(t, ix.(graph := Revector(ix.graph, records)))
  {
    var jx := ix.(graph := Revector(ix.graph, records));
    RevectorShape(ix.graph, records);
    FlushNodesReads(ix.graph, |ix.graph.nodes|);
    FlushListsReads(ix.graph, |ix.graph.nodes|);
    hide FlushNodes, FlushLists, Revector, RowOf;
    MirrorsPointwise(t, jx);
  }

  // --- the store follows the ledger ---

  lemma BackedOpens(p: Store, records: seq<Embedding>, disk: Disk, keys: seq<nat>, torn: seq<Byte>)
    requires Backed(p, records) && disk.tables == p.tables && disk.file == p.segment.file + torn
    requires Enumerates(keys, disk.tables.nodes)
    ensures var ix, first := p.index, records[..|p.index.graph.nodes|];
            var file := Seg.FileOf(ix.config.metric, ix.dimension, first);
            Open(disk, keys, ix.num) == Ok(Store(ix.(graph := Revector(ix.graph, first)), p.tables,
                                                 Seg.State(ix.dimension, file, Some(file), |first|)))
  {
    var ix, n := p.index, |p.index.graph.nodes|;
    var first := records[..n];
    FirstGood(records, n, ix.dimension);
    FirstVectors(ix.config.metric, ix.dimension, records, n);
    hide Seg.FileOf, Good, Mirrors, GoodRecords, Open, Revector, Enumerates, CastToBytes, Seg.Flatten;
    SplitFile(Seg.FileOf(ix.config.metric, ix.dimension, first), CastToBytes(Seg.Flatten(records[n..])), torn);
    ReopenYields(disk, keys, ix, first, CastToBytes(Seg.Flatten(records[n..])) + torn);
  }

  // Whatever a torn append left behind, a backed store reopens, cut to its
  // nodes, and the index is the one in RAM exactly when the records are aligned.
  lemma BackedReopens(p: Store, records: seq<Embedding>, disk: Disk, keys: seq<nat>, torn: seq<Byte>)
    requires Backed(p, records) && disk.tables == p.tables && disk.file == p.segment.file + torn
    requires Enumerates(keys, disk.tables.nodes)
    ensures var r, l := Open(disk, keys, p.index.num), Reread(Ledger(p.index, records));
            && r.Ok? && r.value.index == l.index && Backed(r.value, l.records)
            && (r.value.index == p.index <==> Aligned(p.index, records))
  {
    var ix, first := p.index, records[..|p.index.graph.nodes|];
    BackedOpens(p, records, disk, keys, torn);
    BackedSound(p, records);
    RereadAligned(Ledger(ix, records));
    RereadSame(Ledger(ix, records));
    RevectorFirst(ix.graph, records);
    RevectorMirrored(p.tables, ix, first);
    RevectorShape(ix.graph, first);
    hide Seg.FileOf, Good, Mirrors, GoodRecords, Open, Revector, VectorsOf, Aligned, Enumerates, CastToBytes;
  }

  lemma FirstVectors(metric: Metric, dimension: nat, all: seq<Embedding>, m: nat)
    requires m <= |all|
    ensures Seg.FileOf(metric, dimension, all) == Seg.FileOf(metric, dimension, all[..m]) + CastToBytes(Seg.Flatten(all[m..]))
  {
    hide Seg.FileOf, Seg.Flatten, CastToBytes;
    Seg.FileAppend(metric, dimension, all[..m], all[m..]);
    assert all[..m] + all[m..] == all;
  }

  lemma RevectorSameAs(g: Graph, records: seq<Embedding>)
    requires |records| == |g.nodes|
    ensures Revector(g, records) == g <==> records == VectorsOf(g.nodes)
  {
    VectorsOfAt(g.nodes);
    VectorsRevector(g);
    if Revector(g, records) == g {
      forall i | 0 <= i < |records|
        ensures records[i] == VectorsOf(g.nodes)[i]
      {
        assert Revector(g, records).nodes[i].embedding == records[i];
      }
    }
  }

  lemma SplitFile(a: seq<Byte>, b: seq<Byte>, torn: seq<Byte>)
    ensures a + b + torn == a + (b + torn)
  {}

  lemma FirstGood(records: seq<Embedding>, n: nat, dimension: nat)
    requires GoodRecords(records, dimension) && n <= |records|
    ensures GoodRecords(records[..n], dimension)
  {}

  lemma RevectorSize(g: Graph, records: seq<Embedding>)
    requires |records| >= |g.nodes|
    ensures |Revector(g, records).nodes| == |g.nodes| && |VectorsOf(g.nodes)| == |g.nodes|
  {
    VectorsOfAt(g.nodes);
  }

  lemma RevectorFirst(g: Graph, records: seq<Embedding>)
    requires |records| >= |g.nodes|
    ensures Revector(g, records[..|g.nodes|]) == Revector(g, records)
  {
    assert Revector(g, records[..|g.nodes|]).nodes == Revector(g, records).nodes;
  }

  lemma PrefixOf(a: seq<Embedding>, records: seq<Embedding>)
    requires |a| <= |records|
    ensures a <= records <==> records[..|a|] == a
  {}

  lemma KeysListNodes(p: Store, keys: seq<nat>)
    requires Mirrors(p.tables, p.index)
    ensures Enumerates(keys, p.tables.nodes) <==> ListsNodes(keys, p.index)
  {
    TableKeys(p.tables, p.index);
  }

  lemma RecoverBacked(p: Store, records: seq<Embedding>, disk: Disk, keys: seq<nat>, torn: seq<Byte>)
    requires Backed(p, records) && disk.tables == p.tables && disk.file == p.segment.file + torn
    ensures var q, l := Recover(p, disk, keys), Ledger(p.index, records);
            var next := if ListsNodes(keys, p.index) then Reread(l) else l;
            q.index == next.index && Backed(q, next.records)
  {
    KeysListNodes(p, keys);
    hide Backed, Open, Enumerates, ListsNodes, Reread;
    if Enumerates(keys, disk.tables.nodes) {
      BackedReopens(p, records, disk, keys, torn);
    }
  }

  lemma InsertBacked(p: Store, records: seq<Embedding>, id: VectorId, e: Embedding)
    requires Backed(p, records) && WellFormedEmbedding(e)
    ensures var (q, r) := InsertThrough(p, id, e);
            && (r.Ok? <==> Accepts(p.index, id, e))
            && q.index == Insert(p.index, id, e).0
            && Backed(q, records + Appended(p.index, e))
  {
    var ix := p.index;
    InsertDecided(ix, id, e);
    BackedSound(p, records);
    hide Backed, InsertThrough, Insert, Appended, Accepts, Chunks;
    if Accepts(ix, id, e) {
      InsertTaken(p, records, id, e);
    } else {
      InsertRejected(p, records, id, e);
    }
  }

  // What a write-through insert answers: the segment refuses a vector that is
  // not whole records before the index sees it.
  lemma InsertAnswers(p: Store, records: seq<Embedding>, id: VectorId, e: Embedding)
    requires Backed(p, records)
    ensures var d, (q, r) := p.index.dimension, InsertThrough(p, id, e);
            if |e| % d != 0 then r == Err(Corruption) && q == p
            else if |e| != d then r == Err(DimensionMismatch(d, |e|)) && q.index == p.index && q.tables == p.tables
            else if id in p.index.graph.live then r == Err(DuplicateId(id)) && q.index == p.index && q.tables == p.tables
            else r == Ok(())
  {
    hide *;
    BackedDimension(p, records);
    BackedSound(p, records);
    LedgerGood(Ledger(p.index, records));
    InsertDecided(p.index, id, e);
    InsertRefusal(p.index, id, e);
    ThroughAnswers(p, id, e);
    if |e| == p.index.dimension {
      WholeRecord(|e|);
    }
    AcceptsMeans(p.index, id, e);
  }

  lemma ThroughAnswers(p: Store, id: VectorId, e: Embedding)
    requires p.segment.dimension > 0
    ensures var (q, r), (ix, answer) := InsertThrough(p, id, e), Insert(p.index, id, e);
            if |e| % p.segment.dimension != 0 then r == Err(Corruption) && q == p
            else if answer.Err? then r == Err(answer.error) && q.index == ix && q.tables == p.tables
            else r == Ok(()) && q.index == ix
  {
    hide Insert, Write, CastToBytes;
    var appended, inserted := Seg.Append(p.segment, e), Insert(p.index, id, e);
    if |e| % p.segment.dimension != 0 {
      assert appended == Err(Corruption);
    } else {
      assert appended.Ok?;
      if inserted.1.Ok? {
        assert InsertThrough(p, id, e).1 == Ok(());
      }
    }
  }

  lemma BackedDimension(p: Store, records: seq<Embedding>)
    requires Backed(p, records)
    ensures p.segment.dimension == p.index.dimension > 0
  {}

  lemma LedgerGood(l: Ledger)
    requires l.Sound()
    ensures Good(l.index)
  {}

  lemma AcceptsMeans(ix: Index, id: VectorId, e: Embedding)
    ensures Accepts(ix, id, e) <==> |e| == ix.dimension && id !in ix.graph.live
  {}

  lemma WholeRecord(n: nat)
    requires n > 0
    ensures n % n == 0
  {}

  lemma InsertRefusal(ix: Index, id: VectorId, e: Embedding)
    ensures |e| != ix.dimension ==> Insert(ix, id, e) == (ix, Err(DimensionMismatch(ix.dimension, |e|)))
    ensures |e| == ix.dimension && id in ix.graph.live ==> Insert(ix, id, e) == (ix, Err(DuplicateId(id)))
  {}

  lemma InsertDecided(ix: Index, id: VectorId, e: Embedding)
    requires Good(ix)
    ensures Insert(ix, id, e).1.Ok? <==> Accepts(ix, id, e)
    ensures !Accepts(ix, id, e) ==> Insert(ix, id, e).0 == ix
  {
    GoodGivesEmbeddings(ix);
    InsertAccepted(ix, id, e);
  }

  lemma InsertRejected(p: Store, records: seq<Embedding>, id: VectorId, e: Embedding)
    requires Backed(p, records) && WellFormedEmbedding(e) && !Accepts(p.index, id, e)
    ensures var (q, r) := InsertThrough(p, id, e);
            r.Err? && q.index == p.index && Backed(q, records + Appended(p.index, e))
  {
    InsertDecided(p.index, id, e);
    AppendChunks(p.segment, p.index.config.metric, records, e);
    AppendedGood(p.index, e, records);
    hide Seg.FileOf, Seg.Append, Insert, Good, Mirrors, GoodRecords, Chunks, Accepts, WellFormedEmbedding;
    assert records + [] == records;
  }

  lemma InsertTaken(p: Store, records: seq<Embedding>, id: VectorId, e: Embedding)
    requires Backed(p, records) && WellFormedEmbedding(e) && Accepts(p.index, id, e)
    ensures var (q, r) := InsertThrough(p, id, e);
            r.Ok? && q.index == Insert(p.index, id, e).0 && Backed(q, records + Appended(p.index, e))
  {
    hide Seg.FileOf, Seg.Append, Insert, Good, Mirrors, Write, Aligned, GoodRecords, Chunks, Accepts, WellFormedEmbedding;
    var ix := p.index;
    InsertDecided(ix, id, e);
    AcceptedLength(ix, id, e);
    AppendChunks(p.segment, ix.config.metric, records, e);
    InsertTables(p.tables, ix, id, e);
    InsertNodes(ix, id, e);
    InsertAligned(Ledger(ix, records), id, e);
  }

  lemma RemoveBacked(p: Store, records: seq<Embedding>, id: VectorId)
    requires Backed(p, records)
    ensures var (q, r) := RemoveThrough(p, id);
            Backed(q, records) && q.index == Remove(p.index, id).0 && r == (id in Content(p.index.graph))
  {
    hide Seg.FileOf, Remove, Good, Mirrors, Write, Content, Aligned, GoodRecords, VectorsOf;
    var ix, next := p.index, Remove(p.index, id).0;
    RemoveGood(ix, id);
    RemoveAligned(Ledger(ix, records), id);
    if Remove(ix, id).1.Some? {
      RemoveTables(p.tables, ix, id);
      RemoveVectors(ix, id);
    } else {
      RemoveNothing(ix, id);
    }
  }

  lemma CompactBacked(p: Store, records: seq<Embedding>)
    requires Backed(p, records)
    ensures var (q, r) := CompactThrough(p);
            r == Ok(()) && Backed(q, records) && q.index == Compact(p.index).0
  {
    CompactCanonical(p.index);
    CompactAligned(Ledger(p.index, records));
    hide Seg.FileOf, Compact, Good, Aligned, GoodRecords, InsertAll, LivePoints, PointVectors, FlushNodes, FlushLists;
  }

  // Every event, without any guard, keeps the store backed by the ledger.
  lemma ExecBacked(p: Store, records: seq<Embedding>, event: Event)
    requires Backed(p, records) && Proper(event)
    ensures var q, next := Exec(p, event), Next(Ledger(p.index, records), event);
            q.index == next.index && Backed(q, next.records)
  {
    hide Backed, InsertThrough, RemoveThrough, CompactThrough, Recover, TornInsert, Insert, Remove, Compact, Appended,
         ListsNodes, Reread;
    match event {
      case Do(op) => {
        match op {
          case Insert(id, e) => {
            ProperInsert(event);
            InsertBacked(p, records, id, e);
          }
          case Remove(id) => { RemoveBacked(p, records, id); }
          case Compact => { CompactBacked(p, records); }
        }
      }
      case Reopen(keys) => {
        assert p.segment.file + [] == p.segment.file;
        RecoverBacked(p, records, DiskOf(p), keys, []);
      }
      case CrashedInsert(e, n, keys) => {
        var torn := TornTail(p, e, n);
        RecoverBacked(p, records, TornInsert(p, e, n), keys, torn);
      }
    }
  }

  lemma BackedSound(p: Store, records: seq<Embedding>)
    requires Backed(p, records)
    ensures Ledger(p.index, records).Sound()
  {}

  // --- runs ---

  // The ledger after a run that started sound.
  ghost function RunLedger(l: Ledger, events: seq<Event>): (r: Ledger)
    requires l.Sound() && forall event :: event in events ==> Proper(event)
    ensures r.Sound()
  {
    if events == [] then l
    else
      var n := |events| - 1;
      assert events[n] in events && forall event :: event in events[..n] ==> event in events;
      var before := RunLedger(l, events[..n]);
      AlignedStep(before, events[n]);
      Next(before, events[n])
  }

  // Every reopening of the run, crashed or not, meets aligned records.
  ghost predicate AlignedReopenings(l: Ledger, events: seq<Event>)
    requires l.Sound() && forall event :: event in events ==> Proper(event)
  {
    events == []
    || (var n := |events| - 1;
        assert events[n] in events && forall event :: event in events[..n] ==> event in events;
        var before := RunLedger(l, events[..n]);
        && AlignedReopenings(l, events[..n])
        && (Rereads(events[n], before.index) ==> Aligned(before.index, before.records)))
  }

  // Every reopening of the run returns the index that was in RAM.
  ghost predicate ExactReopenings(p: Store, events: seq<Event>) {
    events == []
    || (var n := |events| - 1;
        var before := PersistentHnswRuns.Run(p, events[..n]);
        && ExactReopenings(p, events[..n])
        && (!events[n].Do? ==> Exec(before, events[n]).index == before.index))
  }

  // After every run whatsoever the store follows the ledger, so reopening it
  // succeeds and returns the index in RAM exactly when the ledger is aligned.
  lemma {:induction false} EveryRun(p: Store, records: seq<Embedding>, events: seq<Event>)
    requires Backed(p, records) && forall event :: event in events ==> Proper(event)
    ensures Ledger(p.index, records).Sound()
    ensures var q, l := PersistentHnswRuns.Run(p, events), RunLedger(Ledger(p.index, records), events);
            && q.index == l.index && Backed(q, l.records)
            && forall keys :: Enumerates(keys, q.tables.nodes) ==>
                 && Open(DiskOf(q), keys, q.index.num).Ok?
                 && (Open(DiskOf(q), keys, q.index.num).value.index == q.index <==> Aligned(l.index, l.records))
  {
    hide Backed, Next, Exec, Proper, Aligned, Open, Enumerates, Good, GoodRecords;
    BackedSound(p, records);
    if events != [] {
      var n := |events| - 1;
      assert events[n] in events && forall event :: event in events[..n] ==> event in events;
      EveryRun(p, records, events[..n]);
      ExecBacked(PersistentHnswRuns.Run(p, events[..n]), RunLedger(Ledger(p.index, records), events[..n]).records, events[n]);
    }
    ReopensWhenAligned(PersistentHnswRuns.Run(p, events), RunLedger(Ledger(p.index, records), events).records);
  }

  lemma ReopensWhenAligned(q: Store, records: seq<Embedding>)
    requires Backed(q, records)
    ensures forall keys :: Enumerates(keys, q.tables.nodes) ==>
              && Open(DiskOf(q), keys, q.index.num).Ok?
              && (Open(DiskOf(q), keys, q.index.num).value.index == q.index <==> Aligned(q.index, records))
  {
    hide Backed, Open, Aligned, Enumerates, Reread;
    forall keys | Enumerates(keys, q.tables.nodes)
      ensures Open(DiskOf(q), keys, q.index.num).Ok?
      ensures Open(DiskOf(q), keys, q.index.num).value.index == q.index <==> Aligned(q.index, records)
    {
      assert q.segment.file + [] == q.segment.file;
      BackedReopens(q, records, DiskOf(q), keys, []);
    }
  }

  lemma NotRereading(l: Ledger, event: Event)
    requires |l.index.graph.nodes| <= |l.records| && !event.Do?
    ensures Next(l, event).index == if Rereads(event, l.index) then Reread(l).index else l.index
  {}

  lemma RereadSame(l: Ledger)
    requires |l.index.graph.nodes| <= |l.records|
    ensures Reread(l).index == l.index <==> Aligned(l.index, l.records)
  {
    RevectorFirst(l.index.graph, l.records);
    RevectorSameAs(l.index.graph, l.records[..|l.index.graph.nodes|]);
    VectorsOfAt(l.index.graph.nodes);
    PrefixOf(VectorsOf(l.index.graph.nodes), l.records);
    hide Revector, VectorsOf;
  }

  // The reopenings of a run are all exact precisely when each meets aligned
  // records; the index is then the one a process that never died would hold.
  lemma {:induction false} RunExactly(p: Store, records: seq<Embedding>, events: seq<Event>)
    requires Backed(p, records) && forall event :: event in events ==> Proper(event)
    ensures Ledger(p.index, records).Sound()
    ensures ExactReopenings(p, events) <==> AlignedReopenings(Ledger(p.index, records), events)
    ensures ExactReopenings(p, events) ==> PersistentHnswRuns.Run(p, events).index == RunInRam(p.index, events)
  {
    hide Backed, Next, Exec, Proper, Aligned, Rereads, Reread, InRam, Open, Good, GoodRecords;
    BackedSound(p, records);
    if events != [] {
      var n := |events| - 1;
      assert events[n] in events && forall event :: event in events[..n] ==> event in events;
      RunExactly(p, records, events[..n]);
      EveryRun(p, records, events[..n]);
      var before, l := PersistentHnswRuns.Run(p, events[..n]), RunLedger(Ledger(p.index, records), events[..n]);
      ExecBacked(before, l.records, events[n]);
      if events[n].Do? {
        DoneInRam(l, events[n]);
        assert !Rereads(events[n], l.index) by { DoesNotReread(l, events[n]); }
      } else {
        NotRereading(l, events[n]);
        RereadSame(l);
        StillInRam(before.index, events[n]);
      }
    }
  }

  lemma DoneInRam(l: Ledger, event: Event)
    requires |l.index.graph.nodes| <= |l.records| && event.Do?
    ensures Next(l, event).index == InRam(l.index, event)
  {
    hide Insert, Remove, Compact, Appended;
  }

  lemma DoesNotReread(l: Ledger, event: Event)
    requires event.Do?
    ensures !Rereads(event, l.index)
  {}

  lemma StillInRam(ix: Index, event: Event)
    requires !event.Do?
    ensures InRam(ix, event) == ix
  {}

  // A new index, and one just bulk-loaded, are such starting points.
  lemma CreateBacked(config: HnswConfig, dimension: nat, num: Numerics)
    requires config.Valid() && 0 < dimension < 0x1_0000_0000
    ensures Create(config, dimension, num).Ok? && Backed(Create(config, dimension, num).value, [])
  {
    CreateDurable(config, dimension, num);
    DurableIsBacked(Create(config, dimension, num).value);
    assert VectorsOf(New(config, dimension, num).graph.nodes) == [];
    hide Durable, Backed, Create;
  }

  // --- one operation, then a reopening ---

  // After an insert into any backed store: exact when the records were aligned
  // and, if the insert is accepted, its vector is the next record.
  lemma InsertThenReopen(p: Store, records: seq<Embedding>, id: VectorId, e: Embedding, q: Store, keys: seq<nat>)
    requires Backed(p, records) && WellFormedEmbedding(e)
    requires q == InsertThrough(p, id, e).0 && Enumerates(keys, q.tables.nodes)
    ensures var r := Open(DiskOf(q), keys, p.index.num);
            && r.Ok?
            && (r.value.index == q.index <==>
                && Aligned(p.index, records)
                && (Accepts(p.index, id, e) && |records| > |p.index.graph.nodes| ==> records[|p.index.graph.nodes|] == e))
  {
    InsertBacked(p, records, id, e);
    BackedSound(p, records);
    InsertAligned(Ledger(p.index, records), id, e);
    InsertNumerics(p.index, id, e);
    hide Backed, InsertThrough, Insert, Appended, Accepts, Aligned, Open, Enumerates, WellFormedEmbedding;
    ReopensWhenAligned(q, records + Appended(p.index, e));
  }

  lemma InsertNumerics(ix: Index, id: VectorId, e: Embedding)
    requires Good(ix)
    ensures Insert(ix, id, e).0.num == ix.num
  {
    InsertDecided(ix, id, e);
    if Accepts(ix, id, e) {
      InsertNodes(ix, id, e);
    }
  }

  // After a compaction of any backed store: exact when the vectors of the live
  // points, in node order, come first in the segment.
  lemma CompactThenReopen(p: Store, records: seq<Embedding>, q: Store, keys: seq<nat>)
    requires Backed(p, records) && q == CompactThrough(p).0 && Enumerates(keys, q.tables.nodes)
    ensures var r := Open(DiskOf(q), keys, p.index.num);
            && r.Ok?
            && (r.value.index == q.index <==> PointVectors(LivePoints(p.index.graph.nodes)) <= records)
  {
    CompactBacked(p, records);
    BackedSound(p, records);
    CompactAligned(Ledger(p.index, records));
    CompactNumerics(p.index);
    hide Backed, CompactThrough, Compact, LivePoints, PointVectors, Aligned, Open, Enumerates;
    ReopensWhenAligned(q, records);
  }

  lemma CompactNumerics(ix: Index)
    requires Good(ix)
    ensures Compact(ix).0.num == ix.num
  {
    CompactCanonical(ix);
  }

  // An insert that is rejected although its length is a multiple of the
  // dimension, then one that is accepted, on a durable store: the new node
  // reopens with the first record of the rejected vector.
  lemma RejectedThenAccepted(p: Store, id: VectorId, x: Embedding, id2: VectorId, e: Embedding, q: Store, keys: seq<nat>)
    requires Durable(p) && WellFormedEmbedding(x) && WellFormedEmbedding(e)
    requires !Accepts(p.index, id, x) && p.index.dimension > 0 && |x| % p.index.dimension == 0
    requires Accepts(p.index, id2, e)
    requires q == InsertThrough(InsertThrough(p, id, x).0, id2, e).0
    requires Enumerates(keys, q.tables.nodes)
    ensures |x| >= p.index.dimension
    ensures var r := Open(DiskOf(q), keys, p.index.num);
            r.Ok? && (r.value.index == q.index <==> x[..p.index.dimension] == e)
  {
    var ix, records, middle := p.index, VectorsOf(p.index.graph.nodes), InsertThrough(p, id, x).0;
    DurableIsBacked(p);
    if |x| < ix.dimension {
      SmallMultiple(|x|, ix.dimension);
    }
    ChunksFirst(x, ix.dimension);
    InsertRejected(p, records, id, x);
    VectorsOfAt(ix.graph.nodes);
    hide Backed, Durable, InsertThrough, Accepts, Open, Enumerates, VectorsOf, Chunks, WellFormedEmbedding;
    PrefixKept(records, records, Appended(ix, x));
    InsertThenReopen(middle, records + Appended(ix, x), id2, e, q, keys);
  }

  // --- the losses are real ---

  const ONE := F32(0, 0, 128, 63)
  const TWO := F32(0, 0, 0, 64)
  const THREE := F32(0, 0, 64, 64)

  lemma ComponentsFinite()
    ensures WellFormedEmbedding([ONE]) && WellFormedEmbedding([TWO]) && WellFormedEmbedding([THREE])
    ensures [ONE] != [TWO] && [TWO] != [THREE]
  {
    assert [ONE][0] == ONE && [TWO][0] == TWO && [THREE][0] == THREE;
  }

  // A store holding just 1 -> [1.0].
  lemma OneStored(config: HnswConfig, num: Numerics) returns (p: Store)
    requires config.Valid()
    ensures Create(config, 1, num).Ok?
    ensures p == InsertThrough(Create(config, 1, num).value, 1, [ONE]).0
    ensures Durable(p) && p.index.graph.live.Keys == {1} && p.index.dimension == 1 && p.index.num == num
    ensures VectorsOf(p.index.graph.nodes) == [[ONE]] && Content(p.index.graph) == map[1 := [ONE]]
  {
    ComponentsFinite();
    CreateDurable(config, 1, num);
    NewGood(config, 1, num);
    var p0 := Create(config, 1, num).value;
    p := InsertThrough(p0, 1, [ONE]).0;
    assert Accepts(p0.index, 1, [ONE]);
    InsertVectors(p0.index, 1, [ONE]);
    InsertGood(p0.index, 1, [ONE]);
    assert VectorsOf(p0.index.graph.nodes) == [];
    hide Durable, InsertThrough, Create, Insert, Good, VectorsOf;
    InsertAcceptedDurable(p0, 1, [ONE]);
    InsertPoint(p0.index, Flat.Point(1, [ONE]));
  }

  // 1 -> [1.0], then 1 -> [2.0] rejected, then 2 -> [3.0]; reopened, id 2
  // carries [2.0].
  lemma RejectedInsertCorrupts(config: HnswConfig, num: Numerics, keys: seq<nat>) returns (q: Store)
    requires config.Valid()
    ensures Create(config, 1, num).Ok?
    ensures var p := InsertThrough(Create(config, 1, num).value, 1, [ONE]).0;
            q == InsertThrough(InsertThrough(p, 1, [TWO]).0, 2, [THREE]).0
    ensures Enumerates(keys, q.tables.nodes) ==>
              Open(DiskOf(q), keys, num).Ok? && Open(DiskOf(q), keys, num).value.index != q.index
  {
    ComponentsFinite();
    var p := OneStored(config, num);
    q := InsertThrough(InsertThrough(p, 1, [TWO]).0, 2, [THREE]).0;
    hide Durable, InsertThrough, Create, Open, Enumerates, VectorsOf, Content;
    if Enumerates(keys, q.tables.nodes) {
      OneCorrupted(p, q, keys);
    }
  }

  lemma OneCorrupted(p: Store, q: Store, keys: seq<nat>)
    requires Durable(p) && p.index.graph.live.Keys == {1} && p.index.dimension == 1
    requires q == InsertThrough(InsertThrough(p, 1, [TWO]).0, 2, [THREE]).0 && Enumerates(keys, q.tables.nodes)
    ensures Open(DiskOf(q), keys, p.index.num).Ok? && Open(DiskOf(q), keys, p.index.num).value.index != q.index
  {
    ComponentsFinite();
    assert !Accepts(p.index, 1, [TWO]) && Accepts(p.index, 2, [THREE]) && [TWO][..1] == [TWO];
    hide Durable, InsertThrough, Open, Enumerates, Accepts, WellFormedEmbedding;
    RejectedThenAccepted(p, 1, [TWO], 2, [THREE], q, keys);
  }

  // 1 -> [1.0], 2 -> [2.0], remove 1, compact; reopened, id 2 carries [1.0].
  lemma CompactionCorrupts(config: HnswConfig, num: Numerics, keys: seq<nat>) returns (q: Store)
    requires config.Valid()
    ensures Create(config, 1, num).Ok?
    ensures var p := InsertThrough(InsertThrough(Create(config, 1, num).value, 1, [ONE]).0, 2, [TWO]).0;
            q == CompactThrough(RemoveThrough(p, 1).0).0
    ensures Enumerates(keys, q.tables.nodes) ==>
              Open(DiskOf(q), keys, num).Ok? && Open(DiskOf(q), keys, num).value.index != q.index
  {
    ComponentsFinite();
    var p := OneStored(config, num);
    var t := TwoLessOne(p);
    q := CompactThrough(t).0;
    DurableIsBacked(t);
    hide Durable, InsertThrough, RemoveThrough, CompactThrough, Create, Open, Enumerates, VectorsOf, LivePoints, PointVectors;
    if Enumerates(keys, q.tables.nodes) {
      CompactThenReopen(t, VectorsOf(t.index.graph.nodes), q, keys);
      assert [[TWO]][0] != [[ONE], [TWO]][0];
    }
  }

  lemma TwoLessOne(p: Store) returns (t: Store)
    requires Durable(p) && p.index.graph.live.Keys == {1} && p.index.dimension == 1
    requires VectorsOf(p.index.graph.nodes) == [[ONE]] && Content(p.index.graph) == map[1 := [ONE]]
    ensures t == RemoveThrough(InsertThrough(p, 2, [TWO]).0, 1).0
    ensures Durable(t) && t.index.num == p.index.num
    ensures VectorsOf(t.index.graph.nodes) == [[ONE], [TWO]] && PointVectors(LivePoints(t.index.graph.nodes)) == [[TWO]]
  {
    ComponentsFinite();
    DurableGood(p);
    AcceptsTwo(p.index);
    TwoContents(Content(p.index.graph));
    var q := InsertThrough(p, 2, [TWO]).0;
    t := RemoveThrough(q, 1).0;
    hide *;
    InsertAcceptedDurable(p, 2, [TWO]);
    InsertVectors(p.index, 2, [TWO]);
    InsertGood(p.index, 2, [TWO]);
    InsertNumerics(p.index, 2, [TWO]);
    RemovedOne(q, t);
  }

  lemma AcceptsTwo(ix: Index)
    requires ix.graph.live.Keys == {1} && ix.dimension == 1
    ensures Accepts(ix, 2, [TWO])
  {}

  lemma TwoContents(content: Oracle.Content)
    requires content == map[1 := [ONE]]
    ensures Oracle.Apply(content, 1, Oracle.Insert(2, [TWO])) - {1} == map[2 := [TWO]]
    ensures 1 in Oracle.Apply(content, 1, Oracle.Insert(2, [TWO]))
    ensures [[ONE]] + [[TWO]] == [[ONE], [TWO]]
  {}

  lemma DurableGood(p: Store)
    requires Durable(p)
    ensures Good(p.index)
  {}

  lemma RemovedOne(q: Store, t: Store)
    requires Durable(q) && t == RemoveThrough(q, 1).0
    requires 1 in Content(q.index.graph) && Content(q.index.graph) - {1} == map[2 := [TWO]]
    ensures Durable(t) && t.index.num == q.index.num
    ensures VectorsOf(t.index.graph.nodes) == VectorsOf(q.index.graph.nodes)
    ensures PointVectors(LivePoints(t.index.graph.nodes)) == [[TWO]]
  {
    DurableGood(q);
    hide *;
    RemoveDurable(q, 1);
    DurableGood(t);
    RemoveGood(q.index, 1);
    RemoveVectors(q.index, 1);
    GoodGivesLive(t.index);
    LivePointsHold(t.index.graph);
    RemoveNumerics(q.index, 1);
    OnePoint(LivePoints(t.index.graph.nodes));
  }

  lemma RemoveNumerics(ix: Index, id: VectorId)
    ensures Remove(ix, id).0.num == ix.num
  {}

  lemma FirstTwoDiffer(points: seq<Flat.Point>, content: Oracle.Content)
    requires Flat.Holds(points, content)
    ensures |points| > 1 ==> points[0].id != points[1].id
  {}

  lemma OnePoint(points: seq<Flat.Point>)
    requires Flat.Holds(points, map[2 := [TWO]])
    ensures PointVectors(points) == [[TWO]]
  {
    var content := map[2 := [TWO]];
    assert Flat.Point(2, content[2]) in points;
    forall i | 0 <= i < |points|
      ensures points[i] == Flat.Point(2, [TWO])
    {
      assert points[i] in points;
    }
    FirstTwoDiffer(points, content);
    assert points == [Flat.Point(2, [TWO])];
    assert PointVectors(points[..0]) == [];
  }
}
