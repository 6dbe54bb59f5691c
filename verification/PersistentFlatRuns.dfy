/** Whole runs with crashes. */
module PersistentFlatRuns {
  import opened Core
  import opened Bytes
  import opened Ranking
  import opened PersistentFlat
  import opened PersistentFlatFacts
  import opened CompactionCrash
  import Seg = Segment
  import Flat
  import Oracle

  // Crashed events lose the process inside insert, insert_batch or compact
  // after n bytes of the append have reached the file; the store is then
  // reopened. A crash after a commit is the completed event followed by Reopen.
  datatype Event =
    | Insert(id: VectorId, embedding: Embedding)
    | Batch(items: seq<Flat.Point>)
    | Remove(id: VectorId)
    | Checkpoint
    | Compact(ids: seq<VectorId>)
    | Reopen
    | CrashedInsert(id: VectorId, embedding: Embedding, n: nat)
    | CrashedBatch(items: seq<Flat.Point>, n: nat)
    | CrashedCompact(ids: seq<VectorId>, n: nat)

  function Recover(s: Store, disk: Disk): Store {
    match Open(disk, s.metric, s.dimension)
    case Ok(t) => t
    case Err(_) => s
  }

  ghost function Exec(s: Store, event: Event): Store {
    match event
    case Insert(id, e) => PersistentFlat.Insert(s, id, e).0
    case Batch(items) => InsertBatch(s, items).0
    case Remove(id) => PersistentFlat.Remove(s, id).0
    case Checkpoint => (match PersistentFlat.Checkpoint(s) case Ok(t) => t case Err(_) => s)
    case Compact(ids) =>
      (match PersistentFlat.Compact(s, ids) case Ok(t) => if Enumerates(ids, s.catalog.slots) then t else s case Err(_) => s)
    case Reopen => Recover(s, DiskOf(s))
    case CrashedInsert(id, e, n) => Recover(s, TornBatch(s, [Flat.Point(id, e)], n))
    case CrashedBatch(items, n) => Recover(s, TornBatch(s, items, n))
    case CrashedCompact(ids, n) => if Enumerates(ids, s.catalog.slots) then Recover(s, TornCompaction(s, ids, n)) else s
  }

  // Everything keeps what was committed, except a crash inside a compaction
  // after which some live record does not read as before.
  ghost predicate Keeps(s: Store, event: Event) {
    event.CrashedCompact? && Enumerates(event.ids, s.catalog.slots) ==> Intact(s, event.ids, event.n)
  }

  ghost predicate KeepsAll(s: Store, events: seq<Event>) {
    events == [] || (KeepsAll(s, events[..|events| - 1]) && Keeps(Run(s, events[..|events| - 1]), events[|events| - 1]))
  }

  // What the oracle makes of the committed events.
  ghost function Effect(content: Oracle.Content, dimension: nat, event: Event): Oracle.Content {
    match event
    case Insert(id, e) => Oracle.Apply(content, dimension, Oracle.Insert(id, e))
    case Batch(items) => ApplyBatch(content, dimension, items)
    case Remove(id) => Oracle.Apply(content, dimension, Oracle.Remove(id))
    case _ => content
  }

  ghost function Run(s: Store, events: seq<Event>): Store {
    if events == [] then s else Exec(Run(s, events[..|events| - 1]), events[|events| - 1])
  }

  ghost function Effects(content: Oracle.Content, dimension: nat, events: seq<Event>): Oracle.Content {
    if events == [] then content
    else Effect(Effects(content, dimension, events[..|events| - 1]), dimension, events[|events| - 1])
  }

  lemma RecoverHolds(s: Store, records: seq<Embedding>, disk: Disk, torn: seq<Byte>)
    requires Represents(s, records) && disk.catalog == s.catalog
    requires disk.file == Seg.FileOf(s.metric, s.dimension, records) + torn
    ensures var t := Recover(s, disk);
            && Represents(t, records) && Content(t, records) == Content(s, records)
            && t.metric == s.metric && t.dimension == s.dimension
  {
    hide Seg.FileOf, Open;
    OpenRecovers(disk, s.metric, s.dimension, records, torn);
  }

  lemma SingleApply(content: Oracle.Content, dimension: nat, id: VectorId, e: Embedding)
    ensures ApplyBatch(content, dimension, [Flat.Point(id, e)]) == Oracle.Apply(content, dimension, Oracle.Insert(id, e))
  {
    var items := [Flat.Point(id, e)];
    assert items[0] in items;
    assert AddAll(content, items) == content[id := e] by { assert items[1..] == []; }
  }

  // Each event leaves a sound store, and has on the content the effect of its
  // committed part exactly if it keeps the live records.
  lemma ExecHolds(s: Store, records: seq<Embedding>, event: Event) returns (after: seq<Embedding>)
    requires Represents(s, records)
    ensures var t := Exec(s, event);
            && Represents(t, after)
            && (Content(t, after) == Effect(Content(s, records), s.dimension, event) <==> Keeps(s, event))
            && t.metric == s.metric && t.dimension == s.dimension
  {
    hide Represents, InsertBatch, PersistentFlat.Insert, PersistentFlat.Remove, PersistentFlat.Checkpoint,
         PersistentFlat.Compact, Recover, TornBatch, TornCompaction, ApplyBatch, Enumerates, Intact, Seg.FileOf;
    after := records;
    match event
    case Insert(id, e) =>
      InsertIsBatch(s, id, e);
      SingleApply(Content(s, records), s.dimension, id, e);
      after := BatchHolds(s, records, [Flat.Point(id, e)]);
    case Batch(items) =>
      after := BatchHolds(s, records, items);
    case Remove(id) =>
      RemoveHolds(s, records, id);
    case Checkpoint =>
      CheckpointHolds(s, records);
      CheckpointContent(s, records);
    case Compact(ids) =>
      if Enumerates(ids, s.catalog.slots) {
        CompactHolds(s, records, ids);
        after := Embeddings(LiveInOrder(s, records, ids));
      }
    case Reopen =>
      DiskHolds(s, records);
      RecoverHolds(s, records, DiskOf(s), []);
    case CrashedInsert(id, e, n) =>
      var torn := TornHolds(s, records, [Flat.Point(id, e)], n);
      RecoverHolds(s, records, TornBatch(s, [Flat.Point(id, e)], n), torn);
    case CrashedBatch(items, n) =>
      var torn := TornHolds(s, records, items, n);
      RecoverHolds(s, records, TornBatch(s, items, n), torn);
    case CrashedCompact(ids, n) =>
      if Enumerates(ids, s.catalog.slots) {
        after := TornRecords(Kept(s, ids), s.dimension, n, |records|);
        CrashedCompactHolds(s, records, ids, n);
      }
  }

  lemma CrashedCompactHolds(s: Store, records: seq<Embedding>, ids: seq<VectorId>, n: nat)
    requires Represents(s, records) && Enumerates(ids, s.catalog.slots)
    ensures var t, torn := Recover(s, TornCompaction(s, ids, n)), TornRecords(Kept(s, ids), s.dimension, n, |records|);
            && Represents(t, torn)
            && (Content(t, torn) == Content(s, records) <==> Intact(s, ids, n))
            && t.metric == s.metric && t.dimension == s.dimension
  {
    hide Represents, Open, TornCompaction, Intact, Kept, TornRecords, Enumerates, ContentOf;
    TornCompactionOpens(s, records, ids, n);
    IntactRecords(s, records, ids, n);
  }

  lemma CheckpointContent(s: Store, records: seq<Embedding>)
    requires Represents(s, records) && PersistentFlat.Checkpoint(s).Ok?
    requires Represents(PersistentFlat.Checkpoint(s).value, records)
    ensures Content(PersistentFlat.Checkpoint(s).value, records) == Content(s, records)
  {}

  lemma DiskHolds(s: Store, records: seq<Embedding>)
    requires Represents(s, records)
    ensures DiskOf(s).catalog == s.catalog && DiskOf(s).file == Seg.FileOf(s.metric, s.dimension, records) + []
  {
    assert s.segment.file + [] == s.segment.file;
  }

  lemma CreateHolds(metric: Metric, dimension: nat)
    requires 0 < dimension < 0x1_0000_0000
    ensures Create(metric, dimension).Ok?
    ensures Represents(Create(metric, dimension).value, []) && Content(Create(metric, dimension).value, []) == map[]
    ensures Create(metric, dimension).value.metric == metric && Create(metric, dimension).value.dimension == dimension
  {
    Seg.HeaderLength(metric, dimension);
    assert Seg.FileOf(metric, dimension, []) == Seg.Header(metric, dimension) by { assert CastToBytes([]) == []; }
    hide Seg.Header, Seg.FileOf;
  }

  // For every run of inserts, batches, removes, checkpoints, compactions,
  // reopenings and crashes anywhere before a commit, the store is sound, and it
  // holds exactly the committed operations, each batch whole or not at all, as
  // long as no crashed compaction lost a live record.
  lemma {:induction false} RunHolds(metric: Metric, dimension: nat, events: seq<Event>) returns (records: seq<Embedding>)
    requires 0 < dimension < 0x1_0000_0000
    ensures Create(metric, dimension).Ok?
    ensures var s := Run(Create(metric, dimension).value, events);
            && Represents(s, records) && s.metric == metric && s.dimension == dimension
            && (KeepsAll(Create(metric, dimension).value, events) ==> Content(s, records) == Effects(map[], dimension, events))
  {
    hide Represents, Create, Exec, Effect, ContentOf, Keeps;
    CreateHolds(metric, dimension);
    if events == [] {
      records := [];
    } else {
      var n := |events| - 1;
      var before := RunHolds(metric, dimension, events[..n]);
      records := ExecHolds(Run(Create(metric, dimension).value, events[..n]), before, events[n]);
    }
  }

  // Without crashes inside compactions nothing is ever lost.
  lemma {:induction false} OtherCrashesKeep(s: Store, events: seq<Event>)
    requires forall event :: event in events ==> !event.CrashedCompact?
    ensures KeepsAll(s, events)
  {
    if events != [] {
      assert events[|events| - 1] in events;
      OtherCrashesKeep(s, events[..|events| - 1]);
    }
  }

  // In every such state a search answers as a flat index holding the committed
  // content does.
  lemma RunSearch(metric: Metric, dimension: nat, events: seq<Event>, ids: seq<VectorId>, points: seq<Flat.Point>,
                  query: Embedding, k: nat, score: Scorer, admit: VectorId -> bool)
    requires 0 < dimension < 0x1_0000_0000 && Create(metric, dimension).Ok?
    requires Enumerates(ids, Run(Create(metric, dimension).value, events).catalog.slots)
    requires KeepsAll(Create(metric, dimension).value, events)
    requires Flat.Holds(points, Effects(map[], dimension, events))
    ensures Search(Run(Create(metric, dimension).value, events), ids, query, k, score, admit)
         == Flat.Search(points, dimension, query, k, score, admit)
  {
    var records := RunHolds(metric, dimension, events);
    var s := Run(Create(metric, dimension).value, events);
    if |query| == dimension {
      hide Represents, Run, Effects, Enumerates, KeepsAll, Flat.Holds, Flat.Search, Search;
      SearchHolds(s, records, ids, query, k, score, admit);
      Flat.SearchIsTopK(points, Content(s, records), dimension, query, k, score, admit);
      TopKUnique(Search(s, ids, query, k, score, admit).value, Flat.Search(points, dimension, query, k, score, admit).value,
                 Oracle.Scores(Content(s, records), query, score, admit), k);
    }
  }

  const ONE := F32(0, 0, 128, 63)
  const TWO := F32(0, 0, 0, 64)
  const THREE := F32(0, 0, 64, 64)

  // A batch into a new store of dimension one.
  lemma FirstBatch(metric: Metric, items: seq<Flat.Point>) returns (s: Store, records: seq<Embedding>)
    requires items != [] && Fits(items, {}, 1)
    ensures Create(metric, 1).Ok? && s == InsertBatch(Create(metric, 1).value, items).0
    ensures Represents(s, records) && s.metric == metric && s.dimension == 1
    ensures Content(s, records) == AddAll(map[], items) && s.catalog.slots == AddSlots(map[], items, 0)
  {
    CreateHolds(metric, 1);
    EmptySlots(metric, 1);
    var s0 := Create(metric, 1).value;
    hide Represents, InsertBatch, Create, ContentOf, AddSlots, AddAll, Fits;
    assert Content(s0, []).Keys == {};
    records := BatchHolds(s0, [], items);
    CommittedSlots(s0, items);
    s := InsertBatch(s0, items).0;
  }

  lemma EmptySlots(metric: Metric, dimension: nat)
    requires Create(metric, dimension).Ok?
    ensures Create(metric, dimension).value.catalog.slots == map[] && Create(metric, dimension).value.recordCount == 0
  {}

  lemma CommittedSlots(s: Store, items: seq<Flat.Point>)
    ensures InsertBatch(s, items).1.Ok? && items != [] ==>
              InsertBatch(s, items).0.catalog.slots == AddSlots(s.catalog.slots, items, s.recordCount)
  {
    hide AddSlots, Check, Seg.Append;
  }

  // The loss is real: one stored point whose component is 1.0, and a crash
  // right after the truncation.
  lemma CompactionCrashLoses(metric: Metric, ids: seq<VectorId>) returns (s: Store, records: seq<Embedding>)
    ensures Create(metric, 1).Ok? && s == InsertBatch(Create(metric, 1).value, [Flat.Point(7, [ONE])]).0
    ensures Represents(s, records) && Content(s, records) == map[7 := [ONE]]
    ensures Enumerates(ids, s.catalog.slots) ==> !Survives(s, records, ids, 0)
  {
    var items := [Flat.Point(7, [ONE])];
    assert AddAll(map[], items) == map[7 := [ONE]] by { assert items[1..] == []; }
    assert Fits(items, {}, 1);
    s, records := FirstBatch(metric, items);
    hide Represents, InsertBatch, Create, Survives, Enumerates, Fits, AddAll, AddSlots;
    if Enumerates(ids, s.catalog.slots) {
      OneLost(s, records, ids);
    }
  }

  lemma OneLost(s: Store, records: seq<Embedding>, ids: seq<VectorId>)
    requires Represents(s, records) && Enumerates(ids, s.catalog.slots)
    requires s.dimension == 1 && Content(s, records) == map[7 := [ONE]]
    ensures !Survives(s, records, ids, 0)
  {
    hide Represents, Survives, Intact, Enumerates, ContentOf;
    CrashedCompaction(s, records, ids, 0);
    assert ZeroVector(1)[0] == ZERO && [ONE][0] == ONE;
    assert Content(s, records)[7] == [ONE];
    if Intact(s, ids, 0) {
      IntactAtTruncation(s, records, ids);
    }
  }

  function Three(): seq<Flat.Point> { [Flat.Point(1, [ONE]), Flat.Point(2, [TWO]), Flat.Point(3, [THREE])] }

  lemma ThreeFacts()
    ensures Three() != [] && Fits(Three(), {}, 1)
    ensures AddSlots(map[], Three(), 0) == map[1 := 0, 2 := 1, 3 := 2]
    ensures AddAll(map[], Three()) == map[1 := [ONE], 2 := [TWO], 3 := [THREE]]
  {
    var items := Three();
    assert items[1..] == [items[1], items[2]] && items[1..][1..] == [items[2]] && items[1..][1..][1..] == [];
    assert AddSlots(map[1 := 0], items[1..], 1) == AddSlots(map[1 := 0, 2 := 1], items[1..][1..], 2);
    assert AddAll(map[1 := [ONE]], items[1..]) == AddAll(map[1 := [ONE], 2 := [TWO]], items[1..][1..]);
  }

  lemma RemovedSlots(s: Store, id: VectorId)
    ensures PersistentFlat.Remove(s, id).0.catalog.slots == s.catalog.slots - {id}
  {
    assert id !in s.catalog.slots ==> s.catalog.slots - {id} == s.catalog.slots;
  }

  // A store holding 1.0, 2.0 and 3.0 under the ids 1, 2 and 3, of which 1 has
  // been removed.
  lemma ThreeLessOne(metric: Metric) returns (s: Store, records: seq<Embedding>)
    ensures Create(metric, 1).Ok?
    ensures s == PersistentFlat.Remove(InsertBatch(Create(metric, 1).value, Three()).0, 1).0
    ensures Represents(s, records) && s.metric == metric && s.dimension == 1
    ensures s.catalog.slots == map[2 := 1, 3 := 2] && Content(s, records) == map[2 := [TWO], 3 := [THREE]]
  {
    ThreeFacts();
    hide Represents, InsertBatch, Create, ContentOf, PersistentFlat.Remove, Three, AddSlots, AddAll, Fits;
    var t;
    t, records := FirstBatch(metric, Three());
    s := PersistentFlat.Remove(t, 1).0;
    RemoveHolds(t, records, 1);
    RemovedSlots(t, 1);
    assert map[1 := 0, 2 := 1, 3 := 2] - {1} == map[2 := 1, 3 := 2];
    assert map[1 := [ONE], 2 := [TWO], 3 := [THREE]] - {1} == map[2 := [TWO], 3 := [THREE]];
  }

  // An id may read another id's vector: if compacting that store dies after its
  // append, id 2 comes back with 3.0 and id 3 with zero.
  lemma CompactionCrashMisreads(metric: Metric, ids: seq<VectorId>) returns (s: Store, after: seq<Embedding>)
    ensures Create(metric, 1).Ok?
    ensures s == PersistentFlat.Remove(InsertBatch(Create(metric, 1).value, Three()).0, 1).0
    ensures s.catalog.slots == map[2 := 1, 3 := 2]
    ensures Enumerates(ids, s.catalog.slots) ==>
              var r := Open(TornCompaction(s, ids, 8), metric, 1);
              r.Ok? && Represents(r.value, after) && Content(r.value, after) == map[2 := [THREE], 3 := [ZERO]]
  {
    hide Represents, InsertBatch, Create, ContentOf, PersistentFlat.Remove, Three, Open, TornCompaction, Enumerates;
    var records;
    s, records := ThreeLessOne(metric);
    after := TornRecords(Kept(s, ids), 1, 8, |records|);
    if Enumerates(ids, s.catalog.slots) {
      SwappedReads(s, records, ids);
    }
  }

  lemma SwappedReads(s: Store, records: seq<Embedding>, ids: seq<VectorId>)
    requires Represents(s, records) && Enumerates(ids, s.catalog.slots) && s.dimension == 1
    requires s.catalog.slots == map[2 := 1, 3 := 2] && Content(s, records) == map[2 := [TWO], 3 := [THREE]]
    ensures var r, after := Open(TornCompaction(s, ids, 8), s.metric, 1), TornRecords(Kept(s, ids), 1, 8, |records|);
            r.Ok? && Represents(r.value, after) && Content(r.value, after) == map[2 := [THREE], 3 := [ZERO]]
  {
    hide *;
    SlotsInRange(s, records);
    KeptInOrder(s, records, ids);
    TornCompactionOpens(s, records, ids, 8);
    SwappedRecords(Kept(s, ids), |records|);
    SwappedContent(TornRecords(Kept(s, ids), 1, 8, |records|));
    SwappedStore(Open(TornCompaction(s, ids, 8), s.metric, 1).value, TornRecords(Kept(s, ids), 1, 8, |records|));
  }

  lemma SwappedStore(t: Store, records: seq<Embedding>)
    requires Represents(t, records) && t.catalog.slots == map[2 := 1, 3 := 2]
    requires GoodSlots(map[2 := 1, 3 := 2], |records|)
    ensures Content(t, records) == ContentOf(map[2 := 1, 3 := 2], records)
  {}

  lemma SwappedRecords(kept: seq<Embedding>, count: nat)
    requires kept == [[TWO], [THREE]] && count >= 3
    ensures var after := TornRecords(kept, 1, 8, count); |after| == count && after[1] == [THREE] && after[2] == [ZERO]
  {
    TornRecordReads(kept, 1, 8, 1);
    TornRecordReads(kept, 1, 8, 2);
    OneZero();
    hide TornRecord;
  }

  lemma OneZero()
    ensures ZeroVector(1) == [ZERO]
  {}

  lemma SlotsInRange(s: Store, records: seq<Embedding>)
    requires Represents(s, records)
    ensures GoodSlots(s.catalog.slots, |records|) && forall id :: id in s.catalog.slots ==> s.catalog.slots[id] < |records|
    ensures s.catalog.slots == map[2 := 1, 3 := 2] ==> |records| >= 3
  {
    assert s.catalog.slots == map[2 := 1, 3 := 2] ==> 3 in s.catalog.slots;
  }

  lemma SwappedContent(records: seq<Embedding>)
    requires |records| >= 3 && records[1] == [THREE] && records[2] == [ZERO]
    ensures GoodSlots(map[2 := 1, 3 := 2], |records|)
    ensures ContentOf(map[2 := 1, 3 := 2], records) == map[2 := [THREE], 3 := [ZERO]]
  {}

  lemma KeptInOrder(s: Store, records: seq<Embedding>, ids: seq<VectorId>)
    requires Represents(s, records) && Enumerates(ids, s.catalog.slots)
    requires s.catalog.slots == map[2 := 1, 3 := 2] && Content(s, records) == map[2 := [TWO], 3 := [THREE]]
    ensures Kept(s, ids) == [[TWO], [THREE]]
  {
    hide Represents, Sort, Gather, Enumerates, ContentOf, SlotKey, GoodSlots, Lists;
    var live, order := LiveInOrder(s, records, ids), Sort(ids, SlotKey(s.catalog.slots));
    SlotsInRange(s, records);
    LiveFacts(s, records, ids);
    EnumerationCount(ids, s.catalog.slots);
    assert |s.catalog.slots| == 2 by { assert s.catalog.slots.Keys == {2, 3}; }
    OrderIncreases(s.catalog.slots, |records|, ids, 0, 1);
    TwoInOrder(order, live);
  }

  lemma TwoInOrder(order: seq<VectorId>, live: seq<Flat.Point>)
    requires |order| == |live| == 2 && live[0].id == order[0] && live[1].id == order[1]
    requires var slots := map[2 := 1, 3 := 2]; order[0] in slots && order[1] in slots && slots[order[0]] < slots[order[1]]
    requires Lists(live, map[2 := [TWO], 3 := [THREE]])
    ensures Embeddings(live) == [[TWO], [THREE]]
  {
    EmbeddingsAt(live);
    assert live[0] in live && live[1] in live;
    hide NewIds, Embeddings;
  }
}
