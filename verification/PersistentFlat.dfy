/** PersistentFlatIndex as functions of what is on disk and in RAM. */
module PersistentFlat {
  import opened Core
  import opened Ranking
  import opened Manifest
  import Seg = Segment
  import Flat
  import Oracle

  // The redb file: the slot table and the manifest row, replaced together by
  // each transaction.
  datatype Catalog = Catalog(slots: map<VectorId, nat>, manifest: Manifest)

  datatype Disk = Disk(catalog: Catalog, file: seq<Byte>)

  datatype Store = Store(metric: Metric, dimension: nat, catalog: Catalog, segment: Seg.State, recordCount: nat,
                         liveCount: nat, tail: seq<Flat.Point>)

  function DiskOf(s: Store): Disk { Disk(s.catalog, s.segment.file) }

  function Create(metric: Metric, dimension: nat): Result<Store> {
    var segment :- Seg.Create(metric, dimension);
    Ok(Store(metric, dimension, Catalog(map[], Manifest(FORMAT_VERSION, dimension, metric, 0)), segment, 0, 0, []))
  }

  // PersistentFlatIndex::open on an existing directory.
  function Open(disk: Disk, metric: Metric, dimension: nat): Result<Store> {
    var m := disk.catalog.manifest;
    if m.formatVersion != FORMAT_VERSION || dimension >= 0x1_0000_0000 || m.dimension != dimension || m.metric != metric
    then Err(FormatMismatch)
    else
      var segment :- Seg.Open(disk.file, metric, dimension, m.recordCount);
      Ok(Store(metric, dimension, disk.catalog, segment, m.recordCount, |disk.catalog.slots|, []))
  }

  // The validation loop of insert_batch.
  function Check(keys: set<VectorId>, dimension: nat, items: seq<Flat.Point>, seen: set<VectorId>): Result<()> {
    if items == [] then Ok(())
    else if |items[0].embedding| != dimension then Err(DimensionMismatch(dimension, |items[0].embedding|))
    else if items[0].id in seen || items[0].id in keys then Err(DuplicateId(items[0].id))
    else Check(keys, dimension, items[1..], seen + {items[0].id})
  }

  function Embeddings(items: seq<Flat.Point>): seq<Embedding> {
    if items == [] then [] else [items[0].embedding] + Embeddings(items[1..])
  }

  // Consecutive slots from next on.
  function AddSlots(slots: map<VectorId, nat>, items: seq<Flat.Point>, next: nat): map<VectorId, nat>
    decreases |items|
  {
    if items == [] then slots else AddSlots(slots[items[0].id := next], items[1..], next + 1)
  }

  // Catalog::insert_slots and replace_slots: one transaction.
  function Commit(c: Catalog, slots: map<VectorId, nat>, count: nat): Catalog {
    Catalog(slots, c.manifest.(recordCount := count))
  }

  function InsertBatch(s: Store, items: seq<Flat.Point>): (Store, Result<()>) {
    if items == [] then (s, Ok(()))
    else match Check(s.catalog.slots.Keys, s.dimension, items, {})
         case Err(error) => (s, Err(error))
         case Ok(_) =>
           var next := s.recordCount + |items|;
           match Seg.Append(s.segment, Seg.Flatten(Embeddings(items)))
           case Err(error) => (s, Err(error))
           case Ok(segment) =>
             (s.(segment := segment,
                 catalog := Commit(s.catalog, AddSlots(s.catalog.slots, items, s.recordCount), next),
                 recordCount := next, liveCount := s.liveCount + |items|, tail := s.tail + items),
              Ok(()))
  }

  // What is on disk when the process dies inside insert_batch before the
  // commit: n bytes of the append have reached the file.
  function TornBatch(s: Store, items: seq<Flat.Point>, n: nat): Disk {
    if items == [] || Check(s.catalog.slots.Keys, s.dimension, items, {}).Err? then DiskOf(s)
    else Disk(s.catalog, Seg.TornAppend(s.segment, Seg.Flatten(Embeddings(items)), n).file)
  }

  function Insert(s: Store, id: VectorId, e: Embedding): (Store, Result<()>) {
    if |e| != s.dimension then (s, Err(DimensionMismatch(s.dimension, |e|)))
    else if id in s.catalog.slots then (s, Err(DuplicateId(id)))
    else match Seg.Append(s.segment, e)
         case Err(error) => (s, Err(error))
         case Ok(segment) =>
           (s.(segment := segment,
               catalog := Commit(s.catalog, s.catalog.slots[id := s.recordCount], s.recordCount + 1),
               recordCount := s.recordCount + 1, liveCount := s.liveCount + 1, tail := s.tail + [Flat.Point(id, e)]),
            Ok(()))
  }

  function Remove(s: Store, id: VectorId): (Store, bool) {
    var removed := s.(catalog := Catalog(s.catalog.slots - {id}, s.catalog.manifest));
    if id in s.catalog.slots
    then (removed.(liveCount := if s.liveCount == 0 then 0 else s.liveCount - 1), true)
    else (removed, false)
  }

  function Checkpoint(s: Store): Result<Store> {
    var segment :- Seg.Remap(s.segment, s.recordCount);
    Ok(s.(segment := segment, tail := []))
  }

  function ValuesAt(s: Store, slot: nat): Result<Embedding> {
    if slot < s.segment.mapped then
      match Seg.Record(s.segment, slot)
      case None => Err(Corruption)
      case Some(v) => Ok(v)
    else if slot - s.segment.mapped < |s.tail| then Ok(s.tail[slot - s.segment.mapped].embedding)
    else Err(Corruption)
  }

  // The ids of the slot table, each once, in some order.
  ghost predicate Enumerates(ids: seq<VectorId>, slots: map<VectorId, nat>) {
    && Distinct(ids)
    && (forall id :: id in ids <==> id in slots)
  }

  function SlotKey(slots: map<VectorId, nat>): VectorId -> Hit {
    id => Hit(if id in slots then slots[id] else 0, 0.0)
  }

  // The points with the values their slots hold.
  function Gather(s: Store, ids: seq<VectorId>): Result<seq<Flat.Point>> {
    if ids == [] then Ok([])
    else if ids[|ids| - 1] !in s.catalog.slots then Err(Corruption)
    else
      var rest :- Gather(s, ids[..|ids| - 1]);
      var v :- ValuesAt(s, s.catalog.slots[ids[|ids| - 1]]);
      Ok(rest + [Flat.Point(ids[|ids| - 1], v)])
  }

  // compact_inner, given the order the slot table was iterated in.
  function Compact(s: Store, ids: seq<VectorId>): Result<Store> {
    var live :- Gather(s, Sort(ids, SlotKey(s.catalog.slots)));
    var appended :- Seg.Append(Seg.TruncateToEmpty(s.segment), Seg.Flatten(Embeddings(live)));
    var segment :- Seg.Remap(appended, |live|);
    Ok(s.(segment := segment, catalog := Commit(s.catalog, AddSlots(map[], live, 0), |live|),
          recordCount := |live|, liveCount := |live|, tail := []))
  }

  // snapshot_inner: the directory a copy is written to.
  function Snapshot(s: Store): Result<Disk> {
    var n := Seg.Offset(s.dimension, s.recordCount);
    if n > |s.segment.file| then Err(Corruption)
    else Ok(Disk(Catalog(s.catalog.slots, Manifest(FORMAT_VERSION, s.dimension, s.metric, s.recordCount)), s.segment.file[..n]))
  }

  function ScoreAll(points: seq<Flat.Point>, query: Embedding, score: Scorer): seq<Hit> {
    Flat.Scored(points, query, score, AdmitAll)
  }

  function Admitted(ids: seq<VectorId>, admit: VectorId -> bool): seq<VectorId> {
    if ids == [] then []
    else
      var rest := Admitted(ids[..|ids| - 1], admit);
      if admit(ids[|ids| - 1]) then rest + [ids[|ids| - 1]] else rest
  }

  // search_filtered, given the order the slot table was iterated in.
  function Search(s: Store, ids: seq<VectorId>, query: Embedding, k: nat, score: Scorer, admit: VectorId -> bool)
    : Result<seq<Hit>>
  {
    if |query| != s.dimension then Err(DimensionMismatch(s.dimension, |query|))
    else
      var points :- Gather(s, Admitted(ids, admit));
      Ok(Take(Sort(ScoreAll(points, query, score), HitKey), k))
  }
}

/** Every reachable store, crashed and reopened at any step, holds exactly the
    committed operations. */
module PersistentFlatFacts {
  import opened Core
  import opened Bytes
  import opened Ranking
  import opened Manifest
  import opened PersistentFlat
  import Seg = Segment
  import Flat
  import Oracle

  // Live ids point at different records.
  ghost predicate GoodSlots(slots: map<VectorId, nat>, n: nat) {
    && (forall id :: id in slots ==> slots[id] < n)
    && (forall a, b :: a in slots && b in slots && a != b ==> slots[a] != slots[b])
  }

  ghost function ContentOf(slots: map<VectorId, nat>, records: seq<Embedding>): Oracle.Content
    requires GoodSlots(slots, |records|)
  {
    map id | id in slots :: records[slots[id]]
  }

  ghost predicate GoodCatalog(c: Catalog, metric: Metric, dimension: nat, records: seq<Embedding>) {
    && 0 < dimension < 0x1_0000_0000
    && Seg.AllSized(records, dimension)
    && c.manifest == Manifest(FORMAT_VERSION, dimension, metric, |records|)
    && GoodSlots(c.slots, |records|)
  }

  // The file, the map, the tail and the counters all agree with the committed
  // records: mapped records and tail together are exactly the watermark.
  ghost predicate Represents(s: Store, records: seq<Embedding>) {
    && GoodCatalog(s.catalog, s.metric, s.dimension, records)
    && s.recordCount == |records| && s.liveCount == |s.catalog.slots|
    && s.segment.dimension == s.dimension
    && s.segment.file == Seg.FileOf(s.metric, s.dimension, records)
    && s.segment.mapped + |s.tail| == |records|
    && s.segment.mmap == Some(Seg.FileOf(s.metric, s.dimension, records[..s.segment.mapped]))
    && (forall j :: 0 <= j < |s.tail| ==> s.tail[j].embedding == records[s.segment.mapped + j])
  }

  ghost function Content(s: Store, records: seq<Embedding>): Oracle.Content
    requires Represents(s, records)
  {
    ContentOf(s.catalog.slots, records)
  }

  // --- reopening ---

  // Whatever bytes follow the committed records, opening drops them and finds
  // the records.
  lemma OpenRecovers(disk: Disk, metric: Metric, dimension: nat, records: seq<Embedding>, torn: seq<Byte>)
    requires GoodCatalog(disk.catalog, metric, dimension, records)
    requires disk.file == Seg.FileOf(metric, dimension, records) + torn
    ensures var r := Open(disk, metric, dimension);
            && r.Ok?
            && Represents(r.value, records)
            && r.value.catalog == disk.catalog && r.value.metric == metric && r.value.dimension == dimension
            && r.value.segment.mapped == |records|
  {
    hide Seg.FileOf, Seg.Open;
    Seg.OpenCuts(metric, dimension, records, torn);
    assert records[..|records|] == records;
  }

  // Opening succeeds exactly when the catalog's manifest was written for these
  // parameters and the file begins as their header does; a manifest of other
  // parameters is a format mismatch whatever the file holds.
  lemma OpenDecided(disk: Disk, metric: Metric, dimension: nat)
    requires dimension < 0x1_0000_0000
    ensures Open(disk, metric, dimension).Ok? <==>
            && disk.catalog.manifest.formatVersion == 1
            && disk.catalog.manifest.dimension == dimension
            && disk.catalog.manifest.metric == metric
            && |disk.file| >= 32
            && disk.file[..17] == Seg.Header(metric, dimension)[..17]
    ensures (disk.catalog.manifest.formatVersion != 1 || disk.catalog.manifest.dimension != dimension
             || disk.catalog.manifest.metric != metric)
            ==> Open(disk, metric, dimension) == Err(FormatMismatch)
  {
    Seg.OpenAccepts(disk.file, metric, dimension, disk.catalog.manifest.recordCount);
    hide Seg.Open, Seg.Header;
  }

  // --- committing a batch ---

  // Oracle.Apply for a batch: whole or not at all.
  ghost function AddAll(content: Oracle.Content, items: seq<Flat.Point>): Oracle.Content
    decreases |items|
  {
    if items == [] then content else AddAll(content[items[0].id := items[0].embedding], items[1..])
  }

  ghost predicate Fits(items: seq<Flat.Point>, keys: set<VectorId>, dimension: nat) {
    && (forall p :: p in items ==> |p.embedding| == dimension && p.id !in keys)
    && (forall i, j :: 0 <= i < j < |items| ==> items[i].id != items[j].id)
  }

  ghost function ApplyBatch(content: Oracle.Content, dimension: nat, items: seq<Flat.Point>): Oracle.Content {
    if Fits(items, content.Keys, dimension) then AddAll(content, items) else content
  }

  // The validation loop accepts exactly the batches that fit.
  lemma {:induction false} CheckFits(keys: set<VectorId>, dimension: nat, items: seq<Flat.Point>, seen: set<VectorId>)
    ensures Check(keys, dimension, items, seen).Ok? <==> Fits(items, keys + seen, dimension)
    decreases |items|
  {
    if items != [] {
      var p, rest := items[0], items[1..];
      CheckFits(keys, dimension, rest, seen + {p.id});
      assert p in items;
      assert forall q :: q in items <==> q == p || q in rest;
      if Fits(items, keys + seen, dimension) {
        assert forall q :: q in rest ==> q.id != p.id;
      }
      if Fits(rest, keys + seen + {p.id}, dimension) && p.id !in keys + seen {
        assert forall j :: 0 < j < |items| ==> items[j] in rest;
      }
      assert keys + (seen + {p.id}) == keys + seen + {p.id};
    }
  }

  // A refused batch reports its first item that does not fit: a wrong length
  // before an id that is stored or repeated.
  lemma {:induction false} CheckReports(keys: set<VectorId>, dimension: nat, items: seq<Flat.Point>, seen: set<VectorId>)
    returns (n: nat)
    requires Check(keys, dimension, items, seen).Err?
    ensures n < |items| && Fits(items[..n], keys + seen, dimension)
    ensures Check(keys, dimension, items, seen)
         == Err(if |items[n].embedding| != dimension then DimensionMismatch(dimension, |items[n].embedding|)
                else DuplicateId(items[n].id))
    ensures |items[n].embedding| == dimension ==>
              items[n].id in keys || items[n].id in seen || exists i :: 0 <= i < n && items[i].id == items[n].id
  {
    var p := items[0];
    if |p.embedding| != dimension || p.id in seen || p.id in keys {
      n := 0;
    } else {
      var m := CheckReports(keys, dimension, items[1..], seen + {p.id});
      n := m + 1;
      var first, rest := items[..n], items[1..][..m];
      assert first == [p] + rest;
      assert keys + (seen + {p.id}) == keys + seen + {p.id};
      assert forall q :: q in first ==> q == p || q in rest;
      assert forall q :: q in rest ==> q.id != p.id;
      if |items[n].embedding| == dimension && items[n].id !in keys && items[n].id !in seen && items[n].id != p.id {
        var i :| 0 <= i < m && items[1..][i].id == items[n].id;
        assert items[i + 1].id == items[n].id;
      }
    }
  }

  // That error is what the caller gets, and nothing has changed.
  lemma BatchRefused(s: Store, records: seq<Embedding>, items: seq<Flat.Point>) returns (n: nat)
    requires Represents(s, records) && !Fits(items, Content(s, records).Keys, s.dimension)
    ensures n < |items| && Fits(items[..n], Content(s, records).Keys, s.dimension)
    ensures InsertBatch(s, items)
         == (s, Err(if |items[n].embedding| != s.dimension then DimensionMismatch(s.dimension, |items[n].embedding|)
                    else DuplicateId(items[n].id)))
  {
    CheckFits(s.catalog.slots.Keys, s.dimension, items, {});
    assert s.catalog.slots.Keys + {} == Content(s, records).Keys;
    hide Represents, ContentOf;
    n := CheckReports(s.catalog.slots.Keys, s.dimension, items, {});
  }

  lemma {:induction false} EmbeddingsAt(items: seq<Flat.Point>)
    ensures |Embeddings(items)| == |items|
    ensures forall i :: 0 <= i < |items| ==> Embeddings(items)[i] == items[i].embedding
  {
    if items != [] { EmbeddingsAt(items[1..]); }
  }

  ghost predicate NewIds(items: seq<Flat.Point>, keys: set<VectorId>) {
    && (forall p :: p in items ==> p.id !in keys)
    && (forall i, j :: 0 <= i < j < |items| ==> items[i].id != items[j].id)
  }

  lemma NewIdsTail(items: seq<Flat.Point>, keys: set<VectorId>)
    requires NewIds(items, keys) && items != []
    ensures items[0].id !in keys && NewIds(items[1..], keys + {items[0].id})
  {
    assert items[0] in items && forall q :: q in items[1..] ==> q in items && q.id != items[0].id;
  }

  lemma {:induction false} AddSlotsContent(slots: map<VectorId, nat>, records: seq<Embedding>, items: seq<Flat.Point>)
    requires GoodSlots(slots, |records|) && NewIds(items, slots.Keys)
    ensures |Embeddings(items)| == |items|
    ensures GoodSlots(AddSlots(slots, items, |records|), |records + Embeddings(items)|)
    ensures ContentOf(AddSlots(slots, items, |records|), records + Embeddings(items)) == AddAll(ContentOf(slots, records), items)
    ensures |AddSlots(slots, items, |records|)| == |slots| + |items|
    decreases |items|
  {
    hide GoodSlots, ContentOf, NewIds;
    if items == [] {
      assert records + Embeddings(items) == records;
    } else {
      hide AddSlots, AddAll, Embeddings;
      var p, rest := items[0], items[1..];
      NewIdsTail(items, slots.Keys);
      AddOne(slots, records, p);
      assert slots[p.id := |records|].Keys == slots.Keys + {p.id};
      AddSlotsContent(slots[p.id := |records|], records + [p.embedding], rest);
      AddSteps(slots, records, ContentOf(slots, records), items);
    }
  }

  lemma AddSteps(slots: map<VectorId, nat>, records: seq<Embedding>, content: Oracle.Content, items: seq<Flat.Point>)
    requires items != []
    ensures var p, rest := items[0], items[1..];
            && AddSlots(slots, items, |records|) == AddSlots(slots[p.id := |records|], rest, |records + [p.embedding]|)
            && records + Embeddings(items) == records + [p.embedding] + Embeddings(rest)
            && |Embeddings(items)| == 1 + |Embeddings(rest)|
            && AddAll(content, items) == AddAll(content[p.id := p.embedding], rest)
  {
  }

  lemma AddOne(slots: map<VectorId, nat>, records: seq<Embedding>, p: Flat.Point)
    requires GoodSlots(slots, |records|) && p.id !in slots
    ensures GoodSlots(slots[p.id := |records|], |records + [p.embedding]|)
    ensures ContentOf(slots[p.id := |records|], records + [p.embedding]) == ContentOf(slots, records)[p.id := p.embedding]
    ensures |slots[p.id := |records|]| == |slots| + 1
  {
    AddSlot(slots, |records|, p.id);
    AddRecord(slots, records, p);
  }

  lemma AddSlot(slots: map<VectorId, nat>, n: nat, id: VectorId)
    requires GoodSlots(slots, n) && id !in slots
    ensures GoodSlots(slots[id := n], n + 1) && |slots[id := n]| == |slots| + 1
  {
    assert slots[id := n].Keys == slots.Keys + {id};
  }

  lemma AddRecord(slots: map<VectorId, nat>, records: seq<Embedding>, p: Flat.Point)
    requires GoodSlots(slots, |records|) && p.id !in slots
    requires GoodSlots(slots[p.id := |records|], |records + [p.embedding]|)
    ensures ContentOf(slots[p.id := |records|], records + [p.embedding]) == ContentOf(slots, records)[p.id := p.embedding]
  {}

  lemma AllSizedAppend(records: seq<Embedding>, items: seq<Flat.Point>, dimension: nat)
    requires Seg.AllSized(records, dimension) && forall p :: p in items ==> |p.embedding| == dimension
    ensures Seg.AllSized(records + Embeddings(items), dimension) && Seg.AllSized(Embeddings(items), dimension)
  {
    EmbeddingsAt(items);
    forall r | r in Embeddings(items)
      ensures |r| == dimension
    {
      var i :| 0 <= i < |items| && Embeddings(items)[i] == r;
      assert items[i] in items;
    }
  }

  lemma AppendAccepted(segment: Seg.State, records: seq<Embedding>)
    requires segment.dimension > 0 && Seg.AllSized(records, segment.dimension)
    ensures Seg.Append(segment, Seg.Flatten(records)) == Ok(segment.(file := segment.file + CastToBytes(Seg.Flatten(records))))
  {
    Seg.FlattenLength(records, segment.dimension);
    MultipleMod(|records|, segment.dimension);
  }

  lemma MultipleMod(n: nat, d: nat)
    requires d > 0
    ensures (n * d) % d == 0
  {
    var q, r := (n * d) / d, (n * d) % d;
    Euclid(n * d, d);
    Distribute(n, q, d);
    OnlyZero(n - q, d, r);
  }

  lemma Euclid(p: int, d: int)
    requires d > 0
    ensures p == (p / d) * d + p % d && 0 <= p % d < d
  {}

  lemma Distribute(a: int, b: int, d: int)
    ensures a * d - b * d == (a - b) * d
  {}

  lemma Monotone(a: int, b: int, d: int)
    requires a <= b && d > 0
    ensures a * d <= b * d
  {}

  lemma OnlyZero(k: int, d: int, r: int)
    requires d > 0 && k * d == r && 0 <= r < d
    ensures k == 0
  {
    if k >= 1 { Monotone(1, k, d); }
    if k <= -1 { Monotone(k, -1, d); }
  }

  // A batch that fits is appended and committed; any other changes nothing.
  lemma BatchHolds(s: Store, records: seq<Embedding>, items: seq<Flat.Point>) returns (after: seq<Embedding>)
    requires Represents(s, records)
    ensures var (t, r) := InsertBatch(s, items);
            && t.metric == s.metric && t.dimension == s.dimension
            && Represents(t, after)
            && (r.Ok? <==> Fits(items, Content(s, records).Keys, s.dimension))
            && Content(t, after) == ApplyBatch(Content(s, records), s.dimension, items)
  {
    CheckFits(s.catalog.slots.Keys, s.dimension, items, {});
    assert s.catalog.slots.Keys + {} == Content(s, records).Keys;
    after := if Fits(items, s.catalog.slots.Keys, s.dimension) then records + Embeddings(items) else records;
    hide Represents, Check, Committed, Seg.Append;
    if items == [] {
      assert after == records;
    } else if Fits(items, s.catalog.slots.Keys, s.dimension) {
      CommitHolds(s, records, items);
    }
  }

  ghost function Committed(s: Store, items: seq<Flat.Point>): Store {
    s.(segment := s.segment.(file := s.segment.file + CastToBytes(Seg.Flatten(Embeddings(items)))),
       catalog := Commit(s.catalog, AddSlots(s.catalog.slots, items, s.recordCount), s.recordCount + |items|),
       recordCount := s.recordCount + |items|, liveCount := s.liveCount + |items|, tail := s.tail + items)
  }

  lemma TailHolds(mapped: nat, tail: seq<Flat.Point>, records: seq<Embedding>, items: seq<Flat.Point>)
    requires mapped + |tail| == |records|
    requires forall j :: 0 <= j < |tail| ==> tail[j].embedding == records[mapped + j]
    ensures var tail', records' := tail + items, records + Embeddings(items);
            && mapped + |tail'| == |records'| && records'[..mapped] == records[..mapped]
            && forall j :: 0 <= j < |tail'| ==> tail'[j].embedding == records'[mapped + j]
  {
    EmbeddingsAt(items);
  }

  lemma CommitHolds(s: Store, records: seq<Embedding>, items: seq<Flat.Point>)
    requires Represents(s, records) && Fits(items, s.catalog.slots.Keys, s.dimension) && items != []
    requires Check(s.catalog.slots.Keys, s.dimension, items, {}).Ok?
    ensures InsertBatch(s, items) == (Committed(s, items), Ok(()))
    ensures Represents(Committed(s, items), records + Embeddings(items))
    ensures Content(Committed(s, items), records + Embeddings(items)) == AddAll(Content(s, records), items)
  {
    hide Seg.FileOf, Seg.Flatten, CastToBytes, AddSlots, AddAll, Check, Embeddings, Seg.Append;
    AllSizedAppend(records, items, s.dimension);
    AppendAccepted(s.segment, Embeddings(items));
    TailHolds(s.segment.mapped, s.tail, records, items);
    AddSlotsContent(s.catalog.slots, records, items);
    Seg.FileAppend(s.metric, s.dimension, records, Embeddings(items));
    hide Fits, Seg.AllSized, GoodSlots;
    EmbeddingsAt(items);
  }

  // A batch interrupted before its commit leaves the committed records and then
  // the first n bytes of its vectors; one that is refused leaves nothing.
  lemma TornHolds(s: Store, records: seq<Embedding>, items: seq<Flat.Point>, n: nat) returns (torn: seq<Byte>)
    requires Represents(s, records)
    ensures TornBatch(s, items, n).catalog == s.catalog
    ensures TornBatch(s, items, n).file == Seg.FileOf(s.metric, s.dimension, records) + torn
    ensures torn == if InsertBatch(s, items).1.Err? then [] else Take(CastToBytes(Seg.Flatten(Embeddings(items))), n)
  {
    hide Seg.FileOf, CastToBytes, Seg.Flatten, Embeddings, AddSlots, Check;
    torn := if InsertBatch(s, items).1.Err? then [] else Take(CastToBytes(Seg.Flatten(Embeddings(items))), n);
    assert s.segment.file + [] == s.segment.file;
    NoBytes();
  }

  lemma NoBytes()
    ensures CastToBytes(Seg.Flatten(Embeddings([]))) == []
  {}

  // A single insert is a batch of one.
  lemma InsertIsBatch(s: Store, id: VectorId, e: Embedding)
    ensures Insert(s, id, e) == InsertBatch(s, [Flat.Point(id, e)])
  {
    Seg.FlattenOne(e);
    var items := [Flat.Point(id, e)];
    assert items[1..] == [];
    assert Embeddings(items[1..]) == [] && Embeddings(items) == [e];
    assert AddSlots(s.catalog.slots, items, s.recordCount) == s.catalog.slots[id := s.recordCount];
    assert Check(s.catalog.slots.Keys, s.dimension, items[1..], {} + {id}) == Ok(());
    hide Seg.Append, AddSlots, Embeddings, Seg.Flatten;
  }

  // --- removing ---

  lemma DropSlot(slots: map<VectorId, nat>, records: seq<Embedding>, id: VectorId)
    requires GoodSlots(slots, |records|)
    ensures GoodSlots(slots - {id}, |records|)
    ensures ContentOf(slots - {id}, records) == ContentOf(slots, records) - {id}
  {}

  lemma DropCount(slots: map<VectorId, nat>, id: VectorId)
    ensures |slots - {id}| == if id in slots then |slots| - 1 else |slots|
    ensures id in slots ==> |slots| > 0
  {
    assert (slots - {id}).Keys == slots.Keys - {id};
  }

  lemma RemoveHolds(s: Store, records: seq<Embedding>, id: VectorId)
    requires Represents(s, records)
    ensures var (t, present) := Remove(s, id);
            && t.metric == s.metric && t.dimension == s.dimension
            && Represents(t, records)
            && (present <==> id in Content(s, records))
            && Content(t, records) == Content(s, records) - {id}
  {
    hide Seg.FileOf, Seg.AllSized;
    DropSlot(s.catalog.slots, records, id);
    DropCount(s.catalog.slots, id);
    hide GoodSlots;
  }

  // --- reading ---

  lemma ValuesRead(s: Store, records: seq<Embedding>, slot: nat)
    requires Represents(s, records) && slot < |records|
    ensures ValuesAt(s, slot) == Ok(records[slot])
  {
    hide Seg.FileOf, CastToFloats, CastToBytes, Seg.Offset;
    if slot < s.segment.mapped {
      var mapped := records[..s.segment.mapped];
      assert Seg.AllSized(mapped, s.dimension);
      Seg.RecordReads(s.metric, s.dimension, mapped, [], slot);
      assert Seg.FileOf(s.metric, s.dimension, mapped) + [] == Seg.FileOf(s.metric, s.dimension, mapped);
    }
  }

  lemma ContentReads(s: Store, records: seq<Embedding>)
    requires Represents(s, records)
    ensures forall id :: id in s.catalog.slots ==>
              && s.catalog.slots[id] < |records| && id in Content(s, records)
              && Content(s, records)[id] == records[s.catalog.slots[id]]
  {
    hide Seg.FileOf;
  }

  // The values read are the content, in the order asked for.
  lemma {:induction false} GatherReads(s: Store, records: seq<Embedding>, ids: seq<VectorId>)
    requires Represents(s, records) && forall id :: id in ids ==> id in s.catalog.slots
    ensures var r := Gather(s, ids);
            && r.Ok? && |r.value| == |ids|
            && forall i :: 0 <= i < |ids| ==> r.value[i] == Flat.Point(ids[i], Content(s, records)[ids[i]])
  {
    hide Seg.FileOf, ValuesAt, Represents;
    ContentReads(s, records);
    if ids != [] {
      var n := |ids| - 1;
      assert ids[n] in ids;
      GatherReads(s, records, ids[..n]);
      ValuesRead(s, records, s.catalog.slots[ids[n]]);
    }
  }

  lemma CheckpointHolds(s: Store, records: seq<Embedding>)
    requires Represents(s, records)
    ensures Checkpoint(s).Ok? && Represents(Checkpoint(s).value, records)
    ensures Checkpoint(s).value.catalog == s.catalog && Checkpoint(s).value.segment.mapped == |records|
    ensures Checkpoint(s).value.metric == s.metric && Checkpoint(s).value.dimension == s.dimension
  {
    Seg.FileLength(s.metric, s.dimension, records);
    assert records[..|records|] == records;
  }

  // --- compacting ---

  lemma {:induction false} AddAllReads(content: Oracle.Content, items: seq<Flat.Point>)
    requires NewIds(items, content.Keys)
    ensures var r := AddAll(content, items);
            && (forall id :: id in content ==> id in r && r[id] == content[id])
            && (forall p :: p in items ==> p.id in r && r[p.id] == p.embedding)
            && (forall id :: id in r ==> id in content || exists i :: 0 <= i < |items| && items[i].id == id)
    decreases |items|
  {
    if items != [] {
      var p := items[0];
      NewIdsTail(items, content.Keys);
      assert content[p.id := p.embedding].Keys == content.Keys + {p.id};
      AddAllReads(content[p.id := p.embedding], items[1..]);
      assert forall q :: q in items <==> q == p || q in items[1..];
    }
  }

  lemma {:induction false} AddSlotsReads(slots: map<VectorId, nat>, items: seq<Flat.Point>, next: nat)
    requires NewIds(items, slots.Keys)
    ensures var r := AddSlots(slots, items, next);
            && (forall i :: 0 <= i < |items| ==> items[i].id in r && r[items[i].id] == next + i)
            && (forall id :: id in slots ==> id in r && r[id] == slots[id])
    decreases |items|
  {
    if items != [] {
      NewIdsTail(items, slots.Keys);
      assert slots[items[0].id := next].Keys == slots.Keys + {items[0].id};
      AddSlotsReads(slots[items[0].id := next], items[1..], next + 1);
    }
  }

  // Points that list exactly the content.
  ghost predicate Lists(items: seq<Flat.Point>, content: Oracle.Content) {
    && NewIds(items, {})
    && (forall p :: p in items ==> p.id in content && content[p.id] == p.embedding)
    && (forall id :: id in content ==> Flat.Point(id, content[id]) in items)
  }

  lemma AddAllRebuilds(items: seq<Flat.Point>, content: Oracle.Content)
    requires Lists(items, content)
    ensures AddAll(map[], items) == content
  {
    var none: Oracle.Content := map[];
    assert none.Keys == {};
    AddAllReads(none, items);
    forall id | id in AddAll(none, items)
      ensures id in content
    {
      var i :| 0 <= i < |items| && items[i].id == id;
      assert items[i] in items;
    }
  }

  // The live points in slot order.
  ghost function LiveInOrder(s: Store, records: seq<Embedding>, ids: seq<VectorId>): seq<Flat.Point>
    requires Represents(s, records) && Enumerates(ids, s.catalog.slots)
  {
    var r := Gather(s, Sort(ids, SlotKey(s.catalog.slots)));
    if r.Ok? then r.value else []
  }

  lemma ListsPointwise(order: seq<VectorId>, live: seq<Flat.Point>, content: Oracle.Content)
    requires Distinct(order) && |live| == |order| && forall id :: id in order <==> id in content
    requires forall i :: 0 <= i < |order| ==> live[i] == Flat.Point(order[i], content[order[i]])
    ensures Lists(live, content)
  {
    forall id | id in content
      ensures Flat.Point(id, content[id]) in live
    {
      var i :| 0 <= i < |order| && order[i] == id;
      assert live[i] == Flat.Point(id, content[id]);
    }
  }

  lemma OrderFacts(ids: seq<VectorId>, slots: map<VectorId, nat>)
    requires Enumerates(ids, slots)
    ensures var order := Sort(ids, SlotKey(slots));
            Distinct(order) && |order| == |ids| && forall id :: id in order <==> id in slots
  {
    SortMembers(ids, SlotKey(slots));
    SortKeepsDistinct(ids, SlotKey(slots));
    SortPermutes(ids, SlotKey(slots));
  }

  lemma LiveFacts(s: Store, records: seq<Embedding>, ids: seq<VectorId>)
    requires Represents(s, records) && Enumerates(ids, s.catalog.slots)
    ensures var live, order := LiveInOrder(s, records, ids), Sort(ids, SlotKey(s.catalog.slots));
            && Gather(s, order) == Ok(live)
            && |live| == |order| == |ids|
            && (forall i :: 0 <= i < |order| ==> live[i].id == order[i])
            && Lists(live, Content(s, records))
  {
    var order := Sort(ids, SlotKey(s.catalog.slots));
    OrderFacts(ids, s.catalog.slots);
    hide Represents, Gather, Seg.FileOf, Sort, Distinct, Enumerates, NewIds, Lists;
    GatherReads(s, records, order);
    ListsPointwise(order, LiveInOrder(s, records, ids), Content(s, records));
  }

  // Sorting by slot lists the ids in strictly increasing slot order.
  lemma OrderIncreases(slots: map<VectorId, nat>, n: nat, ids: seq<VectorId>, i: nat, j: nat)
    requires GoodSlots(slots, n) && Enumerates(ids, slots)
    requires i < j < |Sort(ids, SlotKey(slots))|
    ensures var order := Sort(ids, SlotKey(slots));
            order[i] in slots && order[j] in slots && slots[order[i]] < slots[order[j]]
  {
    var key := SlotKey(slots);
    var order := Sort(ids, key);
    SortOrdered(ids, key);
    SortMembers(ids, key);
    SortKeepsDistinct(ids, key);
    assert order[i] in order && order[j] in order;
    assert !Before(key(order[j]), key(order[i]));
  }

  lemma EmptiedFile(segment: Seg.State, metric: Metric, dimension: nat, records: seq<Embedding>)
    requires segment.dimension == dimension && segment.file == Seg.FileOf(metric, dimension, records)
    ensures Seg.TruncateToEmpty(segment) == Seg.State(dimension, Seg.FileOf(metric, dimension, []), None, 0)
  {
    Seg.HeaderLength(metric, dimension);
    assert Seg.FileOf(metric, dimension, []) == Seg.Header(metric, dimension) by { assert CastToBytes([]) == []; }
    hide Seg.Header, CastToBytes, Seg.Flatten;
  }

  // A compaction that is not interrupted keeps the content, leaves the slots
  // dense in the order the old ones had, and maps every record.
  lemma CompactHolds(s: Store, records: seq<Embedding>, ids: seq<VectorId>)
    requires Represents(s, records) && Enumerates(ids, s.catalog.slots)
    ensures var live := LiveInOrder(s, records, ids);
            && Compact(s, ids).Ok?
            && var t := Compact(s, ids).value;
            && t.metric == s.metric && t.dimension == s.dimension
            && Represents(t, Embeddings(live))
            && Content(t, Embeddings(live)) == Content(s, records)
            && t.recordCount == t.liveCount == |s.catalog.slots| && t.tail == []
            && forall i :: 0 <= i < |live| ==> live[i].id in t.catalog.slots && t.catalog.slots[live[i].id] == i
  {
    hide Seg.FileOf, AddSlots, AddAll, Gather, GoodSlots, Lists, LiveInOrder, Embeddings, ContentOf, Compact, Enumerates;
    var live := LiveInOrder(s, records, ids);
    CompactedSegment(s, records, ids);
    LiveFacts(s, records, ids);
    LiveSized(s, records, live);
    EnumerationCount(ids, s.catalog.slots);
    RebuiltSlots(live, Content(s, records));
    hide NewIds;
    EmbeddingsAt(live);
    assert Embeddings(live)[..|live|] == Embeddings(live);
  }

  // The new slots stand in the order the old ones did.
  lemma CompactKeepsOrder(s: Store, records: seq<Embedding>, ids: seq<VectorId>, a: VectorId, c: VectorId)
    requires Represents(s, records) && Enumerates(ids, s.catalog.slots)
    requires a in s.catalog.slots && c in s.catalog.slots
    ensures Compact(s, ids).Ok?
    ensures var slots := Compact(s, ids).value.catalog.slots;
            a in slots && c in slots && (slots[a] < slots[c] <==> s.catalog.slots[a] < s.catalog.slots[c])
  {
    hide Represents, Compact, Sort, Gather, LiveInOrder, Lists, GoodSlots, SlotKey, Content;
    CompactHolds(s, records, ids);
    LiveFacts(s, records, ids);
    RepresentsSlots(s, records);
    var order := Sort(ids, SlotKey(s.catalog.slots));
    SortMembers(ids, SlotKey(s.catalog.slots));
    forall i, j | 0 <= i < j < |order|
      ensures order[i] in s.catalog.slots && order[j] in s.catalog.slots
      ensures s.catalog.slots[order[i]] < s.catalog.slots[order[j]]
    {
      OrderIncreases(s.catalog.slots, |records|, ids, i, j);
    }
    var i :| 0 <= i < |order| && order[i] == a;
    var j :| 0 <= j < |order| && order[j] == c;
  }

  lemma RepresentsSlots(s: Store, records: seq<Embedding>)
    requires Represents(s, records)
    ensures GoodSlots(s.catalog.slots, |records|)
  {}

  // Slots handed out from zero to points that list the content.
  lemma RebuiltSlots(live: seq<Flat.Point>, content: Oracle.Content)
    requires Lists(live, content)
    ensures var slots := AddSlots(map[], live, 0);
            && |Embeddings(live)| == |live|
            && GoodSlots(slots, |Embeddings(live)|)
            && ContentOf(slots, Embeddings(live)) == content
            && |slots| == |live|
            && forall i :: 0 <= i < |live| ==> live[i].id in slots && slots[live[i].id] == i
  {
    var none: map<VectorId, nat> := map[];
    assert none.Keys == {} && GoodSlots(none, 0);
    assert ContentOf(none, []) == map[] && [] + Embeddings(live) == Embeddings(live);
    AddAllRebuilds(live, content);
    AddSlotsContent(none, [], live);
    AddSlotsReads(none, live, 0);
  }

  lemma LiveSized(s: Store, records: seq<Embedding>, live: seq<Flat.Point>)
    requires Represents(s, records) && Lists(live, Content(s, records))
    ensures Seg.AllSized(Embeddings(live), s.dimension)
  {
    EmbeddingsAt(live);
    forall r | r in Embeddings(live)
      ensures |r| == s.dimension
    {
      var i :| 0 <= i < |live| && Embeddings(live)[i] == r;
      assert live[i] in live;
      assert r in records;
    }
  }

  lemma CompactedSegment(s: Store, records: seq<Embedding>, ids: seq<VectorId>)
    requires Represents(s, records) && Enumerates(ids, s.catalog.slots)
    ensures var live := LiveInOrder(s, records, ids);
            var file := Seg.FileOf(s.metric, s.dimension, Embeddings(live));
            Compact(s, ids) == Ok(s.(segment := Seg.State(s.dimension, file, Some(file), |live|),
                                     catalog := Commit(s.catalog, AddSlots(map[], live, 0), |live|),
                                     recordCount := |live|, liveCount := |live|, tail := []))
  {
    hide Seg.FileOf, Seg.Append, Seg.Remap, Seg.Flatten, AddSlots, GoodSlots, Lists, LiveInOrder, Embeddings, Enumerates;
    var live := LiveInOrder(s, records, ids);
    LiveFacts(s, records, ids);
    LiveSized(s, records, live);
    EmbeddingsAt(live);
    RewrittenSegment(s.segment, s.metric, s.dimension, records, Embeddings(live));
  }

  // The file truncated, appended to and mapped again.
  lemma RewrittenSegment(segment: Seg.State, metric: Metric, dimension: nat, records: seq<Embedding>, kept: seq<Embedding>)
    requires dimension > 0 && segment.dimension == dimension && segment.file == Seg.FileOf(metric, dimension, records)
    requires Seg.AllSized(kept, dimension)
    ensures var appended := Seg.Append(Seg.TruncateToEmpty(segment), Seg.Flatten(kept));
            var file := Seg.FileOf(metric, dimension, kept);
            && appended.Ok?
            && Seg.Remap(appended.value, |kept|) == Ok(Seg.State(dimension, file, Some(file), |kept|))
  {
    hide Seg.FileOf, Seg.Append, Seg.Flatten, CastToBytes, Seg.TruncateToEmpty;
    EmptiedFile(segment, metric, dimension, records);
    AppendAccepted(Seg.TruncateToEmpty(segment), kept);
    Seg.FileAppend(metric, dimension, [], kept);
    assert [] + kept == kept;
    Seg.FileLength(metric, dimension, kept);
  }

  lemma EnumerationCount(ids: seq<VectorId>, slots: map<VectorId, nat>)
    requires Enumerates(ids, slots)
    ensures |ids| == |slots|
  {
    DistinctSize(ids);
    assert IdSet(ids) == slots.Keys;
  }

  ghost function IdSet(ids: seq<VectorId>): set<VectorId> { set id | id in ids }

  lemma {:induction false} DistinctSize(ids: seq<VectorId>)
    requires Distinct(ids)
    ensures |IdSet(ids)| == |ids|
  {
    if ids != [] {
      var n := |ids| - 1;
      DistinctSize(ids[..n]);
      assert ids == ids[..n] + [ids[n]];
      assert IdSet(ids) == IdSet(ids[..n]) + {ids[n]};
    }
  }

  // --- copying ---

  // A snapshot directory holds the slots, the watermark and the committed
  // records, and opens to a store with the same content.
  lemma SnapshotHolds(s: Store, records: seq<Embedding>)
    requires Represents(s, records)
    ensures Snapshot(s) == Ok(Disk(Catalog(s.catalog.slots, Manifest(1, s.dimension, s.metric, |records|)),
                                   Seg.FileOf(s.metric, s.dimension, records)))
    ensures var r := Open(Snapshot(s).value, s.metric, s.dimension);
            r.Ok? && Represents(r.value, records) && Content(r.value, records) == Content(s, records)
  {
    hide Seg.FileOf;
    SnapshotCopies(s, records);
    assert s.segment.file + [] == Seg.FileOf(s.metric, s.dimension, records);
    OpenRecovers(Snapshot(s).value, s.metric, s.dimension, records, []);
  }

  lemma SnapshotCopies(s: Store, records: seq<Embedding>)
    requires Represents(s, records)
    ensures Snapshot(s) == Ok(Disk(Catalog(s.catalog.slots, Manifest(1, s.dimension, s.metric, |records|)), s.segment.file))
  {
    Seg.FileLength(s.metric, s.dimension, records);
    assert s.segment.file[..|s.segment.file|] == s.segment.file;
  }

  // --- searching ---

  ghost function Admissible(content: Oracle.Content, admit: VectorId -> bool): Oracle.Content {
    map id | id in content && admit(id) :: content[id]
  }

  lemma {:induction false} AdmittedFacts(ids: seq<VectorId>, admit: VectorId -> bool)
    requires Distinct(ids)
    ensures Distinct(Admitted(ids, admit))
    ensures forall id :: id in Admitted(ids, admit) <==> id in ids && admit(id)
  {
    if ids != [] {
      var n := |ids| - 1;
      AdmittedFacts(ids[..n], admit);
      assert ids == ids[..n] + [ids[n]];
    }
  }

  lemma ListsHolds(points: seq<Flat.Point>, content: Oracle.Content)
    requires Lists(points, content)
    ensures Flat.Holds(points, content)
  {}

  // In whatever order the slot table is iterated, a search answers with the k
  // best admissible ids of the content.
  lemma SearchHolds(s: Store, records: seq<Embedding>, ids: seq<VectorId>, query: Embedding, k: nat, score: Scorer,
                    admit: VectorId -> bool)
    requires Represents(s, records) && Enumerates(ids, s.catalog.slots) && |query| == s.dimension
    ensures var r := Search(s, ids, query, k, score, admit);
            r.Ok? && IsTopK(r.value, Oracle.Scores(Content(s, records), query, score, admit), k)
  {
    var chosen := Admitted(ids, admit);
    var content := Content(s, records);
    var part := Admissible(content, admit);
    AdmittedFacts(ids, admit);
    hide Represents, Gather, Admitted, Distinct, Lists, Flat.Holds, IsTopK, Flat.Scored;
    GatherReads(s, records, chosen);
    var points := Gather(s, chosen).value;
    ListsPointwise(chosen, points, part);
    ListsHolds(points, part);
    Flat.SearchIsTopK(points, part, s.dimension, query, k, score, AdmitAll);
    assert Oracle.Scores(part, query, score, AdmitAll) == Oracle.Scores(content, query, score, admit);
  }

}
