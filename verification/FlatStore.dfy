/** The objects behind a durable flat index, against the functions they compute. */
module FlatStore {
  import opened Core
  import opened Ranking
  import opened Manifest
  import opened PersistentFlat
  import opened PersistentFlatFacts
  import opened CompactionCrash
  import Seg = Segment
  import Flat
  import Oracle

  // The segment file and its map.
  class SegmentFile {
    const dimension: nat
    var file: seq<Byte>
    var mmap: Option<seq<Byte>>
    var mappedRecords: nat

    function State(): Seg.State
      reads this
    {
      Seg.State(dimension, file, mmap, mappedRecords)
    }

    constructor (s: Seg.State)
      ensures State() == s
    {
      dimension, file, mmap, mappedRecords := s.dimension, s.file, s.mmap, s.mapped;
    }

    // torn = Some(n) is a process that dies once n bytes have reached the file.
    method Append(values: seq<F32>, torn: Option<nat>) returns (r: Result<()>)
      modifies this
      ensures torn.None? ==> match Seg.Append(old(State()), values)
                             case Ok(s) => r == Ok(()) && State() == s
                             case Err(error) => r == Err(error) && State() == old(State())
      ensures torn.Some? ==> r.Err? && State() == Seg.TornAppend(old(State()), values, torn.value)
    {
      if dimension == 0 || |values| % dimension != 0 {
        return Err(Corruption);
      }
      var bytes := Bytes.CastToBytes(values);
      if torn.Some? {
        file := file + Take(bytes, torn.value);
        return Err(Backend);
      }
      file := file + bytes;
      r := Ok(());
    }

    method Remap(count: nat) returns (r: Result<()>)
      modifies this
      ensures match Seg.Remap(old(State()), count)
              case Ok(s) => r == Ok(()) && State() == s
              case Err(error) => r == Err(error)
    {
      mmap := None;
      if |file| < Seg.Offset(dimension, count) {
        return Err(Corruption);
      }
      mmap := Some(file);
      mappedRecords := count;
      r := Ok(());
    }

    // File::set_len
    method SetLength(n: nat)
      modifies this
      ensures State() == old(State()).(file := Seg.SetLen(old(file), n))
    {
      file := if n <= |file| then file[..n] else file + Seg.Zeros(n - |file|);
    }

    method TruncateToEmpty()
      modifies this
      ensures State() == Seg.TruncateToEmpty(old(State()))
    {
      mmap := None;
      mappedRecords := 0;
      SetLength(Seg.HEADER_LEN);
    }
  }

  // Segment::open
  method OpenSegment(file: seq<Byte>, metric: Metric, dimension: nat, count: nat) returns (r: Result<SegmentFile>)
    ensures match Seg.Open(file, metric, dimension, count)
            case Ok(s) => r.Ok? && fresh(r.value) && r.value.State() == s
            case Err(error) => r == Err(error)
  {
    hide Seg.ValidateHeader, Seg.Zeros;
    var header := Seg.ValidateHeader(file, metric, dimension);
    if header.Err? {
      return Err(header.error);
    }
    var segment := new SegmentFile(Seg.State(dimension, file, None, 0));
    segment.SetLength(Seg.Offset(dimension, count));
    var mapped := segment.Remap(count);
    r := if mapped.Ok? then Ok(segment) else Err(mapped.error);
  }

  // The redb file behind the catalog.
  class CatalogFile {
    var slots: map<VectorId, nat>
    var manifest: Manifest

    function State(): Catalog
      reads this
    {
      Catalog(slots, manifest)
    }

    constructor (c: Catalog)
      ensures State() == c
    {
      slots, manifest := c.slots, c.manifest;
    }

    // One transaction: consecutive slots for the items, and the watermark.
    method InsertSlots(items: seq<Flat.Point>, first: nat, count: nat)
      modifies this
      ensures State() == Commit(old(State()), AddSlots(old(slots), items, first), count)
    {
      for i := 0 to |items|
        invariant manifest == old(manifest)
        invariant AddSlots(slots, items[i..], first + i) == AddSlots(old(slots), items, first)
      {
        assert items[i..][0] == items[i] && items[i..][1..] == items[i + 1..];
        slots := slots[items[i].id := first + i];
      }
      manifest := manifest.(recordCount := count);
    }

    method ReplaceSlots(items: seq<Flat.Point>, count: nat)
      modifies this
      ensures State() == Commit(old(State()), AddSlots(map[], items, 0), count)
    {
      slots := map[];
      InsertSlots(items, 0, count);
    }

    method RemoveSlot(id: VectorId) returns (existed: bool)
      modifies this
      ensures State() == Catalog(old(slots) - {id}, old(manifest))
      ensures existed == (id in old(slots))
    {
      existed := id in slots;
      slots := slots - {id};
    }

    // Iterates the table in whatever order it yields its keys.
    method LiveSlots() returns (ids: seq<VectorId>)
      ensures Enumerates(ids, slots)
    {
      ids := [];
      var rest := slots.Keys;
      while rest != {}
        invariant rest <= slots.Keys
        invariant Distinct(ids)
        invariant forall id :: id in ids <==> id in slots && id !in rest
      {
        var id :| id in rest;
        ids := ids + [id];
        rest := rest - {id};
      }
    }
  }

  class PersistentFlatIndex {
    const metrics: Metric -> Scorer
    const metric: Metric
    const dimension: nat
    const catalog: CatalogFile
    const segment: SegmentFile
    var recordCount: nat
    var liveCount: nat
    var tail: seq<Flat.Point>

    function State(): Store
      reads this, catalog, segment
    {
      Store(metric, dimension, catalog.State(), segment.State(), recordCount, liveCount, tail)
    }

    constructor (metrics: Metric -> Scorer, s: Store)
      ensures this.metrics == metrics && State() == s && fresh(catalog) && fresh(segment)
    {
      this.metrics, metric, dimension := metrics, s.metric, s.dimension;
      recordCount, liveCount, tail := s.recordCount, s.liveCount, s.tail;
      catalog := new CatalogFile(s.catalog);
      segment := new SegmentFile(s.segment);
    }

    constructor Opened(metrics: Metric -> Scorer, metric: Metric, dimension: nat, catalog: CatalogFile, segment: SegmentFile)
      ensures this.metrics == metrics && this.catalog == catalog && this.segment == segment
      ensures State() == Store(metric, dimension, catalog.State(), segment.State(), catalog.manifest.recordCount,
                               |catalog.slots|, [])
    {
      this.metrics, this.metric, this.dimension := metrics, metric, dimension;
      this.catalog, this.segment := catalog, segment;
      recordCount, liveCount, tail := catalog.manifest.recordCount, |catalog.slots|, [];
    }

    method CheckItems(items: seq<Flat.Point>) returns (r: Result<()>)
      ensures r == Check(catalog.slots.Keys, dimension, items, {})
    {
      var seen: set<VectorId> := {};
      for i := 0 to |items|
        invariant Check(catalog.slots.Keys, dimension, items[i..], seen) == Check(catalog.slots.Keys, dimension, items, {})
      {
        assert items[i..][0] == items[i] && items[i..][1..] == items[i + 1..];
        if |items[i].embedding| != dimension {
          return Err(DimensionMismatch(dimension, |items[i].embedding|));
        }
        if items[i].id in seen || items[i].id in catalog.slots {
          return Err(DuplicateId(items[i].id));
        }
        seen := seen + {items[i].id};
      }
      r := Ok(());
    }

    // insert_batch: all items validated, one append, one commit. torn as in
    // SegmentFile.Append.
    method InsertItems(items: seq<Flat.Point>, torn: Option<nat>) returns (r: Result<()>)
      modifies this, catalog, segment
      ensures torn.None? ==> (State(), r) == InsertBatch(old(State()), items)
      ensures torn.Some? ==> DiskOf(State()) == TornBatch(old(State()), items, torn.value)
    {
      if items == [] {
        return Ok(());
      }
      r := CheckItems(items);
      if r.Err? {
        return;
      }
      var flat: seq<F32> := [];
      ghost var embeddings := Embeddings(items);
      EmbeddingsAt(items);
      for i := 0 to |items|
        invariant flat == Seg.Flatten(embeddings[..i])
      {
        assert embeddings[..i + 1][..i] == embeddings[..i];
        flat := flat + items[i].embedding;
      }
      assert embeddings[..|items|] == embeddings;
      hide Check, Seg.Flatten, Embeddings, Seg.Append, AddSlots;
      r := segment.Append(flat, torn);
      if r.Err? {
        return;
      }
      catalog.InsertSlots(items, recordCount, recordCount + |items|);
      recordCount := recordCount + |items|;
      liveCount := liveCount + |items|;
      tail := tail + items;
    }

    method InsertOne(id: VectorId, e: Embedding) returns (r: Result<()>)
      modifies this, catalog, segment
      ensures (State(), r) == Insert(old(State()), id, e)
    {
      if |e| != dimension {
        return Err(DimensionMismatch(dimension, |e|));
      }
      if id in catalog.slots {
        return Err(DuplicateId(id));
      }
      var slot := recordCount;
      var items := [Flat.Point(id, e)];
      assert items[1..] == [] && AddSlots(catalog.slots, items, slot) == catalog.slots[id := slot];
      hide AddSlots, Seg.Append;
      r := segment.Append(e, None);
      if r.Err? {
        return;
      }
      catalog.InsertSlots(items, slot, slot + 1);
      recordCount := slot + 1;
      liveCount := liveCount + 1;
      tail := tail + items;
    }

    method RemoveOne(id: VectorId) returns (existed: bool)
      modifies this, catalog
      ensures (State(), existed) == Remove(old(State()), id)
    {
      existed := catalog.RemoveSlot(id);
      if existed {
        liveCount := if liveCount == 0 then 0 else liveCount - 1;
      }
    }

    method CheckpointNow() returns (r: Result<()>)
      modifies this, segment
      ensures match Checkpoint(old(State()))
              case Ok(s) => r == Ok(()) && State() == s
              case Err(error) => r == Err(error)
    {
      r := segment.Remap(recordCount);
      if r.Ok? {
        tail := [];
      }
    }

    // The live values for some ids, in that order.
    method GatherValues(ids: seq<VectorId>) returns (r: Result<seq<Flat.Point>>)
      requires forall id :: id in ids ==> id in catalog.slots
      ensures r == Gather(State(), ids)
    {
      var points: seq<Flat.Point> := [];
      for i := 0 to |ids|
        invariant Gather(State(), ids[..i]) == Ok(points)
      {
        assert ids[..i + 1][..i] == ids[..i];
        assert ids[i] in ids;
        var v := ValuesAt(State(), catalog.slots[ids[i]]);
        if v.Err? {
          GatherFails(State(), ids, i + 1, v.error);
          return Err(v.error);
        }
        points := points + [Flat.Point(ids[i], v.value)];
      }
      assert ids[..|ids|] == ids;
      r := Ok(points);
    }

    // The second half of compact_inner: truncate, append, map, commit. torn as
    // in SegmentFile.Append.
    method Rewrite(points: seq<Flat.Point>, torn: Option<nat>) returns (r: Result<()>)
      requires Seg.Append(Seg.TruncateToEmpty(segment.State()), Seg.Flatten(Embeddings(points))).Ok?
      requires Seg.Remap(Seg.Append(Seg.TruncateToEmpty(segment.State()), Seg.Flatten(Embeddings(points))).value, |points|).Ok?
      modifies this, catalog, segment
      ensures torn.None? ==>
                var s := old(State());
                var appended := Seg.Append(Seg.TruncateToEmpty(s.segment), Seg.Flatten(Embeddings(points))).value;
                && r == Ok(())
                && State() == s.(segment := Seg.Remap(appended, |points|).value,
                                 catalog := Commit(s.catalog, AddSlots(map[], points, 0), |points|),
                                 recordCount := |points|, liveCount := |points|, tail := [])
      ensures torn.Some? ==>
                var s := old(State());
                var left := Seg.TornAppend(Seg.TruncateToEmpty(s.segment), Seg.Flatten(Embeddings(points)), torn.value);
                r.Err? && DiskOf(State()) == Disk(s.catalog, left.file)
    {
      hide Seg.Append, Seg.TornAppend, Seg.Remap, Seg.Flatten, Seg.TruncateToEmpty, AddSlots, Embeddings;
      var flat := Seg.Flatten(Embeddings(points));
      segment.TruncateToEmpty();
      r := segment.Append(flat, torn);
      if r.Err? {
        return;
      }
      r := segment.Remap(|points|);
      catalog.ReplaceSlots(points, |points|);
      recordCount := |points|;
      tail := [];
      liveCount := |points|;
    }

    // compact_inner
    method CompactNow(torn: Option<nat>, ghost records: seq<Embedding>) returns (r: Result<()>, ghost ids: seq<VectorId>)
      requires Represents(State(), records)
      modifies this, catalog, segment
      ensures Enumerates(ids, old(catalog.slots))
      ensures torn.None? ==> r == Ok(()) && Compact(old(State()), ids) == Ok(State())
      ensures torn.Some? ==> r.Err? && DiskOf(State()) == TornCompaction(old(State()), ids, torn.value)
    {
      ghost var before := State();
      var live := catalog.LiveSlots();
      ids := live;
      CompactHolds(before, records, live);
      OrderFacts(live, catalog.slots);
      hide Represents, Seg.Append, Seg.TornAppend, Seg.Remap, Seg.Flatten, Gather, Sort, Enumerates, Seg.TruncateToEmpty,
           AddSlots, Distinct, Embeddings;
      var points := GatherValues(Sort(live, SlotKey(catalog.slots)));
      r := Rewrite(points.value, torn);
    }

    method AdmittedIds(ids: seq<VectorId>, admit: VectorId -> bool) returns (chosen: seq<VectorId>)
      ensures chosen == Admitted(ids, admit)
    {
      chosen := [];
      for i := 0 to |ids|
        invariant chosen == Admitted(ids[..i], admit)
      {
        assert ids[..i + 1][..i] == ids[..i];
        if admit(ids[i]) {
          chosen := chosen + [ids[i]];
        }
      }
      assert ids[..|ids|] == ids;
    }

    method SearchStore(query: Embedding, k: nat, metric: Metric, admit: VectorId -> bool, ghost records: seq<Embedding>)
      returns (r: Result<seq<Hit>>)
      requires Represents(State(), records)
      ensures |query| != dimension ==> r == Err(DimensionMismatch(dimension, |query|))
      ensures |query| == dimension ==>
                r.Ok? && IsTopK(r.value, Oracle.Scores(Content(State(), records), query, metrics(metric), admit), k)
    {
      if |query| != dimension {
        return Err(DimensionMismatch(dimension, |query|));
      }
      var ids := catalog.LiveSlots();
      AdmittedFacts(ids, admit);
      hide Represents, Gather, Distinct, IsTopK, Admitted, Sort;
      SearchHolds(State(), records, ids, query, k, metrics(metric), admit);
      var chosen := AdmittedIds(ids, admit);
      var points := GatherValues(chosen);
      r := Ok(Take(Sort(ScoreAll(points.value, query, metrics(metric)), HitKey), k));
    }
  }

  lemma {:induction false} GatherFails(s: Store, ids: seq<VectorId>, n: nat, error: IndexError)
    requires n <= |ids| && Gather(s, ids[..n]) == Err(error)
    requires forall id :: id in ids ==> id in s.catalog.slots
    ensures Gather(s, ids) == Err(error)
  {
    if n < |ids| {
      assert ids[|ids| - 1] in ids;
      assert ids[..|ids| - 1][..n] == ids[..n];
      GatherFails(s, ids[..|ids| - 1], n, error);
    } else {
      assert ids[..n] == ids;
    }
  }

  // PersistentFlatIndex::open on an existing directory: whatever records the
  // catalog commits to, a file that starts with them opens to an index that
  // represents them.
  method Reopen(metrics: Metric -> Scorer, disk: Disk, metric: Metric, dimension: nat) returns (r: Result<PersistentFlatIndex>)
    ensures match Open(disk, metric, dimension)
            case Ok(s) => r.Ok? && fresh(r.value) && r.value.State() == s
            case Err(error) => r == Err(error)
    ensures forall records ::
              GoodCatalog(disk.catalog, metric, dimension, records) && Seg.FileOf(metric, dimension, records) <= disk.file ==>
                r.Ok? && Represents(r.value.State(), records) && r.value.State().catalog == disk.catalog
  {
    hide Seg.Open, Seg.FileOf, GoodCatalog, Represents;
    forall records |
      GoodCatalog(disk.catalog, metric, dimension, records) && Seg.FileOf(metric, dimension, records) <= disk.file
      ensures Open(disk, metric, dimension).Ok?
      ensures Represents(Open(disk, metric, dimension).value, records)
      ensures Open(disk, metric, dimension).value.catalog == disk.catalog
    {
      var file := Seg.FileOf(metric, dimension, records);
      assert disk.file == file + disk.file[|file|..];
      OpenRecovers(disk, metric, dimension, records, disk.file[|file|..]);
    }
    var manifest := disk.catalog.manifest;
    if manifest.formatVersion != FORMAT_VERSION {
      return Err(FormatMismatch);
    }
    if dimension >= 0x1_0000_0000 || manifest.dimension != dimension || manifest.metric != metric {
      return Err(FormatMismatch);
    }
    var segment := OpenSegment(disk.file, metric, dimension, manifest.recordCount);
    if segment.Err? {
      return Err(segment.error);
    }
    var catalog := new CatalogFile(disk.catalog);
    var index := new PersistentFlatIndex.Opened(metrics, metric, dimension, catalog, segment.value);
    r := Ok(index);
  }
}
