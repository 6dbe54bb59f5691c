/** Compaction truncates the file and appends to it before it commits the new
    slots. */
module CompactionCrash {
  import opened Core
  import opened Bytes
  import opened Ranking
  import opened Manifest
  import opened PersistentFlat
  import opened PersistentFlatFacts
  import Seg = Segment
  import Flat

  const ZERO := F32(0, 0, 0, 0)

  function ZeroVector(dimension: nat): Embedding { seq(dimension, _ => ZERO) }

  // What is on disk when the process dies inside compact_inner before the new
  // slots are committed: n bytes of the append have reached the truncated
  // file, none right after the truncation, all of them when n is large.
  function TornCompaction(s: Store, ids: seq<VectorId>, n: nat): Disk {
    match Gather(s, Sort(ids, SlotKey(s.catalog.slots)))
    case Err(_) => DiskOf(s)
    case Ok(live) => Disk(s.catalog, Seg.TornAppend(Seg.TruncateToEmpty(s.segment), Seg.Flatten(Embeddings(live)), n).file)
  }

  // Where record i starts after the header, for records of some size.
  function Start(size: nat, i: nat): nat { i * size }

  // How many of the first n bytes fall to record i, and past it.
  function Reached(size: nat, n: nat, i: nat): nat {
    if n > Start(size, i) then n - Start(size, i) else 0
  }

  function Padded(bytes: seq<Byte>, n: nat): seq<Byte> {
    if |bytes| < n then bytes + Seg.Zeros(n - |bytes|) else bytes
  }

  // The bytes of record i: those of the i-th kept vector as far as they were
  // written, then zeros.
  function TornBytes(kept: seq<Embedding>, size: nat, n: nat, i: nat): seq<Byte> {
    Padded(Take(if i < |kept| then CastToBytes(kept[i]) else [], Reached(size, n, i)), size)
  }

  function TornRecord(kept: seq<Embedding>, dimension: nat, n: nat, i: nat): Embedding {
    CastToFloats(TornBytes(kept, dimension * 4, n, i))
  }

  function TornRecords(kept: seq<Embedding>, dimension: nat, n: nat, count: nat): seq<Embedding> {
    seq(count, i requires 0 <= i < count => TornRecord(kept, dimension, n, i))
  }

  // --- bytes ---

  lemma AllZero(a: seq<Byte>, b: seq<Byte>)
    requires |a| == |b| && (forall x :: x in a ==> x == 0) && (forall x :: x in b ==> x == 0)
    ensures a == b
  {
    assert forall i :: 0 <= i < |a| ==> a[i] in a && b[i] in b;
  }

  lemma ZerosAdd(a: nat, b: nat)
    ensures Seg.Zeros(a) + Seg.Zeros(b) == Seg.Zeros(a + b)
  {
    AllZero(Seg.Zeros(a) + Seg.Zeros(b), Seg.Zeros(a + b));
  }

  lemma {:induction false} CastBack(bytes: seq<Byte>)
    requires |bytes| % 4 == 0
    ensures CastToBytes(CastToFloats(bytes)) == bytes && 4 * |CastToFloats(bytes)| == |bytes|
  {
    if bytes != [] {
      var n := |bytes| - 4;
      CastBack(bytes[..n]);
      var floats := CastToFloats(bytes);
      assert floats[..|floats| - 1] == CastToFloats(bytes[..n]);
      assert bytes == bytes[..n] + [bytes[n], bytes[n + 1], bytes[n + 2], bytes[n + 3]];
    }
  }

  lemma {:induction false} CastZeros(values: seq<F32>)
    requires forall v :: v in values ==> v == ZERO
    ensures forall b :: b in CastToBytes(values) ==> b == 0
  {
    if values != [] {
      var n := |values| - 1;
      assert values[n] in values;
      forall v | v in values[..n]
        ensures v == ZERO
      {
        assert v in values;
      }
      CastZeros(values[..n]);
    }
  }

  lemma ZeroBytes(dimension: nat)
    ensures CastToBytes(ZeroVector(dimension)) == Seg.Zeros(dimension * 4)
    ensures CastToFloats(Seg.Zeros(dimension * 4)) == ZeroVector(dimension)
  {
    CastLength(ZeroVector(dimension));
    CastZeros(ZeroVector(dimension));
    AllZero(CastToBytes(ZeroVector(dimension)), Seg.Zeros(dimension * 4));
    CastRoundTrip(ZeroVector(dimension));
  }

  lemma TornLength(kept: seq<Embedding>, dimension: nat, n: nat, i: nat)
    requires Seg.AllSized(kept, dimension)
    ensures |TornBytes(kept, dimension * 4, n, i)| == dimension * 4
    ensures |TornRecord(kept, dimension, n, i)| == dimension
    ensures CastToBytes(TornRecord(kept, dimension, n, i)) == TornBytes(kept, dimension * 4, n, i)
  {
    hide CastToBytes, CastToFloats, Reached;
    if i < |kept| {
      assert kept[i] in kept;
      CastLength(kept[i]);
    }
    CastBack(TornBytes(kept, dimension * 4, n, i));
  }

  lemma StartNext(size: nat, i: nat)
    ensures Start(size, i + 1) == Start(size, i) + size
  {}

  lemma StartMonotone(size: nat, i: nat, j: nat)
    requires i <= j
    ensures Start(size, i) <= Start(size, j)
  {
    assert (j - i) * size >= 0;
  }

  // A record all of whose bytes were written is the kept vector; one none of
  // whose bytes were written is zero.
  lemma TornRecordReads(kept: seq<Embedding>, dimension: nat, n: nat, i: nat)
    requires Seg.AllSized(kept, dimension)
    ensures i < |kept| && Start(dimension * 4, i + 1) <= n ==> TornRecord(kept, dimension, n, i) == kept[i]
    ensures i >= |kept| || n <= Start(dimension * 4, i) ==> TornRecord(kept, dimension, n, i) == ZeroVector(dimension)
  {
    ZeroBytes(dimension);
    StartNext(dimension * 4, i);
    hide CastToBytes, CastToFloats, Seg.Zeros, ZeroVector, Start, Padded;
    PaddedNone(dimension * 4);
    if i < |kept| {
      assert kept[i] in kept;
      CastLength(kept[i]);
      CastRoundTrip(kept[i]);
      PaddedWhole(CastToBytes(kept[i]), Reached(dimension * 4, n, i));
    }
  }

  lemma PaddedWhole(w: seq<Byte>, reached: nat)
    ensures reached >= |w| ==> Padded(Take(w, reached), |w|) == w
    ensures Take(w, 0) == []
  {
    if reached >= |w| {
      assert Take(w, reached) == w;
    }
  }

  lemma PaddedNone(n: nat)
    ensures Padded([], n) == Seg.Zeros(n)
  {
    assert [] + Seg.Zeros(n) == Seg.Zeros(n);
  }

  // The bytes of the first k kept vectors.
  function Written(kept: seq<Embedding>, k: nat): seq<Byte> {
    CastToBytes(Seg.Flatten(kept[..Min(k, |kept|)]))
  }

  // The records up to k, as bytes: the written bytes of the kept vectors up to
  // k, filled up with zeros.
  lemma {:induction false} TornPrefix(kept: seq<Embedding>, dimension: nat, n: nat, k: nat)
    requires Seg.AllSized(kept, dimension)
    ensures CastToBytes(Seg.Flatten(TornRecords(kept, dimension, n, k)))
         == Padded(Take(Written(kept, k), n), Start(dimension * 4, k))
  {
    hide Start, TornRecord, TornBytes, Padded, Written;
    if k == 0 {
      NothingTorn(kept, dimension, n);
    } else {
      var records, before := TornRecords(kept, dimension, n, k), TornRecords(kept, dimension, n, k - 1);
      TornPrefix(kept, dimension, n, k - 1);
      assert records[..k - 1] == before && records[k - 1] == TornRecord(kept, dimension, n, k - 1);
      CastAppend(Seg.Flatten(before), records[k - 1]);
      TornLength(kept, dimension, n, k - 1);
      PrefixStep(kept, dimension, n, k - 1);
    }
  }

  lemma NothingTorn(kept: seq<Embedding>, dimension: nat, n: nat)
    ensures CastToBytes(Seg.Flatten(TornRecords(kept, dimension, n, 0))) == []
    ensures Padded(Take(Written(kept, 0), n), Start(dimension * 4, 0)) == []
  {
    assert TornRecords(kept, dimension, n, 0) == [] && kept[..0] == [];
    assert Written(kept, 0) == [];
  }

  lemma PrefixStep(kept: seq<Embedding>, dimension: nat, n: nat, k: nat)
    requires Seg.AllSized(kept, dimension)
    ensures Padded(Take(Written(kept, k), n), Start(dimension * 4, k)) + TornBytes(kept, dimension * 4, n, k)
         == Padded(Take(Written(kept, k + 1), n), Start(dimension * 4, k + 1))
  {
    hide CastToBytes, Written, Start, Padded, Seg.AllSized;
    var size := dimension * 4;
    StartNext(size, k);
    WrittenLength(kept, dimension, k);
    WrittenNext(kept, dimension, k);
    if k < |kept| {
      StepBytes(Written(kept, k), CastToBytes(kept[k]), Start(size, k), size, n);
    } else {
      PaddedNone(size);
      PadMore(Take(Written(kept, k), n), Start(size, k), size);
    }
  }

  lemma WholeLength(records: seq<Embedding>, dimension: nat)
    requires Seg.AllSized(records, dimension)
    ensures |CastToBytes(Seg.Flatten(records))| == Start(dimension * 4, |records|)
  {
    Seg.FlattenLength(records, dimension);
    CastLength(Seg.Flatten(records));
    hide CastToBytes, Seg.Flatten;
    FourTimes(|records|, dimension);
  }

  lemma FourTimes(a: nat, b: nat)
    ensures 4 * (a * b) == Start(b * 4, a)
  {
    assert a * (b * 4) == (a * b) * 4;
  }

  lemma WrittenLength(kept: seq<Embedding>, dimension: nat, k: nat)
    requires Seg.AllSized(kept, dimension)
    ensures |Written(kept, k)| <= Start(dimension * 4, k)
    ensures k <= |kept| ==> |Written(kept, k)| == Start(dimension * 4, k)
  {
    var m := Min(k, |kept|);
    assert Seg.AllSized(kept[..m], dimension);
    WholeLength(kept[..m], dimension);
    StartMonotone(dimension * 4, m, k);
  }

  lemma WrittenNext(kept: seq<Embedding>, dimension: nat, k: nat)
    requires Seg.AllSized(kept, dimension)
    ensures k < |kept| ==>
              |CastToBytes(kept[k])| == dimension * 4 && Written(kept, k + 1) == Written(kept, k) + CastToBytes(kept[k])
    ensures k >= |kept| ==> Written(kept, k + 1) == Written(kept, k)
  {
    if k < |kept| {
      assert kept[k] in kept && kept[..k + 1][..k] == kept[..k];
      CastLength(kept[k]);
      CastAppend(Seg.Flatten(kept[..k]), kept[k]);
    }
  }

  lemma StepBytes(whole: seq<Byte>, w: seq<Byte>, start: nat, size: nat, n: nat)
    requires |whole| == start && |w| == size
    ensures var written := Take(w, if n > start then n - start else 0);
            Padded(Take(whole, n), start) + Padded(written, size) == Padded(Take(whole + w, n), start + size)
  {
    hide Seg.Zeros;
    if n <= start {
      assert Take(whole + w, n) == Take(whole, n);
      PaddedNone(size);
      PadMore(Take(whole, n), start, size);
    } else {
      assert Take(whole, n) == whole && Take(whole + w, n) == whole + Take(w, n - start);
    }
  }

  lemma PadMore(b: seq<Byte>, n: nat, more: nat)
    requires |b| <= n
    ensures Padded(b, n) + Seg.Zeros(more) == Padded(b, n + more)
  {
    ZerosAdd(n - |b|, more);
    assert Seg.Zeros(0) == [];
    hide Seg.Zeros;
  }

  // --- opening ---

  // Opening a file shorter than its watermark fills it up with zeros.
  lemma OpenPads(metric: Metric, dimension: nat, written: seq<Byte>, count: nat)
    requires 0 < dimension < 0x1_0000_0000 && |written| <= Start(dimension * 4, count)
    ensures var file := Seg.Header(metric, dimension) + Padded(written, Start(dimension * 4, count));
            Seg.Open(Seg.Header(metric, dimension) + written, metric, dimension, count)
            == Ok(Seg.State(dimension, file, Some(file), count))
  {
    hide Seg.Header, Seg.ValidateHeader, Seg.Zeros, Seg.SetLen, Padded, Start;
    var header := Seg.Header(metric, dimension);
    Seg.HeaderLength(metric, dimension);
    Seg.HeaderValid(metric, dimension, written);
    LenPads(header, written, Start(dimension * 4, count));
    OffsetIsStart(dimension, count);
  }

  lemma OffsetIsStart(dimension: nat, count: nat)
    ensures Seg.Offset(dimension, count) == 32 + Start(dimension * 4, count)
  {}

  lemma LenPads(header: seq<Byte>, written: seq<Byte>, size: nat)
    requires |header| == 32 && |written| <= size
    ensures Seg.SetLen(header + written, 32 + size) == header + Padded(written, size)
    ensures |Seg.SetLen(header + written, 32 + size)| == 32 + size
  {
    hide Seg.Zeros;
    var short := header + written;
    if |written| == size {
      assert short[..|short|] == short;
    } else {
      assert short + Seg.Zeros(size - |written|) == header + (written + Seg.Zeros(size - |written|));
    }
  }

  lemma {:induction false} SlotsFit(slots: map<VectorId, nat>, n: nat)
    requires GoodSlots(slots, n)
    ensures |slots| <= n
  {
    if n > 0 {
      if id :| id in slots && slots[id] == n - 1 {
        DropCount(slots, id);
        SlotsFit(slots - {id}, n - 1);
      } else {
        SlotsFit(slots, n - 1);
      }
    } else {
      assert slots.Keys == {};
    }
  }

  // The vectors compaction writes.
  ghost function Kept(s: Store, ids: seq<VectorId>): seq<Embedding> {
    match Gather(s, Sort(ids, SlotKey(s.catalog.slots)))
    case Err(_) => []
    case Ok(live) => Embeddings(live)
  }

  lemma KeptFacts(s: Store, records: seq<Embedding>, ids: seq<VectorId>)
    requires Represents(s, records) && Enumerates(ids, s.catalog.slots)
    ensures Seg.AllSized(Kept(s, ids), s.dimension) && |Kept(s, ids)| <= |records|
    ensures Gather(s, Sort(ids, SlotKey(s.catalog.slots))).Ok?
  {
    hide Gather, Sort, Lists, Enumerates, Seg.FileOf;
    LiveFacts(s, records, ids);
    var live := LiveInOrder(s, records, ids);
    LiveSized(s, records, live);
    EmbeddingsAt(live);
    EnumerationCount(ids, s.catalog.slots);
    SlotsFit(s.catalog.slots, |records|);
  }

  lemma TornCompactionFile(s: Store, records: seq<Embedding>, ids: seq<VectorId>, n: nat)
    requires Represents(s, records) && Enumerates(ids, s.catalog.slots)
    ensures var disk := TornCompaction(s, ids, n);
            && disk.catalog == s.catalog
            && disk.file == Seg.Header(s.metric, s.dimension) + Take(CastToBytes(Seg.Flatten(Kept(s, ids))), n)
  {
    hide Gather, Sort, Seg.Header, Seg.TruncateToEmpty, CastToBytes, Seg.Flatten, Seg.AllSized, Embeddings, Enumerates;
    KeptFacts(s, records, ids);
    EmptiedFile(s.segment, s.metric, s.dimension, records);
    NoRecords(s.metric, s.dimension);
    AppendAccepted(Seg.TruncateToEmpty(s.segment), Kept(s, ids));
  }

  lemma NoRecords(metric: Metric, dimension: nat)
    ensures Seg.FileOf(metric, dimension, []) == Seg.Header(metric, dimension)
  {
    assert CastToBytes([]) == [];
    assert Seg.Header(metric, dimension) + [] == Seg.Header(metric, dimension);
  }

  // Wherever the crash falls, the store reopens, with the old slots over the
  // torn records.
  lemma TornCompactionOpens(s: Store, records: seq<Embedding>, ids: seq<VectorId>, n: nat)
    requires Represents(s, records) && Enumerates(ids, s.catalog.slots)
    ensures var r := Open(TornCompaction(s, ids, n), s.metric, s.dimension);
            && r.Ok? && r.value.catalog == s.catalog && r.value.metric == s.metric && r.value.dimension == s.dimension
            && Represents(r.value, TornRecords(Kept(s, ids), s.dimension, n, |records|))
  {
    hide Seg.Header, Seg.Open, CastToBytes, Seg.Flatten, TornCompaction, Kept, TornRecord, Enumerates;
    var kept, torn := Kept(s, ids), TornRecords(Kept(s, ids), s.dimension, n, |records|);
    KeptFacts(s, records, ids);
    TornCompactionFile(s, records, ids, n);
    TornPrefix(kept, s.dimension, n, |records|);
    assert Written(kept, |records|) == CastToBytes(Seg.Flatten(kept)) by { assert kept[..|kept|] == kept; }
    WrittenLength(kept, s.dimension, |records|);
    OpenPads(s.metric, s.dimension, Take(CastToBytes(Seg.Flatten(kept)), n), |records|);
    forall r | r in torn
      ensures |r| == s.dimension
    {
      var i :| 0 <= i < |torn| && torn[i] == r;
      TornLength(kept, s.dimension, n, i);
    }
    assert torn[..|torn|] == torn;
  }

  // --- what survives ---

  // Every live id's record still reads as it did. This can be computed before
  // compacting.
  ghost predicate Intact(s: Store, ids: seq<VectorId>, n: nat) {
    forall id :: id in s.catalog.slots ==>
      ValuesAt(s, s.catalog.slots[id]) == Ok(TornRecord(Kept(s, ids), s.dimension, n, s.catalog.slots[id]))
  }

  // The reopened store holds the content it held.
  ghost predicate Survives(s: Store, records: seq<Embedding>, ids: seq<VectorId>, n: nat)
    requires Represents(s, records)
  {
    var r := Open(TornCompaction(s, ids, n), s.metric, s.dimension);
    r.Ok? && exists after :: Represents(r.value, after) && Content(r.value, after) == Content(s, records)
  }

  lemma RecordsUnique(t: Store, a: seq<Embedding>, b: seq<Embedding>)
    requires Represents(t, a) && Represents(t, b)
    ensures a == b
  {
    forall i | 0 <= i < |a|
      ensures a[i] == b[i]
    {
      ValuesRead(t, a, i);
      ValuesRead(t, b, i);
    }
  }

  lemma TornSlots(s: Store, records: seq<Embedding>, ids: seq<VectorId>, n: nat)
    requires Represents(s, records)
    ensures var torn := TornRecords(Kept(s, ids), s.dimension, n, |records|);
            && GoodSlots(s.catalog.slots, |records|) && |torn| == |records|
            && forall id :: id in s.catalog.slots ==>
                 torn[s.catalog.slots[id]] == TornRecord(Kept(s, ids), s.dimension, n, s.catalog.slots[id])
  {
    hide TornRecord, Kept, Seg.FileOf;
  }

  lemma SameContent(slots: map<VectorId, nat>, a: seq<Embedding>, b: seq<Embedding>)
    requires GoodSlots(slots, |a|) && |a| == |b|
    ensures ContentOf(slots, a) == ContentOf(slots, b) <==> forall id :: id in slots ==> a[slots[id]] == b[slots[id]]
  {
    var was, now := ContentOf(slots, a), ContentOf(slots, b);
    if was == now {
      forall id | id in slots
        ensures a[slots[id]] == b[slots[id]]
      {
        assert was[id] == now[id];
      }
    }
  }

  lemma IntactRecords(s: Store, records: seq<Embedding>, ids: seq<VectorId>, n: nat)
    requires Represents(s, records)
    ensures var torn := TornRecords(Kept(s, ids), s.dimension, n, |records|);
            && GoodSlots(s.catalog.slots, |torn|)
            && (Intact(s, ids, n) <==> ContentOf(s.catalog.slots, torn) == Content(s, records))
  {
    var torn := TornRecords(Kept(s, ids), s.dimension, n, |records|);
    TornSlots(s, records, ids, n);
    LiveReads(s, records);
    hide Represents, ValuesAt, TornRecord, Kept, TornRecords, GoodSlots;
    SameContent(s.catalog.slots, records, torn);
    assert forall id :: id in s.catalog.slots ==> Content(s, records)[id] == records[s.catalog.slots[id]];
  }

  // A compaction cut short after n bytes keeps the content exactly when it is
  // intact.
  lemma CrashedCompaction(s: Store, records: seq<Embedding>, ids: seq<VectorId>, n: nat)
    requires Represents(s, records) && Enumerates(ids, s.catalog.slots)
    ensures Survives(s, records, ids, n) <==> Intact(s, ids, n)
  {
    hide Represents, Open, TornCompaction, Intact, Kept, TornRecords, Enumerates, ContentOf;
    var torn := TornRecords(Kept(s, ids), s.dimension, n, |records|);
    TornCompactionOpens(s, records, ids, n);
    IntactRecords(s, records, ids, n);
    var t := Open(TornCompaction(s, ids, n), s.metric, s.dimension).value;
    if Survives(s, records, ids, n) {
      var after :| Represents(t, after) && Content(t, after) == Content(s, records);
      RecordsUnique(t, after, torn);
    }
  }

  // No crash inside a compaction can lose anything exactly when every live
  // vector is zero.
  lemma CompactionCrashSafe(s: Store, records: seq<Embedding>, ids: seq<VectorId>)
    requires Represents(s, records) && Enumerates(ids, s.catalog.slots)
    ensures (forall n: nat :: Survives(s, records, ids, n))
            <==> forall id :: id in Content(s, records) ==> Content(s, records)[id] == ZeroVector(s.dimension)
  {
    hide Survives, Enumerates, Represents, Intact, ContentOf, ZeroVector;
    forall n: nat
      ensures Survives(s, records, ids, n) <==> Intact(s, ids, n)
    {
      CrashedCompaction(s, records, ids, n);
    }
    if forall n: nat :: Survives(s, records, ids, n) {
      assert Survives(s, records, ids, 0);
      IntactAtTruncation(s, records, ids);
    }
    if forall id :: id in Content(s, records) ==> Content(s, records)[id] == ZeroVector(s.dimension) {
      forall n: nat
        ensures Intact(s, ids, n)
      {
        ZeroIntact(s, records, ids, n);
      }
    }
  }

  lemma IntactAtTruncation(s: Store, records: seq<Embedding>, ids: seq<VectorId>)
    requires Represents(s, records) && Enumerates(ids, s.catalog.slots) && Intact(s, ids, 0)
    ensures forall id :: id in Content(s, records) ==> Content(s, records)[id] == ZeroVector(s.dimension)
  {
    KeptFacts(s, records, ids);
    LiveReads(s, records);
    hide Represents, ValuesAt, TornRecord, Kept, ZeroVector, Enumerates, ContentOf;
    forall id | id in Content(s, records)
      ensures Content(s, records)[id] == ZeroVector(s.dimension)
    {
      TornRecordReads(Kept(s, ids), s.dimension, 0, s.catalog.slots[id]);
    }
  }

  lemma LiveReads(s: Store, records: seq<Embedding>)
    requires Represents(s, records)
    ensures Content(s, records).Keys == s.catalog.slots.Keys
    ensures forall id :: id in s.catalog.slots ==> ValuesAt(s, s.catalog.slots[id]) == Ok(Content(s, records)[id])
  {
    forall id | id in s.catalog.slots
      ensures ValuesAt(s, s.catalog.slots[id]) == Ok(Content(s, records)[id])
    {
      ValuesRead(s, records, s.catalog.slots[id]);
    }
  }

  lemma ZeroIntact(s: Store, records: seq<Embedding>, ids: seq<VectorId>, n: nat)
    requires Represents(s, records) && Enumerates(ids, s.catalog.slots)
    requires forall id :: id in Content(s, records) ==> Content(s, records)[id] == ZeroVector(s.dimension)
    ensures Intact(s, ids, n)
  {
    hide Seg.FileOf, Gather, Sort, Lists, Enumerates, TornRecord, ZeroVector, LiveInOrder;
    LiveReads(s, records);
    LiveFacts(s, records, ids);
    var live := LiveInOrder(s, records, ids);
    ListedZero(live, Content(s, records), s.dimension);
    KeptFacts(s, records, ids);
    hide Represents, ValuesAt;
    assert Kept(s, ids) == Embeddings(live);
    forall i: nat
      ensures TornRecord(Kept(s, ids), s.dimension, n, i) == ZeroVector(s.dimension)
    {
      ZeroTorn(Kept(s, ids), s.dimension, n, i);
    }
  }

  lemma ListedZero(live: seq<Flat.Point>, content: map<VectorId, Embedding>, dimension: nat)
    requires Lists(live, content) && forall id :: id in content ==> content[id] == ZeroVector(dimension)
    ensures forall e :: e in Embeddings(live) ==> e == ZeroVector(dimension)
  {
    EmbeddingsAt(live);
    forall e | e in Embeddings(live)
      ensures e == ZeroVector(dimension)
    {
      var i :| 0 <= i < |live| && Embeddings(live)[i] == e;
      assert live[i] in live;
    }
  }

  // Any part of a zero vector, filled up with zeros, is the zero vector.
  lemma ZeroTorn(kept: seq<Embedding>, dimension: nat, n: nat, i: nat)
    requires forall e :: e in kept ==> e == ZeroVector(dimension)
    ensures TornRecord(kept, dimension, n, i) == ZeroVector(dimension)
  {
    ZeroBytes(dimension);
    hide CastToBytes, CastToFloats, Seg.Zeros, ZeroVector, Reached, Padded;
    if i < |kept| {
      assert kept[i] in kept;
      PaddedZeros(dimension * 4, Reached(dimension * 4, n, i));
    } else {
      PaddedNone(dimension * 4);
    }
  }

  lemma PaddedZeros(n: nat, reached: nat)
    ensures Padded(Take(Seg.Zeros(n), reached), n) == Seg.Zeros(n)
  {
    assert forall b :: b in Take(Seg.Zeros(n), reached) ==> b in Seg.Zeros(n);
    AllZero(Padded(Take(Seg.Zeros(n), reached), n), Seg.Zeros(n));
  }

  // With the append complete, each id reads whatever vector was moved to its
  // old slot, or zeros past the last one.
  lemma AppendedIntact(s: Store, records: seq<Embedding>, ids: seq<VectorId>, n: nat)
    requires Represents(s, records) && Enumerates(ids, s.catalog.slots)
    requires n >= Start(s.dimension * 4, |Kept(s, ids)|)
    ensures var kept, slots := Kept(s, ids), s.catalog.slots;
            Intact(s, ids, n) <==>
            forall id :: id in slots ==>
              Content(s, records)[id] == if slots[id] < |kept| then kept[slots[id]] else ZeroVector(s.dimension)
  {
    hide Represents, ValuesAt, TornRecord, Kept, ZeroVector, Enumerates, ContentOf, Start;
    var kept, slots, d := Kept(s, ids), s.catalog.slots, s.dimension;
    KeptFacts(s, records, ids);
    LiveReads(s, records);
    forall i: nat
      ensures TornRecord(kept, d, n, i) == if i < |kept| then kept[i] else ZeroVector(d)
    {
      AppendedRecord(kept, d, n, i);
    }
    IntactReads(s, records, ids, n);
  }

  lemma IntactReads(s: Store, records: seq<Embedding>, ids: seq<VectorId>, n: nat)
    requires Represents(s, records)
    ensures Intact(s, ids, n) <==>
            forall id :: id in s.catalog.slots ==>
              Content(s, records)[id] == TornRecord(Kept(s, ids), s.dimension, n, s.catalog.slots[id])
  {
    hide Represents, ValuesAt, TornRecord, Kept, ContentOf;
    LiveReads(s, records);
  }

  lemma AppendedRecord(kept: seq<Embedding>, dimension: nat, n: nat, i: nat)
    requires Seg.AllSized(kept, dimension) && n >= Start(dimension * 4, |kept|)
    ensures TornRecord(kept, dimension, n, i) == if i < |kept| then kept[i] else ZeroVector(dimension)
  {
    hide TornRecord, ZeroVector, Start;
    TornRecordReads(kept, dimension, n, i);
    if i < |kept| {
      StartMonotone(dimension * 4, i + 1, |kept|);
    }
  }
}
