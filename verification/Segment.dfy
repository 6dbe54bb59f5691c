/** Little-endian numbers and the byte image of f32 slices. */
module Bytes {
  import opened Core

  // n.to_le_bytes() for a width-byte integer.
  function LittleEndian(n: nat, width: nat): seq<Byte> {
    if width == 0 then [] else [(n % 256) as Byte] + LittleEndian(n / 256, width - 1)
  }

  function FromLittleEndian(bytes: seq<Byte>): nat {
    if bytes == [] then 0 else bytes[0] as nat + 256 * FromLittleEndian(bytes[1..])
  }

  ghost function Bound(width: nat): nat { if width == 0 then 1 else 256 * Bound(width - 1) }

  lemma {:induction false} LittleEndianLength(n: nat, width: nat)
    ensures |LittleEndian(n, width)| == width
  {
    if width > 0 { LittleEndianLength(n / 256, width - 1); }
  }

  lemma {:induction false} LittleEndianRoundTrip(n: nat, width: nat)
    requires n < Bound(width)
    ensures FromLittleEndian(LittleEndian(n, width)) == n
  {
    if width > 0 { LittleEndianRoundTrip(n / 256, width - 1); }
  }

  // Each byte weighs 256 times the one before it.
  lemma {:induction false} LaterWeighsMore(bytes: seq<Byte>, b: Byte)
    ensures FromLittleEndian(bytes + [b]) == FromLittleEndian(bytes) + b as nat * Bound(|bytes|)
  {
    if bytes == [] {
      assert [b][1..] == [];
    } else {
      LaterWeighsMore(bytes[1..], b);
      assert (bytes + [b])[1..] == bytes[1..] + [b];
      assert 256 * (b as nat * Bound(|bytes| - 1)) == b as nat * Bound(|bytes|);
    }
  }

  // No two byte sequences of a width spell the same number.
  lemma {:induction false} LittleEndianBack(bytes: seq<Byte>)
    ensures LittleEndian(FromLittleEndian(bytes), |bytes|) == bytes
  {
    if bytes != [] {
      LittleEndianBack(bytes[1..]);
      var n := FromLittleEndian(bytes);
      assert n % 256 == bytes[0] as nat && n / 256 == FromLittleEndian(bytes[1..]);
      assert bytes == [bytes[0]] + bytes[1..];
    }
  }

  lemma {:induction false} LittleEndianBound(bytes: seq<Byte>)
    ensures FromLittleEndian(bytes) < Bound(|bytes|)
  {
    if bytes != [] {
      LittleEndianBound(bytes[1..]);
    }
  }

  lemma Bounds()
    ensures Bound(4) == 0x1_0000_0000 && Bound(8) == 0x1_0000_0000_0000_0000
  {
    assert Bound(4) == 256 * 256 * 256 * 256;
  }

  // bytemuck::cast_slice: an f32 slice and the bytes it occupies.
  function CastToBytes(values: seq<F32>): seq<Byte> {
    if values == [] then []
    else
      var v := values[|values| - 1];
      CastToBytes(values[..|values| - 1]) + [v.b0, v.b1, v.b2, v.b3]
  }

  function CastToFloats(bytes: seq<Byte>): seq<F32> {
    if |bytes| < 4 then []
    else
      var n := |bytes| - 4;
      CastToFloats(bytes[..n]) + [F32(bytes[n], bytes[n + 1], bytes[n + 2], bytes[n + 3])]
  }

  lemma {:induction false} CastLength(values: seq<F32>)
    ensures |CastToBytes(values)| == 4 * |values|
  {
    if values != [] { CastLength(values[..|values| - 1]); }
  }

  // The bytes of a float stand where its index says.
  lemma {:induction false} CastAt(values: seq<F32>, i: nat)
    requires i < |values|
    ensures |CastToBytes(values)| == 4 * |values|
    ensures CastToBytes(values)[4 * i..4 * i + 4] == [values[i].b0, values[i].b1, values[i].b2, values[i].b3]
  {
    var n := |values| - 1;
    CastLength(values);
    CastLength(values[..n]);
    var init := CastToBytes(values[..n]);
    if i < n {
      CastAt(values[..n], i);
      assert CastToBytes(values)[4 * i..4 * i + 4] == init[4 * i..4 * i + 4];
    }
  }

  lemma {:induction false} CastRoundTrip(values: seq<F32>)
    ensures CastToFloats(CastToBytes(values)) == values
  {
    if values != [] {
      var n := |values| - 1;
      CastRoundTrip(values[..n]);
      CastLength(values[..n]);
      assert CastToBytes(values)[..4 * n] == CastToBytes(values[..n]);
      assert values == values[..n] + [values[n]];
    }
  }

  lemma {:induction false} CastAppend(a: seq<F32>, b: seq<F32>)
    ensures CastToBytes(a + b) == CastToBytes(a) + CastToBytes(b)
  {
    if b == [] {
      assert a + b == a;
    } else {
      var n := |b| - 1;
      CastAppend(a, b[..n]);
      assert (a + b)[..|a + b| - 1] == a + b[..n];
    }
  }
}

/** The manifest row: fixed parameters and the watermark. */
module Manifest {
  import opened Core
  import opened Bytes

  const MANIFEST_LEN: nat := 17
  const FORMAT_VERSION: nat := 1

  datatype Manifest = Manifest(formatVersion: nat, dimension: nat, metric: Metric, recordCount: nat)

  function MetricToByte(metric: Metric): Byte {
    match metric case Cosine => 0 case DotProduct => 1 case Euclidean => 2
  }

  function MetricFromByte(b: Byte): Result<Metric> {
    if b == 0 then Ok(Cosine) else if b == 1 then Ok(DotProduct) else if b == 2 then Ok(Euclidean) else Err(Corruption)
  }

  function ToBytes(m: Manifest): seq<Byte> {
    LittleEndian(m.formatVersion, 4) + LittleEndian(m.dimension, 4) + [MetricToByte(m.metric)] + LittleEndian(m.recordCount, 8)
  }

  function FromBytes(bytes: seq<Byte>): Result<Manifest> {
    if |bytes| != MANIFEST_LEN then Err(Corruption)
    else
      var metric :- MetricFromByte(bytes[8]);
      Ok(Manifest(FromLittleEndian(bytes[0..4]), FromLittleEndian(bytes[4..8]), metric, FromLittleEndian(bytes[9..17])))
  }

  ghost predicate Storable(m: Manifest) {
    m.formatVersion < 0x1_0000_0000 && m.dimension < 0x1_0000_0000 && m.recordCount < 0x1_0000_0000_0000_0000
  }

  // Whatever fits its fields is read back from its 17 bytes.
  lemma ManifestRoundTrip(m: Manifest)
    requires Storable(m)
    ensures |ToBytes(m)| == MANIFEST_LEN && FromBytes(ToBytes(m)) == Ok(m)
  {
    Bounds();
    LittleEndianLength(m.formatVersion, 4);
    LittleEndianLength(m.dimension, 4);
    LittleEndianLength(m.recordCount, 8);
    var bytes := ToBytes(m);
    assert bytes[0..4] == LittleEndian(m.formatVersion, 4);
    assert bytes[4..8] == LittleEndian(m.dimension, 4);
    assert bytes[9..17] == LittleEndian(m.recordCount, 8);
    LittleEndianRoundTrip(m.formatVersion, 4);
    LittleEndianRoundTrip(m.dimension, 4);
    LittleEndianRoundTrip(m.recordCount, 8);
  }

  // Any bytes at all: a manifest is read from exactly the 17-byte rows with a
  // known metric, and it is the one they are the bytes of.
  lemma ManifestReads(bytes: seq<Byte>)
    ensures match FromBytes(bytes)
            case Ok(m) => |bytes| == 17 && bytes[8] <= 2 && Storable(m) && ToBytes(m) == bytes
            case Err(error) => error == Corruption && (|bytes| != 17 || bytes[8] > 2)
  {
    hide LittleEndian, FromLittleEndian, Bound;
    if |bytes| == 17 && bytes[8] <= 2 {
      FieldReads(bytes[0..4]);
      FieldReads(bytes[4..8]);
      FieldReads(bytes[9..17]);
      assert bytes == bytes[0..4] + bytes[4..8] + [bytes[8]] + bytes[9..17];
    }
  }

  lemma FieldReads(field: seq<Byte>)
    ensures LittleEndian(FromLittleEndian(field), |field|) == field
    ensures |field| == 4 ==> FromLittleEndian(field) < 0x1_0000_0000
    ensures |field| == 8 ==> FromLittleEndian(field) < 0x1_0000_0000_0000_0000
  {
    hide LittleEndian, FromLittleEndian, Bound;
    LittleEndianBack(field);
    LittleEndianBound(field);
    Bounds();
  }

  // Which bytes hold which field.
  lemma ManifestLayout(m: Manifest)
    requires Storable(m)
    ensures var bytes := ToBytes(m);
            && |bytes| == 17
            && FromLittleEndian(bytes[0..4]) == m.formatVersion
            && FromLittleEndian(bytes[4..8]) == m.dimension
            && bytes[8] == (match m.metric case Cosine => 0 case DotProduct => 1 case Euclidean => 2)
            && FromLittleEndian(bytes[9..17]) == m.recordCount
  {
    ManifestRoundTrip(m);
  }
}

/** The segment: a header and densely packed records, read through a map of
    the file. */
module Segment {
  import opened Core
  import opened Bytes
  import opened Manifest

  const HEADER_LEN: nat := 32

  const MAGIC: seq<Byte> := [0x45, 0x49, 0x44, 0x4F, 0x53, 0x53, 0x45, 0x47]

  datatype State = State(dimension: nat, file: seq<Byte>, mmap: Option<seq<Byte>>, mapped: nat) {
    function Stride(): nat { dimension * 4 }
  }

  // Where record slot starts; the length of a file of slot records.
  function Offset(dimension: nat, slot: nat): nat { HEADER_LEN + slot * (dimension * 4) }

  function Zeros(n: nat): (z: seq<Byte>)
    ensures |z| == n && forall b :: b in z ==> b == 0
  {
    if n == 0 then [] else Zeros(n - 1) + [0]
  }

  function Header(metric: Metric, dimension: nat): seq<Byte> {
    MAGIC + LittleEndian(FORMAT_VERSION, 4) + LittleEndian(dimension, 4) + [MetricToByte(metric)] + Zeros(15)
  }

  function ValidateHeader(file: seq<Byte>, metric: Metric, dimension: nat): Result<()> {
    if |file| < HEADER_LEN then Err(Backend)
    else if file[0..8] != MAGIC then Err(Corruption)
    else if FromLittleEndian(file[8..12]) != FORMAT_VERSION then Err(FormatMismatch)
    else if dimension >= 0x1_0000_0000 then Err(FormatMismatch)
    else if FromLittleEndian(file[12..16]) != dimension then Err(FormatMismatch)
    else
      var stored :- MetricFromByte(file[16]);
      if stored != metric then Err(FormatMismatch) else Ok(())
  }

  // File::set_len: cut, or extend with zeros.
  function SetLen(file: seq<Byte>, n: nat): seq<Byte> {
    if n <= |file| then file[..n] else file + Zeros(n - |file|)
  }

  function Append(s: State, values: seq<F32>): Result<State> {
    if s.dimension == 0 || |values| % s.dimension != 0 then Err(Corruption)
    else Ok(s.(file := s.file + CastToBytes(values)))
  }

  // An append cut short by a crash after n bytes reached the file.
  function TornAppend(s: State, values: seq<F32>, n: nat): State {
    if s.dimension == 0 || |values| % s.dimension != 0 then s
    else s.(file := s.file + Take(CastToBytes(values), n))
  }

  function Remap(s: State, count: nat): Result<State> {
    if |s.file| < Offset(s.dimension, count) then Err(Corruption)
    else Ok(s.(mmap := Some(s.file), mapped := count))
  }

  function TruncateToEmpty(s: State): State {
    s.(mmap := None, mapped := 0, file := SetLen(s.file, HEADER_LEN))
  }

  function Create(metric: Metric, dimension: nat): Result<State> {
    if dimension >= 0x1_0000_0000 then Err(FormatMismatch)
    else Remap(State(dimension, Header(metric, dimension), None, 0), 0)
  }

  function Open(file: seq<Byte>, metric: Metric, dimension: nat, count: nat): Result<State> {
    var _ :- ValidateHeader(file, metric, dimension);
    var s := State(dimension, file, None, 0);
    Remap(s.(file := SetLen(file, Offset(s.dimension, count))), count)
  }

  // Only mapped records are read, each from its own place in the map.
  lemma RecordDecided(s: State, slot: nat)
    ensures Record(s, slot).Some? <==>
            slot < s.mapped && s.mmap.Some? && 32 + (slot + 1) * (s.dimension * 4) <= |s.mmap.value|
    ensures Record(s, slot).Some? ==>
              var start := 32 + slot * (s.dimension * 4);
              Record(s, slot).value == CastToFloats(s.mmap.value[start..start + s.dimension * 4])
  {
    var stride := s.dimension * 4;
    assert (slot + 1) * stride == slot * stride + stride;
    hide CastToFloats;
  }

  // A new segment is the header alone, mapped without records; only a dimension
  // the header cannot hold is refused.
  lemma CreateDecided(metric: Metric, dimension: nat)
    ensures Create(metric, dimension)
         == if dimension >= 0x1_0000_0000 then Err(FormatMismatch)
            else Ok(State(dimension, Header(metric, dimension), Some(Header(metric, dimension)), 0))
  {
    HeaderLength(metric, dimension);
    hide Header;
  }

  function Record(s: State, slot: nat): Option<seq<F32>> {
    if slot >= s.mapped || s.mmap.None? then None
    else
      var start := Offset(s.dimension, slot);
      var end := start + s.Stride();
      if end > |s.mmap.value| then None else Some(CastToFloats(s.mmap.value[start..end]))
  }

  // --- files of whole records ---

  function Flatten(records: seq<Embedding>): seq<F32> {
    if records == [] then [] else Flatten(records[..|records| - 1]) + records[|records| - 1]
  }

  ghost predicate AllSized(records: seq<Embedding>, dimension: nat) {
    forall r :: r in records ==> |r| == dimension
  }

  function FileOf(metric: Metric, dimension: nat, records: seq<Embedding>): seq<Byte> {
    Header(metric, dimension) + CastToBytes(Flatten(records))
  }

  lemma HeaderLength(metric: Metric, dimension: nat)
    ensures |Header(metric, dimension)| == HEADER_LEN
  {
    LittleEndianLength(FORMAT_VERSION, 4);
    LittleEndianLength(dimension, 4);
  }

  // A header is accepted for the parameters it was written for.
  lemma HeaderValid(metric: Metric, dimension: nat, rest: seq<Byte>)
    requires dimension < 0x1_0000_0000
    ensures ValidateHeader(Header(metric, dimension) + rest, metric, dimension) == Ok(())
  {
    HeaderDecides(metric, dimension, rest, metric, dimension);
    hide Header, ValidateHeader;
  }

  // A header is accepted for no other parameters.
  lemma HeaderDecides(metric: Metric, dimension: nat, rest: seq<Byte>, askedMetric: Metric, askedDimension: nat)
    requires dimension < 0x1_0000_0000
    ensures match ValidateHeader(Header(metric, dimension) + rest, askedMetric, askedDimension)
            case Ok(_) => askedMetric == metric && askedDimension == dimension
            case Err(error) => error == FormatMismatch && (askedMetric != metric || askedDimension != dimension)
  {
    hide LittleEndian, FromLittleEndian, Zeros, Bound;
    HeaderLength(metric, dimension);
    Bounds();
    LittleEndianLength(FORMAT_VERSION, 4);
    LittleEndianLength(dimension, 4);
    LittleEndianRoundTrip(FORMAT_VERSION, 4);
    LittleEndianRoundTrip(dimension, 4);
    var file := Header(metric, dimension) + rest;
    assert file[0..8] == MAGIC;
    assert file[8..12] == LittleEndian(FORMAT_VERSION, 4);
    assert file[12..16] == LittleEndian(dimension, 4);
    assert file[16] == MetricToByte(metric);
  }

  // Which bytes of a header hold which field: the letters EIDOSSEG, the format
  // version, the dimension, the metric, and zeros up to byte 32.
  lemma HeaderLayout(metric: Metric, dimension: nat)
    requires dimension < 0x1_0000_0000
    ensures var h := Header(metric, dimension);
            && |h| == 32
            && h[0..8] == [0x45, 0x49, 0x44, 0x4F, 0x53, 0x53, 0x45, 0x47]
            && FromLittleEndian(h[8..12]) == 1
            && FromLittleEndian(h[12..16]) == dimension
            && h[16] == (match metric case Cosine => 0 case DotProduct => 1 case Euclidean => 2)
            && forall i :: 17 <= i < 32 ==> h[i] == 0
  {
    HeaderLength(metric, dimension);
    LittleEndianLength(FORMAT_VERSION, 4);
    LittleEndianLength(dimension, 4);
    Bounds();
    LittleEndianRoundTrip(FORMAT_VERSION, 4);
    LittleEndianRoundTrip(dimension, 4);
    hide LittleEndian, FromLittleEndian, Bound;
    var h := Header(metric, dimension);
    assert h[8..12] == LittleEndian(FORMAT_VERSION, 4) && h[12..16] == LittleEndian(dimension, 4);
    assert h[17..] == Zeros(15);
    forall i | 17 <= i < 32
      ensures h[i] == 0
    {
      assert h[i] == Zeros(15)[i - 17];
      assert Zeros(15)[i - 17] in Zeros(15);
    }
  }

  // Any file is accepted exactly if it has 32 bytes and begins as the header
  // for these parameters does, and otherwise refused: as unreadable if it is
  // shorter, as corrupt for its letters or an unknown metric, as a mismatch
  // else.
  lemma HeaderAccepts(file: seq<Byte>, metric: Metric, dimension: nat)
    requires dimension < 0x1_0000_0000
    ensures match ValidateHeader(file, metric, dimension)
            case Ok(_) => |file| >= 32 && file[..17] == Header(metric, dimension)[..17]
            case Err(Backend) => |file| < 32
            case Err(Corruption) => |file| >= 32 && (file[..8] != Header(metric, dimension)[..8] || file[16] > 2)
                                    && file[..17] != Header(metric, dimension)[..17]
            case Err(FormatMismatch) =>
              |file| >= 32 && file[..8] == Header(metric, dimension)[..8] && file[..17] != Header(metric, dimension)[..17]
            case Err(_) => false
  {
    HeaderLayout(metric, dimension);
    var h := Header(metric, dimension);
    if |file| >= 32 {
      assert file[..8] == file[0..8] && h[..8] == h[0..8];
      LittleEndianBack(file[8..12]);
      LittleEndianBack(file[12..16]);
      LittleEndianBack(h[8..12]);
      LittleEndianBack(h[12..16]);
      hide LittleEndian, FromLittleEndian, Header, Zeros;
      FieldsDecide(file, h);
    }
  }

  // Opening fails for the header only: the length is made to fit.
  lemma OpenAccepts(file: seq<Byte>, metric: Metric, dimension: nat, count: nat)
    requires dimension < 0x1_0000_0000
    ensures Open(file, metric, dimension, count).Ok? <==> |file| >= 32 && file[..17] == Header(metric, dimension)[..17]
  {
    HeaderAccepts(file, metric, dimension);
    HeaderPrefix(file, Header(metric, dimension));
    CutLength(file, Offset(dimension, count));
    hide ValidateHeader, Header, SetLen, Offset;
  }

  lemma HeaderPrefix(file: seq<Byte>, h: seq<Byte>)
    ensures |file| >= 32 && |h| >= 32 && file[..17] == h[..17] ==> file[..8] == h[..8] && file[16] == h[16]
  {
    if |file| >= 32 && |h| >= 32 {
      FieldsDecide(file, h);
    }
  }

  lemma CutLength(file: seq<Byte>, n: nat)
    ensures |SetLen(file, n)| == n
  {}

  lemma FieldsDecide(a: seq<Byte>, b: seq<Byte>)
    requires |a| >= 32 && |b| >= 32
    ensures a[..17] == b[..17] <==> a[..8] == b[..8] && a[8..12] == b[8..12] && a[12..16] == b[12..16] && a[16] == b[16]
  {
    SplitFields(a);
    SplitFields(b);
  }

  lemma SplitFields(s: seq<Byte>)
    requires |s| >= 32
    ensures s[..17] == s[..8] + s[8..12] + s[12..16] + [s[16]]
    ensures s[..17][..8] == s[..8] && s[..17][8..12] == s[8..12] && s[..17][12..16] == s[12..16] && s[..17][16] == s[16]
  {}

  lemma MulSucc(n: nat, d: nat)
    ensures (n + 1) * d == n * d + d
  {
  }

  lemma {:induction false} FlattenLength(records: seq<Embedding>, dimension: nat)
    requires AllSized(records, dimension)
    ensures |Flatten(records)| == |records| * dimension
  {
    if records != [] {
      var n := |records| - 1;
      assert records[n] in records;
      FlattenLength(records[..n], dimension);
      MulSucc(n, dimension);
    }
  }

  lemma {:induction false} FlattenAppend(a: seq<Embedding>, b: seq<Embedding>)
    ensures Flatten(a + b) == Flatten(a) + Flatten(b)
  {
    if b == [] {
      assert a + b == a;
    } else {
      var n := |b| - 1;
      FlattenAppend(a, b[..n]);
      assert (a + b)[..|a + b| - 1] == a + b[..n];
    }
  }

  lemma {:induction false} FileLength(metric: Metric, dimension: nat, records: seq<Embedding>)
    requires AllSized(records, dimension)
    ensures |FileOf(metric, dimension, records)| == Offset(dimension, |records|)
  {
    hide Header, Flatten, CastToBytes;
    HeaderLength(metric, dimension);
    FlattenLength(records, dimension);
    CastLength(Flatten(records));
    assert 4 * (|records| * dimension) == |records| * (dimension * 4);
  }

  lemma FileAppend(metric: Metric, dimension: nat, a: seq<Embedding>, b: seq<Embedding>)
    ensures FileOf(metric, dimension, a + b) == FileOf(metric, dimension, a) + CastToBytes(Flatten(b))
  {
    FlattenAppend(a, b);
    CastAppend(Flatten(a), Flatten(b));
  }

  lemma {:induction false} FileSplit(metric: Metric, dimension: nat, records: seq<Embedding>, slot: nat)
    requires slot < |records|
    ensures FileOf(metric, dimension, records)
         == FileOf(metric, dimension, records[..slot]) + CastToBytes(records[slot]) + CastToBytes(Flatten(records[slot + 1..]))
  {
    var before, one, after := records[..slot], [records[slot]], records[slot + 1..];
    assert records == before + one + after;
    FlattenOne(records[slot]);
    hide FileOf, Flatten, CastToBytes;
    FileAppend(metric, dimension, before + one, after);
    FileAppend(metric, dimension, before, one);
  }

  lemma FlattenOne(record: Embedding)
    ensures Flatten([record]) == record
  {
    assert [record][..0] == [];
  }

  // Record slot of a file of records is that record, whatever bytes follow.
  lemma {:induction false} RecordReads(metric: Metric, dimension: nat, records: seq<Embedding>, rest: seq<Byte>, slot: nat)
    requires AllSized(records, dimension) && slot < |records|
    ensures var file, start := FileOf(metric, dimension, records) + rest, Offset(dimension, slot);
            && start + dimension * 4 <= |file|
            && file[start..start + dimension * 4] == CastToBytes(records[slot])
            && CastToFloats(file[start..start + dimension * 4]) == records[slot]
  {
    hide FileOf, Flatten, CastToBytes, CastToFloats, Offset;
    assert records[slot] in records;
    FileSplit(metric, dimension, records, slot);
    FileLength(metric, dimension, records[..slot]);
    CastLength(records[slot]);
    CastRoundTrip(records[slot]);
    Middle(FileOf(metric, dimension, records[..slot]), CastToBytes(records[slot]),
           CastToBytes(Flatten(records[slot + 1..])), rest);
  }

  lemma Middle(a: seq<Byte>, b: seq<Byte>, c: seq<Byte>, d: seq<Byte>)
    ensures |a + b + c + d| >= |a| + |b| && (a + b + c + d)[|a|..|a| + |b|] == b
  {}

  // Opening cuts whatever follows the committed records and maps them.
  lemma {:induction false} OpenCuts(metric: Metric, dimension: nat, records: seq<Embedding>, torn: seq<Byte>)
    requires dimension < 0x1_0000_0000 && AllSized(records, dimension)
    ensures var file := FileOf(metric, dimension, records);
            Open(file + torn, metric, dimension, |records|) == Ok(State(dimension, file, Some(file), |records|))
  {
    var file, rest := FileOf(metric, dimension, records), CastToBytes(Flatten(records)) + torn;
    hide Header, ValidateHeader, Flatten, CastToBytes, Offset, Zeros, LittleEndian;
    assert file + torn == Header(metric, dimension) + rest;
    HeaderValid(metric, dimension, rest);
    FileLength(metric, dimension, records);
    assert SetLen(file + torn, |file|) == file;
  }
}
