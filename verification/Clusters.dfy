/** The cluster codec: `encode_cluster` of the writer against `Cluster::parse` of the reader. */
module Clusters {
  import opened Outcome
  import opened Bytes

  datatype Compression = Raw | Xz | Zstd

  /** The foreign compressors. An encoder may fail; whatever it returns decodes to its input. */
  datatype Compressors = Compressors(
    zstd: Bytes -> Option<Bytes>,
    zstdStream: Bytes -> Option<Bytes>,
    xz: Bytes -> Option<Bytes>,
    unzstd: Bytes -> Option<Bytes>,
    unxz: Bytes -> Option<Bytes>)

  ghost predicate Lossless(c: Compressors) {
    && (forall p :: c.zstd(p).Some? ==> c.unzstd(c.zstd(p).value) == Some(p))
    && (forall p :: c.zstdStream(p).Some? ==> c.unzstd(c.zstdStream(p).value) == Some(p))
    && (forall p :: c.xz(p).Some? ==> c.unxz(c.xz(p).value) == Some(p))
  }

  const Stored: Compressors := Compressors(p => Some(p), p => Some(p), p => Some(p), p => Some(p), p => Some(p))

  type Codec = c: Compressors | Lossless(c) ghost witness Stored

  const MAX_STANDARD_CLUSTER_BYTES: nat := U32_MAX
  const MAX_EXTENDED_CLUSTER_BYTES: nat := 17_179_869_184

  function Limit(extended: bool): nat {
    if extended then MAX_EXTENDED_CLUSTER_BYTES else MAX_STANDARD_CLUSTER_BYTES
  }

  function Width(extended: bool): nat {
    if extended then 8 else 4
  }

  /** Position of the `i`th entry of an offset table. */
  function Slot(extended: bool, i: nat): nat {
    if extended then 8 * i else 4 * i
  }

  // ---- Writer ----

  /** 4-byte offsets unless the whole payload would overflow them. */
  predicate Extended(blobs: seq<Bytes>) {
    Slot(false, |blobs| + 1) + |JoinAll(blobs)| > U32_MAX
  }

  /** The first `n` entries of the offset table of `blobs`. */
  function OffsetTable(blobs: seq<Bytes>, extended: bool, n: nat): (t: Bytes)
    requires n <= |blobs| + 1
    ensures |t| == Slot(extended, n)
  {
    if n == 0 then []
    else OffsetTable(blobs, extended, n - 1)
         + Le(Slot(extended, |blobs| + 1) + |Join(blobs, n - 1)|, Width(extended))
  }

  function Payload(blobs: seq<Bytes>): Bytes {
    OffsetTable(blobs, Extended(blobs), |blobs| + 1) + JoinAll(blobs)
  }

  function PayloadLen(blobs: seq<Bytes>): (n: nat)
    ensures n == |Payload(blobs)|
  {
    Slot(Extended(blobs), |blobs| + 1) + |JoinAll(blobs)|
  }

  function InfoByte(comp: Compression, extended: bool): byte {
    (match comp case Raw => 1 case Xz => 4 case Zstd => 5) + (if extended then 16 else 0)
  }

  function Pack(info: byte, body: Option<Bytes>): Result<Bytes> {
    match body
    case Some(b) => Ok([info] + b)
    case None => Err(Decompression)
  }

  /** The bytes of the cluster that holds `blobs`. */
  function EncodeCluster(codec: Codec, blobs: seq<Bytes>, comp: Compression): Result<Bytes> {
    var info := InfoByte(comp, Extended(blobs));
    match comp
    case Raw => Ok([info] + Payload(blobs))
    case Xz => Pack(info, codec.xz(Payload(blobs)))
    case Zstd => Pack(info, codec.zstd(Payload(blobs)))
  }

  /** The encoder's own loops: the total first, then a cursor for the table, then the blobs appended in order. */
  method TotalLength(blobs: seq<Bytes>) returns (total: nat)
    ensures total == |JoinAll(blobs)|
  {
    total := 0;
    for i := 0 to |blobs|
      invariant total == |Join(blobs, i)|
    {
      total := total + |blobs[i]|;
    }
  }

  method BuildTable(blobs: seq<Bytes>, extended: bool) returns (out: Bytes)
    ensures out == OffsetTable(blobs, extended, |blobs| + 1)
  {
    var cursor := Slot(extended, |blobs| + 1);
    out := [];
    for i := 0 to |blobs|
      invariant cursor == Slot(extended, |blobs| + 1) + |Join(blobs, i)|
      invariant out == OffsetTable(blobs, extended, i)
    {
      out := out + Le(cursor, Width(extended));
      cursor := cursor + |blobs[i]|;
    }
    out := out + Le(cursor, Width(extended));
  }

  method Encode(codec: Codec, blobs: seq<Bytes>, comp: Compression) returns (r: Result<Bytes>)
    ensures r == EncodeCluster(codec, blobs, comp)
  {
    var total := TotalLength(blobs);
    var extended := 4 * (|blobs| + 1) + total > U32_MAX;
    var table := BuildTable(blobs, extended);
    var out := table;
    for i := 0 to |blobs|
      invariant out == table + Join(blobs, i)
    {
      out := out + blobs[i];
    }
    assert out == Payload(blobs);
    var info := InfoByte(comp, extended);
    match comp {
      case Raw => r := Ok([info] + out);
      case Xz => r := Pack(info, codec.xz(out));
      case Zstd => r := Pack(info, codec.zstd(out));
    }
  }

  // ---- Reader ----

  datatype Cluster = Cluster(payload: Bytes, extended: bool, blobCount: nat, compression: Compression)

  function OffsetCount(body: Bytes, extended: bool): (r: Result<nat>)
    ensures r.Ok? ==> r.value <= U32_MAX && Slot(extended, r.value + 1) <= |body|
    ensures r.Ok? ==> UintAt(body, 0, Width(extended)) == Ok(Slot(extended, r.value + 1))
  {
    var w := Width(extended);
    var first :- UintAt(body, 0, w);
    if first < w || first % w != 0 || first > |body| then Err(Truncated)
    else if first / w - 1 > U32_MAX then Err(Truncated)
    else Ok(first / w - 1)
  }

  /** Checks entries `i..=count` of an offset table against their predecessor `prev`. */
  function CheckOffsets(body: Bytes, extended: bool, count: nat, i: nat, prev: nat): Result<nat>
    decreases count + 1 - i
  {
    if i > count then Ok(count)
    else
      var next :- UintAt(body, Slot(extended, i), Width(extended));
      if next < prev || next > |body| then Err(Truncated)
      else CheckOffsets(body, extended, count, i + 1, next)
  }

  function ValidateOffsets(body: Bytes, extended: bool): Result<nat> {
    var count :- OffsetCount(body, extended);
    CheckOffsets(body, extended, count, 1, Slot(extended, count + 1))
  }

  method ValidateOffsetsLoop(body: Bytes, extended: bool) returns (r: Result<nat>)
    ensures r == ValidateOffsets(body, extended)
  {
    var counted := OffsetCount(body, extended);
    if counted.Err? {
      return counted;
    }
    var count := counted.value;
    var prev := Slot(extended, count + 1);
    var i := 1;
    while i <= count
      invariant 1 <= i <= count + 1 && 0 <= prev
      invariant ValidateOffsets(body, extended) == CheckOffsets(body, extended, count, i, prev)
    {
      var next := UintAt(body, Slot(extended, i), Width(extended));
      if next.Err? {
        return next;
      }
      if next.value < prev || next.value > |body| {
        return Err(Truncated);
      }
      prev := next.value;
      i := i + 1;
    }
    return Ok(count);
  }

  function Inflate(plain: Option<Bytes>, limit: nat): Result<Bytes> {
    match plain
    case None => Err(Decompression)
    case Some(p) => if |p| > limit then Err(Decompression) else Ok(p)
  }

  function Parse(codec: Codec, raw: Bytes): Result<Cluster> {
    if raw == [] then Err(Truncated)
    else
      var id := raw[0] % 16;
      var extended := raw[0] / 16 % 2 == 1;
      var body := raw[1..];
      if id == 0 || id == 1 then
        var _ :- ValidateOffsets(body, extended);
        var count :- OffsetCount(body, extended);
        Ok(Cluster(body, extended, count, Raw))
      else if id == 4 then
        var payload :- Inflate(codec.unxz(body), Limit(extended));
        var count :- ValidateOffsets(payload, extended);
        Ok(Cluster(payload, extended, count, Xz))
      else if id == 5 then
        var payload :- Inflate(codec.unzstd(body), Limit(extended));
        var count :- ValidateOffsets(payload, extended);
        Ok(Cluster(payload, extended, count, Zstd))
      else Err(UnsupportedCompression)
  }

  /** Bounds of blob `idx` in a payload whose table holds `count` blobs. */
  function RangeInTable(body: Bytes, extended: bool, count: nat, idx: nat): (r: Result<(nat, nat)>)
    ensures r.Ok? ==> idx < count && Slot(extended, count + 1) <= r.value.0 <= r.value.1 <= |body|
  {
    if idx >= count then Err(BadBlobIndex)
    else
      var start :- UintAt(body, Slot(extended, idx), Width(extended));
      var end :- UintAt(body, Slot(extended, idx) + Width(extended), Width(extended));
      if start < Slot(extended, count + 1) || end < start || end > |body| then Err(Truncated)
      else Ok((start, end))
  }

  function BlobRange(c: Cluster, idx: nat): (r: Result<(nat, nat)>)
    ensures r.Ok? ==> r.value.0 <= r.value.1 <= |c.payload|
  {
    RangeInTable(c.payload, c.extended, c.blobCount, idx)
  }

  function Blob(c: Cluster, idx: nat): Result<Bytes> {
    var r :- BlobRange(c, idx);
    Ok(c.payload[r.0..r.1])
  }

  /** The range of a blob read from the on-disk bytes of an uncompressed cluster; None for a compressed one. */
  function RawBlobRange(raw: Bytes, idx: nat): (r: Result<Option<(nat, nat)>>)
    ensures r.Ok? && r.value.Some? ==> r.value.value.0 <= r.value.value.1 < |raw|
  {
    if raw == [] then Err(Truncated)
    else
      var id := raw[0] % 16;
      if id == 4 || id == 5 then Ok(None)
      else if id != 0 && id != 1 then Err(UnsupportedCompression)
      else
        var extended := raw[0] / 16 % 2 == 1;
        var body := raw[1..];
        var count :- OffsetCount(body, extended);
        var r :- RangeInTable(body, extended, count, idx);
        Ok(Some(r))
  }

  // ---- What an accepted offset table means ----

  /** Entry `i` of a table that fits into `body`. */
  function Entry(body: Bytes, extended: bool, i: nat): nat
    requires Slot(extended, i + 1) <= |body|
  {
    UnLe(body[Slot(extended, i)..Slot(extended, i + 1)])
  }

  predicate StepOk(body: Bytes, extended: bool, i: nat)
    requires Slot(extended, i + 2) <= |body|
  {
    Entry(body, extended, i) <= Entry(body, extended, i + 1) <= |body|
  }

  ghost predicate GoodTable(body: Bytes, extended: bool, count: nat) {
    && count <= U32_MAX
    && Slot(extended, count + 1) <= |body|
    && Entry(body, extended, 0) == Slot(extended, count + 1)
    && (forall i :: 0 <= i < count ==> StepOk(body, extended, i))
  }

  lemma {:induction false} CheckOffsetsExact(body: Bytes, extended: bool, count: nat, i: nat)
    requires 1 <= i <= count + 1 && Slot(extended, count + 1) <= |body|
    ensures CheckOffsets(body, extended, count, i, Entry(body, extended, i - 1)) == Ok(count)
            <==> (forall j :: i - 1 <= j < count ==> StepOk(body, extended, j))
    ensures CheckOffsets(body, extended, count, i, Entry(body, extended, i - 1)).Ok?
            ==> CheckOffsets(body, extended, count, i, Entry(body, extended, i - 1)).value == count
    decreases count + 1 - i
  {
    hide UnLe;
    if i <= count {
      assert UintAt(body, Slot(extended, i), Width(extended)) == Ok(Entry(body, extended, i));
      CheckOffsetsExact(body, extended, count, i + 1);
      assert StepOk(body, extended, i - 1) <==> Entry(body, extended, i - 1) <= Entry(body, extended, i) <= |body|;
    }
  }

  /** A table is accepted exactly when it starts right after itself and never steps back or out of the payload. */
  lemma ValidateOffsetsExact(body: Bytes, extended: bool, count: nat)
    ensures ValidateOffsets(body, extended) == Ok(count) <==> GoodTable(body, extended, count)
    ensures ValidateOffsets(body, extended).Ok? ==> ValidateOffsets(body, extended) == OffsetCount(body, extended)
  {
    hide UnLe;
    var counted := OffsetCount(body, extended);
    if counted.Ok? {
      CheckOffsetsExact(body, extended, counted.value, 1);
      assert UintAt(body, 0, Width(extended)) == Ok(Entry(body, extended, 0));
    }
    if GoodTable(body, extended, count) {
      assert UintAt(body, 0, Width(extended)) == Ok(Entry(body, extended, 0));
      assert counted == Ok(count);
    }
  }

  lemma TableStart(body: Bytes, extended: bool, count: nat)
    requires GoodTable(body, extended, count)
    ensures Entry(body, extended, 0) == Slot(extended, count + 1)
    ensures At(body, Slot(extended, count + 1), [])
  {
  }

  lemma {:induction false} EntryAboveTable(body: Bytes, extended: bool, count: nat, i: nat)
    requires GoodTable(body, extended, count) && i <= count
    ensures Slot(extended, count + 1) <= Entry(body, extended, i) <= |body|
  {
    if i > 0 {
      EntryAboveTable(body, extended, count, i - 1);
      assert StepOk(body, extended, i - 1);
    }
  }

  /** Every blob of a good table can be read, and lies between consecutive entries. */
  lemma GoodTableRange(body: Bytes, extended: bool, count: nat, i: nat)
    requires GoodTable(body, extended, count) && i < count
    ensures RangeInTable(body, extended, count, i) == Ok((Entry(body, extended, i), Entry(body, extended, i + 1)))
  {
    hide UnLe;
    EntryAboveTable(body, extended, count, i);
    assert StepOk(body, extended, i);
    assert UintAt(body, Slot(extended, i), Width(extended)) == Ok(Entry(body, extended, i));
    assert UintAt(body, Slot(extended, i) + Width(extended), Width(extended)) == Ok(Entry(body, extended, i + 1));
  }

  lemma GoodTableBlob(c: Cluster, i: nat, blob: Bytes)
    requires GoodTable(c.payload, c.extended, c.blobCount) && i < c.blobCount && Blob(c, i) == Ok(blob)
    ensures At(c.payload, Entry(c.payload, c.extended, i), blob)
    ensures Entry(c.payload, c.extended, i + 1) == Entry(c.payload, c.extended, i) + |blob|
  {
    GoodTableRange(c.payload, c.extended, c.blobCount, i);
  }

  lemma {:induction false} TableLengths(c: Cluster, blobs: seq<Bytes>, n: nat)
    requires GoodTable(c.payload, c.extended, c.blobCount) && n <= c.blobCount == |blobs|
    requires forall i :: 0 <= i < |blobs| ==> Blob(c, i) == Ok(blobs[i])
    ensures Slot(c.extended, c.blobCount + 1) + |Join(blobs, n)| == Entry(c.payload, c.extended, n)
  {
    hide UnLe, Slot, GoodTable, Blob;
    if n == 0 {
      TableStart(c.payload, c.extended, c.blobCount);
    } else {
      TableLengths(c, blobs, n - 1);
      GoodTableBlob(c, n - 1, blobs[n - 1]);
    }
  }

  /** The blobs of a good table lie behind the table without gap or overlap. */
  lemma {:induction false} TableTiles(c: Cluster, blobs: seq<Bytes>, n: nat)
    requires GoodTable(c.payload, c.extended, c.blobCount) && n <= c.blobCount == |blobs|
    requires forall i :: 0 <= i < |blobs| ==> Blob(c, i) == Ok(blobs[i])
    ensures At(c.payload, Slot(c.extended, c.blobCount + 1), Join(blobs, n))
  {
    hide UnLe, Slot, GoodTable, Blob;
    if n == 0 {
      TableStart(c.payload, c.extended, c.blobCount);
    } else {
      TableTiles(c, blobs, n - 1);
      TableLengths(c, blobs, n - 1);
      GoodTableBlob(c, n - 1, blobs[n - 1]);
      AtSplit(c.payload, Slot(c.extended, c.blobCount + 1), Join(blobs, n - 1), blobs[n - 1]);
    }
  }

  function InPlace(r: Result<(nat, nat)>): Result<Option<(nat, nat)>> {
    match r
    case Ok(range) => Ok(Some(range))
    case Err(e) => Err(e)
  }

  lemma ParseGood(codec: Codec, raw: Bytes, c: Cluster)
    requires Parse(codec, raw) == Ok(c)
    ensures GoodTable(c.payload, c.extended, c.blobCount)
  {
    ValidateOffsetsExact(c.payload, c.extended, c.blobCount);
  }

  lemma ReadableBlobs(c: Cluster) returns (blobs: seq<Bytes>)
    requires GoodTable(c.payload, c.extended, c.blobCount)
    ensures |blobs| == c.blobCount && forall i :: 0 <= i < |blobs| ==> Blob(c, i) == Ok(blobs[i])
  {
    forall i | 0 <= i < c.blobCount
      ensures Blob(c, i).Ok?
    {
      GoodTableRange(c.payload, c.extended, c.blobCount, i);
    }
    blobs := seq(c.blobCount, i requires 0 <= i < c.blobCount => Blob(c, i).GetOr([]));
  }

  /** Whatever `Parse` accepts, all its blobs are readable and tile the payload behind the offset table
      up to the last offset. */
  lemma ParseTiles(codec: Codec, raw: Bytes, c: Cluster) returns (blobs: seq<Bytes>)
    requires Parse(codec, raw) == Ok(c)
    ensures |blobs| == c.blobCount && forall i :: 0 <= i < |blobs| ==> Blob(c, i) == Ok(blobs[i])
    ensures Slot(c.extended, c.blobCount + 1) <= |c.payload|
    ensures At(c.payload, Slot(c.extended, c.blobCount + 1), JoinAll(blobs))
    ensures Slot(c.extended, c.blobCount + 1) + |JoinAll(blobs)| == Entry(c.payload, c.extended, c.blobCount)
  {
    ParseGood(codec, raw, c);
    blobs := ReadableBlobs(c);
    TableLengths(c, blobs, c.blobCount);
    TableTiles(c, blobs, c.blobCount);
  }

  /** What a reader gets out of a compressed cluster fits into one of its own: the payload was within the limit, and a
      table of at least two offsets precedes the blob. */
  lemma CompressedBlobFits(codec: Codec, raw: Bytes, c: Cluster, i: nat)
    requires Parse(codec, raw) == Ok(c) && Blob(c, i).Ok?
    ensures c.compression == Raw || |Blob(c, i).value| + 16 <= MAX_EXTENDED_CLUSTER_BYTES
  {
    hide ValidateOffsets, OffsetCount, UintAt;
  }

  /** For an accepted uncompressed cluster the in-place reader addresses the same bytes on disk. */
  lemma InPlaceAgrees(codec: Codec, raw: Bytes, c: Cluster, i: nat)
    requires Parse(codec, raw) == Ok(c)
    ensures RawBlobRange(raw, i) == if c.compression == Raw then InPlace(BlobRange(c, i)) else Ok(None)
    ensures c.compression == Raw && BlobRange(c, i).Ok? ==>
              var r := BlobRange(c, i).value; Blob(c, i) == Ok(raw[1 + r.0..1 + r.1])
  {
    hide UnLe, ValidateOffsets;
    if c.compression == Raw && BlobRange(c, i).Ok? {
      var r := BlobRange(c, i).value;
      assert raw[1..][r.0..r.1] == raw[1 + r.0..1 + r.1];
    }
  }

  // ---- Round trip ----

  lemma {:induction false} OffsetTableEntry(blobs: seq<Bytes>, extended: bool, n: nat, i: nat)
    requires i < n <= |blobs| + 1
    ensures At(OffsetTable(blobs, extended, n), Slot(extended, i),
               Le(Slot(extended, |blobs| + 1) + |Join(blobs, i)|, Width(extended)))
    decreases n
  {
    hide Le, Join;
    if i < n - 1 {
      OffsetTableEntry(blobs, extended, n - 1, i);
    }
  }

  /** No offset of an encoded cluster is cut off by its cast: the table holds the running lengths. */
  lemma PayloadEntry(blobs: seq<Bytes>, i: nat)
    requires i <= |blobs| && PayloadLen(blobs) < U64_LIMIT
    ensures Slot(Extended(blobs), i + 1) <= PayloadLen(blobs)
    ensures Entry(Payload(blobs), Extended(blobs), i) == Slot(Extended(blobs), |blobs| + 1) + |Join(blobs, i)|
  {
    hide Le, UnLe, Pow256, Join, OffsetTable;
    var extended := Extended(blobs);
    var n := Slot(extended, |blobs| + 1) + |Join(blobs, i)|;
    OffsetTableEntry(blobs, extended, |blobs| + 1, i);
    assert At(Payload(blobs), Slot(extended, i), Le(n, Width(extended)));
    JoinMonotone(blobs, i, |blobs|);
    Pow256Values();
    LeRoundTrip(n, Width(extended));
  }

  lemma PayloadGood(blobs: seq<Bytes>)
    requires |blobs| <= U32_MAX && PayloadLen(blobs) < U64_LIMIT
    ensures GoodTable(Payload(blobs), Extended(blobs), |blobs|)
  {
    hide Le, UnLe, Pow256, OffsetTable;
    var extended := Extended(blobs);
    PayloadEntry(blobs, 0);
    forall i | 0 <= i < |blobs|
      ensures StepOk(Payload(blobs), extended, i)
    {
      PayloadEntry(blobs, i);
      PayloadEntry(blobs, i + 1);
      JoinMonotone(blobs, i, i + 1);
      JoinMonotone(blobs, i + 1, |blobs|);
    }
  }

  /** The cluster a reader should recover from an encoded one. */
  function Decoded(blobs: seq<Bytes>, comp: Compression): Cluster {
    Cluster(Payload(blobs), Extended(blobs), |blobs|, comp)
  }

  lemma DecodedBlob(blobs: seq<Bytes>, comp: Compression, i: nat)
    requires |blobs| <= U32_MAX && PayloadLen(blobs) < U64_LIMIT && i < |blobs|
    ensures Blob(Decoded(blobs, comp), i) == Ok(blobs[i])
  {
    hide Le, UnLe, Pow256, OffsetTable, GoodTable, RangeInTable, Slot;
    PayloadGood(blobs);
    GoodTableRange(Payload(blobs), Extended(blobs), |blobs|, i);
    PayloadEntry(blobs, i);
    PayloadEntry(blobs, i + 1);
    var first := Slot(Extended(blobs), |blobs| + 1);
    var table := OffsetTable(blobs, Extended(blobs), |blobs| + 1);
    assert At(table + JoinAll(blobs), 0, table + JoinAll(blobs));
    AtSplit(table + JoinAll(blobs), 0, table, JoinAll(blobs));
    AtJoin(Payload(blobs), first, blobs, |blobs|, i);
  }

  /** Whether a reader's decode limit admits the payload. */
  predicate Decodable(blobs: seq<Bytes>, comp: Compression) {
    comp == Raw || PayloadLen(blobs) <= Limit(Extended(blobs))
  }

  /** `raw` is an encoding of `blobs`: the info byte, then the payload, stored or as some encoder left it. */
  predicate EncodingOf(codec: Codec, raw: Bytes, blobs: seq<Bytes>, comp: Compression) {
    && raw != []
    && raw[0] == InfoByte(comp, Extended(blobs))
    && (match comp
        case Raw => raw[1..] == Payload(blobs)
        case Xz => codec.unxz(raw[1..]) == Some(Payload(blobs))
        case Zstd => codec.unzstd(raw[1..]) == Some(Payload(blobs)))
  }

  lemma EncodeClusterEncodes(codec: Codec, blobs: seq<Bytes>, comp: Compression)
    requires EncodeCluster(codec, blobs, comp).Ok?
    ensures EncodingOf(codec, EncodeCluster(codec, blobs, comp).value, blobs, comp)
  {
    var raw := EncodeCluster(codec, blobs, comp).value;
    match comp {
      case Raw => assert raw[1..] == Payload(blobs);
      case Xz => assert raw[1..] == codec.xz(Payload(blobs)).value;
      case Zstd => assert raw[1..] == codec.zstd(Payload(blobs)).value;
    }
  }

  lemma InfoByteParts(comp: Compression, extended: bool)
    ensures InfoByte(comp, extended) / 16 % 2 == 1 <==> extended
    ensures InfoByte(comp, extended) % 16 == match comp case Raw => 1 case Xz => 4 case Zstd => 5
  {
  }

  /** Parsing an encoded cluster gives back its blobs, on both sides of the switch to 8-byte offsets,
      and fails exactly when a compressed payload exceeds the decode limit. */
  lemma ParseEncoding(codec: Codec, raw: Bytes, blobs: seq<Bytes>, comp: Compression)
    requires EncodingOf(codec, raw, blobs, comp)
    requires |blobs| <= U32_MAX && PayloadLen(blobs) < U64_LIMIT
    ensures Parse(codec, raw) == if Decodable(blobs, comp) then Ok(Decoded(blobs, comp)) else Err(Decompression)
    ensures forall i :: 0 <= i < |blobs| ==> Blob(Decoded(blobs, comp), i) == Ok(blobs[i])
  {
    hide Le, UnLe, Pow256, OffsetTable, Join, GoodTable, OffsetCount;
    PayloadGood(blobs);
    ValidateOffsetsExact(Payload(blobs), Extended(blobs), |blobs|);
    InfoByteParts(comp, Extended(blobs));
    forall i | 0 <= i < |blobs|
      ensures Blob(Decoded(blobs, comp), i) == Ok(blobs[i])
    {
      DecodedBlob(blobs, comp, i);
    }
  }

  // ---- Streamed single-blob clusters ----

  /** The offset table written before the body of a streamed item of announced size `size`. */
  function StreamHeader(size: nat): Bytes {
    var extended := 8 + size > U32_MAX;
    Le(Slot(extended, 2), Width(extended)) + Le(Slot(extended, 2) + size, Width(extended))
  }

  /** Announcing the true size gives the table, and the switch to 8-byte offsets, of the one-blob cluster. */
  lemma StreamHeaderIsTable(body: Bytes)
    ensures Extended([body]) <==> 8 + |body| > U32_MAX
    ensures StreamHeader(|body|) + body == Payload([body])
  {
    assert Join([body], 0) == [];
    assert Join([body], 1) == body;
    var extended := Extended([body]);
    assert OffsetTable([body], extended, 0) == [];
    assert OffsetTable([body], extended, 1) == Le(Slot(extended, 2), Width(extended));
    assert OffsetTable([body], extended, 2) == StreamHeader(|body|);
  }

  /** The raw passthrough file, fed with the body in any pieces, is byte for byte the encoded cluster. */
  lemma StreamedRawIsEncoded(codec: Codec, chunks: seq<Bytes>)
    ensures var body := JoinAll(chunks);
      Ok([InfoByte(Raw, 8 + |body| > U32_MAX)] + StreamHeader(|body|) + body) == EncodeCluster(codec, [body], Raw)
  {
    var body := JoinAll(chunks);
    StreamHeaderIsTable(body);
    assert [InfoByte(Raw, 8 + |body| > U32_MAX)] + StreamHeader(|body|) + body
        == [InfoByte(Raw, 8 + |body| > U32_MAX)] + (StreamHeader(|body|) + body);
  }
}
