/** The layout of a finished archive and what a reader recovers from it: where each region starts, that the bytes end up
    there, and that every pointer leads to its dirent and every cluster decodes to its blobs. */
module Layout {
  import opened Outcome
  import opened Bytes
  import opened Text
  import opened Headers
  import opened Dirents
  import opened Clusters
  import opened Reader
  import opened Extents
  import opened MimeTypes

  const CLUSTERS_POS: nat := HEADER_SIZE + MIME_LIST_RESERVE

  /** The blobs of a cluster and how it is compressed. */
  datatype Plan = Plan(blobs: seq<Bytes>, comp: Compression)

  /** Everything the tables of an archive are computed from. `order` and `parts` list the clusters'
      indices and bytes in file order; `offsets` is indexed by cluster. */
  datatype Image = Image(
    codec: Codec,
    uuid: Bytes,
    mimes: seq<Bytes>,
    dirents: seq<RawDirent>,
    titles: seq<nat>,
    plans: seq<Plan>,
    offsets: seq<nat>,
    order: seq<nat>,
    parts: seq<Bytes>,
    mainPage: nat)
  {
    function UrlPtrPos(): nat {
      CLUSTERS_POS + |JoinAll(parts)|
    }

    function TitlePtrPos(): nat {
      UrlPtrPos() + 8 * |dirents|
    }

    function ClusterPtrPos(): nat {
      TitlePtrPos() + 4 * |dirents|
    }

    function DirentsPos(): nat {
      ClusterPtrPos() + 8 * |offsets|
    }

    function ChecksumPos(): nat {
      DirentsPos() + TotalLen(dirents, |dirents|)
    }

    function DirentOffsets(): (s: seq<nat>)
      ensures |s| == |dirents|
    {
      seq(|dirents|, i requires 0 <= i < |dirents| => DirentsPos() + TotalLen(dirents, i))
    }

    function Head(): Header {
      Header(6, 3, uuid, |dirents|, |offsets|, UrlPtrPos(), TitlePtrPos(), ClusterPtrPos(), HEADER_SIZE,
                    mainPage, U32_MAX, ChecksumPos())
    }
  }

  /** Lengths of the first `n` dirents, from `DirentLen` alone. */
  function TotalLen(dirents: seq<RawDirent>, n: nat): nat
    requires n <= |dirents|
  {
    if n == 0 then 0 else TotalLen(dirents, n - 1) + DirentLen(dirents[n - 1])
  }

  function EncodeDirents(dirents: seq<RawDirent>, n: nat): (s: Bytes)
    requires n <= |dirents|
    ensures |s| == TotalLen(dirents, n)
  {
    if n == 0 then [] else EncodeDirents(dirents, n - 1) + EncodeDirent(dirents[n - 1])
  }

  /** The first `n` values as consecutive 8-byte or 4-byte fields. */
  function Table(values: seq<nat>, wide: bool, n: nat): (s: Bytes)
    requires n <= |values|
    ensures |s| == Slot(wide, n)
  {
    if n == 0 then [] else Table(values, wide, n - 1) + Le(values[n - 1], Width(wide))
  }

  function Zeros(n: nat): (s: Bytes)
    ensures |s| == n
  {
    seq(n, _ => 0)
  }

  function MimeRegion(mimes: seq<Bytes>): (s: Bytes)
    requires |EncodeMimes(mimes)| <= MIME_LIST_RESERVE
    ensures |s| == MIME_LIST_RESERVE
  {
    EncodeMimes(mimes) + Zeros(MIME_LIST_RESERVE - |EncodeMimes(mimes)|)
  }

  /** Everything behind the clusters, in the order the staging buffer is filled. */
  function TableBytes(img: Image): (s: Bytes)
    requires |img.titles| == |img.dirents|
    ensures |s| == img.ChecksumPos() - img.UrlPtrPos()
  {
    Table(img.DirentOffsets(), true, |img.dirents|) + (Table(img.titles, false, |img.dirents|)
    + (Table(img.offsets, true, |img.offsets|) + EncodeDirents(img.dirents, |img.dirents|)))
  }

  predicate Sized(img: Image) {
    |img.uuid| == 16 && |img.titles| == |img.dirents| && |EncodeMimes(img.mimes)| <= MIME_LIST_RESERVE
  }

  /** The finished file: header, mime list padded to its region, clusters, tables, digest. */
  function FileOf(img: Image, digest: Bytes): (file: Bytes)
    requires Sized(img)
    ensures |file| == img.ChecksumPos() + |digest|
  {
    EncodeHeader(img.Head()) + (MimeRegion(img.mimes) + (JoinAll(img.parts) + (TableBytes(img) + digest)))
  }

  /** The parts of an archive lie in `f` where the layout arithmetic puts them. */
  ghost predicate Written(img: Image, f: Bytes) {
    && Sized(img)
    && img.ChecksumPos() <= |f|
    && At(f, 0, EncodeHeader(img.Head()))
    && At(f, HEADER_SIZE, EncodeMimes(img.mimes))
    && At(f, CLUSTERS_POS, JoinAll(img.parts))
    && At(f, img.UrlPtrPos(), Table(img.DirentOffsets(), true, |img.dirents|))
    && At(f, img.TitlePtrPos(), Table(img.titles, false, |img.dirents|))
    && At(f, img.ClusterPtrPos(), Table(img.offsets, true, |img.offsets|))
    && At(f, img.DirentsPos(), EncodeDirents(img.dirents, |img.dirents|))
  }

  lemma AtFour(f: Bytes, off: nat, a: Bytes, b: Bytes, c: Bytes, d: Bytes)
    requires At(f, off, a + (b + (c + d)))
    ensures At(f, off, a) && At(f, off + |a|, b) && At(f, off + |a| + |b|, c) && At(f, off + |a| + |b| + |c|, d)
  {
    AtSplit(f, off, a, b + (c + d));
    AtSplit(f, off + |a|, b, c + d);
    AtSplit(f, off + |a| + |b|, c, d);
  }

  /** The offsets computed ahead of the bytes are where the bytes end up. */
  lemma FileIsWritten(img: Image, digest: Bytes)
    requires Sized(img)
    ensures Written(img, FileOf(img, digest))
  {
    hide EncodeHeader, EncodeMimes, Join, At, TotalLen, Table, EncodeDirents;
    var f := FileOf(img, digest);
    var m := MimeRegion(img.mimes);
    AtWhole(f);
    AtFour(f, 0, EncodeHeader(img.Head()), m, JoinAll(img.parts), TableBytes(img) + digest);
    AtSplit(f, HEADER_SIZE, EncodeMimes(img.mimes), Zeros(MIME_LIST_RESERVE - |EncodeMimes(img.mimes)|));
    AtSplit(f, img.UrlPtrPos(), TableBytes(img), digest);
    AtFour(f, img.UrlPtrPos(), Table(img.DirentOffsets(), true, |img.dirents|),
      Table(img.titles, false, |img.dirents|), Table(img.offsets, true, |img.offsets|),
      EncodeDirents(img.dirents, |img.dirents|));
  }

  lemma AtWhole(f: Bytes)
    ensures At(f, 0, f)
  {
  }

  lemma {:induction false} TableEntry(file: Bytes, off: nat, values: seq<nat>, wide: bool, n: nat, i: nat)
    requires i < n <= |values| && At(file, off, Table(values, wide, n))
    requires values[i] < if wide then U64_LIMIT else U32_LIMIT
    ensures UintAt(file, off + Slot(wide, i), Width(wide)) == Ok(values[i])
    decreases n
  {
    hide Le, Pow256;
    AtSplit(file, off, Table(values, wide, n - 1), Le(values[n - 1], Width(wide)));
    if i < n - 1 {
      TableEntry(file, off, values, wide, n - 1, i);
    } else {
      Pow256Values();
      UintAtLe(file, off + Slot(wide, i), values[i], Width(wide));
    }
  }

  /** `DirentLen` sums to where each dirent is written. */
  lemma {:induction false} DirentPlace(file: Bytes, off: nat, dirents: seq<RawDirent>, n: nat, i: nat)
    requires i < n <= |dirents| && At(file, off, EncodeDirents(dirents, n))
    ensures At(file, off + TotalLen(dirents, i), EncodeDirent(dirents[i]))
    ensures TotalLen(dirents, i) + DirentLen(dirents[i]) <= TotalLen(dirents, n)
    decreases n
  {
    hide EncodeDirent, DirentLen;
    AtSplit(file, off, EncodeDirents(dirents, n - 1), EncodeDirent(dirents[n - 1]));
    if i < n - 1 {
      DirentPlace(file, off, dirents, n - 1, i);
    }
  }

  // ---- Well-formed images ----

  ghost predicate GoodMimes(mimes: seq<Bytes>) {
    forall i :: 0 <= i < |mimes| ==> mimes[i] != [] && Storable(mimes[i])
  }

  ghost predicate GoodDirent(img: Image, d: RawDirent) {
    && Encodable(d)
    && (d.Article? ==> d.mimeIdx < |img.mimes| && d.cluster < |img.plans| && d.blob < |img.plans[d.cluster].blobs|)
    && (d.Redirect? ==> d.resolved.value < |img.dirents|)
  }

  ghost predicate GoodPlan(p: Plan) {
    |p.blobs| <= U32_MAX && PayloadLen(p.blobs) < U64_LIMIT
  }

  function DirentKeys(ds: seq<RawDirent>): (keys: seq<Key>)
    ensures |keys| == |ds|
  {
    seq(|ds|, i requires 0 <= i < |ds| => ds[i].Key())
  }

  ghost predicate GoodClusters(img: Image) {
    && |img.plans| == |img.offsets|
    && Laid(img.offsets, img.order, img.parts, CLUSTERS_POS)
    && (forall c :: 0 <= c < |img.plans| ==> GoodPlan(img.plans[c]))
    && (forall k :: 0 <= k < |img.order| ==>
          EncodingOf(img.codec, img.parts[k], img.plans[img.order[k]].blobs, img.plans[img.order[k]].comp))
  }

  /** What `finalize` guarantees of the tables it writes, within the 32-bit counts and 64-bit sizes of the format. */
  ghost predicate Good(img: Image) {
    && Sized(img)
    && GoodMimes(img.mimes)
    && |img.dirents| < U32_LIMIT && |img.offsets| < U32_LIMIT && img.mainPage < U32_LIMIT
    && img.ChecksumPos() < U64_LIMIT
    && (forall i :: 0 <= i < |img.dirents| ==> GoodDirent(img, img.dirents[i]))
    && (forall i :: 0 <= i < |img.titles| ==> img.titles[i] < |img.dirents|)
    && StrictlyAscending(DirentKeys(img.dirents))
    && GoodClusters(img)
  }

  function ArchiveOf(img: Image, f: Bytes): Archive {
    Archive(img.codec, f, img.Head(), img.mimes)
  }

  function Views(ds: seq<RawDirent>): (vs: seq<Dirent>)
    ensures |vs| == |ds|
  {
    seq(|ds|, i requires 0 <= i < |ds| => View(ds[i]))
  }

  // ---- What the reader recovers ----

  /** The finished file opens with the header and the mime list that were written. */
  lemma Opens(img: Image, f: Bytes)
    requires Good(img) && Written(img, f)
    ensures Open(img.codec, f) == Ok(ArchiveOf(img, f))
  {
    hide EncodeHeader, ParseHeader, ParseMimes, EncodeMimes, GoodClusters, StrictlyAscending, GoodDirent, At;
    HeaderRoundTrip(f, img.Head());
    MimesRoundTrip(f, HEADER_SIZE, img.mimes);
  }

  lemma ReadsPointer(img: Image, f: Bytes, i: nat)
    requires Good(img) && Written(img, f) && i < |img.dirents|
    ensures UrlPointer(ArchiveOf(img, f), i) == Ok(img.DirentOffsets()[i])
    ensures At(f, img.DirentOffsets()[i], EncodeDirent(img.dirents[i]))
    ensures img.DirentOffsets()[i] < |f|
  {
    hide EncodeHeader, EncodeMimes, Table, EncodeDirents, TotalLen, EncodeDirent, GoodClusters, StrictlyAscending, UintAt, GoodDirent, GoodMimes, At, DirentLen;
    DirentPlace(f, img.DirentsPos(), img.dirents, |img.dirents|, i);
    TableEntry(f, img.UrlPtrPos(), img.DirentOffsets(), true, |img.dirents|, i);
    PositiveLen(img.dirents[i]);
  }

  lemma PositiveLen(d: RawDirent)
    ensures DirentLen(d) > 0
  {
  }

  /** Every URL pointer leads to its dirent. */
  lemma ReadsDirent(img: Image, f: Bytes, i: nat)
    requires Good(img) && Written(img, f) && i < |img.dirents|
    ensures DirentAt(ArchiveOf(img, f), i) == Ok(View(img.dirents[i]))
  {
    ReadsPointer(img, f, i);
    hide Written, ParseDirent, EncodeDirent, GoodClusters, StrictlyAscending, View, UrlPointer, GoodMimes, At;
    assert GoodDirent(img, img.dirents[i]);
    DirentRoundTrip(f, img.DirentOffsets()[i], img.dirents[i]);
  }

  lemma HoldsViews(img: Image, f: Bytes)
    requires Good(img) && Written(img, f)
    ensures Holds(ArchiveOf(img, f), Views(img.dirents))
  {
    hide DirentAt, Good, Written;
    forall i | 0 <= i < |img.dirents|
      ensures DirentAt(ArchiveOf(img, f), i) == Ok(Views(img.dirents)[i])
    {
      ReadsDirent(img, f, i);
    }
  }

  lemma ViewsAscend(img: Image)
    requires Good(img)
    ensures StrictlyAscending(Keys(Views(img.dirents))) && Ascending(Keys(Views(img.dirents)))
    ensures Keys(Views(img.dirents)) == DirentKeys(img.dirents)
  {
    hide GoodClusters, CompareKey;
    forall i | 0 <= i < |img.dirents|
      ensures Keys(Views(img.dirents))[i] == DirentKeys(img.dirents)[i]
    {
      assert GoodDirent(img, img.dirents[i]);
      ViewKeys(img.dirents[i]);
    }
  }

  /** The cluster pointer table holds the recorded offsets. */
  lemma ReadsOffsets(img: Image, f: Bytes, n: nat)
    requires Good(img) && Written(img, f) && n <= |img.offsets|
    ensures ClusterOffsets(ArchiveOf(img, f), n) == Ok(img.offsets[..n])
  {
    hide Good, Written, ClusterPointer;
    if n > 0 {
      ReadsOffsets(img, f, n - 1);
      ReadsOffset(img, f, n - 1);
      assert img.offsets[..n] == img.offsets[..n - 1] + [img.offsets[n - 1]];
    }
  }

  lemma ReadsOffset(img: Image, f: Bytes, c: nat)
    requires Good(img) && Written(img, f) && c < |img.offsets|
    ensures ClusterPointer(ArchiveOf(img, f), c) == Ok(img.offsets[c])
    ensures img.offsets[c] < |f|
  {
    hide EncodeHeader, EncodeMimes, Table, EncodeDirents, StrictlyAscending, UintAt, GoodDirent, GoodMimes, At, Laid;
    LaidBelow(img.offsets, img.order, img.parts, CLUSTERS_POS, c);
    TableEntry(f, img.ClusterPtrPos(), img.offsets, true, |img.offsets|, c);
  }

  lemma Positions(img: Image, f: Bytes)
    requires Sized(img) && img.ChecksumPos() <= |f|
    ensures var a := ArchiveOf(img, f);
      CLUSTERS_POS + |JoinAll(img.parts)| == a.header.urlPtrPos
      <= Min(a.header.titlePtrPos, Min(a.header.clusterPtrPos, Eof(a)))
  {
    hide TotalLen, Join;
  }

  lemma OffsetsAreTable(img: Image, f: Bytes)
    requires Good(img) && Written(img, f)
    ensures HasOffsets(ArchiveOf(img, f), img.offsets)
  {
    hide Good, Written;
    ReadsOffsets(img, f, |img.offsets|);
    assert img.offsets[..|img.offsets|] == img.offsets;
  }

  /** Each cluster's byte range in the file is exactly its encoding. */
  lemma ReadsClusterRaw(img: Image, f: Bytes, k: nat)
    requires Good(img) && Written(img, f) && k < |img.order|
    ensures ClusterRaw(ArchiveOf(img, f), img.order[k]) == Ok(img.parts[k])
  {
    OffsetsAreTable(img, f);
    Positions(img, f);
    hide EncodeHeader, EncodeMimes, Table, EncodeDirents, StrictlyAscending, GoodDirent, GoodMimes, At, Laid, ClusterRaw, HasOffsets, Eof, TotalLen, Join;
    LaidClusterRaw(ArchiveOf(img, f), img.offsets, img.order, img.parts, CLUSTERS_POS, k);
  }

  /** Decoding cluster `c` gives back its blobs, unless its compressed payload exceeds the decode limit. */
  lemma ReadsCluster(img: Image, f: Bytes, c: nat)
    requires Good(img) && Written(img, f) && c < |img.plans|
    ensures var p := img.plans[c];
      ClusterUncached(ArchiveOf(img, f), c)
      == if Decodable(p.blobs, p.comp) then Ok(Decoded(p.blobs, p.comp)) else Err(Decompression)
    ensures forall b :: 0 <= b < |img.plans[c].blobs| ==>
              Blob(Decoded(img.plans[c].blobs, img.plans[c].comp), b) == Ok(img.plans[c].blobs[b])
  {
    var k := PlaceOf(img, c);
    ReadsClusterRaw(img, f, k);
    var p := img.plans[c];
    ParseEncoding(img.codec, img.parts[k], p.blobs, p.comp);
  }

  lemma PlaceOf(img: Image, c: nat) returns (k: nat)
    requires GoodClusters(img) && c < |img.plans|
    ensures k < |img.order| && img.order[k] == c
    ensures GoodPlan(img.plans[c]) && EncodingOf(img.codec, img.parts[k], img.plans[c].blobs, img.plans[c].comp)
  {
    assert c in img.order;
    k :| 0 <= k < |img.order| && img.order[k] == c;
  }
}
