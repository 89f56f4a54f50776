/** Writing the tables: offsets computed ahead of the bytes, one staging buffer, then the reserved regions and the digest
    over everything before it. */
module Staging {
  import opened Outcome
  import opened Bytes
  import opened Headers
  import opened Dirents
  import opened Clusters
  import opened MimeTypes
  import opened Layout

  lemma NoLen(dirents: seq<RawDirent>)
    ensures TotalLen(dirents, 0) == 0
  {
  }

  lemma NextLen(dirents: seq<RawDirent>, i: nat)
    requires i < |dirents|
    ensures TotalLen(dirents, i + 1) == TotalLen(dirents, i) + DirentLen(dirents[i])
  {
  }

  /** Where each dirent will lie, from lengths alone, and where the last one ends. */
  method DirentCursor(dirents: seq<RawDirent>, start: nat) returns (offsets: seq<nat>, end: nat)
    ensures |offsets| == |dirents| && end == start + TotalLen(dirents, |dirents|)
    ensures forall i :: 0 <= i < |dirents| ==> offsets[i] == start + TotalLen(dirents, i)
  {
    hide TotalLen, DirentLen;
    offsets := [];
    end := start;
    assert TotalLen(dirents, 0) == 0 by {
      NoLen(dirents);
    }
    for i := 0 to |dirents|
      invariant |offsets| == i && end == start + TotalLen(dirents, i)
      invariant forall j :: 0 <= j < i ==> offsets[j] == start + TotalLen(dirents, j)
    {
      NextLen(dirents, i);
      offsets := offsets + [end];
      end := end + DirentLen(dirents[i]);
    }
  }

  method AppendTable(staging: Bytes, values: seq<nat>, wide: bool) returns (out: Bytes)
    ensures out == staging + Table(values, wide, |values|)
  {
    hide Le;
    out := staging;
    for i := 0 to |values|
      invariant out == staging + Table(values, wide, i)
    {
      out := out + Le(values[i], Width(wide));
    }
  }

  method AppendDirents(staging: Bytes, dirents: seq<RawDirent>) returns (out: Bytes)
    ensures out == staging + EncodeDirents(dirents, |dirents|)
  {
    hide EncodeDirent;
    out := staging;
    for i := 0 to |dirents|
      invariant out == staging + EncodeDirents(dirents, i)
    {
      out := out + EncodeDirent(dirents[i]);
    }
  }

  /** `img` describes the archive these parts make, with its tables from `urlPtrPos` on. */
  ghost predicate Describes(img: Image, urlPtrPos: nat, dirents: seq<RawDirent>, titles: seq<nat>, offsets: seq<nat>) {
    img.dirents == dirents && img.titles == titles && img.offsets == offsets && img.UrlPtrPos() == urlPtrPos && |titles| == |dirents|
  }

  /** URL pointers, title pointers, cluster pointers and dirents in one buffer. */
  method RenderTables(urlPtrPos: nat, dirents: seq<RawDirent>, titles: seq<nat>, offsets: seq<nat>, ghost img: Image)
    returns (staging: Bytes, checksumPos: nat)
    requires Describes(img, urlPtrPos, dirents, titles, offsets)
    ensures staging == TableBytes(img) && checksumPos == img.ChecksumPos()
  {
    hide TotalLen, Table, EncodeDirents, Join;
    var titlePtrPos := urlPtrPos + 8 * |dirents|;
    var clusterPtrPos := titlePtrPos + 4 * |dirents|;
    var direntsPos := clusterPtrPos + 8 * |offsets|;
    var direntOffsets;
    direntOffsets, checksumPos := DirentCursor(dirents, direntsPos);
    assert direntOffsets == img.DirentOffsets();
    staging := AppendTable([], direntOffsets, true);
    staging := AppendTable(staging, titles, false);
    staging := AppendTable(staging, offsets, true);
    staging := AppendDirents(staging, dirents);
    var a, b := Table(img.DirentOffsets(), true, |img.dirents|), Table(img.titles, false, |img.dirents|);
    var c, d := Table(img.offsets, true, |img.offsets|), EncodeDirents(img.dirents, |img.dirents|);
    assert [] + a + b + c + d == a + (b + (c + d));
  }

  /** Seek and write. */
  function Overwrite(file: Bytes, pos: nat, bytes: Bytes): (out: Bytes)
    requires pos + |bytes| <= |file|
    ensures |out| == |file|
  {
    file[..pos] + bytes + file[pos + |bytes|..]
  }

  lemma OverwriteZeros(front: Bytes, n: nat, back: Bytes, bytes: Bytes)
    requires |bytes| <= n
    ensures Overwrite(front + (Zeros(n) + back), |front|, bytes) == front + ((bytes + Zeros(n - |bytes|)) + back)
  {
    var file := front + (Zeros(n) + back);
    assert file[..|front|] == front;
    assert file[|front| + |bytes|..] == Zeros(n - |bytes|) + back;
  }

  lemma ReservedFirst(parts: Bytes, staging: Bytes)
    ensures Zeros(CLUSTERS_POS) + parts + staging == Zeros(HEADER_SIZE) + (Zeros(MIME_LIST_RESERVE) + (parts + staging))
  {
    assert Zeros(CLUSTERS_POS) == Zeros(HEADER_SIZE) + Zeros(MIME_LIST_RESERVE);
  }

  /** Fills the reserved regions of a file whose tables are in place. */
  method FillReserved(file: Bytes, ghost behind: Bytes, mimes: Bytes, header: Bytes) returns (out: Bytes)
    requires file == Zeros(HEADER_SIZE) + (Zeros(MIME_LIST_RESERVE) + behind)
    requires |mimes| <= MIME_LIST_RESERVE && |header| == HEADER_SIZE
    ensures out == header + ((mimes + Zeros(MIME_LIST_RESERVE - |mimes|)) + behind)
  {
    OverwriteZeros(Zeros(HEADER_SIZE), MIME_LIST_RESERVE, behind, mimes);
    out := Overwrite(file, HEADER_SIZE, mimes);
    ghost var rest := (mimes + Zeros(MIME_LIST_RESERVE - |mimes|)) + behind;
    assert out == [] + (Zeros(HEADER_SIZE) + rest);
    OverwriteZeros([], HEADER_SIZE, rest, header);
    out := Overwrite(out, 0, header);
    assert header + Zeros(HEADER_SIZE - |header|) == header;
  }

  lemma WithDigest(header: Bytes, region: Bytes, parts: Bytes, tables: Bytes, digest: Bytes)
    ensures header + (region + (parts + tables)) + digest == header + (region + (parts + (tables + digest)))
  {
  }

  /** The finished file: tables behind the clusters, types at 80, header at 0, digest at the end. */
  method WriteOut(file: Bytes, uuid: Bytes, types: seq<Bytes>, dirents: seq<RawDirent>, titles: seq<nat>, offsets: seq<nat>,
                  mainPage: nat, md5: Bytes -> Bytes, ghost img: Image)
    returns (out: Bytes, ghost digest: Bytes)
    requires file == Zeros(CLUSTERS_POS) + JoinAll(img.parts) && Sized(img)
    requires img.uuid == uuid && img.mimes == types && img.dirents == dirents && img.titles == titles && img.offsets == offsets
    requires img.mainPage == mainPage
    ensures out == FileOf(img, digest)
    ensures img.ChecksumPos() <= |out| && digest == md5(out[..img.ChecksumPos()]) && out == out[..img.ChecksumPos()] + digest
  {
    hide EncodeHeader, EncodeMimes, TableBytes, Join, TotalLen, Zeros;
    var urlPtrPos := |file|;
    var titlePtrPos := urlPtrPos + |dirents| * 8;
    var staging, checksumPos := RenderTables(urlPtrPos, dirents, titles, offsets, img);
    var mimes := EncodeMimeList(types);
    var header := EncodeHeader(Header(6, 3, uuid, |dirents|, |offsets|, urlPtrPos, titlePtrPos, titlePtrPos + |dirents| * 4, HEADER_SIZE,
                                      mainPage, U32_MAX, checksumPos));
    ReservedFirst(JoinAll(img.parts), TableBytes(img));
    out := FillReserved(file + staging, JoinAll(img.parts) + TableBytes(img), mimes, header);
    ghost var whole := out;
    assert |whole| == checksumPos && whole[..checksumPos] == whole;
    var trailer := md5(out[..checksumPos]);
    digest := trailer;
    out := out + trailer;
    assert out[..checksumPos] == whole;
    WithDigest(header, MimeRegion(img.mimes), JoinAll(img.parts), TableBytes(img), digest);
  }
}
