/** The archive reader over an immutable byte string (src/archive.rs). */
module Reader {
  import opened Outcome
  import opened Bytes
  import opened Text
  import opened Headers
  import opened Dirents
  import opened Clusters

  const MAX_REDIRECTS: nat := 16
  const NS_CONTENT: byte := 67 // 'C'
  const NS_METADATA: byte := 77 // 'M'
  const NS_WELLKNOWN: byte := 87 // 'W'
  const NS_INDEX: byte := 88 // 'X'
  const TITLE_V0: Bytes := Ascii("listing/titleOrdered/v0")
  const TITLE_UNVERSIONED: Bytes := Ascii("listing/titleOrdered")
  const TITLE_V1: Bytes := Ascii("listing/titleOrdered/v1")
  const OCTET_STREAM: Bytes := Ascii("application/octet-stream")

  datatype Archive = Archive(codec: Codec, file: Bytes, header: Header, mimes: seq<Bytes>)

  datatype Entry = Entry(index: nat, dirent: Dirent)

  function Open(codec: Codec, file: Bytes): Result<Archive> {
    var header :- ParseHeader(file);
    var mimes :- ParseMimes(file, header.mimeListPos);
    Ok(Archive(codec, file, header, mimes.0))
  }

  // ---- Pointer tables ----

  /** Entry `idx` of a table of `count` fields of `width` bytes at `pos`; the whole table must lie in the file. */
  function TableField(a: Archive, pos: nat, count: nat, width: nat, idx: nat): Result<nat> {
    if pos + count * width > |a.file| then Err(Truncated) else UintAt(a.file, pos + idx * width, width)
  }

  function UrlPointer(a: Archive, idx: nat): Result<nat> {
    if idx >= a.header.entryCount then Err(BadUrlIndex)
    else TableField(a, a.header.urlPtrPos, a.header.entryCount, 8, idx)
  }

  function ClusterPointer(a: Archive, idx: nat): Result<nat> {
    if idx >= a.header.clusterCount then Err(BadClusterIndex)
    else TableField(a, a.header.clusterPtrPos, a.header.clusterCount, 8, idx)
  }

  function DirentAt(a: Archive, idx: nat): Result<Dirent> {
    var off :- UrlPointer(a, idx);
    ParseDirent(a.file, off)
  }

  function EntryAt(a: Archive, idx: nat): Result<Entry> {
    var d :- DirentAt(a, idx);
    Ok(Entry(idx, d))
  }

  function PathKey(a: Archive, idx: nat): Result<Key> {
    var off :- UrlPointer(a, idx);
    KeyAt(a.file, off)
  }

  function TitleKey(a: Archive, idx: nat): Result<Key> {
    var off :- UrlPointer(a, idx);
    TitleKeyAt(a.file, off)
  }

  function MainEntry(a: Archive): Result<Entry> {
    if a.header.mainPage == NO_MAIN_PAGE then Err(NoMainEntry) else EntryAt(a, a.header.mainPage)
  }

  // ---- Lookup by path ----

  function FindPath(a: Archive, key: Key, lo: nat, hi: nat): Result<Entry>
    decreases hi - lo
  {
    if lo >= hi then Err(EntryNotFound)
    else
      var mid := lo + (hi - lo) / 2;
      var k :- PathKey(a, mid);
      match CompareKey(key, k)
      case Less => FindPath(a, key, lo, mid)
      case Greater => FindPath(a, key, mid + 1, hi)
      case Equal => EntryAt(a, mid)
  }

  /** `entry_by_ns_path`: what its binary search answers, on any file. */
  function ByPath(a: Archive, ns: byte, url: Bytes): Result<Entry> {
    FindPath(a, Key(ns, url), 0, a.header.entryCount)
  }

  method EntryByNsPath(a: Archive, ns: byte, url: Bytes) returns (r: Result<Entry>)
    ensures r == ByPath(a, ns, url)
  {
    hide PathKey, EntryAt, CompareKey;
    var lo, hi := 0, a.header.entryCount;
    while lo < hi
      invariant 0 <= lo && 0 <= hi
      invariant ByPath(a, ns, url) == FindPath(a, Key(ns, url), lo, hi)
    {
      var mid := lo + (hi - lo) / 2;
      var k := PathKey(a, mid);
      if k.Err? {
        return Err(k.error);
      }
      match CompareKey(Key(ns, url), k.value) {
        case Less => hi := mid;
        case Greater => lo := mid + 1;
        case Equal => return EntryAt(a, mid);
      }
    }
    return Err(EntryNotFound);
  }

  // ---- Clusters ----

  function ClusterOffsets(a: Archive, n: nat): Result<seq<nat>> {
    if n == 0 then Ok([])
    else
      var front :- ClusterOffsets(a, n - 1);
      var last :- ClusterPointer(a, n - 1);
      Ok(front + [last])
  }

  /** The smallest of the first `n` offsets that is greater than `start`. */
  function LeastAbove(offsets: seq<nat>, n: nat, start: nat): (r: Option<nat>)
    requires n <= |offsets|
    ensures r.None? ==> forall i :: 0 <= i < n ==> offsets[i] <= start
    ensures r.Some? ==> r.value in offsets[..n] && start < r.value
    ensures r.Some? ==> forall i :: 0 <= i < n ==> offsets[i] <= start || r.value <= offsets[i]
  {
    if n == 0 then None
    else
      var front := LeastAbove(offsets, n - 1, start);
      assert offsets[..n] == offsets[..n - 1] + [offsets[n - 1]];
      if offsets[n - 1] > start && (front.None? || offsets[n - 1] < front.value) then Some(offsets[n - 1]) else front
  }

  function Min(a: nat, b: nat): nat {
    if a < b then a else b
  }

  function Eof(a: Archive): nat {
    if a.header.HasChecksum() then Min(a.header.checksumPos, |a.file|) else |a.file|
  }

  /** `p`, when it lies behind `start` and before `best`. */
  function Nearer(start: nat, best: Option<nat>, p: nat): Option<nat> {
    if p > start && (best.None? || p < best.value) then Some(p) else best
  }

  /** The nearest table, checksum or end of file behind `start`. */
  function BoundaryAfter(a: Archive, start: nat): nat {
    var h := a.header;
    var best := Nearer(start, Nearer(start, Nearer(start, Nearer(start, None,
      h.urlPtrPos), h.titlePtrPos), h.clusterPtrPos), Eof(a));
    if best.Some? then best.value else Eof(a)
  }

  /** End of the cluster at `start`: the next cluster in file order, or the nearest boundary. */
  function SliceEnd(a: Archive, start: nat): Result<nat> {
    var offsets :- ClusterOffsets(a, a.header.clusterCount);
    var boundary := BoundaryAfter(a, start);
    match LeastAbove(offsets, |offsets|, start)
    case Some(next) => Ok(Min(next, boundary))
    case None => Ok(boundary)
  }

  function ClusterByteRange(a: Archive, idx: nat): (r: Result<(nat, nat)>)
    ensures r.Ok? ==> r.value.0 < r.value.1 <= |a.file|
  {
    var start :- ClusterPointer(a, idx);
    var end :- SliceEnd(a, start);
    if end <= start || end > |a.file| then Err(Truncated) else Ok((start, end))
  }

  function ClusterRaw(a: Archive, idx: nat): Result<Bytes> {
    var range :- ClusterByteRange(a, idx);
    Ok(a.file[range.0..range.1])
  }

  /** A cluster decoded without the cache. */
  function ClusterUncached(a: Archive, idx: nat): Result<Cluster> {
    var raw :- ClusterRaw(a, idx);
    Parse(a.codec, raw)
  }

  /** Where a blob lies in the file, when its cluster is stored: (offset, size). */
  function BlobDirectAccess(a: Archive, cluster: nat, blob: nat): Result<Option<(nat, nat)>> {
    var range :- ClusterByteRange(a, cluster);
    var r :- RawBlobRange(a.file[range.0..range.1], blob);
    match r
    case Some(v) => Ok(Some((range.0 + 1 + v.0, v.1 - v.0)))
    case None => Ok(None)
  }

  /** Direct access to a blob of an accepted cluster: none into a compressed one; into a stored one the bytes of the file
      it addresses are the blob, and it fails exactly where reading the blob does. */
  lemma DirectAccessExact(a: Archive, cluster: nat, c: Cluster, blob: nat)
    requires ClusterUncached(a, cluster) == Ok(c)
    ensures c.compression != Raw ==> BlobDirectAccess(a, cluster, blob) == Ok(None)
    ensures c.compression == Raw ==>
              match BlobDirectAccess(a, cluster, blob)
              case Ok(None) => false
              case Ok(Some(at)) => at.0 + at.1 <= |a.file| && Blob(c, blob) == Ok(a.file[at.0..at.0 + at.1])
              case Err(e) => Blob(c, blob) == Err(e)
  {
    hide ClusterByteRange, ClusterUncached, BlobDirectAccess, Parse, RawBlobRange, BlobRange, Blob;
    var range := DirectAccessIs(a, cluster, c, blob);
    InPlaceAgrees(a.codec, a.file[range.0..range.1], c, blob);
    if BlobRange(c, blob).Err? {
      NoBlob(c, blob);
    } else if c.compression == Raw {
      var r := BlobRange(c, blob).value;
      RangeInRaw(a.file[range.0..range.1], blob);
      SliceWithin(a.file, range.0, range.1, 1 + r.0, 1 + r.1);
    }
  }

  lemma DirectAccessIs(a: Archive, cluster: nat, c: Cluster, blob: nat) returns (range: (nat, nat))
    requires ClusterUncached(a, cluster) == Ok(c)
    ensures range.0 < range.1 <= |a.file| && Parse(a.codec, a.file[range.0..range.1]) == Ok(c)
    ensures BlobDirectAccess(a, cluster, blob) ==
            match RawBlobRange(a.file[range.0..range.1], blob)
            case Ok(Some(r)) => Ok(Some((range.0 + 1 + r.0, r.1 - r.0)))
            case Ok(None) => Ok(None)
            case Err(e) => Err(e)
  {
    hide ClusterByteRange, Parse, RawBlobRange;
    range := ClusterByteRange(a, cluster).value;
  }

  lemma NoBlob(c: Cluster, blob: nat)
    requires BlobRange(c, blob).Err?
    ensures Blob(c, blob) == Err(BlobRange(c, blob).error)
  {
  }

  lemma RangeInRaw(raw: Bytes, blob: nat)
    ensures RawBlobRange(raw, blob).Ok? && RawBlobRange(raw, blob).value.Some? ==>
              RawBlobRange(raw, blob).value.value.0 <= RawBlobRange(raw, blob).value.value.1 < |raw|
  {
    hide RangeInTable, OffsetCount;
  }

  lemma SliceWithin(file: Bytes, start: nat, end: nat, lo: nat, hi: nat)
    requires start <= end <= |file| && lo <= hi <= end - start
    ensures file[start..end][lo..hi] == file[start + lo..start + hi]
  {
    assert forall i :: 0 <= i < hi - lo ==> file[start..end][lo..hi][i] == file[start..end][lo + i] == file[start + lo + i];
  }

  // ---- Items ----

  function RedirectStep(a: Archive, e: Entry): Result<Entry> {
    if e.dirent.RedirectEntry? then EntryAt(a, e.dirent.redirectIndex) else Ok(e)
  }

  /** The redirect walk of `get_item(true)` after `hops` steps. */
  function Follow(a: Archive, e: Entry, hops: nat): (r: Result<Entry>)
    ensures r.Ok? ==> r.value.dirent.ArticleEntry?
    decreases MAX_REDIRECTS + 1 - hops
  {
    if e.dirent.ArticleEntry? then Ok(e)
    else if hops + 1 > MAX_REDIRECTS then Err(RedirectLoop)
    else
      var next :- RedirectStep(a, e);
      Follow(a, next, hops + 1)
  }

  function GetItem(a: Archive, e: Entry, follow: bool): (r: Result<Entry>)
    ensures r.Ok? ==> r.value.dirent.ArticleEntry?
  {
    if !follow && e.dirent.RedirectEntry? then Err(NotAnItem) else Follow(a, e, 0)
  }

  function GetData(a: Archive, item: Entry): Result<Bytes>
    requires item.dirent.ArticleEntry?
  {
    var c :- ClusterUncached(a, item.dirent.cluster);
    Blob(c, item.dirent.blob)
  }

  function Mimetype(a: Archive, item: Entry): Bytes
    requires item.dirent.ArticleEntry?
  {
    if item.dirent.mimetype < |a.mimes| then a.mimes[item.dirent.mimetype] else OCTET_STREAM
  }

  // ---- Title listings ----

  /** Consecutive 4-byte fields; a rest shorter than 4 bytes is dropped. */
  function U32s(bytes: Bytes): (s: seq<nat>)
    ensures |s| == |bytes| / 4
  {
    seq(|bytes| / 4, i requires 0 <= i < |bytes| / 4 => UnLe(bytes[4 * i..4 * i + 4]))
  }

  function HeaderTitleListing(a: Archive): Result<seq<nat>> {
    var pos, len := a.header.titlePtrPos, a.header.entryCount * 4;
    if pos + len > |a.file| then Err(Truncated) else Ok(U32s(a.file[pos..pos + len]))
  }

  /** The listing stored at `X/path`, None when there is no such entry. */
  function NamedTitleListing(a: Archive, path: Bytes): Result<Option<seq<nat>>> {
    match ByPath(a, NS_INDEX, path)
    case Err(e) => if e == EntryNotFound then Ok(None) else Err(e)
    case Ok(entry) =>
      var item :- GetItem(a, entry, true);
      var bytes :- GetData(a, item);
      if |bytes| % 4 != 0 || |bytes| / 4 > a.header.entryCount then Err(Truncated) else Ok(Some(U32s(bytes)))
  }

  function LegacyTitleListing(a: Archive): Result<seq<nat>> {
    if a.header.titlePtrPos != U64_LIMIT - 1 then HeaderTitleListing(a)
    else
      var v0 :- NamedTitleListing(a, TITLE_V0);
      if v0.Some? then Ok(v0.value)
      else
        var plain :- NamedTitleListing(a, TITLE_UNVERSIONED);
        if plain.Some? then Ok(plain.value) else Err(EntryNotFound)
  }

  /** The listing used for title lookups: the v1 subset of a modern archive, else a full table. */
  function TitleListing(a: Archive): Result<seq<nat>> {
    if a.header.UsesNewNamespaces() then
      var v1 :- NamedTitleListing(a, TITLE_V1);
      if v1.Some? then Ok(v1.value) else LegacyTitleListing(a)
    else LegacyTitleListing(a)
  }

  /** An entry that is no redirect is its own item; a redirect is one only for those who follow it. */
  lemma UnfollowedExact(a: Archive, e: Entry)
    ensures GetItem(a, e, false) == if e.dirent.RedirectEntry? then Err(NotAnItem) else Ok(e)
    ensures e.dirent.ArticleEntry? ==> GetItem(a, e, true) == Ok(e)
  {
  }

  predicate Modern(a: Archive) {
    a.header.major > 6 || (a.header.major == 6 && a.header.minor >= 1)
  }

  /** Since version 6.1 the listing of front articles is used when there is one. Otherwise, and in older files at once, it is
      the table of the header, and where the header has none X/listing/titleOrdered/v0 and then X/listing/titleOrdered. */
  lemma TitleListingExact(a: Archive)
    ensures var v1, v0, plain := NamedTitleListing(a, TITLE_V1), NamedTitleListing(a, TITLE_V0), NamedTitleListing(a, TITLE_UNVERSIONED);
      var table := a.header.titlePtrPos != U64_LIMIT - 1;
      && (Modern(a) && v1.Err? ==> TitleListing(a) == Err(v1.error))
      && (Modern(a) && v1.Ok? && v1.value.Some? ==> TitleListing(a) == Ok(v1.value.value))
      && (!Modern(a) || v1 == Ok(None) ==>
            && (table ==> TitleListing(a) == HeaderTitleListing(a))
            && (!table && v0.Ok? && v0.value.Some? ==> TitleListing(a) == Ok(v0.value.value))
            && (!table && v0 == Ok(None) && plain.Ok? ==>
                  TitleListing(a) == if plain.value.Some? then Ok(plain.value.value) else Err(EntryNotFound)))
  {
    hide NamedTitleListing, HeaderTitleListing;
  }

  // ---- Well-formed archives ----

  /** The URL pointer table leads to exactly the dirents `ds`. */
  ghost predicate Holds(a: Archive, ds: seq<Dirent>) {
    |ds| == a.header.entryCount && forall i :: 0 <= i < |ds| ==> DirentAt(a, i) == Ok(ds[i])
  }

  ghost function Keys(ds: seq<Dirent>): (keys: seq<Key>)
    ensures |keys| == |ds|
  {
    seq(|ds|, i requires 0 <= i < |ds| => ds[i].Key())
  }

  lemma HeldKeys(a: Archive, ds: seq<Dirent>, i: nat)
    requires Holds(a, ds) && i < |ds|
    ensures PathKey(a, i) == Ok(ds[i].Key()) && TitleKey(a, i) == Ok(ds[i].TitleKey())
    ensures EntryAt(a, i) == Ok(Entry(i, ds[i]))
  {
    assert DirentAt(a, i) == Ok(ds[i]);
    ProbesAgree(a.file, UrlPointer(a, i).value);
  }

  /** In a sorted table a key smaller than the middle is not behind it, a greater one not before it. */
  lemma SortedAround(ds: seq<Dirent>, key: Key, mid: nat)
    requires Ascending(Keys(ds)) && mid < |ds|
    ensures CompareKey(key, ds[mid].Key()) == Less ==> forall i :: mid <= i < |ds| ==> ds[i].Key() != key
    ensures CompareKey(key, ds[mid].Key()) == Greater ==> forall i :: 0 <= i <= mid ==> ds[i].Key() != key
  {
    hide CompareKey;
    CompareKeyTotal(key, key);
    CompareKeyTotal(key, ds[mid].Key());
    forall i | 0 <= i < |ds| && ds[i].Key() == key
      ensures i < mid ==> CompareKey(key, ds[mid].Key()) != Greater
      ensures i > mid ==> CompareKey(key, ds[mid].Key()) != Less
    {
      assert i < mid ==> KeyLe(Keys(ds)[i], Keys(ds)[mid]);
      assert i > mid ==> KeyLe(Keys(ds)[mid], Keys(ds)[i]);
    }
  }

  lemma {:induction false} FindPathExact(a: Archive, ds: seq<Dirent>, key: Key, lo: nat, hi: nat)
    requires Holds(a, ds) && Ascending(Keys(ds)) && lo <= hi <= |ds|
    ensures match FindPath(a, key, lo, hi)
      case Ok(e) => lo <= e.index < hi && e == Entry(e.index, ds[e.index]) && e.dirent.Key() == key
      case Err(e) => e == EntryNotFound && forall i :: lo <= i < hi ==> ds[i].Key() != key
    decreases hi - lo
  {
    hide PathKey, EntryAt, CompareKey, DirentAt, Ascending, Keys, Holds, TitleKey;
    if lo < hi {
      var mid := lo + (hi - lo) / 2;
      HeldKeys(a, ds, mid);
      SortedAround(ds, key, mid);
      CompareKeyTotal(key, ds[mid].Key());
      if CompareKey(key, ds[mid].Key()) == Less {
        FindPathExact(a, ds, key, lo, mid);
      } else if CompareKey(key, ds[mid].Key()) == Greater {
        FindPathExact(a, ds, key, mid + 1, hi);
      }
    }
  }

  /** On sorted dirents the path lookup finds an entry with the key exactly when there is one. */
  lemma ByPathExact(a: Archive, ds: seq<Dirent>, ns: byte, url: Bytes)
    requires Holds(a, ds) && Ascending(Keys(ds))
    ensures match ByPath(a, ns, url)
      case Ok(e) => e.index < |ds| && e == Entry(e.index, ds[e.index]) && e.dirent.Key() == Key(ns, url)
      case Err(e) => e == EntryNotFound && forall i :: 0 <= i < |ds| ==> ds[i].Key() != Key(ns, url)
  {
    FindPathExact(a, ds, Key(ns, url), 0, |ds|);
  }
}
