/** The checks that end `finalize` accept every archive it writes, unless the caller added a title listing: sorted
    tables, readable dirents, listed types, clusters in the file. */
module Gate {
  import opened Outcome
  import opened Bytes
  import opened Text
  import opened Headers
  import opened Dirents
  import opened Clusters
  import opened Reader
  import opened Counting
  import opened Layout
  import opened Sorting
  import opened Packing
  import opened Tables
  import opened ReadBack
  import opened Checks

  // ---- The header's title table ----

  lemma TitleKeysAgree(img: Image, i: nat)
    requires Good(img) && i < |img.dirents|
    ensures Views(img.dirents)[i].TitleKey() == TitleKeysOf(img.dirents)[i]
    ensures Views(img.dirents)[i].ns == img.dirents[i].ns
  {
    GoodAt(img, i);
    ViewKeys(img.dirents[i]);
    hide Good, GoodDirent;
  }

  /** Entry numbers sorted by title key are a listing in title order. */
  lemma SortedTitles(img: Image, listing: seq<nat>)
    requires Good(img) && InRange(listing, |img.dirents|) && Distinct(listing) && Sorted(TitleKeysOf(img.dirents), listing)
    ensures TitleSorted(Views(img.dirents), listing)
  {
    hide Good, CompareKey, View;
    var ds := Views(img.dirents);
    forall i, j | 0 <= i < j < |listing|
      ensures KeyLe(TitleKeys(ds, listing)[i], TitleKeys(ds, listing)[j])
    {
      assert Before(TitleKeysOf(img.dirents), listing[i], listing[j]);
      TitleKeysAgree(img, listing[i]);
      TitleKeysAgree(img, listing[j]);
      CompareKeyTotal(TitleKeysOf(img.dirents)[listing[i]], TitleKeysOf(img.dirents)[listing[j]]);
    }
  }

  lemma TablesInFile(img: Image, f: Bytes)
    requires Good(img) && Written(img, f)
    ensures var h := ArchiveOf(img, f).header;
      h.urlPtrPos + h.entryCount * 8 <= |f| && h.titlePtrPos + h.entryCount * 4 <= |f| && h.entryCount == |img.dirents|
  {
    hide Good, At, EncodeHeader, TotalLen, Join, Table, EncodeDirents;
  }

  lemma ListingAccepted(img: Image, f: Bytes, listing: seq<nat>, subset: bool)
    requires Good(img) && Written(img, f)
    requires InRange(listing, |img.dirents|) && Distinct(listing) && Sorted(TitleKeysOf(img.dirents), listing)
    requires subset || |listing| == |img.dirents|
    requires subset ==> forall i :: 0 <= i < |listing| ==> img.dirents[listing[i]].ns == NS_CONTENT
    ensures ValidListing(ArchiveOf(img, f), listing, subset)
  {
    HoldsViews(img, f);
    SortedTitles(img, listing);
    TablesInFile(img, f);
    hide Written, Good, Sorted, Distinct, View;
    forall i | 0 <= i < |listing|
      ensures subset ==> Views(img.dirents)[listing[i]].ns == NS_CONTENT
    {
      TitleKeysAgree(img, listing[i]);
    }
    SortedIsValid(ArchiveOf(img, f), Views(img.dirents), listing, subset);
  }

  lemma {:induction false} U32sOfTable(file: Bytes, off: nat, values: seq<nat>, i: nat)
    requires i < |values| && At(file, off, Table(values, false, |values|)) && values[i] < U32_LIMIT
    ensures off + 4 * |values| <= |file|
    ensures U32s(file[off..off + 4 * |values|])[i] == values[i]
  {
    hide Table, UnLe;
    TableEntry(file, off, values, false, |values|, i);
    SliceWithin(file, off, off + 4 * |values|, 4 * i, 4 * i + 4);
  }

  lemma U32sCount(file: Bytes, off: nat, n: nat)
    requires off + 4 * n <= |file|
    ensures |U32s(file[off..off + 4 * n])| == n
  {
    hide U32s;
  }

  lemma SameSeq(a: seq<nat>, b: seq<nat>)
    requires |a| == |b| && forall i :: 0 <= i < |a| ==> a[i] == b[i]
    ensures a == b
  {
  }

  lemma TableFits(file: Bytes, off: nat, values: seq<nat>)
    requires At(file, off, Table(values, false, |values|))
    ensures off + 4 * |values| <= |file|
  {
    hide Table;
  }

  lemma U32sAre(file: Bytes, off: nat, values: seq<nat>)
    requires At(file, off, Table(values, false, |values|)) && forall i :: 0 <= i < |values| ==> values[i] < U32_LIMIT
    ensures off + 4 * |values| <= |file| && U32s(file[off..off + 4 * |values|]) == values
  {
    hide *;
    TableFits(file, off, values);
    U32sCount(file, off, |values|);
    var got := U32s(file[off..off + 4 * |values|]);
    forall i | 0 <= i < |got|
      ensures got[i] == values[i]
    {
      U32sOfTable(file, off, values, i);
    }
    SameSeq(got, values);
  }

  lemma TitleTable(img: Image, f: Bytes)
    requires Good(img) && Written(img, f)
    ensures |img.titles| == |img.dirents| && At(f, img.TitlePtrPos(), Table(img.titles, false, |img.titles|))
    ensures forall i :: 0 <= i < |img.titles| ==> img.titles[i] < U32_LIMIT
  {
    hide At, Table, EncodeHeader, EncodeMimes, EncodeDirents, Join, TotalLen, GoodClusters, GoodMimes, GoodDirent, StrictlyAscending;
  }

  lemma HeaderTitles(img: Image, f: Bytes)
    requires Good(img) && Written(img, f)
    ensures HeaderTitleListing(ArchiveOf(img, f)) == Ok(img.titles)
  {
    hide Good, Written, U32s, Table, At, TotalLen, Join;
    TablesInFile(img, f);
    TitleTable(img, f);
    U32sAre(f, img.TitlePtrPos(), img.titles);
  }

  // ---- Named listings ----

  lemma AbsentListing(img: Image, all: Contents, f: Bytes, path: Bytes)
    requires Carries(img, all) && Written(img, f) && Key(NS_INDEX, path) !in all
    ensures NamedTitleListing(ArchiveOf(img, f), path) == Ok(None)
  {
    hide Good, Written, ByPath, View, Tabulates;
    HoldsViews(img, f);
    ViewsAscend(img);
    ByPathExact(ArchiveOf(img, f), Views(img.dirents), NS_INDEX, path);
    forall i | 0 <= i < |img.dirents|
      ensures Views(img.dirents)[i].Key() != Key(NS_INDEX, path)
    {
      assert Keys(Views(img.dirents))[i] == DirentKeys(img.dirents)[i];
      KeyIn(all, img.dirents, i);
    }
  }

  ghost predicate StoresListing(all: Contents, listing: seq<nat>) {
    && LISTING in all && all[LISTING].Body? && all[LISTING].comp == Raw
    && all[LISTING].content == Table(listing, false, |listing|)
  }

  lemma ListingBytes(img: Image, all: Contents, f: Bytes, i: nat)
    requires Carries(img, all) && Written(img, f) && i < |img.dirents| && img.dirents[i].Key() == LISTING
    requires LISTING in all && all[LISTING].Body? && all[LISTING].comp == Raw
    ensures View(img.dirents[i]).ArticleEntry?
    ensures GetData(ArchiveOf(img, f), Entry(i, View(img.dirents[i]))) == Ok(all[LISTING].content)
  {
    FitsAt(img.mimes, Present(img.plans), all, None, img.dirents, i);
    FitsKind(img.mimes, Present(img.plans), all, None, img.dirents[i]);
    ReadsContent(img, all, f, i);
    hide Carries, Written, ClusterUncached, Blob, PayloadLen;
  }

  lemma FindsListing(img: Image, all: Contents, f: Bytes) returns (i: nat)
    requires Carries(img, all) && Written(img, f) && LISTING in all && all[LISTING].Body? && all[LISTING].comp == Raw
    ensures i < |img.dirents| && ByPath(ArchiveOf(img, f), NS_INDEX, TITLE_V1) == Ok(Entry(i, View(img.dirents[i])))
    ensures View(img.dirents[i]).ArticleEntry?
    ensures GetData(ArchiveOf(img, f), Entry(i, View(img.dirents[i]))) == Ok(all[LISTING].content)
  {
    FitsAll(img.mimes, Present(img.plans), all, None, img.dirents);
    i := IndexOf(img.dirents, LISTING);
    hide Carries, Written, ByPath, View, GetData;
    Finds(img, all, f, i);
    ListingBytes(img, all, f, i);
  }

  lemma CarriesGood(img: Image, all: Contents)
    requires Carries(img, all)
    ensures Good(img) && |img.dirents| < U32_LIMIT
  {
    hide Tabulates, AllLinked, GoodClusters, GoodMimes, GoodDirent, StrictlyAscending;
  }

  lemma ListingDecodes(listing: seq<nat>, n: nat)
    requires InRange(listing, n) && n < U32_LIMIT
    ensures var bytes := Table(listing, false, |listing|); |bytes| == 4 * |listing| && U32s(bytes) == listing
  {
    hide Table, U32s, At;
    var bytes := Table(listing, false, |listing|);
    AtWhole(bytes);
    U32sAre(bytes, 0, listing);
    assert bytes[0..0 + 4 * |listing|] == bytes;
  }

  /** The generated listing is read back as the entry numbers that were written. */
  lemma PresentListing(img: Image, all: Contents, f: Bytes, listing: seq<nat>)
    requires Carries(img, all) && Written(img, f) && StoresListing(all, listing)
    requires InRange(listing, |img.dirents|) && Distinct(listing)
    ensures NamedTitleListing(ArchiveOf(img, f), TITLE_V1) == Ok(Some(listing))
  {
    hide Carries, Written, ByPath, View, GetData, Table, U32s, At;
    CarriesGood(img, all);
    var a, bytes := ArchiveOf(img, f), Table(listing, false, |listing|);
    var i := FindsListing(img, all, f);
    DistinctBelow(listing, |img.dirents|);
    ListingDecodes(listing, |img.dirents|);
    hide Carries;
    assert Follow(a, Entry(i, View(img.dirents[i])), 0) == Ok(Entry(i, View(img.dirents[i])));
  }

  lemma DistinctBelow(ids: seq<nat>, n: nat)
    requires InRange(ids, n) && Distinct(ids)
    ensures |ids| <= n
  {
    DistinctSize(ids);
    var members := set x | x in ids;
    SubsetSize(members, Upto(n));
  }

  // ---- The five checks ----

  lemma DirentsPass(img: Image, f: Bytes)
    requires Good(img) && Written(img, f)
    ensures DirentsOk(ArchiveOf(img, f)) && MimesOk(ArchiveOf(img, f)) && ClusterPtrsOk(ArchiveOf(img, f))
  {
    var a := ArchiveOf(img, f);
    hide Good, Written, DirentAt, UrlPointer, ClusterPointer;
    forall i: nat | i < a.header.entryCount
      ensures DirentOk(a, i) && MimeOk(a, i)
    {
      ReadsPointer(img, f, i);
      ReadsDirent(img, f, i);
      GoodAt(img, i);
    }
    forall c: nat | c < a.header.clusterCount
      ensures ClusterPtrOk(a, c)
    {
      ReadsOffset(img, f, c);
    }
  }

  lemma OrderPasses(img: Image, f: Bytes)
    requires Good(img) && Written(img, f)
    ensures KeysOrdered(ArchiveOf(img, f))
  {
    var a, ds := ArchiveOf(img, f), Views(img.dirents);
    HoldsViews(img, f);
    ViewsAscend(img);
    hide *;
    AscendingPasses(a, ds);
  }

  /** The caller brought no title listing. */
  predicate NoOtherListing(all: Contents) {
    Key(NS_INDEX, TITLE_V0) !in all && Key(NS_INDEX, TITLE_UNVERSIONED) !in all
  }

  lemma NamedPass(img: Image, all: Contents, f: Bytes, listing: seq<nat>)
    requires Carries(img, all) && Written(img, f) && StoresListing(all, listing) && IsListing(all, img.dirents, listing)
    ensures NamedOk(ArchiveOf(img, f), TITLE_V1, true) && Listed(ArchiveOf(img, f), TITLE_V1)
  {
    hide Good, Written, NamedTitleListing, ValidListing, Tabulates, AllLinked, Sorted, Eligible, Distinct, StoresListing;
    PresentListing(img, all, f, listing);
    forall k | 0 <= k < |listing|
      ensures img.dirents[listing[k]].ns == NS_CONTENT
    {
      assert listing[k] in listing;
      assert Page(all, img.dirents, listing[k]);
    }
    ListingAccepted(img, f, listing, true);
  }

  ghost predicate TitlesSorted(img: Image) {
    |img.titles| == |img.dirents| && InRange(img.titles, |img.dirents|) && Distinct(img.titles)
    && Sorted(TitleKeysOf(img.dirents), img.titles)
  }

  lemma TitlesPass(img: Image, all: Contents, f: Bytes, listing: seq<nat>)
    requires Carries(img, all) && Written(img, f) && NoOtherListing(all) && TitlesSorted(img)
    requires StoresListing(all, listing) && IsListing(all, img.dirents, listing)
    ensures TitlesOk(ArchiveOf(img, f)) && SomeListing(ArchiveOf(img, f))
  {
    hide Carries, Good, Written, NamedTitleListing, ValidListing, HeaderTitleListing, Sorted, Distinct, IsListing, StoresListing;
    CarriesGood(img, all);
    NamedPass(img, all, f, listing);
    HeaderTitles(img, f);
    AbsentListing(img, all, f, TITLE_V0);
    AbsentListing(img, all, f, TITLE_UNVERSIONED);
    ListingAccepted(img, f, img.titles, false);
  }

  /** The finished file passes every check. */
  lemma GatePasses(img: Image, all: Contents, f: Bytes, listing: seq<nat>)
    requires Carries(img, all) && Written(img, f) && NoOtherListing(all) && TitlesSorted(img)
    requires StoresListing(all, listing) && IsListing(all, img.dirents, listing)
    ensures Sound(ArchiveOf(img, f))
  {
    DirentsPass(img, f);
    OrderPasses(img, f);
    TitlesPass(img, all, f, listing);
    hide Carries, Written, DirentsOk, KeysOrdered, TitlesOk, SomeListing, ClusterPtrsOk, MimesOk;
  }
}
