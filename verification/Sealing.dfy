/** The image `finalize` lays out is well formed, and carries exactly the accepted entries: each dirent's type, cluster
    and blob exist, and the clusters hold the bodies that were accepted. */
module Sealing {
  import opened Outcome
  import opened Bytes
  import opened Text
  import opened Headers
  import opened Dirents
  import opened Clusters
  import opened Reader
  import opened Counting
  import opened MimeTypes
  import opened Layout
  import opened Extents
  import opened Sorting
  import opened Packing
  import opened Tables
  import opened Assembly
  import opened ReadBack
  import opened Gate

  /** The slots are filled and the type list fits. */
  ghost predicate Stocked(s: Settings, d: Draft) {
    SlotsOk(s, d) && InFlightOk(s, d) && PlansFit(s, d) && GoodList(d.mimes) && d.inFlight == None
  }

  function Seal(s: Settings, d: Draft, uuid: Bytes, titles: seq<nat>, offsets: seq<nat>, mainPage: nat): Image {
    Image(s.codec, uuid, d.mimes, d.dirents, titles, PlansOf(d), offsets, Slots(d), Parts(s.codec, d), mainPage)
  }

  /** Fewer than 2^32 entries and clusters, fewer than 2^32 blobs in each, and sizes below 2^64. */
  ghost predicate Small(img: Image) {
    && |img.dirents| < U32_LIMIT && |img.offsets| < U32_LIMIT && img.ChecksumPos() < U64_LIMIT
    && forall c :: 0 <= c < |img.plans| ==> GoodPlan(img.plans[c])
  }

  ghost predicate Finished(s: Settings, d: Draft, all: Contents) {
    && Stocked(s, d) && AllEncoded(s.codec, d)
    && Tabulates(d.mimes, d.plans, all, None, d.dirents) && AllLinked(all, d.dirents)
    && StrictlyAscending(DirentKeys(d.dirents))
  }

  lemma MimesFit(mimes: seq<Bytes>)
    requires GoodList(mimes)
    ensures |EncodeMimes(mimes)| <= MIME_LIST_RESERVE && GoodMimes(mimes)
  {
    EncodeMimesLen(mimes);
    hide ValidMime, Storable, EncodeMimes, ListLen;
    forall i | 0 <= i < |mimes|
      ensures mimes[i] != [] && Storable(mimes[i])
    {
      ValidMimeStorable(mimes[i]);
    }
  }

  /** A fitting dirent designates a listed type and an existing blob, and its strings can be stored. */
  lemma ArticlePlaced(d: Draft, all: Contents, a: RawDirent)
    requires Fits(d.mimes, d.plans, all, None, a) && a.Article?
    ensures a.mimeIdx < |d.mimes| && a.cluster < |d.plans| && a.blob < |PlansOf(d)[a.cluster].blobs|
    ensures Storable(a.url) && Storable(a.title) && (a.title == [] ==> a.url == [])
  {
    hide Storable;
  }

  lemma CompleteFits(s: Settings, d: Draft, all: Contents, i: nat)
    requires Finished(s, d, all) && i < |d.dirents|
    ensures Fits(d.mimes, d.plans, all, None, d.dirents[i]) && Linked(all, d.dirents, i) && |d.mimes| <= MIME_DELETED
  {
    hide SlotsOk, InFlightOk, PlansFit, AllEncoded, Linked, Fits, StrictlyAscending;
  }

  /** An article of the table has its type and its body. */
  lemma ArticleGood(s: Settings, d: Draft, all: Contents, img: Image, i: nat)
    requires Finished(s, d, all) && Small(img) && i < |d.dirents| && d.dirents[i].Article?
    requires img.mimes == d.mimes && img.plans == PlansOf(d) && img.dirents == d.dirents && |img.offsets| == |img.plans|
    ensures GoodDirent(img, d.dirents[i])
  {
    hide Finished, Fits, Storable, PayloadLen, PlansOf;
    CompleteFits(s, d, all, i);
    ArticlePlaced(d, all, d.dirents[i]);
    assert GoodPlan(img.plans[d.dirents[i].cluster]);
  }

  lemma RedirectGood(s: Settings, d: Draft, all: Contents, img: Image, i: nat)
    requires Finished(s, d, all) && Small(img) && i < |d.dirents| && d.dirents[i].Redirect?
    requires img.dirents == d.dirents
    ensures GoodDirent(img, d.dirents[i])
  {
    hide Finished, Storable, PayloadLen;
    CompleteFits(s, d, all, i);
    FitsKind(d.mimes, d.plans, all, None, d.dirents[i]);
  }

  /** `img` is what `finalize` lays out for the finished draft. */
  ghost predicate Sealed(s: Settings, d: Draft, img: Image) {
    && img == Seal(s, d, img.uuid, img.titles, img.offsets, img.mainPage)
    && |img.uuid| == 16 && (img.mainPage < |d.dirents| || img.mainPage == U32_MAX)
    && |img.titles| == |d.dirents| && InRange(img.titles, |d.dirents|)
    && |img.offsets| == |d.plans| && Placed(img.offsets, Slots(d), Parts(s.codec, d), |Slots(d)|)
  }

  lemma ClustersGood(s: Settings, d: Draft, img: Image)
    requires Stocked(s, d) && AllEncoded(s.codec, d) && Small(img) && Sealed(s, d, img)
    ensures GoodClusters(img)
  {
    PlacedLaid(s, d, img.offsets);
    hide SlotsOk, InFlightOk, PlansFit, GoodList, AllEncoded, Laid, Placed, Slots, Parts, PlansOf, EncodingOf, GoodPlan;
  }

  lemma DirentsGood(s: Settings, d: Draft, all: Contents, img: Image)
    requires Finished(s, d, all) && Small(img) && Sealed(s, d, img)
    ensures forall i :: 0 <= i < |img.dirents| ==> GoodDirent(img, img.dirents[i])
  {
    assert img.mimes == d.mimes && img.plans == PlansOf(d) && img.dirents == d.dirents && |img.offsets| == |img.plans|;
    hide Finished, Small, Sealed, GoodDirent;
    forall i | 0 <= i < |img.dirents|
      ensures GoodDirent(img, img.dirents[i])
    {
      if img.dirents[i].Article? {
        ArticleGood(s, d, all, img, i);
      } else {
        RedirectGood(s, d, all, img, i);
      }
    }
  }

  lemma SealSized(s: Settings, d: Draft, img: Image)
    requires Stocked(s, d) && Sealed(s, d, img)
    ensures Sized(img) && GoodMimes(img.mimes)
  {
    MimesFit(d.mimes);
    hide SlotsOk, InFlightOk, PlansFit, GoodList, Placed, Slots, Parts, PlansOf, EncodeMimes, GoodMimes;
  }

  lemma CompleteParts(s: Settings, d: Draft, all: Contents)
    requires Finished(s, d, all)
    ensures Stocked(s, d) && AllEncoded(s.codec, d) && StrictlyAscending(DirentKeys(d.dirents))
    ensures Tabulates(d.mimes, d.plans, all, None, d.dirents) && AllLinked(all, d.dirents)
  {
    hide Stocked, AllEncoded, StrictlyAscending, Tabulates, AllLinked;
  }

  lemma SealedParts(s: Settings, d: Draft, img: Image)
    requires Sealed(s, d, img)
    ensures img.dirents == d.dirents && img.mimes == d.mimes && img.plans == PlansOf(d)
    ensures img.mainPage < |d.dirents| || img.mainPage == U32_MAX
    ensures |img.titles| == |d.dirents| && InRange(img.titles, |d.dirents|)
  {
    hide Placed, Slots, Parts, PlansOf;
  }

  lemma SealGood(s: Settings, d: Draft, all: Contents, img: Image)
    requires Finished(s, d, all) && Small(img) && Sealed(s, d, img)
    ensures Good(img)
  {
    hide Finished, Sealed, Stocked, AllEncoded, StrictlyAscending, GoodDirent, GoodClusters, GoodMimes, Sized, TotalLen, Join, PlansOf,
      GoodPlan, Tabulates, AllLinked;
    CompleteParts(s, d, all);
    SealedParts(s, d, img);
    ClustersGood(s, d, img);
    SealSized(s, d, img);
    DirentsGood(s, d, all, img);
  }

  /** The sealed image carries exactly `all`, in clusters of one blob or within the target, and of no more blobs than
      there are entries. */
  lemma SealCarries(s: Settings, d: Draft, all: Contents, img: Image)
    requires Finished(s, d, all) && Small(img) && Sealed(s, d, img)
    ensures Carries(img, all) && WithinTarget(img.plans, s.target) && FewBlobs(img.plans, |img.dirents|)
  {
    hide Finished, Sealed, Good, SlotsOk, InFlightOk, PlansFit, GoodList, AllEncoded, Tabulates, AllLinked, StrictlyAscending, WithinTarget,
      FewBlobs, PlansOf, Small;
    SealGood(s, d, all, img);
    CompleteParts(s, d, all);
    SealedParts(s, d, img);
    PresentPlans(s, d);
    PlansWithin(s, d);
  }

  lemma PlansWithin(s: Settings, d: Draft)
    requires PlansFit(s, d)
    ensures WithinTarget(PlansOf(d), s.target) && FewBlobs(PlansOf(d), |d.dirents|)
  {
    hide Join;
    forall c | 0 <= c < |d.plans|
      ensures |PlansOf(d)[c].blobs| > 1 ==> |JoinAll(PlansOf(d)[c].blobs)| <= s.target
      ensures |PlansOf(d)[c].blobs| <= |d.dirents|
    {
      assert PlanSized(s, d.plans[c], |d.dirents|);
    }
  }
}
