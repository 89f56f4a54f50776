/** Putting the finished archive together: the flushed draft and the redirects as one dirent table, the listing's
    cluster, and the clusters in file order. */
module Assembly {
  import opened Outcome
  import opened Bytes
  import opened Text
  import opened Headers
  import opened Dirents
  import opened Clusters
  import opened Reader
  import opened Counting
  import opened MimeTypes
  import opened Layout
  import opened Extents
  import opened Sorting
  import opened Packing
  import opened Tables
  import opened ReadBack
  import Pipeline

  // ---- The dirent table ----

  ghost predicate AllFlushed(d: Draft) {
    d.inFlight == None && forall key :: key in d.buckets ==> d.buckets[key].blobs == []
  }

  lemma CommittedHas(s: Settings, d: Draft, r: Record, k: Key)
    requires Faithful(s, d, r) && AllFlushed(d) && k in r.pushed
    ensures Has(d.dirents, k) && StoredOk(k, r.pushed[k])
  {
    hide PlansFit, SlotsOk, InFlightOk, GoodList, DirentsFit, StoredOk;
    assert Located(d, r, k);
    if r.at[k].InBucket? {
      NothingPending(s, d, r, r.at[k].key);
    } else {
      assert d.dirents[r.at[k].i].Key() == k;
    }
  }

  lemma NothingPending(s: Settings, d: Draft, r: Record, key: Bytes)
    requires BucketsFit(s, d, r) && AllFlushed(d) && key in d.buckets
    ensures d.buckets[key].pending == []
  {
    assert BucketOk(s, d.mimes, r, key, d.buckets[key]);
  }

  lemma CommittedAt(s: Settings, d: Draft, r: Record, i: nat)
    requires Faithful(s, d, r) && i < |d.dirents|
    ensures var k := d.dirents[i].Key(); k in r.pushed && k in r.at && r.at[k] == Committed(i)
                                         && ArticleFits(d.mimes, d.plans, r.pushed[k], d.dirents[i])
  {
    hide RecordsOk, BucketsFit, PlansFit, SlotsOk, InFlightOk, GoodList, PlanHolds;
    assert CommittedOk(d, r, i);
  }

  /** Once every bucket is flushed the dirents are the accepted items, one each. */
  lemma FlushedTabulates(s: Settings, d: Draft, r: Record)
    requires Faithful(s, d, r) && AllFlushed(d)
    ensures Tabulates(d.mimes, d.plans, r.pushed, None, d.dirents)
  {
    hide Faithful, AllFlushed, ArticleFits, StoredOk;
    forall k | k in r.pushed
      ensures Has(d.dirents, k) && StoredOk(k, r.pushed[k])
    {
      CommittedHas(s, d, r, k);
    }
    forall i | 0 <= i < |d.dirents|
      ensures Fits(d.mimes, d.plans, r.pushed, None, d.dirents[i])
    {
      CommittedAt(s, d, r, i);
    }
    forall i, j | 0 <= i < j < |d.dirents|
      ensures d.dirents[i].Key() != d.dirents[j].Key()
    {
      CommittedAt(s, d, r, i);
      CommittedAt(s, d, r, j);
    }
  }

  /** One more dirent for one more entry. */
  lemma AddDirent(mimes: seq<Bytes>, plans: seq<Option<Plan>>, all: Contents, hole: Option<Key>, ds: seq<RawDirent>,
                  a: RawDirent, st: Stored, hole': Option<Key>)
    requires Tabulates(mimes, plans, all, hole, ds) && a.Key() !in all
    requires hole' == hole || (hole == None && hole' == Some(a.Key()))
    requires Fits(mimes, plans, all[a.Key() := st], hole', a)
    ensures Tabulates(mimes, plans, all[a.Key() := st], hole', ds + [a])
  {
    var all' := all[a.Key() := st];
    hide ArticleFits, StoredOk;
    forall i | 0 <= i < |ds|
      ensures Fits(mimes, plans, all', hole', ds[i]) && ds[i].Key() != a.Key()
    {
      assert Fits(mimes, plans, all, hole, ds[i]);
    }
    hide Fits;
    forall k | k in all'
      ensures Has(ds + [a], k)
    {
      if k == a.Key() {
        assert (ds + [a])[|ds|].Key() == k;
      } else {
        var i := IndexOf(ds, k);
        assert (ds + [a])[i].Key() == k;
      }
    }
  }

  // ---- The listing's cluster ----

  /** The same entries with the same titles, types and targets; bodies may differ. */
  ghost predicate SameShape(all: Contents, all': Contents) {
    && all.Keys == all'.Keys
    && forall k :: k in all ==> SameKind(all[k], all'[k])
  }

  ghost predicate SameKind(a: Stored, b: Stored) {
    a.title == b.title && (if a.Alias? then b == a else b.Body? && b.mime == a.mime)
  }

  lemma {:induction false} SameChase(all: Contents, all': Contents, k: Key, n: nat)
    requires SameShape(all, all')
    ensures Chase(all, k, n) == Chase(all', k, n)
  {
    if n > 0 {
      SameChase(all, all', k, n - 1);
    }
  }

  lemma SameEligible(all: Contents, all': Contents, k: Key)
    requires SameShape(all, all')
    ensures Eligible(all, k) <==> Eligible(all', k)
  {
    hide PageType;
    if Eligible(all, k) {
      var t, n: nat :| Reaches(all, k, t, n) && t.ns == NS_CONTENT && PageType(all[t].mime);
      SameChase(all, all', k, n);
      assert SameKind(all[t], all'[t]);
      assert Reaches(all', k, t, n);
    }
    if Eligible(all', k) {
      var t, n: nat :| Reaches(all', k, t, n) && t.ns == NS_CONTENT && PageType(all'[t].mime);
      SameChase(all, all', k, n);
      assert SameKind(all[t], all'[t]);
      assert Reaches(all, k, t, n);
    }
  }

  lemma SameGrounded(all: Contents, all': Contents)
    requires SameShape(all, all') && Grounded(all)
    ensures Grounded(all')
  {
    forall k | k in all'
      ensures Rests(all', k)
    {
      assert Rests(all, k);
      var t, n: nat :| Reaches(all, k, t, n);
      SameChase(all, all', k, n);
      assert SameKind(all[t], all'[t]);
      assert Reaches(all', k, t, n);
    }
  }

  ghost predicate SameTitles(ds: seq<RawDirent>, ds': seq<RawDirent>) {
    |ds| == |ds'| && forall i :: 0 <= i < |ds| ==> ds'[i].Key() == ds[i].Key() && ds'[i].TitleKey() == ds[i].TitleKey()
  }

  lemma SameListing(all: Contents, all': Contents, ds: seq<RawDirent>, ds': seq<RawDirent>, listing: seq<nat>)
    requires SameShape(all, all') && SameTitles(ds, ds') && IsListing(all, ds, listing)
    ensures IsListing(all', ds', listing)
  {
    hide SameShape, Eligible, Sorted;
    assert TitleKeysOf(ds') == TitleKeysOf(ds);
    forall i: nat | i < |ds'|
      ensures Page(all', ds', i) <==> i in listing
    {
      assert Page(all, ds, i) <==> i in listing;
      SameEligible(all, all', ds[i].Key());
    }
  }

  /** Gives the reserved listing entry its cluster: index `|plans|`, blob 0. */
  function Filled(ds: seq<RawDirent>, pos: nat, cluster: nat): seq<RawDirent>
    requires pos < |ds| && ds[pos].Article?
  {
    ds[pos := ds[pos].(cluster := cluster)]
  }

  function ListingEntry(listing: seq<nat>): Stored {
    Body(TITLE_V1, ZIM_LISTING, Table(listing, false, |listing|), Raw)
  }

  ghost predicate Reserved(all: Contents, ds: seq<RawDirent>, pos: nat) {
    && pos < |ds| && ds[pos].Key() == LISTING && ds[pos].Article? && ds[pos].blob == 0
    && LISTING in all && all[LISTING].Body? && all[LISTING].title == TITLE_V1 && all[LISTING].mime == ZIM_LISTING
  }

  function WithListing(plans: seq<Option<Plan>>, listing: seq<nat>): seq<Option<Plan>> {
    plans + [Some(Plan([Table(listing, false, |listing|)], Raw))]
  }

  lemma StillFits(mimes: seq<Bytes>, plans: seq<Option<Plan>>, all: Contents, a: RawDirent, listing: seq<nat>)
    requires Fits(mimes, plans, all, Some(LISTING), a) && a.Key() != LISTING
    ensures Fits(mimes, WithListing(plans, listing), all[LISTING := ListingEntry(listing)], None, a)
  {
    hide Table, StoredOk, ListingEntry;
  }

  lemma ListingFits(mimes: seq<Bytes>, plans: seq<Option<Plan>>, all: Contents, a: RawDirent, listing: seq<nat>)
    requires Fits(mimes, plans, all, Some(LISTING), a) && a.Key() == LISTING && a.blob == 0 && a.Article?
    requires all[LISTING].Body? && all[LISTING].title == TITLE_V1 && all[LISTING].mime == ZIM_LISTING
    ensures Fits(mimes, WithListing(plans, listing), all[LISTING := ListingEntry(listing)], None, a.(cluster := |plans|))
  {
    hide Table, Storable;
  }

  lemma FilledFits(mimes: seq<Bytes>, plans: seq<Option<Plan>>, all: Contents, ds: seq<RawDirent>, pos: nat, listing: seq<nat>, i: nat)
    requires Tabulates(mimes, plans, all, Some(LISTING), ds) && Reserved(all, ds, pos) && i < |ds|
    ensures Fits(mimes, WithListing(plans, listing), all[LISTING := ListingEntry(listing)], None, Filled(ds, pos, |plans|)[i])
    ensures Filled(ds, pos, |plans|)[i].Key() == ds[i].Key()
  {
    FitsAt(mimes, plans, all, Some(LISTING), ds, i);
    FitsAll(mimes, plans, all, Some(LISTING), ds);
    hide Tabulates, Fits, WithListing, ListingEntry;
    if ds[i].Key() == LISTING {
      SameKey(ds, i, pos);
      ListingFits(mimes, plans, all, ds[i], listing);
    } else {
      StillFits(mimes, plans, all, ds[i], listing);
    }
  }

  /** The filled table has the listing under its key and everything else as before. */
  lemma FilledTabulates(mimes: seq<Bytes>, plans: seq<Option<Plan>>, all: Contents, ds: seq<RawDirent>, pos: nat, listing: seq<nat>)
    requires Tabulates(mimes, plans, all, Some(LISTING), ds) && Reserved(all, ds, pos)
    ensures Tabulates(mimes, WithListing(plans, listing), all[LISTING := ListingEntry(listing)], None, Filled(ds, pos, |plans|))
  {
    var out := Filled(ds, pos, |plans|);
    var all' := all[LISTING := ListingEntry(listing)];
    FitsAll(mimes, plans, all, Some(LISTING), ds);
    hide Fits, ListingEntry, WithListing;
    forall i | 0 <= i < |out|
      ensures Fits(mimes, WithListing(plans, listing), all', None, out[i]) && out[i].Key() == ds[i].Key()
    {
      FilledFits(mimes, plans, all, ds, pos, listing, i);
    }
    hide Tabulates, Filled;
    TabulatesLike(mimes, WithListing(plans, listing), all', ds, out);
  }

  lemma TabulatesLike(mimes: seq<Bytes>, plans: seq<Option<Plan>>, all: Contents, ds: seq<RawDirent>, out: seq<RawDirent>)
    requires DistinctKeys(ds) && forall k :: k in all ==> Has(ds, k)
    requires |out| == |ds| && forall i :: 0 <= i < |out| ==> out[i].Key() == ds[i].Key() && Fits(mimes, plans, all, None, out[i])
    ensures Tabulates(mimes, plans, all, None, out)
  {
    hide Fits;
    forall k | k in all
      ensures Has(out, k)
    {
      var i := IndexOf(ds, k);
      assert out[i].Key() == k;
    }
  }

  lemma FilledShape(all: Contents, ds: seq<RawDirent>, pos: nat, cluster: nat, listing: seq<nat>)
    requires Reserved(all, ds, pos)
    ensures SameShape(all, all[LISTING := ListingEntry(listing)]) && SameTitles(ds, Filled(ds, pos, cluster))
  {
    hide Table;
  }

  lemma FilledLinked(all: Contents, ds: seq<RawDirent>, pos: nat, cluster: nat, listing: seq<nat>)
    requires AllLinked(all, ds) && Reserved(all, ds, pos)
    ensures AllLinked(all[LISTING := ListingEntry(listing)], Filled(ds, pos, cluster))
  {
    var all', out := all[LISTING := ListingEntry(listing)], Filled(ds, pos, cluster);
    hide Table;
    assert forall i :: 0 <= i < |ds| ==> out[i].Key() == ds[i].Key();
    forall i | 0 <= i < |out|
      ensures Linked(all', out, i)
    {
      assert Linked(all, ds, i);
    }
    forall k | k in all'
      ensures Has(out, k)
    {
      var i := IndexOf(ds, k);
      assert out[i].Key() == k;
    }
  }

  // ---- The clusters in file order ----

  /** The bytes of the finished scratch files. */
  function TaskBytes(tasks: seq<Task>): (s: seq<Bytes>)
    ensures |s| == |tasks|
  {
    seq(|tasks|, i requires 0 <= i < |tasks| => tasks[i].result.GetOr([]))
  }

  /** Pipeline clusters in submission order, then the streamed ones. */
  function Parts(codec: Codec, d: Draft): (s: seq<Bytes>)
    ensures |s| == |d.jobs| + |d.tasks|
  {
    Pipeline.Encodings(codec, d.jobs) + TaskBytes(d.tasks)
  }

  /** The first `n` clusters are recorded at the offsets at which they lie. */
  ghost predicate Placed(offsets: seq<nat>, order: seq<nat>, parts: seq<Bytes>, n: nat) {
    && |order| == |parts| && n <= |order|
    && forall k: nat :: k < n ==> PlacedAt(offsets, order, parts, k)
  }

  ghost predicate PlacedAt(offsets: seq<nat>, order: seq<nat>, parts: seq<Bytes>, k: nat)
    requires k < |order| == |parts|
  {
    order[k] < |offsets| && offsets[order[k]] == CLUSTERS_POS + |Join(parts, k)|
  }

  lemma PlaceNext(offsets: seq<nat>, order: seq<nat>, parts: seq<Bytes>, n: nat)
    requires Placed(offsets, order, parts, n) && n < |order| && Distinct(order) && order[n] < |offsets|
    ensures Placed(offsets[order[n] := CLUSTERS_POS + |Join(parts, n)|], order, parts, n + 1)
  {
    var offsets' := offsets[order[n] := CLUSTERS_POS + |Join(parts, n)|];
    hide Join;
    forall k: nat | k < n + 1
      ensures PlacedAt(offsets', order, parts, k)
    {
      assert k < n ==> PlacedAt(offsets, order, parts, k);
    }
  }

  ghost predicate AllEncoded(codec: Codec, d: Draft) {
    && (forall i :: 0 <= i < |d.jobs| ==> EncodeCluster(codec, d.jobs[i].blobs, d.jobs[i].comp).Ok?)
    && (forall i :: 0 <= i < |d.tasks| ==> d.tasks[i].result.Ok?)
  }

  function PlansOf(d: Draft): (s: seq<Plan>)
    ensures |s| == |d.plans|
  {
    seq(|d.plans|, c requires 0 <= c < |d.plans| => if d.plans[c].Some? then d.plans[c].value else Plan([], Raw))
  }

  lemma PresentPlans(s: Settings, d: Draft)
    requires InFlightOk(s, d) && d.inFlight == None
    ensures Present(PlansOf(d)) == d.plans
  {
  }

  lemma JobEncodes(s: Settings, d: Draft, i: nat)
    requires SlotsOk(s, d) && AllEncoded(s.codec, d) && i < |d.jobs|
    ensures var j := d.jobs[i]; j.idx < |d.plans| && d.plans[j.idx] == Some(Plan(j.blobs, j.comp))
                                && EncodingOf(s.codec, Pipeline.Encodings(s.codec, d.jobs)[i], j.blobs, j.comp)
  {
    EncodeClusterEncodes(s.codec, d.jobs[i].blobs, d.jobs[i].comp);
    hide EncodingOf, EncodeCluster, Distinct;
    assert JobFits(d.plans, d.jobs[i]);
  }

  lemma TaskEncodes(s: Settings, d: Draft, i: nat)
    requires SlotsOk(s, d) && AllEncoded(s.codec, d) && i < |d.tasks|
    ensures var t := d.tasks[i];
      && t.clusterIdx < |d.plans| && d.plans[t.clusterIdx].Some?
      && EncodingOf(s.codec, TaskBytes(d.tasks)[i], d.plans[t.clusterIdx].value.blobs, d.plans[t.clusterIdx].value.comp)
  {
    hide EncodingOf, EncodeCluster, Distinct;
    assert TaskFits(s.codec, d.plans, d.tasks[i]);
  }

  lemma PartEncodes(s: Settings, d: Draft, k: nat)
    requires SlotsOk(s, d) && AllEncoded(s.codec, d) && k < |Slots(d)|
    ensures Slots(d)[k] < |d.plans| && d.plans[Slots(d)[k]].Some?
    ensures var p := PlansOf(d)[Slots(d)[k]]; EncodingOf(s.codec, Parts(s.codec, d)[k], p.blobs, p.comp)
    ensures Parts(s.codec, d)[k] != []
  {
    hide SlotsOk, AllEncoded, EncodingOf;
    if k < |d.jobs| {
      JobEncodes(s, d, k);
    } else {
      TaskEncodes(s, d, k - |d.jobs|);
    }
    NonEmptyEncoding(s.codec, Parts(s.codec, d)[k], PlansOf(d)[Slots(d)[k]]);
  }

  lemma NonEmptyEncoding(codec: Codec, raw: Bytes, p: Plan)
    requires EncodingOf(codec, raw, p.blobs, p.comp)
    ensures raw != []
  {
  }

  /** Once every slot is placed the clusters are laid out as the reader expects, each holding its plan. */
  lemma PlacedLaid(s: Settings, d: Draft, offsets: seq<nat>)
    requires SlotsOk(s, d) && InFlightOk(s, d) && d.inFlight == None && AllEncoded(s.codec, d)
    requires Placed(offsets, Slots(d), Parts(s.codec, d), |Slots(d)|) && |offsets| == |d.plans|
    ensures Laid(offsets, Slots(d), Parts(s.codec, d), CLUSTERS_POS)
    ensures forall k :: 0 <= k < |Slots(d)| ==> Slots(d)[k] < |d.plans|
    ensures forall k :: 0 <= k < |Slots(d)| ==>
              var p := PlansOf(d)[Slots(d)[k]]; EncodingOf(s.codec, Parts(s.codec, d)[k], p.blobs, p.comp)
  {
    hide Join, EncodingOf, SlotsOk, InFlightOk, AllEncoded, Slots, Parts, PlansOf;
    var order, parts := Slots(d), Parts(s.codec, d);
    forall k | 0 <= k < |order|
      ensures order[k] < |d.plans| && parts[k] != []
      ensures var p := PlansOf(d)[order[k]]; EncodingOf(s.codec, parts[k], p.blobs, p.comp)
    {
      PartEncodes(s, d, k);
    }
    AllSlots(s, d);
    forall k | 0 <= k < |order|
      ensures order[k] < |offsets| && offsets[order[k]] == CLUSTERS_POS + |Join(parts, k)|
    {
      assert PlacedAt(offsets, order, parts, k);
    }
  }

  /** There are as many filled slots as clusters. */
  lemma AllSlots(s: Settings, d: Draft)
    requires SlotsOk(s, d) && InFlightOk(s, d) && d.inFlight == None
    ensures |Slots(d)| == |d.plans| && Distinct(Slots(d)) && forall c: nat :: c < |d.plans| ==> c in Slots(d)
  {
    SlotsBelow(s, d);
    assert forall c: nat :: c < |d.plans| ==> d.plans[c].Some? && c in Slots(d);
    assert Distinct(Slots(d));
    hide SlotsOk, InFlightOk, Slots;
    AllOf(Slots(d), |d.plans|);
  }

  lemma AllOf(ids: seq<nat>, n: nat)
    requires Distinct(ids) && (forall c :: c in ids ==> c < n) && forall c: nat :: c < n ==> c in ids
    ensures |ids| == n
  {
    DistinctSize(ids);
    var members: set<nat> := set x | x in ids;
    forall x: nat
      ensures x in members <==> x in Upto(n)
    {
      assert x in ids ==> x < n;
      assert x < n ==> x in ids;
    }
    assert members == Upto(n);
  }
}
