/** What the reader finds in a finished archive: every entry that was accepted, and nothing else. Redirects lead one
    step to the entry they name, and to the end of their chain when it is short enough. */
module ReadBack {
  import opened Outcome
  import opened Bytes
  import opened Text
  import opened Headers
  import opened Dirents
  import opened Clusters
  import opened Reader
  import opened Counting
  import opened MimeTypes
  import opened Layout
  import opened Sorting
  import opened Packing
  import opened Tables
  import Graph

  function Present(plans: seq<Plan>): (s: seq<Option<Plan>>)
    ensures |s| == |plans|
  {
    seq(|plans|, c requires 0 <= c < |plans| => Some(plans[c]))
  }

  /** A well-formed image whose dirent table is `all`. */
  ghost predicate Carries(img: Image, all: Contents) {
    && Good(img)
    && Tabulates(img.mimes, Present(img.plans), all, None, img.dirents)
    && AllLinked(all, img.dirents)
  }

  /** A cluster is one blob or within the target size. */
  ghost predicate WithinTarget(plans: seq<Plan>, target: nat) {
    forall c :: 0 <= c < |plans| && |plans[c].blobs| > 1 ==> |JoinAll(plans[c].blobs)| <= target
  }

  /** No cluster has more than `n` blobs. */
  ghost predicate FewBlobs(plans: seq<Plan>, n: nat) {
    forall c :: 0 <= c < |plans| ==> |plans[c].blobs| <= n
  }

  /** With `n` entries no cluster shared by several bodies of at most `target` bytes in all exceeds the decode limit. */
  predicate Roomy(target: nat, n: nat) {
    target + 8 * (n + 1) <= MAX_EXTENDED_CLUSTER_BYTES
  }

  /** A body that is stored, or that a cluster of its own would keep within the decode limit. */
  predicate BodyFits(st: Stored)
    requires st.Body?
  {
    st.comp == Raw || |st.content| + 16 <= MAX_EXTENDED_CLUSTER_BYTES
  }

  /** The body is read back exactly when it fits, as long as shared clusters do. */
  ghost predicate BodyRead(a: Archive, e: Entry, st: Stored, target: nat)
    requires st.Body? && e.dirent.ArticleEntry?
  {
    Roomy(target, a.header.entryCount) ==> GetData(a, e) == if BodyFits(st) then Ok(st.content) else Err(Decompression)
  }

  /** The body is read back exactly when its cluster, of one blob or within the target size, can be decoded. */
  ghost predicate BodyBack(a: Archive, e: Entry, st: Stored, target: nat, p: Plan)
    requires st.Body? && e.dirent.ArticleEntry?
  {
    && st.content in p.blobs && p.comp == st.comp
    && (|p.blobs| > 1 ==> |JoinAll(p.blobs)| <= target) && |p.blobs| <= a.header.entryCount
    && GetData(a, e) == (if Decodable(p.blobs, p.comp) then Ok(st.content) else Err(Decompression))
    && Mimetype(a, e) == st.mime
  }

  /** The entry has the body, or the redirect target, that was added. */
  ghost predicate KindBack(a: Archive, all: Contents, target: nat, st: Stored, e: Entry) {
    match st
    case Body(_, _, _, _) => e.dirent.ArticleEntry? && BodyRead(a, e, st, target) && exists p :: BodyBack(a, e, st, target, p)
    case Alias(_, to) =>
      && e.dirent.RedirectEntry? && to in all
      && RedirectStep(a, e).Ok? && RedirectStep(a, e) == ByPath(a, to.ns, to.text)
      && RedirectStep(a, e).value.dirent.Key() == to
  }

  ghost predicate Alone(a: Archive, k: Key, i: nat) {
    forall j: nat :: j < a.header.entryCount && KeyOfEntry(a, j) == Some(k) ==> j == i
  }

  /** Looking up `k` gives the only entry with that key, with the title, and the body or the target, that were added. */
  ghost predicate EntryBack(a: Archive, all: Contents, target: nat, k: Key)
    requires k in all
  {
    && ByPath(a, k.ns, k.text).Ok?
    && var e := ByPath(a, k.ns, k.text).value;
       && EntryAt(a, e.index) == Ok(e) && e.dirent.Key() == k && e.dirent.Title() == all[k].title
       && Alone(a, k, e.index) && KindBack(a, all, target, all[k], e)
  }

  ghost function KeyOfEntry(a: Archive, i: nat): Option<Key> {
    match DirentAt(a, i)
    case Ok(d) => Some(d.Key())
    case Err(_) => None
  }

  /** The reader finds exactly the entries of `all`. */
  ghost predicate ReadsBack(a: Archive, all: Contents, target: nat) {
    && a.header.entryCount == |all|
    && (forall i: nat :: i < |all| ==> KeyOfEntry(a, i).Some? && KeyOfEntry(a, i).value in all)
    && (forall k :: k in all ==> EntryBack(a, all, target, k))
  }

  lemma IndexOf(ds: seq<RawDirent>, k: Key) returns (i: nat)
    requires Has(ds, k)
    ensures i < |ds| && ds[i].Key() == k
  {
    i :| 0 <= i < |ds| && ds[i].Key() == k;
  }

  /** Path lookup by entry number. */
  lemma Finds(img: Image, all: Contents, f: Bytes, i: nat)
    requires Carries(img, all) && Written(img, f) && i < |img.dirents|
    ensures var k := img.dirents[i].Key();
      ByPath(ArchiveOf(img, f), k.ns, k.text) == Ok(Entry(i, View(img.dirents[i])))
    ensures View(img.dirents[i]).Key() == img.dirents[i].Key() && View(img.dirents[i]).Title() == img.dirents[i].title
    ensures EntryAt(ArchiveOf(img, f), i) == Ok(Entry(i, View(img.dirents[i])))
  {
    var a, ds := ArchiveOf(img, f), Views(img.dirents);
    HoldsViews(img, f);
    ViewsAscend(img);
    HeldKeys(a, ds, i);
    GoodAt(img, i);
    ViewKeys(img.dirents[i]);
    var k := img.dirents[i].Key();
    ByPathExact(a, ds, k.ns, k.text);
    hide Written, Good, ByPath, DirentAt, EntryAt, View, Encodable;
    assert Keys(ds)[i] == k;
    var found := ByPath(a, k.ns, k.text);
    if found.Ok? {
      assert Keys(ds)[found.value.index] == k;
      assert DirentKeys(img.dirents)[found.value.index] == k;
      SameKey(img.dirents, found.value.index, i);
    }
  }

  lemma GoodAt(img: Image, i: nat)
    requires Good(img) && i < |img.dirents|
    ensures GoodDirent(img, img.dirents[i])
  {
    hide GoodDirent, GoodClusters, StrictlyAscending, GoodMimes, Sized;
  }

  lemma OnlyOne(img: Image, all: Contents, f: Bytes, i: nat, j: nat)
    requires Carries(img, all) && Written(img, f) && i < |img.dirents| && j < |img.dirents|
    requires KeyOfEntry(ArchiveOf(img, f), j) == Some(img.dirents[i].Key())
    ensures j == i
  {
    ReadsDirent(img, f, j);
    GoodAt(img, j);
    ViewKeys(img.dirents[j]);
    hide Written, Good, DirentAt, View, Tabulates;
    SameKey(img.dirents, i, j);
  }

  lemma {:induction false} PartBelow(parts: seq<Bytes>, n: nat, i: nat)
    requires i < n <= |parts|
    ensures |parts[i]| <= |Join(parts, n)|
  {
    if i < n - 1 {
      PartBelow(parts, n - 1, i);
    }
  }

  /** The cluster of a body can be decoded exactly when the body alone could, as long as shared clusters can. */
  lemma DecodesBySize(p: Plan, st: Stored, target: nat, n: nat)
    requires st.Body? && st.content in p.blobs && p.comp == st.comp
    requires (|p.blobs| > 1 ==> |JoinAll(p.blobs)| <= target) && |p.blobs| <= n && Roomy(target, n)
    ensures Decodable(p.blobs, p.comp) <==> BodyFits(st)
  {
    var i :| 0 <= i < |p.blobs| && p.blobs[i] == st.content;
    PartBelow(p.blobs, |p.blobs|, i);
    if |p.blobs| == 1 {
      assert Join(p.blobs, 1) == Join(p.blobs, 0) + p.blobs[0] == st.content;
    }
    hide Join;
  }

  lemma BodyBackRead(a: Archive, e: Entry, st: Stored, target: nat, p: Plan)
    requires st.Body? && e.dirent.ArticleEntry? && BodyBack(a, e, st, target, p)
    ensures BodyRead(a, e, st, target)
  {
    hide Decodable, BodyFits, Roomy, Join, GetData, Mimetype;
    if Roomy(target, a.header.entryCount) {
      DecodesBySize(p, st, target, a.header.entryCount);
    }
  }

  /** An article's content comes from the cluster its dirent designates, if that can be decoded. */
  lemma ReadsContent(img: Image, all: Contents, f: Bytes, i: nat)
    requires Carries(img, all) && Written(img, f) && i < |img.dirents|
    requires ArticleFits(img.mimes, Present(img.plans), all[img.dirents[i].Key()], img.dirents[i])
    requires img.dirents[i].Key() in all && all[img.dirents[i].Key()].Body?
    ensures View(img.dirents[i]).ArticleEntry? && img.dirents[i].cluster < |img.plans|
    ensures var p, st, e := img.plans[img.dirents[i].cluster], all[img.dirents[i].Key()], Entry(i, View(img.dirents[i]));
      && st.content in p.blobs && p.comp == st.comp && Mimetype(ArchiveOf(img, f), e) == st.mime
      && GetData(ArchiveOf(img, f), e) == if Decodable(p.blobs, p.comp) then Ok(st.content) else Err(Decompression)
  {
    hide Good, Written, ClusterUncached, Blob, Join, PayloadLen, Tabulates, AllLinked;
    var d := img.dirents[i];
    ReadsCluster(img, f, d.cluster);
  }

  lemma ReadsBody(img: Image, all: Contents, f: Bytes, target: nat, i: nat)
    requires Carries(img, all) && Written(img, f) && i < |img.dirents|
    requires ArticleFits(img.mimes, Present(img.plans), all[img.dirents[i].Key()], img.dirents[i])
    requires WithinTarget(img.plans, target) && FewBlobs(img.plans, |img.dirents|)
    requires img.dirents[i].Key() in all && all[img.dirents[i].Key()].Body?
    ensures View(img.dirents[i]).ArticleEntry? && img.dirents[i].cluster < |img.plans|
    ensures BodyBack(ArchiveOf(img, f), Entry(i, View(img.dirents[i])), all[img.dirents[i].Key()], target,
                     img.plans[img.dirents[i].cluster])
  {
    ReadsContent(img, all, f, i);
    hide Carries, Written, GetData, Mimetype, Decodable, Join, View;
  }

  /** A redirect's one-step target is the entry it names. */
  lemma ReadsAlias(img: Image, all: Contents, f: Bytes, i: nat)
    requires Carries(img, all) && Written(img, f) && i < |img.dirents| && img.dirents[i].Redirect?
    ensures var k := img.dirents[i].Key(); k in all && all[k].Alias? && all[k].target in all
    ensures var to := all[img.dirents[i].Key()].target;
      var e := Entry(i, View(img.dirents[i]));
      e.dirent.RedirectEntry? && RedirectStep(ArchiveOf(img, f), e) == ByPath(ArchiveOf(img, f), to.ns, to.text)
      && RedirectStep(ArchiveOf(img, f), e).Ok? && RedirectStep(ArchiveOf(img, f), e).value.dirent.Key() == to
  {
    assert Linked(all, img.dirents, i);
    var j := img.dirents[i].resolved.value;
    Finds(img, all, f, j);
    KeyIn(all, img.dirents, j);
    hide Good, Written, ByPath, EntryAt, Tabulates, AllLinked;
  }

  lemma ReadsKind(img: Image, all: Contents, f: Bytes, target: nat, i: nat)
    requires Carries(img, all) && Written(img, f) && i < |img.dirents|
    requires WithinTarget(img.plans, target) && FewBlobs(img.plans, |img.dirents|)
    ensures img.dirents[i].Key() in all && img.dirents[i].title == all[img.dirents[i].Key()].title
    ensures KindBack(ArchiveOf(img, f), all, target, all[img.dirents[i].Key()], Entry(i, View(img.dirents[i])))
  {
    FitsAt(img.mimes, Present(img.plans), all, None, img.dirents, i);
    FitsKind(img.mimes, Present(img.plans), all, None, img.dirents[i]);
    if img.dirents[i].Redirect? {
      ReadsAlias(img, all, f, i);
      hide Carries, Written, Join, ByPath, RedirectStep, Fits, View, BodyBack;
    } else {
      ReadsBody(img, all, f, target, i);
      BodyBackRead(ArchiveOf(img, f), Entry(i, View(img.dirents[i])), all[img.dirents[i].Key()], target, img.plans[img.dirents[i].cluster]);
      hide Carries, Written, Join, View, BodyBack, BodyRead;
    }
  }

  lemma ReadsEntry(img: Image, all: Contents, f: Bytes, target: nat, k: Key)
    requires Carries(img, all) && Written(img, f) && k in all
    requires WithinTarget(img.plans, target) && FewBlobs(img.plans, |img.dirents|)
    ensures EntryBack(ArchiveOf(img, f), all, target, k)
  {
    FitsAll(img.mimes, Present(img.plans), all, None, img.dirents);
    var i := IndexOf(img.dirents, k);
    var a := ArchiveOf(img, f);
    hide Join, ByPath, EntryAt, KeyOfEntry, Fits, View, KindBack, Good, Written, Tabulates, AllLinked;
    Finds(img, all, f, i);
    ReadsKind(img, all, f, target, i);
    forall j: nat | j < |img.dirents| && KeyOfEntry(a, j) == Some(k)
      ensures j == i
    {
      OnlyOne(img, all, f, i, j);
    }
  }

  lemma ReadsKey(img: Image, all: Contents, f: Bytes, i: nat)
    requires Carries(img, all) && Written(img, f) && i < |img.dirents|
    ensures KeyOfEntry(ArchiveOf(img, f), i).Some? && KeyOfEntry(ArchiveOf(img, f), i).value in all
  {
    ReadsDirent(img, f, i);
    GoodAt(img, i);
    ViewKeys(img.dirents[i]);
    KeyIn(all, img.dirents, i);
    hide Carries, Written, View, DirentAt, GoodDirent;
  }

  lemma CountEntries(all: Contents, ds: seq<RawDirent>)
    requires AllLinked(all, ds)
    ensures |ds| == |all|
  {
    var keys := DirentKeys(ds);
    hide Linked;
    forall i, j | 0 <= i < j < |keys|
      ensures keys[i] != keys[j]
    {
      assert ds[i].Key() != ds[j].Key();
    }
    DistinctSize(keys);
    var members := set x | x in keys;
    forall k
      ensures k in members <==> k in all.Keys
    {
      if k in all {
        var i := IndexOf(ds, k);
        assert keys[i] == k;
      }
      if k in keys {
        var i :| 0 <= i < |keys| && keys[i] == k;
        KeyIn(all, ds, i);
      }
    }
    assert members == all.Keys;
  }

  lemma OpensCounted(img: Image, all: Contents, f: Bytes)
    requires Carries(img, all) && Written(img, f)
    ensures Open(img.codec, f) == Ok(ArchiveOf(img, f)) && ArchiveOf(img, f).header.entryCount == |all| == |img.dirents|
  {
    hide Good, Written, AllLinked, Tabulates, Open;
    Opens(img, f);
    CountEntries(all, img.dirents);
  }

  /** The reader opens the finished file and finds exactly what was added: one entry per key, with its title, type
      and body, or its redirect target. */
  lemma ReadsAllBack(img: Image, all: Contents, f: Bytes, target: nat)
    requires Carries(img, all) && Written(img, f) && WithinTarget(img.plans, target) && FewBlobs(img.plans, |img.dirents|)
    ensures Open(img.codec, f) == Ok(ArchiveOf(img, f))
    ensures ReadsBack(ArchiveOf(img, f), all, target)
  {
    hide Carries, Written, EntryBack, KeyOfEntry, Open, WithinTarget, FewBlobs;
    OpensCounted(img, all, f);
    var a := ArchiveOf(img, f);
    forall i: nat | i < |all|
      ensures KeyOfEntry(a, i).Some? && KeyOfEntry(a, i).value in all
    {
      ReadsKey(img, all, f, i);
    }
    forall k | k in all
      ensures EntryBack(a, all, target, k)
    {
      ReadsEntry(img, all, f, target, k);
    }
  }

  /** Entry `i`, an article, is read from the cluster its dirent designates. */
  ghost predicate FromCluster(a: Archive, img: Image, all: Contents, target: nat, i: nat)
    requires i < |img.dirents| && img.dirents[i].Article?
  {
    var d := img.dirents[i];
    && EntryAt(a, i) == Ok(Entry(i, View(d))) && View(d).ArticleEntry? && View(d).Key() == d.Key()
    && d.Key() in all && all[d.Key()].Body? && d.cluster < |img.plans|
    && BodyBack(a, Entry(i, View(d)), all[d.Key()], target, img.plans[d.cluster])
  }

  ghost predicate FromClusters(a: Archive, img: Image, all: Contents, target: nat) {
    forall i: nat :: i < |img.dirents| && img.dirents[i].Article? ==> FromCluster(a, img, all, target, i)
  }

  lemma ReadsArticle(img: Image, all: Contents, f: Bytes, target: nat, i: nat)
    requires Carries(img, all) && Written(img, f) && WithinTarget(img.plans, target) && FewBlobs(img.plans, |img.dirents|)
    requires i < |img.dirents| && img.dirents[i].Article?
    ensures FromCluster(ArchiveOf(img, f), img, all, target, i)
  {
    Finds(img, all, f, i);
    FitsAt(img.mimes, Present(img.plans), all, None, img.dirents, i);
    FitsKind(img.mimes, Present(img.plans), all, None, img.dirents[i]);
    ReadsBody(img, all, f, target, i);
    hide Carries, Written, WithinTarget, FewBlobs, View, BodyBack, ByPath, EntryAt;
  }

  lemma ReadsArticles(img: Image, all: Contents, f: Bytes, target: nat)
    requires Carries(img, all) && Written(img, f) && WithinTarget(img.plans, target) && FewBlobs(img.plans, |img.dirents|)
    ensures FromClusters(ArchiveOf(img, f), img, all, target)
  {
    hide Carries, Written, WithinTarget, FewBlobs, FromCluster;
    forall i: nat | i < |img.dirents| && img.dirents[i].Article?
      ensures FromCluster(ArchiveOf(img, f), img, all, target, i)
    {
      ReadsArticle(img, all, f, target, i);
    }
  }

  // ---- Following redirects ----

  /** The first link of a chain that ends `n` redirects further. */
  lemma ChainLink(all: Contents, ds: seq<RawDirent>, i: nat, t: nat, n: nat)
    requires AllLinked(all, ds) && Graph.Closed(NextOf(ds)) && i < |ds| && t < |ds| && Graph.EndsIn(NextOf(ds), i, t, n)
    ensures if n == 0 then ds[i].Article? && i == t
            else ds[i].Redirect? && ds[i].resolved.Some? && ds[i].resolved.value < |ds|
                 && Graph.EndsIn(NextOf(ds), ds[i].resolved.value, t, n - 1)
  {
    var next := NextOf(ds);
    assert Graph.Hop(next, i, 0) == Some(i);
    assert Linked(all, ds, i);
    if ds[i].Article? {
      assert Graph.EndsIn(next, i, i, 0);
      Graph.EndsUnique(next, i, t, i, n, 0);
    } else if n > 0 {
      Graph.HopFront(next, i, n - 1);
    }
  }

  lemma ChainStep(img: Image, all: Contents, f: Bytes, i: nat, t: nat, n: nat)
    requires Carries(img, all) && Written(img, f) && Graph.Closed(NextOf(img.dirents))
    requires i < |img.dirents| && t < |img.dirents| && Graph.EndsIn(NextOf(img.dirents), i, t, n)
    ensures n == 0 <==> img.dirents[i].Article?
    ensures n == 0 ==> i == t
    ensures n > 0 ==> img.dirents[i].resolved.Some?
                      && var j := img.dirents[i].resolved.value;
                         && j < |img.dirents| && Graph.EndsIn(NextOf(img.dirents), j, t, n - 1)
                         && RedirectStep(ArchiveOf(img, f), Entry(i, View(img.dirents[i]))) == Ok(Entry(j, View(img.dirents[j])))
  {
    hide Good, Written, EntryAt, Graph.EndsIn, Graph.Closed, Tabulates, AllLinked;
    ChainLink(all, img.dirents, i, t, n);
    if n > 0 {
      Finds(img, all, f, img.dirents[i].resolved.value);
    }
  }

  lemma {:induction false} FollowsChain(img: Image, all: Contents, f: Bytes, i: nat, t: nat, n: nat, hops: nat)
    requires Carries(img, all) && Written(img, f) && Graph.Closed(NextOf(img.dirents))
    requires i < |img.dirents| && t < |img.dirents| && hops <= MAX_REDIRECTS
    requires Graph.EndsIn(NextOf(img.dirents), i, t, n)
    ensures Follow(ArchiveOf(img, f), Entry(i, View(img.dirents[i])), hops)
            == if hops + n <= MAX_REDIRECTS then Ok(Entry(t, View(img.dirents[t]))) else Err(RedirectLoop)
    decreases n
  {
    hide Carries, Written, RedirectStep, Graph.EndsIn, Graph.Closed;
    ChainStep(img, all, f, i, t, n);
    if n > 0 && hops + 1 <= MAX_REDIRECTS {
      FollowsChain(img, all, f, img.dirents[i].resolved.value, t, n - 1, hops + 1);
    }
  }

  /** Asking for the item behind an entry reaches the end of its redirect chain exactly when the chain has at most
      16 redirects. */
  lemma FollowsToItem(img: Image, all: Contents, f: Bytes, k: Key, t: Key, n: nat)
    requires Carries(img, all) && Written(img, f) && k in all && Reaches(all, k, t, n)
    ensures var a := ArchiveOf(img, f);
      && ByPath(a, k.ns, k.text).Ok? && ByPath(a, t.ns, t.text).Ok?
      && GetItem(a, ByPath(a, k.ns, k.text).value, true)
         == if n <= MAX_REDIRECTS then ByPath(a, t.ns, t.text) else Err(RedirectLoop)
  {
    LinkedClosed(all, img.dirents);
    FitsAll(img.mimes, Present(img.plans), all, None, img.dirents);
    var i := IndexOf(img.dirents, k);
    var j := IndexOf(img.dirents, t);
    Finds(img, all, f, i);
    Finds(img, all, f, j);
    EndsIsReaches(all, img.dirents, i, j, n);
    FollowsChain(img, all, f, i, j, n, 0);
  }
}
