/** From accepted entries to the sorted, resolved dirent table, the redirect walk and the v1 listing of `finalize`. */
module Tables {
  import opened Outcome
  import opened Bytes
  import opened Text
  import opened Dirents
  import opened Clusters
  import opened Reader
  import opened Counting
  import opened MimeTypes
  import opened Layout
  import opened Sorting
  import opened Packing
  import Graph

  const LISTING: Key := Key(NS_INDEX, TITLE_V1)

  /** What is to be found under each key of the finished archive. */
  type Contents = map<Key, Stored>

  // ---- Dirent tables ----

  ghost predicate AliasFits(st: Stored, a: RawDirent) {
    a.Redirect? && st.Alias? && a.title == st.title && Key(a.targetNs, a.targetUrl) == st.target
  }

  /** The dirent says what `all` has under its key. The entry `hole` still has no cluster. */
  ghost predicate Fits(mimes: seq<Bytes>, plans: seq<Option<Plan>>, all: Contents, hole: Option<Key>, a: RawDirent) {
    && a.Key() in all
    && StoredOk(a.Key(), all[a.Key()])
    && (if hole == Some(a.Key()) then
          a.Article? && a.blob == 0 && all[a.Key()].Body? && a.title == all[a.Key()].title && a.mimeIdx < |mimes|
          && mimes[a.mimeIdx] == all[a.Key()].mime
        else ArticleFits(mimes, plans, all[a.Key()], a) || AliasFits(all[a.Key()], a))
  }

  ghost predicate Has(ds: seq<RawDirent>, k: Key) {
    exists i :: 0 <= i < |ds| && ds[i].Key() == k
  }

  ghost predicate DistinctKeys(ds: seq<RawDirent>) {
    forall i, j :: 0 <= i < j < |ds| ==> ds[i].Key() != ds[j].Key()
  }

  /** The dirents are exactly the entries of `all`, one each. */
  ghost predicate Tabulates(mimes: seq<Bytes>, plans: seq<Option<Plan>>, all: Contents, hole: Option<Key>, ds: seq<RawDirent>) {
    && (forall i :: 0 <= i < |ds| ==> Fits(mimes, plans, all, hole, ds[i]))
    && (forall k :: k in all ==> Has(ds, k))
    && DistinctKeys(ds)
  }

  // ---- Sorting ----

  function Permuted(ds: seq<RawDirent>, ids: seq<nat>): (s: seq<RawDirent>)
    requires forall i :: 0 <= i < |ids| ==> ids[i] < |ds|
    ensures |s| == |ids|
  {
    seq(|ids|, i requires 0 <= i < |ids| => ds[ids[i]])
  }

  ghost predicate IsPermutation(ids: seq<nat>, n: nat) {
    |ids| == n && InRange(ids, n) && Distinct(ids)
  }

  lemma PermutedTabulates(mimes: seq<Bytes>, plans: seq<Option<Plan>>, all: Contents, hole: Option<Key>, ds: seq<RawDirent>, ids: seq<nat>)
    requires Tabulates(mimes, plans, all, hole, ds) && IsPermutation(ids, |ds|)
    ensures Tabulates(mimes, plans, all, hole, Permuted(ds, ids))
  {
    hide Fits;
    forall k | k in all
      ensures Has(Permuted(ds, ids), k)
    {
      assert Has(ds, k);
      var i :| 0 <= i < |ds| && ds[i].Key() == k;
      DistinctFill(ids, i);
      var j :| 0 <= j < |ids| && ids[j] == i;
      assert Permuted(ds, ids)[j].Key() == k;
    }
    var out := Permuted(ds, ids);
    forall i, j | 0 <= i < j < |out|
      ensures out[i].Key() != out[j].Key()
    {
      assert ids[i] != ids[j];
      assert ids[i] < ids[j] ==> ds[ids[i]].Key() != ds[ids[j]].Key();
      assert ids[j] < ids[i] ==> ds[ids[j]].Key() != ds[ids[i]].Key();
    }
  }

  lemma SortedStrictly(ds: seq<RawDirent>, ids: seq<nat>)
    requires IsPermutation(ids, |ds|) && Sorted(DirentKeys(ds), ids) && DistinctKeys(ds)
    ensures StrictlyAscending(DirentKeys(Permuted(ds, ids)))
  {
    hide CompareKey;
    var keys := DirentKeys(Permuted(ds, ids));
    forall i, j | 0 <= i < j < |keys|
      ensures KeyLt(keys[i], keys[j])
    {
      assert Before(DirentKeys(ds), ids[i], ids[j]);
      assert ids[i] < ids[j] ==> ds[ids[i]].Key() != ds[ids[j]].Key();
    }
  }

  /** Step 4 of `finalize`: entries in path order. */
  method SortByPath(ds: seq<RawDirent>) returns (out: seq<RawDirent>, ghost ids: seq<nat>)
    ensures IsPermutation(ids, |ds|) && out == Permuted(ds, ids) && Sorted(DirentKeys(ds), ids)
    ensures |out| == |ds| && Ascending(DirentKeys(out)) && forall d :: d in out <==> d in ds
  {
    var order := Sort(DirentKeys(ds), Numbers(|ds|));
    ids := order;
    out := Permuted(ds, order);
    PermutedMembers(ds, order);
    SortedAscends(ds, order);
  }

  lemma PermutedMembers(ds: seq<RawDirent>, ids: seq<nat>)
    requires IsPermutation(ids, |ds|)
    ensures forall d :: d in Permuted(ds, ids) <==> d in ds
  {
    forall i: nat | i < |ds|
      ensures ds[i] in Permuted(ds, ids)
    {
      DistinctFill(ids, i);
      var j :| 0 <= j < |ids| && ids[j] == i;
      assert Permuted(ds, ids)[j] == ds[i];
    }
  }

  lemma SortedAscends(ds: seq<RawDirent>, ids: seq<nat>)
    requires IsPermutation(ids, |ds|) && Sorted(DirentKeys(ds), ids)
    ensures Ascending(DirentKeys(Permuted(ds, ids)))
  {
    hide CompareKey;
    var keys := DirentKeys(Permuted(ds, ids));
    forall i, j | 0 <= i < j < |keys|
      ensures KeyLe(keys[i], keys[j])
    {
      assert Before(DirentKeys(ds), ids[i], ids[j]);
      CompareKeyTotal(keys[i], keys[j]);
      CompareKeyTotal(keys[j], keys[i]);
    }
  }

  /** The duplicate check behind the sort: no two neighbours have the same key. */
  method NoDuplicates(ds: seq<RawDirent>) returns (r: bool)
    ensures r <==> forall i :: 0 < i < |ds| ==> ds[i - 1].Key() != ds[i].Key()
  {
    for i := 0 to |ds|
      invariant forall j :: 0 < j < i ==> ds[j - 1].Key() != ds[j].Key()
    {
      if i > 0 && ds[i - 1].Key() == ds[i].Key() {
        return false;
      }
    }
    return true;
  }

  // ---- Redirect resolution ----

  ghost predicate Points(ds: seq<RawDirent>, a: RawDirent, out: RawDirent) {
    if a.Redirect? then
      && out.Redirect? && out.resolved.Some? && out == a.(resolved := out.resolved)
      && out.resolved.value < |ds| && ds[out.resolved.value].Key() == Key(a.targetNs, a.targetUrl)
    else out == a
  }

  ghost predicate Dangling(ds: seq<RawDirent>, a: RawDirent) {
    a.Redirect? && !Has(ds, Key(a.targetNs, a.targetUrl))
  }

  /** Resolves every redirect by binary search; fails exactly when some target is missing. */
  method Resolve(ds: seq<RawDirent>) returns (r: Result<seq<RawDirent>>)
    requires StrictlyAscending(DirentKeys(ds))
    ensures r.Err? <==> exists i :: 0 <= i < |ds| && Dangling(ds, ds[i])
    ensures r.Err? ==> r.error == InvalidInput
    ensures r.Ok? ==> |r.value| == |ds| && forall i :: 0 <= i < |ds| ==> Points(ds, ds[i], r.value[i])
  {
    hide StrictlyAscending;
    var out: seq<RawDirent> := [];
    var dangling := false;
    for i := 0 to |ds|
      invariant |out| == i
      invariant dangling <==> exists j :: 0 <= j < i && Dangling(ds, ds[j])
      invariant !dangling ==> forall j :: 0 <= j < i ==> Points(ds, ds[j], out[j])
    {
      match ds[i] {
        case Article(_, _, _, _, _, _) => out := out + [ds[i]];
        case Redirect(ns, url, title, targetNs, targetUrl, _) =>
          var found := BinarySearch(DirentKeys(ds), Key(targetNs, targetUrl));
          if found.Some? {
            assert DirentKeys(ds)[found.value] == ds[found.value].Key();
            assert Has(ds, Key(targetNs, targetUrl));
          } else {
            MissingKey(ds, Key(targetNs, targetUrl));
            assert Dangling(ds, ds[i]);
            dangling := true;
          }
          out := out + [Redirect(ns, url, title, targetNs, targetUrl, found)];
      }
    }
    return if dangling then Err(InvalidInput) else Ok(out);
  }

  lemma MissingKey(ds: seq<RawDirent>, k: Key)
    requires k !in DirentKeys(ds)
    ensures !Has(ds, k)
  {
    forall i | 0 <= i < |ds|
      ensures ds[i].Key() != k
    {
      assert DirentKeys(ds)[i] in DirentKeys(ds);
    }
  }

  ghost predicate TargetsPresent(all: Contents) {
    forall k :: k in all && all[k].Alias? ==> all[k].target in all
  }

  lemma HasExactly(mimes: seq<Bytes>, plans: seq<Option<Plan>>, all: Contents, hole: Option<Key>, ds: seq<RawDirent>, k: Key)
    requires Tabulates(mimes, plans, all, hole, ds)
    ensures Has(ds, k) <==> k in all
  {
    if Has(ds, k) {
      var i :| 0 <= i < |ds| && ds[i].Key() == k;
      assert Fits(mimes, plans, all, hole, ds[i]);
    }
  }

  lemma FitsKind(mimes: seq<Bytes>, plans: seq<Option<Plan>>, all: Contents, hole: Option<Key>, a: RawDirent)
    requires Fits(mimes, plans, all, hole, a)
    ensures a.Redirect? <==> all[a.Key()].Alias?
    ensures a.Redirect? ==> Key(a.targetNs, a.targetUrl) == all[a.Key()].target
    ensures a.title == all[a.Key()].title
    ensures a.Article? ==> a.mimeIdx < |mimes| && mimes[a.mimeIdx] == all[a.Key()].mime
  {
  }

  /** A dangling redirect is one whose target nobody added. */
  lemma DanglingIsMissing(mimes: seq<Bytes>, plans: seq<Option<Plan>>, all: Contents, hole: Option<Key>, ds: seq<RawDirent>)
    requires Tabulates(mimes, plans, all, hole, ds)
    ensures (exists i :: 0 <= i < |ds| && Dangling(ds, ds[i])) <==> !TargetsPresent(all)
  {
    if i :| 0 <= i < |ds| && Dangling(ds, ds[i]) {
      assert Fits(mimes, plans, all, hole, ds[i]);
      FitsKind(mimes, plans, all, hole, ds[i]);
      HasExactly(mimes, plans, all, hole, ds, all[ds[i].Key()].target);
    }
    if !TargetsPresent(all) {
      var k :| k in all && all[k].Alias? && all[k].target !in all;
      assert Has(ds, k);
      var i :| 0 <= i < |ds| && ds[i].Key() == k;
      assert Fits(mimes, plans, all, hole, ds[i]);
      FitsKind(mimes, plans, all, hole, ds[i]);
      HasExactly(mimes, plans, all, hole, ds, all[k].target);
      assert Dangling(ds, ds[i]);
    }
  }

  lemma ResolvedTabulates(mimes: seq<Bytes>, plans: seq<Option<Plan>>, all: Contents, hole: Option<Key>, ds: seq<RawDirent>, out: seq<RawDirent>)
    requires Tabulates(mimes, plans, all, hole, ds)
    requires |out| == |ds| && forall i :: 0 <= i < |ds| ==> Points(ds, ds[i], out[i])
    ensures Tabulates(mimes, plans, all, hole, out) && DirentKeys(out) == DirentKeys(ds)
  {
    forall i | 0 <= i < |out|
      ensures Fits(mimes, plans, all, hole, out[i]) && out[i].Key() == ds[i].Key()
    {
      assert Points(ds, ds[i], out[i]);
      assert Fits(mimes, plans, all, hole, ds[i]);
    }
    hide Fits, Points;
    forall k | k in all
      ensures Has(out, k)
    {
      assert Has(ds, k);
      var i :| 0 <= i < |ds| && ds[i].Key() == k;
      assert out[i].Key() == k;
    }
  }

  // ---- Redirect chains, by key and by entry number ----

  /** The key `n` redirects behind `k`. */
  ghost function Chase(all: Contents, k: Key, n: nat): Option<Key> {
    if n == 0 then Some(k)
    else
      match Chase(all, k, n - 1)
      case None => None
      case Some(j) => if j in all && all[j].Alias? then Some(all[j].target) else None
  }

  ghost predicate Looping(all: Contents) {
    exists k, n: nat :: k in all && n > 0 && Chase(all, k, n) == Some(k)
  }

  /** Following `n` redirects from `k` ends at the body `t`. */
  ghost predicate Reaches(all: Contents, k: Key, t: Key, n: nat) {
    Chase(all, k, n) == Some(t) && t in all && all[t].Body?
  }

  /** Every chain of redirects comes to an end. */
  ghost predicate Grounded(all: Contents) {
    forall k :: k in all ==> Rests(all, k)
  }

  ghost predicate Rests(all: Contents, k: Key) {
    exists t, n: nat :: Reaches(all, k, t, n)
  }

  function NextOf(ds: seq<RawDirent>): (next: Graph.Next)
    ensures |next| == |ds|
  {
    seq(|ds|, i requires 0 <= i < |ds| => if ds[i].Redirect? then ds[i].resolved else None)
  }

  /** The redirects of the table lead where `all` says. */
  ghost predicate Linked(all: Contents, ds: seq<RawDirent>, i: nat)
    requires i < |ds|
  {
    && ds[i].Key() in all
    && (ds[i].Redirect? <==> all[ds[i].Key()].Alias?)
    && (ds[i].Redirect? ==>
          && ds[i].resolved.Some? && ds[i].resolved.value < |ds|
          && ds[ds[i].resolved.value].Key() == all[ds[i].Key()].target)
  }

  ghost predicate AllLinked(all: Contents, ds: seq<RawDirent>) {
    && (forall i :: 0 <= i < |ds| ==> Linked(all, ds, i))
    && (forall k :: k in all ==> Has(ds, k))
    && DistinctKeys(ds)
  }

  lemma LinkedClosed(all: Contents, ds: seq<RawDirent>)
    requires AllLinked(all, ds)
    ensures Graph.Closed(NextOf(ds))
  {
    forall i | 0 <= i < |ds| && NextOf(ds)[i].Some?
      ensures NextOf(ds)[i].value < |ds|
    {
      assert Linked(all, ds, i);
    }
  }

  lemma ResolvedLinked(mimes: seq<Bytes>, plans: seq<Option<Plan>>, all: Contents, hole: Option<Key>, ds: seq<RawDirent>, out: seq<RawDirent>)
    requires Tabulates(mimes, plans, all, hole, ds)
    requires |out| == |ds| && forall i :: 0 <= i < |ds| ==> Points(ds, ds[i], out[i])
    ensures AllLinked(all, out)
  {
    ResolvedTabulates(mimes, plans, all, hole, ds, out);
    hide Tabulates;
    forall i | 0 <= i < |out|
      ensures Linked(all, out, i)
    {
      assert Points(ds, ds[i], out[i]);
      assert Fits(mimes, plans, all, hole, ds[i]) by {
        FitsAt(mimes, plans, all, hole, ds, i);
      }
      FitsKind(mimes, plans, all, hole, ds[i]);
      hide Fits;
      if ds[i].Redirect? {
        var j := out[i].resolved.value;
        assert Points(ds, ds[j], out[j]);
        assert DirentKeys(out)[j] == DirentKeys(ds)[j];
      }
    }
    FitsAll(mimes, plans, all, hole, out);
  }

  lemma FitsAt(mimes: seq<Bytes>, plans: seq<Option<Plan>>, all: Contents, hole: Option<Key>, ds: seq<RawDirent>, i: nat)
    requires Tabulates(mimes, plans, all, hole, ds) && i < |ds|
    ensures Fits(mimes, plans, all, hole, ds[i])
  {
  }

  lemma FitsAll(mimes: seq<Bytes>, plans: seq<Option<Plan>>, all: Contents, hole: Option<Key>, ds: seq<RawDirent>)
    requires Tabulates(mimes, plans, all, hole, ds)
    ensures DistinctKeys(ds) && forall k :: k in all ==> Has(ds, k)
  {
  }

  /** Hopping through the table is chasing through the contents. */
  lemma {:induction false} HopIsChase(all: Contents, ds: seq<RawDirent>, i: nat, n: nat)
    requires AllLinked(all, ds) && Graph.Closed(NextOf(ds)) && i < |ds|
    ensures match Graph.Hop(NextOf(ds), i, n)
      case None => Chase(all, ds[i].Key(), n) == None
      case Some(j) => j < |ds| && Chase(all, ds[i].Key(), n) == Some(ds[j].Key())
  {
    if n > 0 {
      HopIsChase(all, ds, i, n - 1);
      var at := Graph.Hop(NextOf(ds), i, n - 1);
      if at.Some? {
        assert Linked(all, ds, at.value);
      }
    }
  }

  lemma SameKey(ds: seq<RawDirent>, i: nat, j: nat)
    requires DistinctKeys(ds) && i < |ds| && j < |ds| && ds[i].Key() == ds[j].Key()
    ensures i == j
  {
  }

  /** The redirect graph of the table has a cycle exactly when some alias leads back to itself. */
  lemma CyclicIsLooping(all: Contents, ds: seq<RawDirent>)
    requires AllLinked(all, ds) && Graph.Closed(NextOf(ds))
    ensures Graph.Cyclic(NextOf(ds)) <==> Looping(all)
  {
    hide Linked;
    if Graph.Cyclic(NextOf(ds)) {
      var i: nat, n: nat :| i < |ds| && n > 0 && Graph.Hop(NextOf(ds), i, n) == Some(i);
      HopIsChase(all, ds, i, n);
      KeyIn(all, ds, i);
    }
    if Looping(all) {
      var k, n: nat :| k in all && n > 0 && Chase(all, k, n) == Some(k);
      assert Has(ds, k);
      var i :| 0 <= i < |ds| && ds[i].Key() == k;
      HopIsChase(all, ds, i, n);
      SameKey(ds, i, Graph.Hop(NextOf(ds), i, n).value);
    }
  }

  lemma KeyIn(all: Contents, ds: seq<RawDirent>, i: nat)
    requires AllLinked(all, ds) && i < |ds|
    ensures ds[i].Key() in all && (ds[i].Redirect? <==> all[ds[i].Key()].Alias?)
  {
    assert Linked(all, ds, i);
  }

  lemma EndsIsReaches(all: Contents, ds: seq<RawDirent>, i: nat, t: nat, n: nat)
    requires AllLinked(all, ds) && Graph.Closed(NextOf(ds)) && i < |ds| && t < |ds|
    ensures Graph.EndsIn(NextOf(ds), i, t, n) <==> Reaches(all, ds[i].Key(), ds[t].Key(), n)
  {
    HopIsChase(all, ds, i, n);
    assert Linked(all, ds, t);
    var j := Graph.Hop(NextOf(ds), i, n);
    if j.Some? && ds[j.value].Key() == ds[t].Key() {
      SameKey(ds, j.value, t);
    }
  }

  // ---- Eligibility and the listing ----

  /** The chain of redirects from `k` ends at a content page. */
  ghost predicate Eligible(all: Contents, k: Key) {
    exists t, n: nat :: Reaches(all, k, t, n) && t.ns == NS_CONTENT && PageType(all[t].mime)
  }

  function PageFlags(mimes: seq<Bytes>, ds: seq<RawDirent>): (flags: seq<bool>)
    ensures |flags| == |ds|
  {
    seq(|ds|, i requires 0 <= i < |ds| =>
      ds[i].Article? && ds[i].ns == NS_CONTENT && ds[i].mimeIdx < |mimes| && IsHtml(mimes[ds[i].mimeIdx]))
  }

  ghost predicate Flagged(mimes: seq<Bytes>, all: Contents, ds: seq<RawDirent>) {
    forall i :: 0 <= i < |ds| ==> FlagRight(mimes, all, ds, i)
  }

  ghost predicate FlagRight(mimes: seq<Bytes>, all: Contents, ds: seq<RawDirent>, i: nat)
    requires i < |ds|
  {
    ds[i].Article? ==> ds[i].mimeIdx < |mimes| && ds[i].Key() in all && all[ds[i].Key()].Body?
                       && mimes[ds[i].mimeIdx] == all[ds[i].Key()].mime
  }

  lemma TabulatesFlagged(mimes: seq<Bytes>, plans: seq<Option<Plan>>, all: Contents, hole: Option<Key>, ds: seq<RawDirent>)
    requires Tabulates(mimes, plans, all, hole, ds)
    ensures Flagged(mimes, all, ds)
  {
    forall i | 0 <= i < |ds|
      ensures FlagRight(mimes, all, ds, i)
    {
      assert Fits(mimes, plans, all, hole, ds[i]);
      FitsKind(mimes, plans, all, hole, ds[i]);
    }
  }

  lemma FlagOfEnd(mimes: seq<Bytes>, all: Contents, ds: seq<RawDirent>, t: nat)
    requires AllLinked(all, ds) && Flagged(mimes, all, ds) && t < |ds| && ds[t].Key() in all && all[ds[t].Key()].Body?
    ensures PageFlags(mimes, ds)[t] <==> ds[t].ns == NS_CONTENT && PageType(all[ds[t].Key()].mime)
  {
    hide PageType, IsHtml;
    assert FlagRight(mimes, all, ds, t) && Linked(all, ds, t);
    PageTypeExact(all[ds[t].Key()].mime);
  }

  lemma OneEnd(all: Contents, ds: seq<RawDirent>, i: nat, t: nat, n: nat, k: Key, m: nat)
    requires AllLinked(all, ds) && Graph.Closed(NextOf(ds)) && i < |ds| && t < |ds|
    requires Graph.EndsIn(NextOf(ds), i, t, n) && Reaches(all, ds[i].Key(), k, m)
    ensures ds[t].Key() == k && m == n
  {
    assert Has(ds, k);
    var u :| 0 <= u < |ds| && ds[u].Key() == k;
    EndsIsReaches(all, ds, i, u, m);
    Graph.EndsUnique(NextOf(ds), i, t, u, n, m);
  }

  /** The memoised flag of every entry is what walking its own chain to the end gives. */
  lemma YieldsIsEligible(mimes: seq<Bytes>, all: Contents, ds: seq<RawDirent>, i: nat, v: bool)
    requires AllLinked(all, ds) && Graph.Closed(NextOf(ds)) && Flagged(mimes, all, ds) && i < |ds|
    requires Graph.Yields(NextOf(ds), PageFlags(mimes, ds), i, v)
    ensures v <==> Eligible(all, ds[i].Key())
    ensures Rests(all, ds[i].Key())
  {
    hide PageType, Graph.EndsIn, Graph.Closed, AllLinked, Flagged;
    var t: nat :| t < |ds| && Graph.Ends(NextOf(ds), i, t) && PageFlags(mimes, ds)[t] == v;
    var n: nat :| Graph.EndsIn(NextOf(ds), i, t, n);
    EndsIsReaches(all, ds, i, t, n);
    FlagOfEnd(mimes, all, ds, t);
    hide PageFlags;
    if Eligible(all, ds[i].Key()) {
      var k, m: nat :| Reaches(all, ds[i].Key(), k, m) && k.ns == NS_CONTENT && PageType(all[k].mime);
      OneEnd(all, ds, i, t, n, k, m);
    }
  }

  ghost predicate Page(all: Contents, ds: seq<RawDirent>, i: nat)
    requires i < |ds|
  {
    ds[i].ns == NS_CONTENT && Eligible(all, ds[i].Key())
  }

  function TitleKeysOf(ds: seq<RawDirent>): (keys: seq<Key>)
    ensures |keys| == |ds|
  {
    seq(|ds|, i requires 0 <= i < |ds| => ds[i].TitleKey())
  }

  /** The v1 listing: exactly the content entries that lead to a page, by title, then by number. */
  ghost predicate IsListing(all: Contents, ds: seq<RawDirent>, listing: seq<nat>) {
    && InRange(listing, |ds|) && Distinct(listing) && Sorted(TitleKeysOf(ds), listing)
    && (forall i: nat :: i < |ds| ==> (Page(all, ds, i) <==> i in listing))
  }

  lemma AllHave(all: Contents, ds: seq<RawDirent>)
    requires AllLinked(all, ds)
    ensures forall k :: k in all ==> Has(ds, k)
  {
  }

  method SelectPages(ds: seq<RawDirent>, eligible: seq<bool>) returns (ids: seq<nat>)
    requires |eligible| == |ds|
    ensures InRange(ids, |ds|) && Distinct(ids)
    ensures forall i: nat :: i < |ds| ==> (ds[i].ns == NS_CONTENT && eligible[i] <==> i in ids)
  {
    ids := [];
    for i := 0 to |ds|
      invariant InRange(ids, i) && Distinct(ids)
      invariant forall j: nat :: j < i ==> (ds[j].ns == NS_CONTENT && eligible[j] <==> j in ids)
    {
      if ds[i].ns == NS_CONTENT && eligible[i] {
        ids := ids + [i];
      }
    }
  }

  /** The redirect walk and the listing of `finalize`: it fails exactly when aliases form a loop, follows each
      link a bounded number of times in all, and otherwise lists exactly the pages. */
  method ListPages(mimes: seq<Bytes>, ghost all: Contents, ds: seq<RawDirent>)
    returns (r: Result<seq<nat>>, ghost rounds: nat)
    requires AllLinked(all, ds) && Flagged(mimes, all, ds)
    ensures r.Err? <==> Looping(all)
    ensures r.Err? ==> r.error == InvalidInput
    ensures r.Ok? ==> IsListing(all, ds, r.value) && Grounded(all)
    ensures rounds <= 3 * |ds|
  {
    hide AllLinked, Flagged, Eligible, Rests;
    LinkedClosed(all, ds);
    CyclicIsLooping(all, ds);
    AllHave(all, ds);
    var eligible;
    eligible, rounds := Graph.Classify(NextOf(ds), PageFlags(mimes, ds));
    if eligible.Err? {
      return Err(InvalidInput), rounds;
    }
    var ids := SelectPages(ds, eligible.value);
    var listing := Sort(TitleKeysOf(ds), ids);
    forall i: nat | i < |ds|
      ensures (Page(all, ds, i) <==> i in listing) && Rests(all, ds[i].Key())
    {
      assert Graph.Yields(NextOf(ds), PageFlags(mimes, ds), i, eligible.value[i]);
      YieldsIsEligible(mimes, all, ds, i, eligible.value[i]);
      assert i in listing <==> i in ids;
    }
    assert Grounded(all);
    return Ok(listing), rounds;
  }
}
