/** The structural checks run on every finished archive, and what a title listing they accept means. */
module Checks {
  import opened Outcome
  import opened Bytes
  import opened Text
  import opened Headers
  import opened Dirents
  import opened Reader

  // ---- Directory pointers and order ----

  ghost predicate DirentOk(a: Archive, i: nat) {
    UrlPointer(a, i).Ok? && UrlPointer(a, i).value < |a.file| && DirentAt(a, i).Ok?
  }

  ghost predicate DirentsOk(a: Archive) {
    forall i: nat :: i < a.header.entryCount ==> DirentOk(a, i)
  }

  method CheckDirentPtrs(a: Archive) returns (r: Result<bool>)
    ensures r == Ok(true) <==> DirentsOk(a)
  {
    hide UrlPointer;
    for i := 0 to a.header.entryCount
      invariant forall j: nat :: j < i ==> DirentOk(a, j)
    {
      var off := UrlPointer(a, i);
      if off.Err? {
        assert !DirentOk(a, i);
        return Err(off.error);
      }
      if off.value >= |a.file| || ParseDirent(a.file, off.value).Err? {
        assert !DirentOk(a, i);
        return Ok(false);
      }
    }
    return Ok(true);
  }

  ghost predicate KeyStep(a: Archive, i: nat) {
    PathKey(a, i).Ok? && (i > 0 ==> PathKey(a, i - 1).Ok? && KeyLe(PathKey(a, i - 1).value, PathKey(a, i).value))
  }

  ghost predicate KeysOrdered(a: Archive) {
    forall i: nat :: i < a.header.entryCount ==> KeyStep(a, i)
  }

  method CheckDirentOrder(a: Archive) returns (r: Result<bool>)
    ensures r == Ok(true) <==> KeysOrdered(a)
  {
    hide PathKey, CompareKey;
    var prev: Option<Key> := None;
    for i := 0 to a.header.entryCount
      invariant forall j: nat :: j < i ==> KeyStep(a, j)
      invariant if i == 0 then prev == None else PathKey(a, i - 1).Ok? && prev == Some(PathKey(a, i - 1).value)
    {
      var key := PathKey(a, i);
      if key.Err? {
        assert !KeyStep(a, i);
        return Err(key.error);
      }
      if prev.Some? && CompareKey(prev.value, key.value) == Greater {
        assert !KeyStep(a, i);
        return Ok(false);
      }
      prev := Some(key.value);
    }
    return Ok(true);
  }

  // ---- Title listings ----

  ghost predicate ListedAt(a: Archive, listing: seq<nat>, subset: bool, k: nat)
    requires k < |listing|
  {
    && listing[k] < a.header.entryCount
    && TitleKey(a, listing[k]).Ok?
    && (subset ==> TitleKey(a, listing[k]).value.ns == NS_CONTENT)
    && (k > 0 ==> TitleKey(a, listing[k - 1]).Ok?
                  && KeyLe(TitleKey(a, listing[k - 1]).value, TitleKey(a, listing[k]).value))
    && listing[k] !in listing[..k]
  }

  /** A listing of distinct entries in title order: all of them, or some of namespace C. */
  ghost predicate ValidListing(a: Archive, listing: seq<nat>, subset: bool) {
    && (subset || |listing| == a.header.entryCount)
    && a.header.urlPtrPos + a.header.entryCount * 8 <= |a.file|
    && forall k: nat :: k < |listing| ==> ListedAt(a, listing, subset, k)
  }

  method ValidTitleListing(a: Archive, listing: seq<nat>, subset: bool) returns (r: Result<bool>)
    ensures r == Ok(true) <==> ValidListing(a, listing, subset)
  {
    hide TitleKey, CompareKey;
    if !subset && |listing| != a.header.entryCount {
      return Ok(false);
    }
    if a.header.urlPtrPos + a.header.entryCount * 8 > |a.file| {
      return Err(Truncated);
    }
    var seen := new bool[a.header.entryCount](_ => false);
    var prev: Option<Key> := None;
    for k := 0 to |listing|
      invariant forall j: nat :: j < k ==> ListedAt(a, listing, subset, j)
      invariant forall i :: 0 <= i < seen.Length ==> (seen[i] <==> i in listing[..k])
      invariant if k == 0 then prev == None else TitleKey(a, listing[k - 1]).Ok? && prev == Some(TitleKey(a, listing[k - 1]).value)
    {
      var idx := listing[k];
      if idx >= a.header.entryCount {
        assert !ListedAt(a, listing, subset, k);
        return Ok(false);
      }
      if seen[idx] {
        assert !ListedAt(a, listing, subset, k);
        return Ok(false);
      }
      seen[idx] := true;
      var key := TitleKey(a, idx);
      if key.Err? {
        assert !ListedAt(a, listing, subset, k);
        return Err(key.error);
      }
      if (subset && key.value.ns != NS_CONTENT) || (prev.Some? && CompareKey(prev.value, key.value) == Greater) {
        assert !ListedAt(a, listing, subset, k);
        return Ok(false);
      }
      prev := Some(key.value);
      assert listing[..k + 1] == listing[..k] + [idx];
    }
    return Ok(true);
  }

  ghost predicate NamedOk(a: Archive, path: Bytes, subset: bool) {
    NamedTitleListing(a, path).Ok?
    && (NamedTitleListing(a, path).value.Some? ==> ValidListing(a, NamedTitleListing(a, path).value.value, subset))
  }

  ghost predicate HeaderListingOk(a: Archive) {
    a.header.titlePtrPos != U64_LIMIT - 1 ==>
      HeaderTitleListing(a).Ok? && ValidListing(a, HeaderTitleListing(a).value, false)
  }

  ghost predicate Listed(a: Archive, path: Bytes) {
    NamedTitleListing(a, path).Ok? && NamedTitleListing(a, path).value.Some?
  }

  ghost predicate SomeListing(a: Archive) {
    a.header.titlePtrPos != U64_LIMIT - 1 || Listed(a, TITLE_V0) || Listed(a, TITLE_UNVERSIONED) || Listed(a, TITLE_V1)
  }

  ghost predicate TitlesOk(a: Archive) {
    HeaderListingOk(a) && NamedOk(a, TITLE_V0, false) && NamedOk(a, TITLE_UNVERSIONED, false) && NamedOk(a, TITLE_V1, true)
  }

  method CheckNamed(a: Archive, path: Bytes, subset: bool) returns (r: Result<bool>, found: bool)
    ensures r == Ok(true) <==> NamedOk(a, path, subset)
    ensures r == Ok(true) ==> (found <==> NamedTitleListing(a, path).value.Some?)
  {
    hide NamedTitleListing, ValidListing;
    var named := NamedTitleListing(a, path);
    if named.Err? {
      return Err(named.error), false;
    }
    if named.value.None? {
      return Ok(true), false;
    }
    r := ValidTitleListing(a, named.value.value, subset);
    found := true;
  }

  method CheckTitleIndex(a: Archive) returns (r: Result<bool>)
    ensures r == Ok(true) <==> TitlesOk(a) && SomeListing(a)
  {
    hide NamedTitleListing, ValidListing, HeaderTitleListing;
    var found := a.header.titlePtrPos != U64_LIMIT - 1;
    if found {
      var table := HeaderTitleListing(a);
      if table.Err? {
        return Err(table.error);
      }
      r := ValidTitleListing(a, table.value, false);
      if r != Ok(true) {
        return;
      }
    }
    var more;
    r, more := CheckNamed(a, TITLE_V0, false);
    if r != Ok(true) {
      return;
    }
    found := found || more;
    r, more := CheckNamed(a, TITLE_UNVERSIONED, false);
    if r != Ok(true) {
      return;
    }
    found := found || more;
    r, more := CheckNamed(a, TITLE_V1, true);
    if r != Ok(true) {
      return;
    }
    return Ok(found || more);
  }

  // ---- Cluster pointers and mime indices ----

  ghost predicate ClusterPtrOk(a: Archive, c: nat) {
    ClusterPointer(a, c).Ok? && ClusterPointer(a, c).value < |a.file|
  }

  ghost predicate ClusterPtrsOk(a: Archive) {
    forall c: nat :: c < a.header.clusterCount ==> ClusterPtrOk(a, c)
  }

  method CheckClusterPtrs(a: Archive) returns (r: Result<bool>)
    ensures r == Ok(true) <==> ClusterPtrsOk(a)
  {
    hide ClusterPointer;
    for c := 0 to a.header.clusterCount
      invariant forall j: nat :: j < c ==> ClusterPtrOk(a, j)
    {
      var off := ClusterPointer(a, c);
      if off.Err? {
        assert !ClusterPtrOk(a, c);
        return Err(off.error);
      }
      if off.value >= |a.file| {
        assert !ClusterPtrOk(a, c);
        return Ok(false);
      }
    }
    return Ok(true);
  }

  /** A redirect, a deprecated kind, or an article whose type is listed. */
  ghost predicate MimeOk(a: Archive, i: nat) {
    DirentAt(a, i).Ok?
    && var d := DirentAt(a, i).value;
       d.RedirectEntry? || d.mimetype == MIME_LINKTARGET || d.mimetype == MIME_DELETED || d.mimetype < |a.mimes|
  }

  ghost predicate MimesOk(a: Archive) {
    forall i: nat :: i < a.header.entryCount ==> MimeOk(a, i)
  }

  method CheckMimetypes(a: Archive) returns (r: Result<bool>)
    ensures r == Ok(true) <==> MimesOk(a)
  {
    hide DirentAt;
    for i := 0 to a.header.entryCount
      invariant forall j: nat :: j < i ==> MimeOk(a, j)
    {
      var d := DirentAt(a, i);
      if d.Err? {
        assert !MimeOk(a, i);
        return Err(d.error);
      }
      if d.value.ArticleEntry? && d.value.mimetype != MIME_LINKTARGET && d.value.mimetype != MIME_DELETED
         && d.value.mimetype >= |a.mimes| {
        assert !MimeOk(a, i);
        return Ok(false);
      }
    }
    return Ok(true);
  }

  ghost predicate Sound(a: Archive) {
    DirentsOk(a) && KeysOrdered(a) && TitlesOk(a) && SomeListing(a) && ClusterPtrsOk(a) && MimesOk(a)
  }

  /** The gate at the end of `finalize`: the five checks in turn. */
  method VerifyArchive(a: Archive) returns (r: Result<()>)
    ensures r.Ok? <==> Sound(a)
  {
    hide DirentsOk, KeysOrdered, TitlesOk, SomeListing, ClusterPtrsOk, MimesOk;
    var ok := CheckDirentPtrs(a);
    if ok != Ok(true) {
      return Err(Io);
    }
    ok := CheckDirentOrder(a);
    if ok != Ok(true) {
      return Err(Io);
    }
    ok := CheckTitleIndex(a);
    if ok != Ok(true) {
      return Err(Io);
    }
    ok := CheckClusterPtrs(a);
    if ok != Ok(true) {
      return Err(Io);
    }
    ok := CheckMimetypes(a);
    if ok != Ok(true) {
      return Err(Io);
    }
    return Ok(());
  }

  // ---- From adjacent to global order ----

  ghost function DirentsOf(a: Archive, n: nat): (ds: seq<Dirent>)
    requires n <= a.header.entryCount && DirentsOk(a)
    ensures |ds| == n
  {
    seq(n, i requires 0 <= i < n => assert DirentOk(a, i); DirentAt(a, i).value)
  }

  lemma OrderedStep(a: Archive, ds: seq<Dirent>, i: nat)
    requires Holds(a, ds) && KeysOrdered(a) && 0 < i < |ds|
    ensures KeyLe(ds[i - 1].Key(), ds[i].Key())
  {
    hide PathKey, KeyLe, DirentAt;
    HeldKeys(a, ds, i);
    HeldKeys(a, ds, i - 1);
    assert KeyStep(a, i);
  }

  lemma AscendingStep(a: Archive, ds: seq<Dirent>, i: nat)
    requires Holds(a, ds) && Ascending(Keys(ds)) && i < |ds|
    ensures KeyStep(a, i)
  {
    hide PathKey, KeyLe, Holds;
    assert i > 0 ==> KeyLe(Keys(ds)[i - 1], Keys(ds)[i]);
    assert i > 0 ==> KeyLe(ds[i - 1].Key(), ds[i].Key());
    hide Keys, Ascending, Dirent.Key, EntryAt, TitleKey;
    HeldKeys(a, ds, i);
    if i > 0 {
      HeldKeys(a, ds, i - 1);
    }
  }

  /** Conversely a sorted table passes the order check. */
  lemma AscendingPasses(a: Archive, ds: seq<Dirent>)
    requires Holds(a, ds) && Ascending(Keys(ds))
    ensures KeysOrdered(a)
  {
    assert |ds| == a.header.entryCount;
    hide KeyStep, Holds, Ascending, Keys;
    forall i: nat | i < a.header.entryCount
      ensures KeyStep(a, i)
    {
      AscendingStep(a, ds, i);
    }
  }

  /** Dirents accepted by the first two checks form a table that path lookups can search. */
  lemma CheckedDirents(a: Archive) returns (ds: seq<Dirent>)
    requires DirentsOk(a) && KeysOrdered(a)
    ensures Holds(a, ds) && Ascending(Keys(ds))
  {
    ds := DirentsOf(a, a.header.entryCount);
    hide DirentAt, KeyLe, KeysOrdered;
    forall i | 0 <= i < |ds|
      ensures DirentAt(a, i) == Ok(ds[i])
    {
      assert DirentOk(a, i);
    }
    forall k | 0 < k < |ds|
      ensures KeyLe(Keys(ds)[k - 1], Keys(ds)[k])
    {
      OrderedStep(a, ds, k);
    }
    StepsAscend(Keys(ds));
  }

  /** An accepted listing is in range, without repetition and in title order throughout. */
  ghost predicate TitleSorted(ds: seq<Dirent>, listing: seq<nat>) {
    && (forall k :: 0 <= k < |listing| ==> listing[k] < |ds|)
    && (forall i, j :: 0 <= i < j < |listing| ==> listing[i] != listing[j])
    && Ascending(TitleKeys(ds, listing))
  }

  ghost function TitleKeys(ds: seq<Dirent>, listing: seq<nat>): (keys: seq<Key>)
    requires forall k :: 0 <= k < |listing| ==> listing[k] < |ds|
    ensures |keys| == |listing|
  {
    seq(|listing|, k requires 0 <= k < |listing| => ds[listing[k]].TitleKey())
  }

  lemma ListedEntry(a: Archive, ds: seq<Dirent>, listing: seq<nat>, subset: bool, k: nat)
    requires Holds(a, ds) && ValidListing(a, listing, subset) && k < |listing|
    ensures listing[k] < |ds| && listing[k] !in listing[..k]
    ensures subset ==> ds[listing[k]].ns == NS_CONTENT
    ensures k > 0 ==> listing[k - 1] < |ds| && KeyLe(ds[listing[k - 1]].TitleKey(), ds[listing[k]].TitleKey())
  {
    hide TitleKey, KeyLe, DirentAt;
    assert ListedAt(a, listing, subset, k);
    HeldKeys(a, ds, listing[k]);
    if k > 0 {
      assert ListedAt(a, listing, subset, k - 1);
      HeldKeys(a, ds, listing[k - 1]);
    }
  }

  lemma ListingSorted(a: Archive, ds: seq<Dirent>, listing: seq<nat>, subset: bool)
    requires Holds(a, ds) && ValidListing(a, listing, subset)
    ensures TitleSorted(ds, listing)
    ensures subset ==> forall k :: 0 <= k < |listing| ==> ds[listing[k]].ns == NS_CONTENT
  {
    hide ValidListing, KeyLe, Holds;
    forall k | 0 <= k < |listing|
      ensures listing[k] < |ds| && listing[k] !in listing[..k] && (subset ==> ds[listing[k]].ns == NS_CONTENT)
    {
      ListedEntry(a, ds, listing, subset, k);
    }
    forall i, j | 0 <= i < j < |listing|
      ensures listing[i] != listing[j]
    {
      assert listing[i] in listing[..j];
    }
    forall k | 0 < k < |listing|
      ensures KeyLe(TitleKeys(ds, listing)[k - 1], TitleKeys(ds, listing)[k])
    {
      ListedEntry(a, ds, listing, subset, k);
    }
    StepsAscend(TitleKeys(ds, listing));
  }

  lemma SortedEntry(a: Archive, ds: seq<Dirent>, listing: seq<nat>, subset: bool, k: nat)
    requires Holds(a, ds) && TitleSorted(ds, listing) && k < |listing|
    requires subset ==> ds[listing[k]].ns == NS_CONTENT
    ensures ListedAt(a, listing, subset, k)
  {
    hide TitleKey, KeyLe, DirentAt;
    HeldKeys(a, ds, listing[k]);
    if k > 0 {
      HeldKeys(a, ds, listing[k - 1]);
      assert KeyLe(TitleKeys(ds, listing)[k - 1], TitleKeys(ds, listing)[k]);
    }
  }

  /** Conversely the properties a writer establishes make a listing acceptable. */
  lemma SortedIsValid(a: Archive, ds: seq<Dirent>, listing: seq<nat>, subset: bool)
    requires Holds(a, ds) && TitleSorted(ds, listing)
    requires subset || |listing| == |ds|
    requires subset ==> forall k :: 0 <= k < |listing| ==> ds[listing[k]].ns == NS_CONTENT
    requires a.header.urlPtrPos + a.header.entryCount * 8 <= |a.file|
    ensures ValidListing(a, listing, subset)
  {
    hide ListedAt, DirentAt;
    forall k: nat | k < |listing|
      ensures ListedAt(a, listing, subset, k)
    {
      SortedEntry(a, ds, listing, subset, k);
    }
  }
}
