/** Range and title queries over sorted tables: namespace ranges, path prefixes, title prefixes, titles. */
module Ranges {
  import opened Outcome
  import opened Bytes
  import opened Text
  import opened Headers
  import opened Dirents
  import opened Reader
  import opened Checks
  import opened Counting
  import Clusters
  import Layout

  // ---- Lower bounds ----

  /** Answers whether the entry at a position lies before the bound looked for. */
  type Probe = nat -> Result<bool>

  /** The lower-bound search shared by the range queries, on any probe. */
  function BoundFrom(before: Probe, lo: nat, hi: nat): Result<nat>
    decreases hi - lo
  {
    if lo >= hi then Ok(lo)
    else
      var mid := lo + (hi - lo) / 2;
      var less :- before(mid);
      if less then BoundFrom(before, mid + 1, hi) else BoundFrom(before, lo, mid)
  }

  method LowerBound(before: Probe, n: nat) returns (r: Result<nat>)
    ensures r == BoundFrom(before, 0, n)
  {
    var lo, hi := 0, n;
    while lo < hi
      invariant 0 <= lo && 0 <= hi
      invariant BoundFrom(before, 0, n) == BoundFrom(before, lo, hi)
    {
      var mid := lo + (hi - lo) / 2;
      var less := before(mid);
      if less.Err? {
        return Err(less.error);
      }
      if less.value {
        lo := mid + 1;
      } else {
        hi := mid;
      }
    }
    return Ok(lo);
  }

  /** Entries of the first `n` that lie before the bound come first. */
  ghost predicate Partitioned(before: Probe, n: nat) {
    && (forall i: nat :: i < n ==> before(i).Ok?)
    && (forall i: nat, j: nat :: i <= j < n && before(j) == Ok(true) ==> before(i) == Ok(true))
  }

  lemma {:induction false} BoundExact(before: Probe, n: nat, lo: nat, hi: nat)
    requires Partitioned(before, n) && lo <= hi <= n
    ensures BoundFrom(before, lo, hi).Ok?
    ensures var b := BoundFrom(before, lo, hi).value;
      && lo <= b <= hi
      && (forall i: nat :: lo <= i < hi ==> (before(i) == Ok(true) <==> i < b))
    decreases hi - lo
  {
    if lo < hi {
      var mid := lo + (hi - lo) / 2;
      if before(mid) == Ok(true) {
        BoundExact(before, n, mid + 1, hi);
      } else {
        BoundExact(before, n, lo, mid);
      }
    }
  }

  // ---- Namespace ranges ----

  function NsBelow(a: Archive, ns: nat): Probe {
    (i: nat) =>
      match UrlPointer(a, i)
      case Err(e) => Err(e)
      case Ok(off) =>
        match U8At(a.file, off + 3)
        case Err(e) => Err(e)
        case Ok(found) => Ok(found < ns)
  }

  function NamespaceRange(a: Archive, ns: byte): Result<(nat, nat)> {
    var start :- BoundFrom(NsBelow(a, ns), 0, a.header.entryCount);
    var end :- BoundFrom(NsBelow(a, if ns < 255 then ns + 1 else 255), 0, a.header.entryCount);
    Ok((start, end))
  }

  lemma NsBelowAt(a: Archive, ds: seq<Dirent>, ns: nat, i: nat)
    requires Holds(a, ds) && i < |ds|
    ensures NsBelow(a, ns)(i) == Ok(ds[i].ns < ns)
  {
    hide ParseDirent, KeyAt, TitleKeyAt;
    assert DirentAt(a, i) == Ok(ds[i]);
    ProbesAgree(a.file, UrlPointer(a, i).value);
  }

  lemma NsPartitioned(a: Archive, ds: seq<Dirent>, ns: nat)
    requires Holds(a, ds) && Ascending(Keys(ds))
    ensures Partitioned(NsBelow(a, ns), |ds|)
  {
    hide NsBelow, DirentAt, Compare;
    forall i: nat | i < |ds|
      ensures NsBelow(a, ns)(i) == Ok(ds[i].ns < ns)
    {
      NsBelowAt(a, ds, ns, i);
    }
    forall i: nat, j: nat | i <= j < |ds|
      ensures ds[i].ns <= ds[j].ns
    {
      assert i < j ==> KeyLe(Keys(ds)[i], Keys(ds)[j]);
    }
  }

  lemma NsBound(a: Archive, ds: seq<Dirent>, ns: nat) returns (b: nat)
    requires Holds(a, ds) && Ascending(Keys(ds))
    ensures BoundFrom(NsBelow(a, ns), 0, |ds|) == Ok(b)
    ensures b <= |ds| && forall i :: 0 <= i < |ds| ==> (ds[i].ns < ns <==> i < b)
  {
    NsPartitioned(a, ds, ns);
    BoundExact(NsBelow(a, ns), |ds|, 0, |ds|);
    b := BoundFrom(NsBelow(a, ns), 0, |ds|).value;
    hide NsBelow, DirentAt;
    forall i | 0 <= i < |ds|
      ensures ds[i].ns < ns <==> i < b
    {
      NsBelowAt(a, ds, ns, i);
    }
  }

  ghost predicate ExactNsRange(ds: seq<Dirent>, ns: byte, range: (nat, nat)) {
    forall i :: 0 <= i < |ds| ==> (range.0 <= i < range.1 <==> ds[i].ns == ns)
  }

  /** The range of a namespace is exact, except that the saturated upper bound empties namespace 255. */
  lemma NamespaceRangeExact(a: Archive, ds: seq<Dirent>, ns: byte)
    requires Holds(a, ds) && Ascending(Keys(ds))
    ensures NamespaceRange(a, ns).Ok?
    ensures ExactNsRange(ds, ns, NamespaceRange(a, ns).value)
            <==> ns < 255 || forall i :: 0 <= i < |ds| ==> ds[i].ns != 255
  {
    hide NsBelow, DirentAt, Ascending;
    var start := NsBound(a, ds, ns);
    var end := NsBound(a, ds, if ns < 255 then ns + 1 else 255);
    assert NamespaceRange(a, ns) == Ok((start, end));
  }

  /** An archive of one entry, in namespace 255: a redirect to itself. */
  const LAST_NAMESPACE: Layout.Image :=
    Layout.Image(Clusters.Stored, seq(16, _ => 0), [], [Redirect(255, [97], [97], 255, [97], Some(0))], [0], [], [], [], [], NO_MAIN_PAGE)

  lemma LastNamespaceGood()
    ensures Layout.Good(LAST_NAMESPACE)
  {
    var img := LAST_NAMESPACE;
    assert |EncodeMimes(img.mimes)| == 1;
    assert Clusters.Slot(false, 0) == 0;
    assert Layout.TotalLen(img.dirents, 1) == Layout.TotalLen(img.dirents, 0) + DirentLen(img.dirents[0]);
    assert img.ChecksumPos() == Layout.CLUSTERS_POS + 12 + 15;
    AsciiIsUtf8([97]);
    NoControlNoNul([97]);
    assert Encodable(img.dirents[0]);
  }

  /** The failing input: the entry is there and is found by its path, but the range of its namespace is empty. */
  lemma LastNamespaceLost(digest: Bytes)
    ensures var a := Layout.ArchiveOf(LAST_NAMESPACE, Layout.FileOf(LAST_NAMESPACE, digest));
      && ByPath(a, 255, [97]).Ok? && EntryAt(a, 0).Ok? && EntryAt(a, 0).value.dirent.ns == 255
      && NamespaceRange(a, 255) == Ok((0, 0))
  {
    hide NsBelow, DirentAt, Ascending, Holds, Layout.FileOf, Layout.Good, Layout.Written, EntryAt, ByPath;
    LastNamespaceGood();
    var img := LAST_NAMESPACE;
    var f := Layout.FileOf(img, digest);
    var a, ds := Layout.ArchiveOf(img, f), Layout.Views(img.dirents);
    Layout.FileIsWritten(img, digest);
    Layout.HoldsViews(img, f);
    Layout.ViewsAscend(img);
    HeldKeys(a, ds, 0);
    ByPathExact(a, ds, 255, [97]);
    assert ds[0].ns == 255 && ds[0].Key() == Key(255, [97]) && |ds| == 1;
    var start := NsBound(a, ds, 255);
    assert NamespaceRange(a, 255) == Ok((start, start));
  }

  // ---- Path prefixes ----

  /** An unreadable pointer counts as offset 0, and an unreadable dirent as not before the prefix. */
  function PathBelow(a: Archive, ns: byte, prefix: Bytes): Probe {
    (i: nat) =>
      match ParseDirent(a.file, UrlPointer(a, i).GetOr(0))
      case Err(_) => Ok(false)
      case Ok(d) => Ok(CompareKey(d.Key(), Key(ns, prefix)) == Less)
  }

  predicate Matches(d: Dirent, ns: byte, prefix: Bytes) {
    d.ns == ns && prefix <= d.url
  }

  /** What the prefix iterator yields from position `i` on. */
  function PrefixRun(a: Archive, ns: byte, prefix: Bytes, i: nat): seq<Result<Entry>>
    decreases a.header.entryCount - i
  {
    if i >= a.header.entryCount then []
    else
      match EntryAt(a, i)
      case Err(e) => [Err(e)] + PrefixRun(a, ns, prefix, i + 1)
      case Ok(entry) =>
        if Matches(entry.dirent, ns, prefix) then [Ok(entry)] + PrefixRun(a, ns, prefix, i + 1) else []
  }

  function PrefixEntries(a: Archive, ns: byte, prefix: Bytes): seq<Result<Entry>> {
    match BoundFrom(PathBelow(a, ns, prefix), 0, a.header.entryCount)
    case Ok(start) => PrefixRun(a, ns, prefix, start)
    case Err(_) => []
  }

  lemma PrefixRunUnfold(a: Archive, ns: byte, prefix: Bytes, i: nat)
    ensures i >= a.header.entryCount ==> PrefixRun(a, ns, prefix, i) == []
    ensures i < a.header.entryCount && (EntryAt(a, i).Ok? ==> Matches(EntryAt(a, i).value.dirent, ns, prefix)) ==>
              PrefixRun(a, ns, prefix, i) == [EntryAt(a, i)] + PrefixRun(a, ns, prefix, i + 1)
    ensures i < a.header.entryCount && EntryAt(a, i).Ok? && !Matches(EntryAt(a, i).value.dirent, ns, prefix) ==>
              PrefixRun(a, ns, prefix, i) == []
  {
    hide EntryAt, Matches;
  }

  /** The iterator of `by_prefix`, driven to its end. */
  method ByPrefix(a: Archive, ns: byte, prefix: Bytes) returns (found: seq<Result<Entry>>)
    ensures found == PrefixEntries(a, ns, prefix)
  {
    hide EntryAt, PathBelow, Matches, BoundFrom, PrefixRun;
    var start := LowerBound(PathBelow(a, ns, prefix), a.header.entryCount);
    found := [];
    if start.Err? {
      return;
    }
    var i := start.value;
    while true
      invariant 0 <= i
      invariant found + PrefixRun(a, ns, prefix, i) == PrefixRun(a, ns, prefix, start.value)
      decreases a.header.entryCount - i
    {
      PrefixRunUnfold(a, ns, prefix, i);
      if i >= a.header.entryCount {
        return;
      }
      var entry := EntryAt(a, i);
      if entry.Ok? && !Matches(entry.value.dirent, ns, prefix) {
        return;
      }
      found := found + [entry];
      i := i + 1;
    }
  }

  lemma {:induction false} PrefixNotLess(p: Bytes, s: Bytes)
    requires p <= s
    ensures !Lt(s, p)
    decreases |p|
  {
    if p != [] {
      assert p[0] == s[0];
      assert p[1..] <= s[1..];
      PrefixNotLess(p[1..], s[1..]);
    }
  }

  /** Between a prefix and a string that has it there are only strings that have it. */
  lemma {:induction false} PrefixSandwich(p: Bytes, s: Bytes, t: Bytes)
    requires !Lt(s, p) && !Lt(t, s) && p <= t
    ensures p <= s
    decreases |p|
  {
    if p != [] {
      assert p[0] == t[0];
      CompareTotal(s, p);
      assert s != [] && s[0] == p[0];
      assert p[1..] <= t[1..];
      PrefixSandwich(p[1..], s[1..], t[1..]);
      assert p == [p[0]] + p[1..];
    }
  }

  lemma PathBelowAt(a: Archive, ds: seq<Dirent>, ns: byte, prefix: Bytes, i: nat)
    requires Holds(a, ds) && i < |ds|
    ensures PathBelow(a, ns, prefix)(i) == Ok(KeyLt(ds[i].Key(), Key(ns, prefix)))
  {
    hide ParseDirent, UrlPointer, CompareKey;
    assert DirentAt(a, i) == Ok(ds[i]);
  }

  lemma PathBound(a: Archive, ds: seq<Dirent>, ns: byte, prefix: Bytes) returns (b: nat)
    requires Holds(a, ds) && Ascending(Keys(ds))
    ensures BoundFrom(PathBelow(a, ns, prefix), 0, |ds|) == Ok(b)
    ensures b <= |ds| && forall i :: 0 <= i < |ds| ==> (KeyLt(ds[i].Key(), Key(ns, prefix)) <==> i < b)
  {
    hide PathBelow, DirentAt, KeyLt, KeyLe;
    forall i: nat | i < |ds|
      ensures PathBelow(a, ns, prefix)(i) == Ok(KeyLt(ds[i].Key(), Key(ns, prefix)))
    {
      PathBelowAt(a, ds, ns, prefix, i);
    }
    forall i: nat, j: nat | i <= j < |ds| && KeyLt(ds[j].Key(), Key(ns, prefix))
      ensures KeyLt(ds[i].Key(), Key(ns, prefix))
    {
      if i < j {
        assert KeyLe(Keys(ds)[i], Keys(ds)[j]);
        KeyLtIsLe(ds[j].Key(), Key(ns, prefix));
        KeyLtTransitive(ds[i].Key(), ds[j].Key(), Key(ns, prefix));
      }
    }
    BoundExact(PathBelow(a, ns, prefix), |ds|, 0, |ds|);
    b := BoundFrom(PathBelow(a, ns, prefix), 0, |ds|).value;
  }

  lemma KeyLtIsLe(a: Key, b: Key)
    requires KeyLt(a, b)
    ensures KeyLe(a, b)
  {
  }

  /** Behind the first entry that lacks the prefix no entry has it. */
  lemma NoneBehind(ds: seq<Dirent>, ns: byte, prefix: Bytes, i: nat, j: nat)
    requires Ascending(Keys(ds)) && i <= j < |ds|
    requires !KeyLt(ds[i].Key(), Key(ns, prefix)) && Matches(ds[j], ns, prefix)
    ensures Matches(ds[i], ns, prefix)
  {
    if i < j {
      assert KeyLe(Keys(ds)[i], Keys(ds)[j]);
      CompareTotal(ds[i].url, ds[j].url);
      PrefixSandwich(prefix, ds[i].url, ds[j].url);
    }
  }

  /** `found` lists, in order, exactly the entries from `i` on that have the prefix; they are contiguous. */
  ghost predicate PrefixRunIs(ds: seq<Dirent>, ns: byte, prefix: Bytes, i: nat, found: seq<Result<Entry>>) {
    && i + |found| <= |ds|
    && (forall k :: 0 <= k < |found| ==> found[k] == Ok(Entry(i + k, ds[i + k])))
    && (forall k :: i <= k < |ds| ==> (k < i + |found| <==> Matches(ds[k], ns, prefix)))
  }

  lemma {:induction false} PrefixRunExact(a: Archive, ds: seq<Dirent>, ns: byte, prefix: Bytes, i: nat)
    requires Holds(a, ds) && Ascending(Keys(ds)) && i <= |ds|
    requires forall k :: i <= k < |ds| ==> !KeyLt(ds[k].Key(), Key(ns, prefix))
    ensures PrefixRunIs(ds, ns, prefix, i, PrefixRun(a, ns, prefix, i))
    decreases |ds| - i
  {
    hide Matches, KeyLt, KeyLe, EntryAt, DirentAt, PathKey, TitleKey;
    if i < |ds| {
      HeldKeys(a, ds, i);
      if Matches(ds[i], ns, prefix) {
        PrefixRunExact(a, ds, ns, prefix, i + 1);
        PrefixRunStep(ds, ns, prefix, i, PrefixRun(a, ns, prefix, i + 1));
      } else {
        forall j | i <= j < |ds|
          ensures !Matches(ds[j], ns, prefix)
        {
          if Matches(ds[j], ns, prefix) {
            NoneBehind(ds, ns, prefix, i, j);
          }
        }
      }
    }
  }

  lemma PrefixRunStep(ds: seq<Dirent>, ns: byte, prefix: Bytes, i: nat, rest: seq<Result<Entry>>)
    requires i < |ds| && Matches(ds[i], ns, prefix) && PrefixRunIs(ds, ns, prefix, i + 1, rest)
    ensures PrefixRunIs(ds, ns, prefix, i, [Ok(Entry(i, ds[i]))] + rest)
  {
    hide Matches;
    var found := [Ok(Entry(i, ds[i]))] + rest;
    forall k | 0 <= k < |found|
      ensures found[k] == Ok(Entry(i + k, ds[i + k]))
    {
      assert k > 0 ==> found[k] == rest[k - 1];
    }
  }

  /** On sorted dirents the prefix iterator yields exactly the entries with the prefix, in path order. */
  lemma PrefixEntriesExact(a: Archive, ds: seq<Dirent>, ns: byte, prefix: Bytes) returns (start: nat)
    requires Holds(a, ds) && Ascending(Keys(ds))
    ensures PrefixRunIs(ds, ns, prefix, start, PrefixEntries(a, ns, prefix))
    ensures forall i :: 0 <= i < start ==> i < |ds| && !Matches(ds[i], ns, prefix)
  {
    start := PathBound(a, ds, ns, prefix);
    PrefixRunExact(a, ds, ns, prefix, start);
    forall i | 0 <= i < start
      ensures !Matches(ds[i], ns, prefix)
    {
      assert KeyLt(ds[i].Key(), Key(ns, prefix));
      if Matches(ds[i], ns, prefix) {
        PrefixNotLess(prefix, ds[i].url);
      }
    }
  }

  // ---- Title prefixes ----

  function TitleBelow(a: Archive, listing: seq<nat>, key: Key): Probe {
    (k: nat) =>
      if k >= |listing| then Err(BadTitleIndex)
      else
        match TitleKey(a, listing[k])
        case Err(e) => Err(e)
        case Ok(found) => Ok(CompareKey(found, key) == Less)
  }

  /** The bounds of the listing entries whose title starts with `prefix`; 0xFF sorts behind all UTF-8. */
  function TitlePrefixRange(a: Archive, listing: seq<nat>, ns: byte, prefix: Bytes): Result<(nat, nat)> {
    var lo :- BoundFrom(TitleBelow(a, listing, Key(ns, prefix)), 0, |listing|);
    var hi :- BoundFrom(TitleBelow(a, listing, Key(ns, prefix + [0xFF])), 0, |listing|);
    Ok((lo, hi))
  }

  /** The sentinel is exact on text without the byte 0xFF. */
  lemma {:induction false} SentinelExact(p: Bytes, s: Bytes)
    requires 0xFF !in s
    ensures !Lt(s, p) && Lt(s, p + [0xFF]) <==> p <= s
    decreases |p|
  {
    if p == [] {
      assert p + [0xFF] == [0xFF];
    } else if s != [] && s[0] == p[0] {
      assert (p + [0xFF])[1..] == p[1..] + [0xFF];
      SentinelExact(p[1..], s[1..]);
      assert p == [p[0]] + p[1..] && s == [s[0]] + s[1..];
    }
  }

  lemma TitleBound(a: Archive, ds: seq<Dirent>, listing: seq<nat>, key: Key) returns (b: nat)
    requires Holds(a, ds) && TitleSorted(ds, listing)
    ensures BoundFrom(TitleBelow(a, listing, key), 0, |listing|) == Ok(b)
    ensures b <= |listing| && forall k :: 0 <= k < |listing| ==> (KeyLt(ds[listing[k]].TitleKey(), key) <==> k < b)
  {
    hide TitleKey, KeyLe, DirentAt;
    forall k: nat | k < |listing|
      ensures TitleBelow(a, listing, key)(k) == Ok(KeyLt(ds[listing[k]].TitleKey(), key))
    {
      HeldKeys(a, ds, listing[k]);
    }
    hide TitleBelow, KeyLt;
    forall i: nat, j: nat | i <= j < |listing| && KeyLt(ds[listing[j]].TitleKey(), key)
      ensures KeyLt(ds[listing[i]].TitleKey(), key)
    {
      if i < j {
        assert KeyLe(TitleKeys(ds, listing)[i], TitleKeys(ds, listing)[j]);
        KeyLtIsLe(ds[listing[j]].TitleKey(), key);
        KeyLtTransitive(ds[listing[i]].TitleKey(), ds[listing[j]].TitleKey(), key);
      }
    }
    BoundExact(TitleBelow(a, listing, key), |listing|, 0, |listing|);
    b := BoundFrom(TitleBelow(a, listing, key), 0, |listing|).value;
  }

  lemma HeldTitleUtf8(a: Archive, ds: seq<Dirent>, i: nat)
    requires Holds(a, ds) && i < |ds|
    ensures 0xFF !in ds[i].Title()
  {
    assert DirentAt(a, i) == Ok(ds[i]);
    ProbesAgree(a.file, UrlPointer(a, i).value);
    var t := ds[i].Title();
    forall k | 0 <= k < |t|
      ensures t[k] != 0xFF
    {
      Utf8BytesSmall(t, k);
    }
  }

  /** On an accepted listing the range holds exactly the listed entries of `ns` whose title has the prefix. */
  lemma TitlePrefixExact(a: Archive, ds: seq<Dirent>, listing: seq<nat>, ns: byte, prefix: Bytes)
    requires Holds(a, ds) && TitleSorted(ds, listing)
    ensures TitlePrefixRange(a, listing, ns, prefix).Ok?
    ensures forall k :: 0 <= k < |listing| ==>
              var r := TitlePrefixRange(a, listing, ns, prefix).value;
              (r.0 <= k < r.1 <==> ds[listing[k]].ns == ns && prefix <= ds[listing[k]].Title())
  {
    var lo := TitleBound(a, ds, listing, Key(ns, prefix));
    var hi := TitleBound(a, ds, listing, Key(ns, prefix + [0xFF]));
    hide TitleBelow, DirentAt, Compare;
    forall k | 0 <= k < |listing|
      ensures lo <= k < hi <==> ds[listing[k]].ns == ns && prefix <= ds[listing[k]].Title()
    {
      HeldTitleUtf8(a, ds, listing[k]);
      SentinelExact(prefix, ds[listing[k]].Title());
    }
  }

  // ---- Titles ----

  function FindTitle(a: Archive, listing: seq<nat>, key: Key, lo: nat, hi: nat): Result<Option<Entry>>
    requires hi <= |listing|
    decreases hi - lo
  {
    if lo >= hi then Ok(None)
    else
      var mid := lo + (hi - lo) / 2;
      var k :- TitleKey(a, listing[mid]);
      match CompareKey(key, k)
      case Less => FindTitle(a, listing, key, lo, mid)
      case Greater => FindTitle(a, listing, key, mid + 1, hi)
      case Equal =>
        var e :- EntryAt(a, listing[mid]);
        Ok(Some(e))
  }

  /** The path-order scan for entries a subset listing leaves out. */
  function ScanTitle(a: Archive, key: Key, i: nat): Result<Entry>
    decreases a.header.entryCount - i
  {
    if i >= a.header.entryCount then Err(EntryNotFound)
    else
      var e :- EntryAt(a, i);
      if e.dirent.TitleKey() == key then Ok(e) else ScanTitle(a, key, i + 1)
  }

  /** `entry_by_ns_title`: the listing first; the scan only when the listing is not the full table. */
  function ByTitle(a: Archive, ns: byte, title: Bytes): Result<Entry> {
    var listing :- TitleListing(a);
    var found :- FindTitle(a, listing, Key(ns, title), 0, |listing|);
    if found.Some? then Ok(found.value)
    else if |listing| == a.header.entryCount then Err(EntryNotFound)
    else ScanTitle(a, Key(ns, title), 0)
  }

  method EntryByNsTitle(a: Archive, ns: byte, title: Bytes) returns (r: Result<Entry>)
    ensures r == ByTitle(a, ns, title)
  {
    hide TitleKey, CompareKey, EntryAt, TitleListing;
    var listed := TitleListing(a);
    if listed.Err? {
      return Err(listed.error);
    }
    var listing, key := listed.value, Key(ns, title);
    var lo, hi := 0, |listing|;
    while lo < hi
      invariant 0 <= lo && 0 <= hi <= |listing|
      invariant FindTitle(a, listing, key, 0, |listing|) == FindTitle(a, listing, key, lo, hi)
    {
      var mid := lo + (hi - lo) / 2;
      var k := TitleKey(a, listing[mid]);
      if k.Err? {
        return Err(k.error);
      }
      match CompareKey(key, k.value) {
        case Less => hi := mid;
        case Greater => lo := mid + 1;
        case Equal => return EntryAt(a, listing[mid]);
      }
    }
    if |listing| == a.header.entryCount {
      return Err(EntryNotFound);
    }
    var i := 0;
    while i < a.header.entryCount
      invariant 0 <= i
      invariant ScanTitle(a, key, 0) == ScanTitle(a, key, i)
    {
      var e := EntryAt(a, i);
      if e.Err? || e.value.dirent.TitleKey() == key {
        return e;
      }
      i := i + 1;
    }
    return Err(EntryNotFound);
  }

  lemma {:induction false} FindTitleExact(a: Archive, ds: seq<Dirent>, listing: seq<nat>, key: Key, lo: nat, hi: nat)
    requires Holds(a, ds) && TitleSorted(ds, listing) && lo <= hi <= |listing|
    ensures match FindTitle(a, listing, key, lo, hi)
      case Ok(Some(e)) => e.index < |ds| && e == Entry(e.index, ds[e.index]) && e.dirent.TitleKey() == key
      case Ok(None) => forall k :: lo <= k < hi ==> ds[listing[k]].TitleKey() != key
      case Err(_) => false
    decreases hi - lo
  {
    hide TitleKey, CompareKey, EntryAt, DirentAt, Ascending, Holds;
    if lo < hi {
      var mid := lo + (hi - lo) / 2;
      HeldKeys(a, ds, listing[mid]);
      TitlesAround(ds, listing, key, mid);
      CompareKeyTotal(key, ds[listing[mid]].TitleKey());
      if CompareKey(key, ds[listing[mid]].TitleKey()) == Less {
        FindTitleExact(a, ds, listing, key, lo, mid);
      } else if CompareKey(key, ds[listing[mid]].TitleKey()) == Greater {
        FindTitleExact(a, ds, listing, key, mid + 1, hi);
      }
    }
  }

  lemma TitlesAround(ds: seq<Dirent>, listing: seq<nat>, key: Key, mid: nat)
    requires TitleSorted(ds, listing) && mid < |listing|
    ensures CompareKey(key, ds[listing[mid]].TitleKey()) == Less ==>
              forall k :: mid <= k < |listing| ==> ds[listing[k]].TitleKey() != key
    ensures CompareKey(key, ds[listing[mid]].TitleKey()) == Greater ==>
              forall k :: 0 <= k <= mid ==> ds[listing[k]].TitleKey() != key
  {
    hide CompareKey;
    CompareKeyTotal(key, key);
    CompareKeyTotal(key, ds[listing[mid]].TitleKey());
    forall k | 0 <= k < |listing| && ds[listing[k]].TitleKey() == key
      ensures k < mid ==> CompareKey(key, ds[listing[mid]].TitleKey()) != Greater
      ensures k > mid ==> CompareKey(key, ds[listing[mid]].TitleKey()) != Less
    {
      assert k < mid ==> KeyLe(TitleKeys(ds, listing)[k], TitleKeys(ds, listing)[mid]);
      assert k > mid ==> KeyLe(TitleKeys(ds, listing)[mid], TitleKeys(ds, listing)[k]);
    }
  }

  lemma {:induction false} ScanTitleExact(a: Archive, ds: seq<Dirent>, key: Key, i: nat)
    requires Holds(a, ds) && i <= |ds|
    ensures match ScanTitle(a, key, i)
      case Ok(e) => e.index < |ds| && e == Entry(e.index, ds[e.index]) && e.dirent.TitleKey() == key
      case Err(e) => e == EntryNotFound && forall k :: i <= k < |ds| ==> ds[k].TitleKey() != key
    decreases |ds| - i
  {
    hide EntryAt, DirentAt, TitleKey, PathKey;
    if i < |ds| {
      HeldKeys(a, ds, i);
      ScanTitleExact(a, ds, key, i + 1);
    }
  }

  /** A listing as long as the table lists every entry. */
  lemma FullListing(ds: seq<Dirent>, listing: seq<nat>, key: Key)
    requires TitleSorted(ds, listing) && |listing| == |ds|
    requires forall k :: 0 <= k < |listing| ==> ds[listing[k]].TitleKey() != key
    ensures forall i :: 0 <= i < |ds| ==> ds[i].TitleKey() != key
  {
    hide Ascending;
    forall i | 0 <= i < |ds|
      ensures ds[i].TitleKey() != key
    {
      DistinctFill(listing, i);
    }
  }

  lemma ListingUsed(a: Archive) returns (subset: bool)
    requires TitlesOk(a) && TitleListing(a).Ok?
    ensures ValidListing(a, TitleListing(a).value, subset)
  {
    hide NamedTitleListing, HeaderTitleListing, ValidListing;
    subset := a.header.UsesNewNamespaces() && NamedTitleListing(a, TITLE_V1).value.Some?;
  }

  /** With listings the structural checks accept, full or subset, a title lookup finds an entry with that
      namespace and effective title exactly when there is one: skipping the scan loses nothing. */
  lemma ByTitleExact(a: Archive, ds: seq<Dirent>, ns: byte, title: Bytes)
    requires Holds(a, ds) && TitlesOk(a) && TitleListing(a).Ok?
    ensures match ByTitle(a, ns, title)
      case Ok(e) => e.index < |ds| && e == Entry(e.index, ds[e.index]) && e.dirent.TitleKey() == Key(ns, title)
      case Err(e) => e == EntryNotFound && forall i :: 0 <= i < |ds| ==> ds[i].TitleKey() != Key(ns, title)
  {
    var subset := ListingUsed(a);
    var listing := TitleListing(a).value;
    ListingSorted(a, ds, listing, subset);
    hide TitleListing, EntryAt, TitleKey, DirentAt, TitlesOk, TitleSorted, Checks.ValidListing, FindTitle, ScanTitle;
    FindTitleExact(a, ds, listing, Key(ns, title), 0, |listing|);
    ScanTitleExact(a, ds, Key(ns, title), 0);
    if |listing| == |ds| && FindTitle(a, listing, Key(ns, title), 0, |listing|) == Ok(None) {
      FullListing(ds, listing, Key(ns, title));
    }
  }
}
