/** Collecting what the counter is made of: every committed and pending article, each exactly once, and the media types
    counted over them. */
module Census {
  import opened Outcome
  import opened Bytes
  import opened Text
  import opened Dirents
  import opened Reader
  import opened Counting
  import opened MimeTypes
  import opened Packing
  import opened Tables
  import opened Histogram

  // ---- Keys in order ----

  lemma LeastExists(keys: set<Bytes>) returns (k: Bytes)
    requires keys != {}
    ensures k in keys && forall x :: x in keys ==> x == k || Lt(k, x)
    decreases |keys|
  {
    hide Compare;
    var y :| y in keys;
    if keys == {y} {
      k := y;
    } else {
      var rest := keys - {y};
      assert keys == rest + {y};
      var z := LeastExists(rest);
      CompareTotal(y, z);
      CompareTotal(z, y);
      k := if Lt(y, z) then y else z;
      forall x | x in keys
        ensures x == k || Lt(k, x)
      {
        if k == y && x != y && x != z {
          LtTransitive(y, z, x);
        }
      }
    }
  }

  ghost predicate Ordered(s: seq<Bytes>) {
    forall i, j :: 0 <= i < j < |s| ==> Lt(s[i], s[j])
  }

  lemma {:induction false} OrderExists(keys: set<Bytes>) returns (s: seq<Bytes>)
    ensures Ordered(s) && forall k :: k in s <==> k in keys
    decreases |keys|
  {
    hide Compare;
    if keys == {} {
      s := [];
    } else {
      var k := LeastExists(keys);
      var rest := OrderExists(keys - {k});
      assert forall x :: x in rest ==> Lt(k, x);
      s := [k] + rest;
    }
  }

  /** The members in byte order. */
  ghost function InOrder(keys: set<Bytes>): (s: seq<Bytes>)
    ensures Ordered(s) && forall k :: k in s <==> k in keys
  {
    assert exists s :: Ordered(s) && forall k :: k in s <==> k in keys by {
      var s := OrderExists(keys);
    }
    var s :| Ordered(s) && forall k :: k in s <==> k in keys;
    s
  }

  /** There is only one such order. */
  lemma {:induction false} OrderUnique(s: seq<Bytes>, t: seq<Bytes>)
    requires Ordered(s) && Ordered(t) && forall k :: k in s <==> k in t
    ensures s == t
    decreases |s|
  {
    hide Compare;
    if s == [] {
      FirstIn(t);
    } else {
      assert s[0] in t;
      assert t[0] in s;
      SameLeast(s, t);
      OrderedDistinct(s);
      OrderedDistinct(t);
      forall k
        ensures k in s[1..] <==> k in t[1..]
      {
        BehindFirst(s, k);
        BehindFirst(t, k);
      }
      OrderUnique(s[1..], t[1..]);
      assert s == [s[0]] + s[1..] && t == [t[0]] + t[1..];
    }
  }

  lemma FirstIn(t: seq<Bytes>)
    ensures t != [] ==> exists k :: k in t
  {
    if t != [] {
      assert t[0] in t;
    }
  }

  lemma SameLeast(s: seq<Bytes>, t: seq<Bytes>)
    requires Ordered(s) && Ordered(t) && s != [] && s[0] in t && t != [] && t[0] in s
    ensures s[0] == t[0]
  {
    var i :| 0 <= i < |t| && t[i] == s[0];
    var j :| 0 <= j < |s| && s[j] == t[0];
    CompareTotal(s[0], t[0]);
    CompareTotal(t[0], s[0]);
    hide Compare;
  }

  lemma BehindFirst(s: seq<Bytes>, k: Bytes)
    requires Distinct(s) && s != []
    ensures k in s[1..] <==> k in s && k != s[0]
  {
    assert s == [s[0]] + s[1..];
    if k in s[1..] {
      var i :| 0 <= i < |s[1..]| && s[1..][i] == k;
      assert s[i + 1] == k;
    }
  }

  /** The keys in byte order, as a sorted map iterates. */
  method KeysInOrder(keys: set<Bytes>) returns (s: seq<Bytes>)
    ensures Ordered(s) && (forall k :: k in s <==> k in keys) && s == InOrder(keys)
  {
    hide Compare;
    s := [];
    var rest := keys;
    while rest != {}
      invariant rest <= keys && (forall k :: k in s <==> k in keys - rest)
      invariant Ordered(s) && forall i, k :: 0 <= i < |s| && k in rest ==> Lt(s[i], k)
      decreases |rest|
    {
      ghost var least := LeastExists(rest);
      var k :| k in rest && forall x :: x in rest ==> x == k || Lt(k, x);
      s := s + [k];
      rest := rest - {k};
    }
    OrderUnique(s, InOrder(keys));
  }

  lemma OrderedDistinct(s: seq<Bytes>)
    requires Ordered(s)
    ensures Distinct(s)
  {
    hide Compare;
    forall i, j | 0 <= i < j < |s|
      ensures s[i] != s[j]
    {
      CompareTotal(s[i], s[j]);
      assert Lt(s[i], s[j]);
    }
  }

  // ---- Articles and their keys ----

  /** Article `j` is the item accepted under `keys[j]`. */
  ghost predicate Matched(mimes: seq<Bytes>, pushed: Contents, k: Key, a: Article) {
    && k in pushed && pushed[k].Body? && a.0 == k.ns && a.1 < |mimes| && mimes[a.1] == pushed[k].mime
  }

  ghost predicate Listing(mimes: seq<Bytes>, pushed: Contents, keys: seq<Key>, articles: seq<Article>) {
    && |keys| == |articles| && Distinct(keys)
    && (forall j :: 0 <= j < |keys| ==> Matched(mimes, pushed, keys[j], articles[j]))
  }

  /** Where an item's dirent is, relative to a walk over the dirents and then the buckets in order. */
  ghost predicate Passed(loc: Loc, dirents: nat, done: seq<Bytes>, current: Option<Bytes>, pending: nat) {
    match loc
    case Committed(i) => i < dirents
    case InBucket(key, i) => key in done || (current == Some(key) && i < pending)
  }

  ghost predicate Progress(r: Record, keys: seq<Key>, dirents: nat, done: seq<Bytes>, current: Option<Bytes>, pending: nat) {
    && r.pushed.Keys == r.at.Keys
    && forall k :: k in keys <==> k in r.at && Passed(r.at[k], dirents, done, current, pending)
  }

  lemma NextKey(mimes: seq<Bytes>, r: Record, keys: seq<Key>, articles: seq<Article>, k: Key, a: Article)
    requires Listing(mimes, r.pushed, keys, articles) && Matched(mimes, r.pushed, k, a) && k !in keys
    ensures Listing(mimes, r.pushed, keys + [k], articles + [a])
  {
  }

  // Committed dirents first, then what is pending in each bucket, the buckets in key order.

  function CommittedArticles(ds: seq<RawDirent>, n: nat): seq<Article>
    requires n <= |ds|
  {
    if n == 0 then []
    else CommittedArticles(ds, n - 1) + if ds[n - 1].Article? then [(ds[n - 1].ns, ds[n - 1].mimeIdx)] else []
  }

  function PendingArticles(ps: seq<Pending>, n: nat): seq<Article>
    requires n <= |ps|
  {
    if n == 0 then [] else PendingArticles(ps, n - 1) + [(ps[n - 1].ns, ps[n - 1].mimeIdx)]
  }

  function BucketArticles(buckets: map<Bytes, Bucket>, keys: seq<Bytes>, n: nat): seq<Article>
    requires n <= |keys| && forall k :: k in keys ==> k in buckets
  {
    if n == 0 then []
    else
      assert keys[n - 1] in keys;
      BucketArticles(buckets, keys, n - 1) + PendingArticles(buckets[keys[n - 1]].pending, |buckets[keys[n - 1]].pending|)
  }

  ghost function Articles(d: Draft): seq<Article> {
    var order := InOrder(d.buckets.Keys);
    CommittedArticles(d.dirents, |d.dirents|) + BucketArticles(d.buckets, order, |order|)
  }

  /** The scan of both. */
  method ListArticles(dirents: seq<RawDirent>, buckets: map<Bytes, Bucket>, ghost d: Draft) returns (articles: seq<Article>)
    requires d.dirents == dirents && d.buckets == buckets
    ensures articles == Articles(d)
  {
    articles := [];
    for i := 0 to |dirents|
      invariant articles == CommittedArticles(dirents, i)
    {
      if dirents[i].Article? {
        articles := articles + [(dirents[i].ns, dirents[i].mimeIdx)];
      }
    }
    var order := KeysInOrder(buckets.Keys);
    for j := 0 to |order|
      invariant articles == CommittedArticles(dirents, |dirents|) + BucketArticles(buckets, order, j)
    {
      var pending := buckets[order[j]].pending;
      ghost var front := articles;
      for i := 0 to |pending|
        invariant articles == front + PendingArticles(pending, i)
      {
        articles := articles + [(pending[i].ns, pending[i].mimeIdx)];
      }
    }
  }

  lemma NextCommitted(s: Settings, d: Draft, r: Record, front: seq<Key>, i: nat) returns (keys: seq<Key>)
    requires Faithful(s, d, r) && i < |d.dirents|
    requires Listing(d.mimes, r.pushed, front, CommittedArticles(d.dirents, i)) && Progress(r, front, i, [], None, 0)
    ensures Listing(d.mimes, r.pushed, keys, CommittedArticles(d.dirents, i + 1)) && Progress(r, keys, i + 1, [], None, 0)
  {
    hide Faithful, RecordsOk, Listing, Progress, Matched;
    RecordsKnown(s, d, r);
    var a := d.dirents[i];
    DirentMatched(s, d, r, i);
    NextDirent(d, r, front, i, a.Key());
    NextKey(d.mimes, r, front, CommittedArticles(d.dirents, i), a.Key(), (a.ns, a.mimeIdx));
    keys := front + [a.Key()];
  }

  /** The committed dirents are items, each once. */
  lemma {:induction false} CommittedListed(s: Settings, d: Draft, r: Record, n: nat) returns (keys: seq<Key>)
    requires Faithful(s, d, r) && n <= |d.dirents|
    ensures Listing(d.mimes, r.pushed, keys, CommittedArticles(d.dirents, n)) && Progress(r, keys, n, [], None, 0)
    decreases n
  {
    hide Faithful, RecordsOk, Listing, Progress, Matched;
    RecordsKnown(s, d, r);
    if n == 0 {
      keys := [];
      NothingListed(d.mimes, r);
    } else {
      var front := CommittedListed(s, d, r, n - 1);
      keys := NextCommitted(s, d, r, front, n - 1);
    }
  }

  /** So are the pending ones of a bucket. */
  lemma {:induction false} PendingListed(s: Settings, d: Draft, r: Record, before: seq<Key>, articles: seq<Article>, done: seq<Bytes>,
                                         key: Bytes, n: nat)
    returns (keys: seq<Key>)
    requires Faithful(s, d, r) && key in d.buckets && key !in done && n <= |d.buckets[key].pending|
    requires Listing(d.mimes, r.pushed, before, articles) && Progress(r, before, |d.dirents|, done, None, 0)
    ensures Listing(d.mimes, r.pushed, keys, articles + PendingArticles(d.buckets[key].pending, n))
    ensures Progress(r, keys, |d.dirents|, done, Some(key), n)
    decreases n
  {
    hide Faithful, RecordsOk, Listing, Progress, Matched;
    RecordsKnown(s, d, r);
    var pending := d.buckets[key].pending;
    if n == 0 {
      keys := before;
      StartBucket(r, keys, |d.dirents|, done, key);
      assert articles + [] == articles;
    } else {
      var p := pending[n - 1];
      var front := PendingListed(s, d, r, before, articles, done, key, n - 1);
      PendingMatched(s, d, r, key, n - 1);
      NextPending(d, r, front, |d.dirents|, done, key, n - 1, p.Key());
      NextKey(d.mimes, r, front, articles + PendingArticles(pending, n - 1), p.Key(), (p.ns, p.mimeIdx));
      keys := front + [p.Key()];
      assert articles + PendingArticles(pending, n) == articles + PendingArticles(pending, n - 1) + [(p.ns, p.mimeIdx)];
    }
  }

  lemma {:induction false} BucketsListed(s: Settings, d: Draft, r: Record, order: seq<Bytes>, n: nat) returns (keys: seq<Key>)
    requires Faithful(s, d, r) && n <= |order| && Distinct(order) && forall k :: k in order ==> k in d.buckets
    ensures Listing(d.mimes, r.pushed, keys, CommittedArticles(d.dirents, |d.dirents|) + BucketArticles(d.buckets, order, n))
    ensures Progress(r, keys, |d.dirents|, order[..n], None, 0)
    decreases n
  {
    hide Faithful, RecordsOk, Listing, Progress, Matched, PendingArticles, CommittedArticles;
    RecordsKnown(s, d, r);
    var committed := CommittedArticles(d.dirents, |d.dirents|);
    if n == 0 {
      keys := CommittedListed(s, d, r, |d.dirents|);
      assert committed + [] == committed;
    } else {
      var key, size := order[n - 1], |d.buckets[order[n - 1]].pending|;
      assert key !in order[..n - 1];
      var front := BucketsListed(s, d, r, order, n - 1);
      var articles := committed + BucketArticles(d.buckets, order, n - 1);
      keys := PendingListed(s, d, r, front, articles, order[..n - 1], key, size);
      FinishBucket(d, r, keys, |d.dirents|, order[..n - 1], key);
      assert order[..n] == order[..n - 1] + [key];
      assert articles + PendingArticles(d.buckets[key].pending, size) == committed + BucketArticles(d.buckets, order, n);
    }
  }

  /** Every accepted item is scanned exactly once. */
  lemma ArticlesListed(s: Settings, d: Draft, r: Record) returns (keys: seq<Key>)
    requires Faithful(s, d, r)
    ensures Listing(d.mimes, r.pushed, keys, Articles(d))
    ensures forall k :: k in keys <==> k in r.pushed
  {
    hide Faithful, RecordsOk, Listing, Progress;
    RecordsKnown(s, d, r);
    var order := InOrder(d.buckets.Keys);
    OrderedDistinct(order);
    keys := BucketsListed(s, d, r, order, |order|);
    assert order[..|order|] == order;
    AllPassed(d, r, keys, order);
  }

  lemma RecordsKnown(s: Settings, d: Draft, r: Record)
    requires Faithful(s, d, r)
    ensures RecordsOk(d, r) && r.pushed.Keys == r.at.Keys
  {
    hide DirentsFit, BucketsFit, PlansFit, SlotsOk, InFlightOk, GoodList, PlansKnown, Located, StoredOk;
  }

  lemma NothingListed(mimes: seq<Bytes>, r: Record)
    requires r.pushed.Keys == r.at.Keys
    ensures Listing(mimes, r.pushed, [], []) && Progress(r, [], 0, [], None, 0)
  {
  }

  lemma DirentMatched(s: Settings, d: Draft, r: Record, i: nat)
    requires Faithful(s, d, r) && i < |d.dirents|
    ensures d.dirents[i].Article? && Matched(d.mimes, r.pushed, d.dirents[i].Key(), (d.dirents[i].ns, d.dirents[i].mimeIdx))
    ensures d.dirents[i].Key() in r.at && r.at[d.dirents[i].Key()] == Committed(i) && r.pushed.Keys == r.at.Keys
  {
    hide SlotsOk, InFlightOk, PlansFit, GoodList, BucketsFit, PlanHolds;
    assert CommittedOk(d, r, i);
  }

  lemma PendingMatched(s: Settings, d: Draft, r: Record, key: Bytes, i: nat)
    requires Faithful(s, d, r) && key in d.buckets && i < |d.buckets[key].pending|
    ensures var p := d.buckets[key].pending[i];
      Matched(d.mimes, r.pushed, p.Key(), (p.ns, p.mimeIdx)) && p.Key() in r.at && r.at[p.Key()] == InBucket(key, i)
  {
    hide SlotsOk, InFlightOk, PlansFit, GoodList, DirentsFit, RecordsOk, Join;
    assert BucketOk(s, d.mimes, r, key, d.buckets[key]);
    assert PendingOk(d.mimes, r, key, d.buckets[key], i);
  }

  /** Two items are never at the same place. */
  lemma OnlyThere(d: Draft, r: Record, k: Key, x: Key)
    requires RecordsOk(d, r) && k in r.at && x in r.at && r.at[k] == r.at[x]
    ensures x == k
  {
    hide StoredOk;
    assert Located(d, r, k) && Located(d, r, x);
  }

  lemma NextDirent(d: Draft, r: Record, keys: seq<Key>, i: nat, k: Key)
    requires RecordsOk(d, r) && Progress(r, keys, i, [], None, 0) && k in r.at && r.at[k] == Committed(i)
    ensures k !in keys && Progress(r, keys + [k], i + 1, [], None, 0)
  {
    hide RecordsOk;
    forall x
      ensures x in keys + [k] <==> x in r.at && Passed(r.at[x], i + 1, [], None, 0)
    {
      assert x in keys <==> x in r.at && Passed(r.at[x], i, [], None, 0);
      if x in r.at && r.at[x] == Committed(i) {
        OnlyThere(d, r, k, x);
      }
    }
  }

  lemma StartBucket(r: Record, keys: seq<Key>, n: nat, done: seq<Bytes>, key: Bytes)
    requires Progress(r, keys, n, done, None, 0)
    ensures Progress(r, keys, n, done, Some(key), 0)
  {
  }

  lemma NextPending(d: Draft, r: Record, keys: seq<Key>, n: nat, done: seq<Bytes>, key: Bytes, i: nat, k: Key)
    requires RecordsOk(d, r) && Progress(r, keys, n, done, Some(key), i) && key !in done
    requires k in r.at && r.at[k] == InBucket(key, i)
    ensures k !in keys && Progress(r, keys + [k], n, done, Some(key), i + 1)
  {
    hide RecordsOk;
    forall x
      ensures x in keys + [k] <==> x in r.at && Passed(r.at[x], n, done, Some(key), i + 1)
    {
      assert x in keys <==> x in r.at && Passed(r.at[x], n, done, Some(key), i);
      if x in r.at && r.at[x] == InBucket(key, i) {
        OnlyThere(d, r, k, x);
      }
    }
  }

  lemma FinishBucket(d: Draft, r: Record, keys: seq<Key>, n: nat, done: seq<Bytes>, key: Bytes)
    requires RecordsOk(d, r) && key in d.buckets && Progress(r, keys, n, done, Some(key), |d.buckets[key].pending|)
    ensures Progress(r, keys, n, done + [key], None, 0)
  {
    hide StoredOk;
    forall x | x in r.at
      ensures Passed(r.at[x], n, done + [key], None, 0) <==> Passed(r.at[x], n, done, Some(key), |d.buckets[key].pending|)
    {
      assert Located(d, r, x);
    }
  }

  lemma AllPassed(d: Draft, r: Record, keys: seq<Key>, order: seq<Bytes>)
    requires RecordsOk(d, r) && Progress(r, keys, |d.dirents|, order, None, 0) && forall k :: k in order <==> k in d.buckets
    ensures forall k :: k in keys <==> k in r.pushed
  {
    hide StoredOk;
    forall k
      ensures k in keys <==> k in r.pushed
    {
      if k in r.at {
        assert Located(d, r, k);
      }
    }
  }

  // ---- The histogram ----

  ghost function OfType(pushed: Contents, mime: Bytes): set<Key> {
    set k | k in pushed && k.ns == NS_CONTENT && pushed[k].Body? && pushed[k].mime == mime
  }

  /** Content items whose type is `kind` up to parameters. */
  ghost function OfKind(pushed: Contents, kind: Bytes): set<Key> {
    set k | k in pushed && k.ns == NS_CONTENT && pushed[k].Body? && TypeIs(pushed[k].mime, kind)
  }

  lemma BareTypes(pushed: Contents, kind: Bytes)
    ensures OfKind(pushed, kind) == set k | k in pushed && k.ns == NS_CONTENT && pushed[k].Body? && Bare(pushed[k].mime) == kind
  {
    hide Bare, TypeIs;
    forall k | k in pushed && pushed[k].Body?
      ensures TypeIs(pushed[k].mime, kind) <==> Bare(pushed[k].mime) == kind
    {
      BareExact(pushed[k].mime, kind);
    }
  }

  ghost function Among(pushed: Contents, keys: seq<Key>, mime: Bytes): set<Key> {
    set k | k in keys && k in OfType(pushed, mime)
  }

  lemma {:induction false} TallyIsCount(mimes: seq<Bytes>, pushed: Contents, keys: seq<Key>, articles: seq<Article>, i: nat)
    requires Listing(mimes, pushed, keys, articles) && Distinct(mimes) && i < |mimes|
    ensures Tally(articles, i) == |Among(pushed, keys, mimes[i])|
    decreases |keys|
  {
    if keys == [] {
      assert Among(pushed, keys, mimes[i]) == {};
    } else {
      var n := |keys| - 1;
      TallyIsCount(mimes, pushed, keys[..n], articles[..n], i);
      AmongStep(mimes, pushed, keys, articles, i);
      hide Among, Distinct, Matched;
    }
  }

  lemma AmongStep(mimes: seq<Bytes>, pushed: Contents, keys: seq<Key>, articles: seq<Article>, i: nat)
    requires Listing(mimes, pushed, keys, articles) && Distinct(mimes) && i < |mimes| && keys != []
    ensures var n := |keys| - 1; var front := Among(pushed, keys[..n], mimes[i]);
      if articles[n].0 == NS_CONTENT && articles[n].1 == i
      then keys[n] !in front && Among(pushed, keys, mimes[i]) == front + {keys[n]}
      else Among(pushed, keys, mimes[i]) == front
  {
    var n := |keys| - 1;
    assert Matched(mimes, pushed, keys[n], articles[n]);
    assert keys[n] !in keys[..n];
    assert keys == keys[..n] + [keys[n]];
    assert mimes[articles[n].1] == mimes[i] <==> articles[n].1 == i;
    hide Distinct, Matched;
  }

  /** Content items of the first `n` types with media type `kind`. */
  ghost function OfKinds(mimes: seq<Bytes>, pushed: Contents, n: nat, kind: Bytes): set<Key>
    requires n <= |mimes|
  {
    set k | k in OfKind(pushed, kind) && pushed[k].mime in mimes[..n]
  }

  lemma KindsStep(mimes: seq<Bytes>, pushed: Contents, n: nat, kind: Bytes)
    requires Distinct(mimes) && 0 < n <= |mimes|
    ensures var front, last := OfKinds(mimes, pushed, n - 1, kind), OfType(pushed, mimes[n - 1]);
      if Bare(mimes[n - 1]) == kind then OfKinds(mimes, pushed, n, kind) == front + last && front !! last
      else OfKinds(mimes, pushed, n, kind) == front
  {
    hide Bare, TypeIs;
    BareTypes(pushed, kind);
    BareExact(mimes[n - 1], kind);
    assert mimes[..n] == mimes[..n - 1] + [mimes[n - 1]];
    assert mimes[n - 1] !in mimes[..n - 1];
  }

  lemma KindsSize(mimes: seq<Bytes>, pushed: Contents, n: nat, kind: Bytes)
    requires Distinct(mimes) && 0 < n <= |mimes|
    ensures |OfKinds(mimes, pushed, n, kind)| ==
            |OfKinds(mimes, pushed, n - 1, kind)| + (if Bare(mimes[n - 1]) == kind then |OfType(pushed, mimes[n - 1])| else 0)
  {
    KindsStep(mimes, pushed, n, kind);
    hide Bare, OfKinds, OfType, Distinct;
  }

  lemma AllAmong(pushed: Contents, keys: seq<Key>, mime: Bytes)
    requires forall k :: k in keys <==> k in pushed
    ensures Among(pushed, keys, mime) == OfType(pushed, mime)
  {
  }

  lemma {:induction false} TotalIsCount(mimes: seq<Bytes>, pushed: Contents, keys: seq<Key>, articles: seq<Article>, n: nat, kind: Bytes)
    requires Listing(mimes, pushed, keys, articles) && Distinct(mimes) && n <= |mimes|
    requires forall k :: k in keys <==> k in pushed
    ensures Total(mimes, articles, n, kind) == |OfKinds(mimes, pushed, n, kind)|
  {
    if n == 0 {
      assert OfKinds(mimes, pushed, 0, kind) == {};
    } else {
      hide Bare, OfKinds, OfType, Among, Listing, Tally, Distinct;
      TotalIsCount(mimes, pushed, keys, articles, n - 1, kind);
      KindsSize(mimes, pushed, n, kind);
      TallyIsCount(mimes, pushed, keys, articles, n - 1);
      AllAmong(pushed, keys, mimes[n - 1]);
    }
  }

  /** A reader of `text` finds every media type of the accepted content once, with the number of content items of that
      type. */
  ghost predicate CountsAll(pushed: Contents, text: Bytes) {
    ReadCounter(text).Some? && IsHistogram(pushed, ReadCounter(text).value)
  }

  ghost predicate IsHistogram(pushed: Contents, counts: seq<Count>) {
    && DistinctTypes(counts)
    && (forall i :: 0 <= i < |counts| ==> counts[i].1 > 0 && counts[i].1 == |OfKind(pushed, counts[i].0)|)
    && (forall kind :: OfKind(pushed, kind) != {} ==> Find(counts, kind).Some?)
  }

  lemma KindTotal(mimes: seq<Bytes>, pushed: Contents, keys: seq<Key>, articles: seq<Article>, kind: Bytes)
    requires Listing(mimes, pushed, keys, articles) && Distinct(mimes) && forall k :: k in keys <==> k in pushed
    ensures Total(mimes, articles, |mimes|, kind) == |OfKind(pushed, kind)|
  {
    TotalIsCount(mimes, pushed, keys, articles, |mimes|, kind);
    hide Bare, Total;
    assert mimes[..|mimes|] == mimes;
    forall k | k in OfKind(pushed, kind)
      ensures pushed[k].mime in mimes
    {
      var j :| 0 <= j < |keys| && keys[j] == k;
      assert Matched(mimes, pushed, keys[j], articles[j]);
    }
    assert OfKinds(mimes, pushed, |mimes|, kind) == OfKind(pushed, kind);
  }

  /** The generated counter is the histogram of the accepted content. */
  lemma CounterCounts(mimes: seq<Bytes>, pushed: Contents, keys: seq<Key>, articles: seq<Article>)
    requires Listing(mimes, pushed, keys, articles) && Distinct(mimes) && forall k :: k in keys <==> k in pushed
    requires AllMimes(mimes)
    ensures CountsAll(pushed, CounterText(mimes, articles))
  {
    hide Bare, Total, Fold, Render, Find, OfKind, ReadCounter, AllMimes, CounterText;
    var counts := Fold(mimes, articles, |mimes|);
    FoldExact(mimes, articles, |mimes|);
    CounterReads(mimes, articles);
    forall i | 0 <= i < |counts|
      ensures counts[i].1 > 0 && counts[i].1 == |OfKind(pushed, counts[i].0)|
    {
      assert Counted(mimes, articles, |mimes|, counts[i]);
      KindTotal(mimes, pushed, keys, articles, counts[i].0);
    }
    forall kind | OfKind(pushed, kind) != {}
      ensures Find(counts, kind).Some?
    {
      assert Covered(mimes, articles, |mimes|, counts, kind);
      KindTotal(mimes, pushed, keys, articles, kind);
    }
    assert IsHistogram(pushed, counts);
  }
}
