/** The metadata of a recreated archive: which entries of the source go in, under which key, and what is there then. */
module Metadata {
  import opened Outcome
  import opened Bytes
  import opened Text
  import opened Numerals
  import opened Dirents
  import opened Reader
  import opened MimeTypes
  import opened Packing
  import opened Tables
  import opened Deferred
  import opened Closing

  const SCRAPER: Key := Key(NS_METADATA, Ascii("Scraper"))

  // ---- Illustrations ----

  /** The side N of `Illustration_NxN@1`. */
  function IllustrationSide(path: Bytes): Option<nat> {
    var prefix := Ascii("Illustration_");
    if !(prefix <= path) then None
    else
      var rest := path[|prefix|..];
      if |rest| < 2 || rest[|rest| - 2..] != [64, 49] then None
      else SquareSide(rest[..|rest| - 2])
  }

  /** `NxN` */
  function SquareSide(dims: Bytes): Option<nat> {
    match FirstOf(dims, 120)
    case None => None
    case Some(i) =>
      var w, h := ParseU32(dims[..i]), ParseU32(dims[i + 1..]);
      if w.Some? && w == h then w else None
  }

  /** The path an illustration is stored under gives its side back. */
  lemma SideOfPath(side: nat, png: Bytes)
    requires side < U32_LIMIT
    ensures IllustrationSide(Illustration(side, png).Path()) == Some(side)
  {
    var n, prefix := Decimal(side), Ascii("Illustration_");
    var dims := n + [120] + n;
    var path := Illustration(side, png).Path();
    hide Ascii, Decimal;
    DecimalExact(side);
    ParsesDecimal(side);
    FirstBehind(n, 120, n);
    assert dims[..|n|] == n && dims[|n| + 1..] == n;
    assert path == prefix + (dims + [64, 49]);
    assert path[|prefix|..] == dims + [64, 49] && path[..|prefix|] == prefix;
    assert (dims + [64, 49])[|dims|..] == [64, 49] && (dims + [64, 49])[..|dims|] == dims;
  }

  // ---- What is due ----

  /** Entry `i` is a metadata article that is neither the counter nor the scraper's name. */
  ghost predicate Due(src: Archive, i: nat) {
    i < src.header.entryCount && EntryAt(src, i).Ok? && DueDirent(EntryAt(src, i).value.dirent)
  }

  predicate DueDirent(d: Dirent) {
    d.ArticleEntry? && d.ns == NS_METADATA && d.url != COUNTER.text && d.url != SCRAPER.text
  }

  ghost function UrlOf(src: Archive, i: nat): Bytes
    requires Due(src, i)
  {
    EntryAt(src, i).value.dirent.url
  }

  /** No earlier entry has the same path. */
  ghost predicate First(src: Archive, i: nat)
    requires Due(src, i)
  {
    forall j: nat :: j < i && Due(src, j) ==> UrlOf(src, j) != UrlOf(src, i)
  }

  /** Illustrations go in under their side length, everything else under its own path. */
  function CopyKey(url: Bytes): Key {
    match IllustrationSide(url)
    case Some(n) => Illustration(n, []).Item().meta.Key()
    case None => Key(NS_METADATA, url)
  }

  /** What a reader is to find for it: its bytes, and for anything but an illustration its path as title and its type. */
  ghost predicate CopyOf(src: Archive, e: Entry, st: Stored) {
    && e.dirent.ArticleEntry? && st.Body? && GetData(src, e) == Ok(st.content)
    && match IllustrationSide(e.dirent.url)
       case Some(n) => st.title == CopyKey(e.dirent.url).text && st.mime == IMAGE_PNG
       case None => st.title == e.dirent.url && st.mime == Mimetype(src, e)
  }

  /** The first entry of each path is there; an illustration's path does not repeat. */
  ghost predicate Copied(src: Archive, added: Contents, i: nat) {
    Due(src, i) ==>
      var k := CopyKey(UrlOf(src, i));
      && (IllustrationSide(UrlOf(src, i)).Some? ==> First(src, i))
      && (First(src, i) ==> k in added && CopyOf(src, EntryAt(src, i).value, added[k]))
  }

  ghost predicate ComesFrom(src: Archive, k: Key, n: nat) {
    exists i: nat :: i < n && Due(src, i) && First(src, i) && CopyKey(UrlOf(src, i)) == k
  }

  /** The metadata among the first `n` entries is there, and besides it only `own`. */
  ghost predicate CopiedUpTo(src: Archive, added: Contents, n: nat, own: set<Key>) {
    && (forall i: nat :: i < n ==> Copied(src, added, i))
    && (forall k :: k in added && k.ns == NS_METADATA ==> k in own || ComesFrom(src, k, n))
  }

  /** All metadata of the source is there, the scraper's name is `scraper`, and there is no other metadata. */
  ghost predicate AllMetadata(src: Archive, added: Contents, scraper: Bytes) {
    && CopiedUpTo(src, added, src.header.entryCount, {SCRAPER})
    && SCRAPER in added && added[SCRAPER].Body? && added[SCRAPER].title == SCRAPER.text
    && added[SCRAPER].mime == TEXT_PLAIN_UTF8 && added[SCRAPER].content == scraper
  }

  /** The paths met so far of what goes in under its own path. */
  ghost predicate Seen(src: Archive, seen: set<Bytes>, n: nat) {
    forall x :: x in seen <==> MetBefore(src, x, n)
  }

  ghost predicate MetBefore(src: Archive, x: Bytes, n: nat) {
    IllustrationSide(x) == None && exists i: nat :: i < n && Due(src, i) && UrlOf(src, i) == x
  }

  // ---- Steps ----

  /** Everything stays, and what is new is in namespace `ns`. */
  ghost predicate OnlyNew(before: Contents, after: Contents, ns: byte) {
    && (forall k :: k in before ==> k in after && after[k] == before[k])
    && (forall k :: k in after ==> k in before || k.ns == ns)
  }

  lemma NoneNew(added: Contents, ns: byte)
    ensures OnlyNew(added, added, ns)
  {
  }

  lemma MoreNew(a: Contents, b: Contents, c: Contents, ns: byte)
    requires OnlyNew(a, b, ns) && OnlyNew(b, c, ns)
    ensures OnlyNew(a, c, ns)
  {
  }

  lemma StillCopied(src: Archive, before: Contents, after: Contents, i: nat)
    requires Copied(src, before, i) && forall k :: k in before ==> k in after && after[k] == before[k]
    ensures Copied(src, after, i)
  {
    hide Due, First, CopyOf, CopyKey, IllustrationSide, UrlOf;
  }

  /** What happens in other namespaces does not concern the metadata. */
  lemma MetadataStays(src: Archive, before: Contents, after: Contents, ns: byte, n: nat, own: set<Key>)
    requires CopiedUpTo(src, before, n, own) && OnlyNew(before, after, ns) && ns != NS_METADATA
    ensures CopiedUpTo(src, after, n, own)
  {
    hide Copied, ComesFrom;
    forall i: nat | i < n
      ensures Copied(src, after, i)
    {
      StillCopied(src, before, after, i);
    }
  }

  lemma Met(src: Archive, n: nat, x: Bytes)
    ensures MetBefore(src, x, n + 1) <==> MetBefore(src, x, n) || (Due(src, n) && UrlOf(src, n) == x && IllustrationSide(x) == None)
  {
    hide Due, IllustrationSide;
  }

  /** A key that is free, and a path not met before, belong to the first entry of the path. */
  lemma IsFirst(src: Archive, added: Contents, seen: set<Bytes>, n: nat)
    requires CopiedUpTo(src, added, n, {}) && Seen(src, seen, n) && Due(src, n)
    requires CopyKey(UrlOf(src, n)) !in added
    requires IllustrationSide(UrlOf(src, n)) == None ==> UrlOf(src, n) !in seen
    ensures First(src, n)
  {
    hide Due, CopyOf, CopyKey, IllustrationSide;
    forall j: nat | j < n && Due(src, j)
      ensures UrlOf(src, j) != UrlOf(src, n)
    {
      assert Copied(src, added, j);
      assert UrlOf(src, n) in seen <==> MetBefore(src, UrlOf(src, n), n);
    }
  }

  lemma StillFrom(src: Archive, k: Key, n: nat)
    requires ComesFrom(src, k, n)
    ensures ComesFrom(src, k, n + 1)
  {
    hide Due, First, CopyKey, UrlOf;
  }

  lemma SeenNext(src: Archive, seen: set<Bytes>, n: nat, more: set<Bytes>)
    requires Seen(src, seen, n)
    requires forall x :: x in more <==> x in seen || (Due(src, n) && UrlOf(src, n) == x && IllustrationSide(x) == None)
    ensures Seen(src, more, n + 1)
  {
    hide Due, MetBefore, IllustrationSide, UrlOf;
    forall x
      ensures x in more <==> MetBefore(src, x, n + 1)
    {
      Met(src, n, x);
      assert x in seen <==> MetBefore(src, x, n);
    }
  }

  lemma CopiedNext(src: Archive, before: Contents, after: Contents, n: nat)
    requires CopiedUpTo(src, before, n, {}) && Copied(src, after, n)
    requires forall k :: k in before ==> k in after && after[k] == before[k]
    requires forall k :: k in after ==> k in before || ComesFrom(src, k, n + 1)
    ensures CopiedUpTo(src, after, n + 1, {})
  {
    hide Copied, ComesFrom;
    forall i: nat | i < n + 1
      ensures Copied(src, after, i)
    {
      if i < n {
        StillCopied(src, before, after, i);
      }
    }
    forall k | k in before && k.ns == NS_METADATA
      ensures ComesFrom(src, k, n + 1)
    {
      StillFrom(src, k, n);
    }
  }

  /** The first entry of a path goes in. */
  lemma DueFirst(src: Archive, added: Contents, seen: set<Bytes>, n: nat, st: Stored)
    requires CopiedUpTo(src, added, n, {}) && Seen(src, seen, n) && Due(src, n)
    requires CopyKey(UrlOf(src, n)) !in added && CopyOf(src, EntryAt(src, n).value, st)
    requires IllustrationSide(UrlOf(src, n)) == None ==> UrlOf(src, n) !in seen
    ensures CopiedUpTo(src, added[CopyKey(UrlOf(src, n)) := st], n + 1, {})
    ensures Seen(src, if IllustrationSide(UrlOf(src, n)) == None then seen + {UrlOf(src, n)} else seen, n + 1)
  {
    hide *;
    IsFirst(src, added, seen, n);
    var after := added[CopyKey(UrlOf(src, n)) := st];
    NowCopied(src, after, n);
    NowFrom(src, n);
    CopiedNext(src, added, after, n);
    SeenNext(src, seen, n, if IllustrationSide(UrlOf(src, n)) == None then seen + {UrlOf(src, n)} else seen);
  }

  lemma NowCopied(src: Archive, added: Contents, n: nat)
    requires Due(src, n) && First(src, n) && CopyKey(UrlOf(src, n)) in added
    requires CopyOf(src, EntryAt(src, n).value, added[CopyKey(UrlOf(src, n))])
    ensures Copied(src, added, n)
  {
    hide CopyOf, CopyKey, IllustrationSide, First, EntryAt;
  }

  lemma NowFrom(src: Archive, n: nat)
    requires Due(src, n) && First(src, n)
    ensures ComesFrom(src, CopyKey(UrlOf(src, n)), n + 1)
  {
    hide Due, CopyKey, First, UrlOf;
  }

  /** A path met before is passed over. */
  lemma DueAgain(src: Archive, added: Contents, seen: set<Bytes>, n: nat)
    requires CopiedUpTo(src, added, n, {}) && Seen(src, seen, n) && Due(src, n)
    requires IllustrationSide(UrlOf(src, n)) == None && UrlOf(src, n) in seen
    ensures CopiedUpTo(src, added, n + 1, {}) && Seen(src, seen, n + 1)
  {
    hide CopiedUpTo, Due, IllustrationSide, EntryAt, CopyOf, CopyKey, UrlOf, ComesFrom;
    assert MetBefore(src, UrlOf(src, n), n);
    assert !First(src, n) by {
      hide Seen;
    }
    hide First, MetBefore, Seen;
    CopiedNext(src, added, added, n);
    SeenNext(src, seen, n, seen);
  }

  /** An entry that is not due changes nothing. */
  lemma NotDue(src: Archive, added: Contents, seen: set<Bytes>, n: nat)
    requires CopiedUpTo(src, added, n, {}) && Seen(src, seen, n) && !Due(src, n)
    ensures CopiedUpTo(src, added, n + 1, {}) && Seen(src, seen, n + 1)
  {
    hide CopiedUpTo, Seen, Due, ComesFrom;
    CopiedNext(src, added, added, n);
    SeenNext(src, seen, n, seen);
  }

  lemma NothingCopied(src: Archive, added: Contents)
    requires forall k :: k in added ==> k.ns != NS_METADATA
    ensures CopiedUpTo(src, added, 0, {}) && Seen(src, {}, 0)
  {
  }

  /** The scraper's name goes in behind the first pass. */
  lemma Stamped(src: Archive, added: Contents, st: Stored, scraper: Bytes)
    requires CopiedUpTo(src, added, src.header.entryCount, {}) && SCRAPER !in added
    requires st.Body? && st.title == SCRAPER.text && st.mime == TEXT_PLAIN_UTF8 && st.content == scraper
    ensures AllMetadata(src, added[SCRAPER := st], scraper)
  {
    hide Copied, ComesFrom;
    var after := added[SCRAPER := st];
    forall i: nat | i < src.header.entryCount
      ensures Copied(src, after, i)
    {
      StillCopied(src, added, after, i);
    }
  }

  lemma AllMetadataStays(src: Archive, before: Contents, after: Contents, ns: byte, scraper: Bytes)
    requires AllMetadata(src, before, scraper) && OnlyNew(before, after, ns) && ns != NS_METADATA
    ensures AllMetadata(src, after, scraper)
  {
    hide CopiedUpTo;
    MetadataStays(src, before, after, ns, src.header.entryCount, {SCRAPER});
  }
}
