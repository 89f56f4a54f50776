/** Recreating an archive: the paths content entries get, the two-pass copy through the writer, and what a reader of
    the output sees. The content view is the one `readall --content-md5` hashes, and a copy is good when both archives
    have the same view. */
module Recreate {
  import opened Outcome
  import opened Bytes
  import opened Text
  import opened Headers
  import opened Dirents
  import opened Clusters
  import opened Reader
  import opened Counting
  import opened MimeTypes
  import opened Layout
  import opened Packing
  import opened Tables
  import opened Deferred
  import opened ReadBack
  import opened Writer
  import opened Census
  import opened Closing
  import opened Metadata
  import Sealing

  const NS_LEGACY_INDEX: byte := 90 // 'Z'

  // ---- Content paths ----

  /** Legacy archives spread content over all namespaces but metadata and the indexes. */
  predicate IsContent(legacy: bool, ns: byte) {
    if legacy then ns != NS_METADATA && ns != NS_INDEX && ns != NS_LEGACY_INDEX else ns == NS_CONTENT
  }

  /** A namespace byte as a character, U+0000 to U+00FF. */
  function NsChar(ns: byte): Bytes {
    EncodeScalar(ns)
  }

  /** The path a content entry gets: a legacy one is qualified by its namespace. */
  function Canonical(legacy: bool, k: Key): Bytes {
    if legacy then NsChar(k.ns) + [47] + k.text else k.text
  }

  function ContentPath(legacy: bool, k: Key): Option<Bytes> {
    if IsContent(legacy, k.ns) then Some(Canonical(legacy, k)) else None
  }

  lemma NsCharUtf8(ns: byte)
    ensures ValidUtf8(NsChar(ns) + [47])
  {
    var s := NsChar(ns) + [47];
    if ns >= 0x80 {
      assert ScalarLen(s) == 2 && s[2..] == [47];
    } else {
      assert ScalarLen(s) == 1 && s[1..] == [47];
    }
    assert ScalarLen([47]) == 1 && [47][1..] == [];
  }

  lemma CanonicalUtf8(legacy: bool, k: Key)
    requires ValidUtf8(k.text)
    ensures ValidUtf8(Canonical(legacy, k))
  {
    if legacy {
      NsCharUtf8(k.ns);
      Utf8Concat(NsChar(k.ns) + [47], k.text);
    }
  }

  lemma NsCharsApart(a: byte, b: byte, s: Bytes, t: Bytes)
    requires a < b
    ensures Compare(NsChar(a) + [47] + s, NsChar(b) + [47] + t) == Less
  {
    var x, y := NsChar(a) + [47] + s, NsChar(b) + [47] + t;
    if a >= 0x80 && x[0] == y[0] {
      assert a / 64 == b / 64 && x[1] < y[1];
      assert Compare(x[1..], y[1..]) == Less;
    }
  }

  /** Content paths order as the keys do; in particular different entries get different paths. */
  lemma CanonicalOrder(legacy: bool, a: Key, b: Key)
    requires IsContent(legacy, a.ns) && IsContent(legacy, b.ns)
    ensures Compare(Canonical(legacy, a), Canonical(legacy, b)) == CompareKey(a, b)
  {
    hide Compare;
    CompareTotal(Canonical(legacy, a), Canonical(legacy, b));
    if legacy {
      if a.ns < b.ns {
        NsCharsApart(a.ns, b.ns, a.text, b.text);
      } else if b.ns < a.ns {
        NsCharsApart(b.ns, a.ns, b.text, a.text);
        CompareTotal(Canonical(legacy, b), Canonical(legacy, a));
      } else {
        ComparePrefixed(NsChar(a.ns) + [47], a.text, b.text);
      }
    }
  }

  // ---- The content view ----

  /** What `readall --content-md5` hashes for one entry. */
  datatype Shown = Shown(path: Bytes, title: Bytes, what: What)

  datatype What = Pointing(target: Bytes) | Carrying(mime: Bytes, data: Bytes)

  function Show(a: Archive, e: Entry): Result<Shown> {
    var legacy := !a.header.UsesNewNamespaces();
    var path := Canonical(legacy, e.dirent.Key());
    if e.dirent.RedirectEntry? then
      var target :- RedirectStep(a, e);
      Ok(Shown(path, e.dirent.Title(), Pointing(Canonical(legacy, target.dirent.Key()))))
    else
      var data :- GetData(a, e);
      Ok(Shown(path, e.dirent.Title(), Carrying(Mimetype(a, e), data)))
  }

  function Included(a: Archive, e: Entry): bool {
    IsContent(!a.header.UsesNewNamespaces(), e.dirent.ns)
  }

  /** The content entries among the first `n`, in path order. */
  function View(a: Archive, n: nat): Result<seq<Shown>> {
    if n == 0 then Ok([])
    else
      var front :- View(a, n - 1);
      var e :- EntryAt(a, n - 1);
      if !Included(a, e) then Ok(front)
      else
        var shown :- Show(a, e);
        Ok(front + [shown])
  }

  function ContentView(a: Archive): Result<seq<Shown>> {
    View(a, a.header.entryCount)
  }

  // ---- The copy ----

  function ContentKey(a: Archive, e: Entry): Key {
    Key(NS_CONTENT, Canonical(!a.header.UsesNewNamespaces(), e.dirent.Key()))
  }

  function TitleOr(title: Bytes, path: Bytes): Bytes {
    if title == [] then path else title
  }

  /** What the writer is given for a source entry. */
  ghost predicate Matches(a: Archive, e: Entry, st: Stored) {
    && st.title == TitleOr(e.dirent.Title(), ContentKey(a, e).text)
    && if e.dirent.RedirectEntry? then
         && RedirectStep(a, e).Ok? && Included(a, RedirectStep(a, e).value)
         && st.Alias? && st.target == ContentKey(a, RedirectStep(a, e).value)
       else st.Body? && st.mime == Mimetype(a, e) && GetData(a, e) == Ok(st.content) && StaysRaw(a, e, st)
  }

  /** A body from a stored cluster is stored again. */
  ghost predicate StaysRaw(a: Archive, e: Entry, st: Stored)
    requires e.dirent.ArticleEntry? && st.Body?
  {
    var c := ClusterUncached(a, e.dirent.cluster);
    c.Ok? && c.value.compression == Raw ==> st.comp == Raw
  }

  ghost predicate Sourced(a: Archive, k: Key, i: nat, st: Stored) {
    && i < a.header.entryCount && EntryAt(a, i).Ok?
    && var e := EntryAt(a, i).value; Included(a, e) && k == ContentKey(a, e) && Matches(a, e, st)
  }

  /** Every content entry given to the writer stands for one source entry. */
  ghost predicate Owned(a: Archive, added: Contents, owner: map<Key, nat>) {
    && (forall k :: k in added && k.ns == NS_CONTENT ==> k in owner)
    && (forall k :: k in owner ==> k in added && Sourced(a, k, owner[k], added[k]))
  }

  /** Source entry `i` was readable and, if it is content, has been given to the writer. */
  ghost predicate Given(a: Archive, owner: map<Key, nat>, i: nat) {
    EntryAt(a, i).Ok? && (Included(a, EntryAt(a, i).value) ==>
      ContentKey(a, EntryAt(a, i).value) in owner && owner[ContentKey(a, EntryAt(a, i).value)] == i)
  }

  /** A content article waiting for the second pass. */
  datatype PendingContent = PendingContent(cluster: nat, blob: nat, index: nat)

  ghost predicate PendingFor(a: Archive, p: PendingContent) {
    && EntryAt(a, p.index).Ok? && p.index < a.header.entryCount
    && var e := EntryAt(a, p.index).value;
       Included(a, e) && e.dirent.ArticleEntry? && e.dirent.cluster == p.cluster && e.dirent.blob == p.blob
  }

  ghost predicate Postponed(a: Archive, pending: seq<PendingContent>, i: nat) {
    exists j :: 0 <= j < |pending| && pending[j].index == i
  }

  /** Ordered by cluster, then by blob. */
  predicate NotAfter(p: PendingContent, q: PendingContent) {
    p.cluster < q.cluster || (p.cluster == q.cluster && p.blob <= q.blob)
  }

  ghost predicate InPlace(out: seq<PendingContent>) {
    forall i, j :: 0 <= i < j < |out| ==> NotAfter(out[i], out[j])
  }

  lemma Inserted(out: seq<PendingContent>, x: PendingContent, n: nat)
    requires InPlace(out) && n <= |out| && (forall i :: 0 <= i < n ==> NotAfter(out[i], x)) && (n < |out| ==> !NotAfter(out[n], x))
    ensures InPlace(out[..n] + [x] + out[n..])
    ensures forall p :: p in out[..n] + [x] + out[n..] <==> p in out || p == x
  {
    var after := out[..n] + [x] + out[n..];
    assert out == out[..n] + out[n..];
    forall i | n <= i < |out|
      ensures NotAfter(x, out[i])
    {
      assert i > n ==> NotAfter(out[n], out[i]);
    }
    forall i, j | 0 <= i < j < |after|
      ensures NotAfter(after[i], after[j])
    {
      var i' := if i > n then i - 1 else i;
      var j' := if j > n then j - 1 else j;
      assert i != n ==> after[i] == out[i'];
      assert j != n ==> after[j] == out[j'];
    }
  }

  method SortPending(pending: seq<PendingContent>) returns (out: seq<PendingContent>)
    ensures forall p :: p in out <==> p in pending
    ensures forall i, j :: 0 <= i < j < |out| ==> NotAfter(out[i], out[j])
    ensures |out| == |pending|
  {
    hide NotAfter;
    out := [];
    for k := 0 to |pending|
      invariant |out| == k && (forall p :: p in out <==> p in pending[..k]) && InPlace(out)
    {
      var x := pending[k];
      var n := 0;
      while n < |out| && NotAfter(out[n], x)
        invariant 0 <= n <= |out| && forall i :: 0 <= i < n ==> NotAfter(out[i], x)
      {
        n := n + 1;
      }
      Inserted(out, x, n);
      out := out[..n] + [x] + out[n..];
      assert pending[..k + 1] == pending[..k] + [x];
    }
    assert pending[..|pending|] == pending;
  }

  lemma EntryText(a: Archive, i: nat)
    requires EntryAt(a, i).Ok?
    ensures var d := EntryAt(a, i).value.dirent; ValidUtf8(d.url) && ValidUtf8(d.Title())
    ensures EntryAt(a, i).value.index == i
  {
    hide ParseDirent, ValidUtf8;
    ProbesAgree(a.file, UrlPointer(a, i).value);
  }

  lemma GainOwned(a: Archive, added: Contents, owner: map<Key, nat>, k: Key, i: nat, st: Stored)
    requires Owned(a, added, owner) && k !in added && Sourced(a, k, i, st)
    ensures Owned(a, added[k := st], owner[k := i]) && k !in owner
  {
    hide Sourced;
    forall x | x in owner
      ensures x != k && Sourced(a, x, owner[x], added[x])
    {
    }
  }

  lemma GivenStays(a: Archive, owner: map<Key, nat>, k: Key, i: nat, j: nat)
    requires Given(a, owner, j) && k !in owner
    ensures Given(a, owner[k := i], j)
  {
    hide EntryAt, ContentKey, Included;
  }

  lemma Gain(a: Archive, added: Contents, owner: map<Key, nat>, i: nat, st: Stored)
    requires Owned(a, added, owner) && EntryAt(a, i).Ok? && i < a.header.entryCount && Included(a, EntryAt(a, i).value)
    requires ContentKey(a, EntryAt(a, i).value) !in added && Matches(a, EntryAt(a, i).value, st)
    ensures var k := ContentKey(a, EntryAt(a, i).value);
      && Owned(a, added[k := st], owner[k := i]) && Given(a, owner[k := i], i)
      && (forall j :: Given(a, owner, j) ==> Given(a, owner[k := i], j))
  {
    hide EntryAt, Matches, ContentKey, Included, Owned;
    var k := ContentKey(a, EntryAt(a, i).value);
    assert Sourced(a, k, i, st);
    GainOwned(a, added, owner, k, i, st);
    assert Given(a, owner[k := i], i);
    hide Given;
    forall j | Given(a, owner, j)
      ensures Given(a, owner[k := i], j)
    {
      GivenStays(a, owner, k, i, j);
    }
  }

  lemma RedirectMatches(a: Archive, e: Entry, target: Entry)
    requires e.dirent.RedirectEntry? && RedirectStep(a, e) == Ok(target) && Included(a, target)
    ensures Matches(a, e, Alias(TitleOr(e.dirent.Title(), ContentKey(a, e).text), ContentKey(a, target)))
  {
    hide RedirectStep, ContentKey, Included;
  }

  lemma ArticleMatches(a: Archive, e: Entry, data: Bytes, comp: Compression)
    requires e.dirent.ArticleEntry? && GetData(a, e) == Ok(data)
    requires ClusterUncached(a, e.dirent.cluster).Ok?
    requires ClusterUncached(a, e.dirent.cluster).value.compression == Raw ==> comp == Raw
    ensures Matches(a, e, Body(TitleOr(e.dirent.Title(), ContentKey(a, e).text), Mimetype(a, e), data, comp))
  {
    hide GetData, ContentKey, Mimetype, ClusterUncached;
  }

  /** Entries outside the content namespace do not matter. */
  lemma Aside(a: Archive, added: Contents, owner: map<Key, nat>, k: Key, st: Stored)
    requires Owned(a, added, owner) && k.ns != NS_CONTENT
    ensures Owned(a, added[k := st], owner)
  {
    hide EntryAt, Matches, Canonical;
    forall x | x in owner
      ensures Sourced(a, x, owner[x], added[x]) && x.ns == NS_CONTENT
    {
    }
  }

  /** The first pass at one redirect of the content namespace. */
  method CopyRedirect(src: Archive, w: Creator, i: nat, ghost owner: map<Key, nat>) returns (r: Result<()>, ghost owner': map<Key, nat>)
    requires w.Accepting() && w.Booked() && Owned(src, w.added, owner) && w.inFlight == None
    requires i < src.header.entryCount && EntryAt(src, i).Ok? && Included(src, EntryAt(src, i).value)
    requires EntryAt(src, i).value.dirent.RedirectEntry?
    modifies w
    ensures w.Accepting() && w.Booked() && w.inFlight == None && |w.added| <= |old(w.added)| + 1
    ensures r.Ok? ==> Owned(src, w.added, owner') && Given(src, owner', i) && forall j :: Given(src, owner, j) ==> Given(src, owner', j)
    ensures w.mainPath == old(w.mainPath) && OnlyNew(old(w.added), w.added, NS_CONTENT)
  {
    hide EntryAt, Canonical, ValidUtf8, Creator.Accepting, Owned, Given, Matches, Follow;
    owner' := owner;
    var e := EntryAt(src, i).value;
    var legacy := !src.header.UsesNewNamespaces();
    var path := Canonical(legacy, e.dirent.Key());
    var target := EntryAt(src, e.dirent.redirectIndex);
    if target.Err? {
      return Err(target.error), owner;
    }
    EntryText(src, i);
    EntryText(src, e.dirent.redirectIndex);
    CanonicalUtf8(legacy, e.dirent.Key());
    CanonicalUtf8(legacy, target.value.dirent.Key());
    var targetPath := ContentPath(legacy, target.value.dirent.Key());
    if targetPath.None? {
      return Err(InvalidInput), owner;
    }
    RedirectMatches(src, e, target.value);
    ghost var before := w.added;
    r := w.TryAddRedirection(path, e.dirent.Title(), targetPath.value);
    if r.Err? {
      return;
    }
    Gain(src, before, owner, i, Alias(TitleOr(e.dirent.Title(), path), Key(NS_CONTENT, targetPath.value)));
    owner' := owner[Key(NS_CONTENT, path) := i];
    var resolved := Follow(src, target.value, 0);
    if resolved.Err? {
      return Err(resolved.error), owner';
    }
  }

  lemma IllustrationCopy(src: Archive, s: Settings, i: nat, n: nat, data: Bytes)
    requires Due(src, i) && IllustrationSide(UrlOf(src, i)) == Some(n) && GetData(src, EntryAt(src, i).value) == Ok(data)
    ensures var m := Illustration(n, data).Item().meta;
      m.Key() == CopyKey(UrlOf(src, i)) && CopyOf(src, EntryAt(src, i).value, BodyOf(s, m, data))
  {
    hide GetData, EntryAt, IllustrationSide, CompOf;
  }

  lemma MetadataCopy(src: Archive, s: Settings, i: nat, data: Bytes)
    requires Due(src, i) && IllustrationSide(UrlOf(src, i)) == None && GetData(src, EntryAt(src, i).value) == Ok(data)
    ensures var m := MetadataEntry(UrlOf(src, i), Mimetype(src, EntryAt(src, i).value), data).Item().meta;
      m.Key() == CopyKey(UrlOf(src, i)) && CopyOf(src, EntryAt(src, i).value, BodyOf(s, m, data))
  {
    hide GetData, EntryAt, IllustrationSide, CompOf, Mimetype;
  }

  lemma DueText(src: Archive, i: nat)
    requires Due(src, i)
    ensures EntryAt(src, i).Ok? && EntryAt(src, i).value.dirent.ArticleEntry? && EntryAt(src, i).value.dirent.url == UrlOf(src, i)
    ensures ValidUtf8(UrlOf(src, i))
  {
    hide EntryAt, ValidUtf8;
    EntryText(src, i);
  }

  /** Hands a metadata article to the writer, as an illustration or under its own path. */
  method GiveMetadata(src: Archive, w: Creator, i: nat, path: Bytes, mime: Bytes, data: Bytes) returns (r: Result<()>, ghost st: Stored)
    requires w.Accepting() && w.Booked() && w.inFlight == None && ValidUtf8(path)
    requires Due(src, i) && path == UrlOf(src, i) && EntryAt(src, i).Ok? && EntryAt(src, i).value.dirent.ArticleEntry?
    requires mime == Mimetype(src, EntryAt(src, i).value) && GetData(src, EntryAt(src, i).value) == Ok(data)
    modifies w
    ensures w.Accepting() && w.Booked() && w.inFlight == None && w.mainPath == old(w.mainPath)
    ensures OnlyNew(old(w.added), w.added, NS_METADATA) && |w.added| <= |old(w.added)| + 1
    ensures r.Ok? ==> CopyKey(path) !in old(w.added) && CopyKey(path).ns == NS_METADATA && w.added == old(w.added)[CopyKey(path) := st]
                      && CopyOf(src, EntryAt(src, i).value, st)
    ensures r.Err? ==> w.added == old(w.added)
  {
    hide Creator.Accepting, ValidUtf8, ValidArticle, BodyOf, EntryAt, GetData, Mimetype, Due, UrlOf, CopyKey, CopyOf, IllustrationSide;
    var side := IllustrationSide(path);
    if side.Some? {
      IllustrationCopy(src, w.settings, i, side.value, data);
      st := BodyOf(w.settings, Illustration(side.value, data).Item().meta, data);
      r := w.TryAddIllustration(side.value, data);
    } else {
      MetadataCopy(src, w.settings, i, data);
      st := BodyOf(w.settings, MetadataEntry(path, mime, data).Item().meta, data);
      r := w.TryAddMetadataWithMimetype(path, mime, data);
    }
  }

  /** The first pass at one metadata article; an illustration goes in under its side length. */
  method CopyMetadata(src: Archive, w: Creator, i: nat, seen: set<Bytes>, ghost owner: map<Key, nat>)
    returns (r: Result<()>, seen': set<Bytes>)
    requires w.Accepting() && w.Booked() && Owned(src, w.added, owner) && w.inFlight == None
    requires Due(src, i) && CopiedUpTo(src, w.added, i, {}) && Seen(src, seen, i)
    modifies w
    ensures w.Accepting() && w.Booked() && w.inFlight == None && Owned(src, w.added, owner) && |w.added| <= |old(w.added)| + 1
    ensures r.Ok? ==> CopiedUpTo(src, w.added, i + 1, {}) && Seen(src, seen', i + 1)
    ensures w.mainPath == old(w.mainPath) && OnlyNew(old(w.added), w.added, NS_METADATA)
  {
    hide EntryAt, Creator.Accepting, Creator.Booked, ValidUtf8, Owned, GetData, Mimetype, Due, UrlOf, CopyKey, CopyOf, CopiedUpTo, Seen,
      IllustrationSide, OnlyNew;
    seen' := seen;
    NoneNew(w.added, NS_METADATA);
    DueText(src, i);
    var e := EntryAt(src, i).value;
    var data := GetData(src, e);
    if data.Err? {
      return Err(data.error), seen;
    }
    ghost var before := w.added;
    ghost var st;
    var path := e.dirent.url;
    if IllustrationSide(path).None? {
      if path in seen {
        DueAgain(src, w.added, seen, i);
        return Ok(()), seen;
      }
      seen' := seen + {path};
    }
    r, st := GiveMetadata(src, w, i, path, Mimetype(src, e), data.value);
    if r.Ok? {
      Aside(src, before, owner, CopyKey(path), st);
      DueFirst(src, before, seen, i, st);
    }
  }

  predicate Skipped(legacy: bool, d: Dirent) {
    || (!legacy && d.ns == NS_WELLKNOWN && d.url == MAIN_PAGE.text)
    || d.ns == NS_INDEX
    || (d.ns == NS_METADATA && (d.url == COUNTER.text || d.url == SCRAPER.text))
  }

  /** Entry `i` has been dealt with by the first pass: given to the writer, or postponed. */
  ghost predicate PassedOnce(src: Archive, owner: map<Key, nat>, pending: seq<PendingContent>, i: nat) {
    EntryAt(src, i).Ok? && (Given(src, owner, i) || Postponed(src, pending, i))
  }

  /** The first pass has dealt with the first `n` entries. */
  ghost predicate Passed(src: Archive, added: Contents, owner: map<Key, nat>, pending: seq<PendingContent>, seen: set<Bytes>, n: nat) {
    && Owned(src, added, owner) && CopiedUpTo(src, added, n, {}) && Seen(src, seen, n)
    && (forall p :: p in pending ==> PendingFor(src, p))
    && (forall i: nat :: i < n ==> PassedOnce(src, owner, pending, i))
  }

  lemma NothingPassed(src: Archive, added: Contents)
    requires Owned(src, added, map[]) && forall k :: k in added ==> k.ns != NS_METADATA
    ensures Passed(src, added, map[], [], {}, 0)
  {
    NothingCopied(src, added);
    hide Owned, CopiedUpTo, Seen;
  }

  lemma OnePassed(src: Archive, added: Contents, owner: map<Key, nat>, pending: seq<PendingContent>, seen: set<Bytes>,
                  added': Contents, owner': map<Key, nat>, pending': seq<PendingContent>, seen': set<Bytes>, n: nat)
    requires Passed(src, added, owner, pending, seen, n)
    requires Owned(src, added', owner') && CopiedUpTo(src, added', n + 1, {}) && Seen(src, seen', n + 1)
    requires forall j :: Given(src, owner, j) ==> Given(src, owner', j)
    requires pending' == pending || (|pending'| == |pending| + 1 && pending <= pending' && PendingFor(src, pending'[|pending|]))
    requires PassedOnce(src, owner', pending', n)
    ensures Passed(src, added', owner', pending', seen', n + 1)
  {
    hide Owned, CopiedUpTo, Seen, PendingFor, PassedOnce, Given;
    forall i: nat | i < n + 1
      ensures PassedOnce(src, owner', pending', i)
    {
      if i < n {
        PassedStays(src, owner, pending, owner', pending', i);
      }
    }
    assert pending' == pending || pending' == pending + [pending'[|pending|]];
  }

  /** The first pass at one entry. */
  method PassEntry(src: Archive, w: Creator, i: nat, pending: seq<PendingContent>, seen: set<Bytes>, ghost owner: map<Key, nat>)
    returns (r: Result<()>, pending': seq<PendingContent>, seen': set<Bytes>, ghost owner': map<Key, nat>)
    requires w.Accepting() && w.Booked() && w.inFlight == None && i < src.header.entryCount
    requires Passed(src, w.added, owner, pending, seen, i)
    modifies w
    ensures w.Accepting() && w.Booked() && w.inFlight == None && w.mainPath == old(w.mainPath)
    ensures forall k :: k in old(w.added) ==> k in w.added && w.added[k] == old(w.added)[k]
    ensures r.Ok? ==> Passed(src, w.added, owner', pending', seen', i + 1) && |w.added| + |pending'| <= |old(w.added)| + |pending| + 1
  {
    hide EntryAt, Creator.Accepting, Creator.Booked, Owned, Given, Due, CopiedUpTo, Seen, Included, PendingFor, PassedOnce;
    pending', seen', owner' := pending, seen, owner;
    var legacy := !src.header.UsesNewNamespaces();
    var entry := EntryAt(src, i);
    if entry.Err? {
      return Err(entry.error), pending, seen, owner;
    }
    var e := entry.value;
    ghost var added0 := w.added;
    DueExactly(src, i);
    r := Ok(());
    if Skipped(legacy, e.dirent) {
      SkippedIsGiven(src, owner, i);
    } else if e.dirent.RedirectEntry? {
      if IsContent(legacy, e.dirent.ns) {
        ContentIncluded(src, i);
        r, owner' := CopyRedirect(src, w, i, owner);
        if r.Err? {
          return;
        }
        MetadataStays(src, added0, w.added, NS_CONTENT, i, {});
      } else {
        OutsideIsGiven(src, owner, i);
      }
    } else if IsContent(legacy, e.dirent.ns) {
      ContentIncluded(src, i);
      pending' := pending + [PendingContent(e.dirent.cluster, e.dirent.blob, i)];
      NowPostponed(src, pending', i);
      IsPending(src, pending'[|pending|]);
    } else {
      if e.dirent.ns == NS_METADATA {
        r, seen' := CopyMetadata(src, w, i, seen, owner);
        if r.Err? {
          return;
        }
      }
      OutsideIsGiven(src, owner, i);
    }
    if !Due(src, i) {
      NotDue(src, w.added, seen, i);
    }
    HowPassed(src, owner', pending', i);
    OnePassed(src, added0, owner, pending, seen, w.added, owner', pending', seen', i);
  }

  lemma ContentIncluded(src: Archive, i: nat)
    requires EntryAt(src, i).Ok?
    ensures Included(src, EntryAt(src, i).value) <==> IsContent(!src.header.UsesNewNamespaces(), EntryAt(src, i).value.dirent.ns)
  {
  }

  lemma IsPending(src: Archive, p: PendingContent)
    requires p.index < src.header.entryCount && EntryAt(src, p.index).Ok? && Included(src, EntryAt(src, p.index).value)
    requires var d := EntryAt(src, p.index).value.dirent; d.ArticleEntry? && d.cluster == p.cluster && d.blob == p.blob
    ensures PendingFor(src, p)
  {
  }

  lemma HowPassed(src: Archive, owner: map<Key, nat>, pending: seq<PendingContent>, i: nat)
    requires EntryAt(src, i).Ok? && (Given(src, owner, i) || Postponed(src, pending, i))
    ensures PassedOnce(src, owner, pending, i)
  {
  }

  /** The first pass: dirents only. */
  method FirstPass(src: Archive, w: Creator) returns (r: Result<seq<PendingContent>>, ghost owner: map<Key, nat>)
    requires w.Accepting() && w.Booked() && w.inFlight == None && Owned(src, w.added, map[])
    requires forall k :: k in w.added ==> k.ns != NS_METADATA
    modifies w
    ensures w.Accepting() && w.Booked() && w.inFlight == None
    ensures w.mainPath == old(w.mainPath) && forall k :: k in old(w.added) ==> k in w.added && w.added[k] == old(w.added)[k]
    ensures r.Ok? ==> CopiedUpTo(src, w.added, src.header.entryCount, {})
    ensures r.Ok? ==>
              && Owned(src, w.added, owner)
              && (forall p :: p in r.value ==> PendingFor(src, p))
              && (forall i: nat :: i < src.header.entryCount ==> PassedOnce(src, owner, r.value, i))
              && |w.added| + |r.value| <= |old(w.added)| + src.header.entryCount
  {
    hide Creator.Accepting, Creator.Booked, Owned, Passed, CopiedUpTo, Seen, PendingFor, PassedOnce;
    owner := map[];
    var pending: seq<PendingContent> := [];
    var seen: set<Bytes> := {};
    NothingPassed(src, w.added);
    for i := 0 to src.header.entryCount
      invariant w.Accepting() && w.Booked() && w.inFlight == None && w.mainPath == old(w.mainPath)
      invariant forall k :: k in old(w.added) ==> k in w.added && w.added[k] == old(w.added)[k]
      invariant Passed(src, w.added, owner, pending, seen, i) && |w.added| + |pending| <= |old(w.added)| + i
    {
      var passed;
      passed, pending, seen, owner := PassEntry(src, w, i, pending, seen, owner);
      if passed.Err? {
        return Err(passed.error), owner;
      }
    }
    AllPassedOnce(src, w.added, owner, pending, seen, src.header.entryCount);
    return Ok(pending), owner;
  }

  lemma AllPassedOnce(src: Archive, added: Contents, owner: map<Key, nat>, pending: seq<PendingContent>, seen: set<Bytes>, n: nat)
    requires Passed(src, added, owner, pending, seen, n)
    ensures Owned(src, added, owner) && CopiedUpTo(src, added, n, {})
    ensures (forall p :: p in pending ==> PendingFor(src, p)) && forall i: nat :: i < n ==> PassedOnce(src, owner, pending, i)
  {
    hide Owned, CopiedUpTo, Seen, PendingFor, PassedOnce;
  }

  /** Due is what the first pass hands on as metadata. */
  lemma DueExactly(src: Archive, i: nat)
    requires i < src.header.entryCount && EntryAt(src, i).Ok?
    ensures var legacy, d := !src.header.UsesNewNamespaces(), EntryAt(src, i).value.dirent;
      Due(src, i) <==> !Skipped(legacy, d) && d.ArticleEntry? && !IsContent(legacy, d.ns) && d.ns == NS_METADATA
  {
    hide EntryAt;
  }

  lemma SkippedIsGiven(src: Archive, owner: map<Key, nat>, i: nat)
    requires EntryAt(src, i).Ok? && Skipped(!src.header.UsesNewNamespaces(), EntryAt(src, i).value.dirent)
    ensures Given(src, owner, i)
  {
    hide EntryAt, ContentKey;
  }

  lemma OutsideIsGiven(src: Archive, owner: map<Key, nat>, i: nat)
    requires EntryAt(src, i).Ok? && !IsContent(!src.header.UsesNewNamespaces(), EntryAt(src, i).value.dirent.ns)
    ensures Given(src, owner, i)
  {
    hide EntryAt, ContentKey;
  }

  lemma NowPostponed(src: Archive, pending: seq<PendingContent>, i: nat)
    requires pending != [] && pending[|pending| - 1].index == i
    ensures Postponed(src, pending, i)
  {
  }

  lemma PassedStays(src: Archive, owner: map<Key, nat>, pending: seq<PendingContent>, owner': map<Key, nat>,
                    pending': seq<PendingContent>, j: nat)
    requires PassedOnce(src, owner, pending, j) && pending <= pending' && (Given(src, owner, j) ==> Given(src, owner', j))
    ensures PassedOnce(src, owner', pending', j)
  {
    hide EntryAt, Given;
    if Postponed(src, pending, j) {
      var n :| 0 <= n < |pending| && pending[n].index == j;
      assert pending'[n].index == j;
    }
  }

  lemma ArticleBody(s: Settings, m: Meta, data: Bytes)
    ensures BodyOf(s, m, data) == Body(TitleOr(m.title, m.path), m.mimetype, data, CompOf(s, m))
    ensures m.compress == Some(false) ==> CompOf(s, m) == Raw
  {
  }

  /** Hands one item to the writer. */
  method GiveItem(w: Creator, item: Item) returns (r: Result<()>)
    requires w.Accepting() && w.Booked() && w.inFlight == None && Utf8(item.meta)
    modifies w
    ensures w.Accepting() && w.Booked() && w.inFlight == None && w.mainPath == old(w.mainPath)
    ensures OnlyNew(old(w.added), w.added, item.meta.Namespace()) && |w.added| <= |old(w.added)| + 1
    ensures if r.Ok? then item.meta.Key() !in old(w.added)
                          && w.added == old(w.added)[item.meta.Key() := BodyOf(w.settings, item.meta, item.content)]
            else w.added == old(w.added)
  {
    hide Creator.Accepting, Utf8, ValidArticle, Push, BodyOf;
    r := w.TryAddItem(item);
  }

  /** The second pass at one article, from its decoded cluster. */
  method CopyArticle(src: Archive, w: Creator, p: PendingContent, cluster: Cluster, ghost owner: map<Key, nat>)
    returns (r: Result<()>, ghost owner': map<Key, nat>)
    requires w.Accepting() && w.Booked() && w.inFlight == None && Owned(src, w.added, owner)
    requires PendingFor(src, p) && ClusterUncached(src, p.cluster) == Ok(cluster)
    modifies w
    ensures w.Accepting() && w.Booked() && w.inFlight == None && |w.added| <= |old(w.added)| + 1
    ensures r.Ok? ==> Owned(src, w.added, owner') && Given(src, owner', p.index)
                      && forall j :: Given(src, owner, j) ==> Given(src, owner', j)
    ensures w.mainPath == old(w.mainPath) && OnlyNew(old(w.added), w.added, NS_CONTENT)
  {
    hide EntryAt, Canonical, ValidUtf8, Creator.Accepting, Creator.Booked, Owned, Given, Matches, Mimetype, ClusterUncached, Blob, OnlyNew,
      BodyOf;
    owner' := owner;
    var e := EntryAt(src, p.index).value;
    var legacy := !src.header.UsesNewNamespaces();
    var path := Canonical(legacy, e.dirent.Key());
    EntryText(src, p.index);
    CanonicalUtf8(legacy, e.dirent.Key());
    var data := Blob(cluster, p.blob);
    NoneNew(w.added, NS_CONTENT);
    if data.Err? {
      return Err(data.error), owner;
    }
    assert GetData(src, e) == Ok(data.value);
    var keepRaw := cluster.compression == Raw;
    var m := Meta(None, path, e.dirent.Title(), Mimetype(src, e), if keepRaw then Some(false) else None);
    ghost var before := w.added;
    r := GiveItem(w, Item(m, data.value));
    if r.Err? {
      return;
    }
    ArticleBody(w.settings, m, data.value);
    ArticleMatches(src, e, data.value, CompOf(w.settings, m));
    Gain(src, before, owner, p.index, BodyOf(w.settings, m, data.value));
    owner' := owner[Key(NS_CONTENT, path) := p.index];
  }

  /** The second pass: content grouped by cluster, each decoded once. */
  method SecondPass(src: Archive, w: Creator, pending: seq<PendingContent>, ghost owner: map<Key, nat>)
    returns (r: Result<()>, ghost owner': map<Key, nat>)
    requires w.Accepting() && w.Booked() && w.inFlight == None && Owned(src, w.added, owner)
    requires forall p :: p in pending ==> PendingFor(src, p)
    modifies w
    ensures w.Accepting() && w.Booked() && w.inFlight == None
    ensures w.mainPath == old(w.mainPath) && OnlyNew(old(w.added), w.added, NS_CONTENT)
    ensures r.Ok? ==>
              && Owned(src, w.added, owner')
              && (forall j :: Given(src, owner, j) ==> Given(src, owner', j))
              && (forall p :: p in pending ==> Given(src, owner', p.index))
              && |w.added| <= |old(w.added)| + |pending|
  {
    hide EntryAt, Canonical, Creator.Accepting, Creator.Booked, Owned, Given, ClusterUncached, PendingFor, OnlyNew;
    NoneNew(w.added, NS_CONTENT);
    var sorted := SortPending(pending);
    owner' := owner;
    var i := 0;
    while i < |sorted|
      invariant |w.added| <= |old(w.added)| + i
      invariant 0 <= i <= |sorted| && w.Accepting() && w.Booked() && w.inFlight == None && Owned(src, w.added, owner')
      invariant w.mainPath == old(w.mainPath) && OnlyNew(old(w.added), w.added, NS_CONTENT)
      invariant forall j :: Given(src, owner, j) ==> Given(src, owner', j)
      invariant forall k :: 0 <= k < i ==> Given(src, owner', sorted[k].index)
      decreases |sorted| - i
    {
      var cidx := sorted[i].cluster;
      var cluster := ClusterUncached(src, cidx);
      if cluster.Err? {
        return Err(cluster.error), owner';
      }
      while i < |sorted| && sorted[i].cluster == cidx
        invariant |w.added| <= |old(w.added)| + i
        invariant 0 <= i <= |sorted| && w.Accepting() && w.Booked() && w.inFlight == None && Owned(src, w.added, owner')
        invariant w.mainPath == old(w.mainPath) && OnlyNew(old(w.added), w.added, NS_CONTENT)
        invariant forall j :: Given(src, owner, j) ==> Given(src, owner', j)
        invariant forall k :: 0 <= k < i ==> Given(src, owner', sorted[k].index)
        decreases |sorted| - i
      {
        assert sorted[i] in sorted;
        ghost var before := w.added;
        var copied;
        copied, owner' := CopyArticle(src, w, sorted[i], cluster.value, owner');
        MoreNew(old(w.added), before, w.added, NS_CONTENT);
        if copied.Err? {
          return Err(copied.error), owner';
        }
        i := i + 1;
      }
    }
    forall p | p in pending
      ensures Given(src, owner', p.index)
    {
      var k :| 0 <= k < |sorted| && sorted[k] == p;
    }
    return Ok(()), owner';
  }

  /** Everything of the source's content has been given to the writer, and nothing else for its content namespace. */
  ghost predicate AllGiven(src: Archive, added: Contents, owner: map<Key, nat>) {
    Owned(src, added, owner) && forall i: nat :: i < src.header.entryCount ==> Given(src, owner, i)
  }

  method AddIndex(src: Archive, w: Creator, index: Item, ghost owner: map<Key, nat>) returns (r: Result<()>)
    requires w.Accepting() && w.Booked() && w.inFlight == None && Owned(src, w.added, owner)
    requires index.meta.ns == Some(NS_INDEX) && Utf8(index.meta)
    modifies w
    ensures w.Accepting() && w.Booked() && w.inFlight == None && Owned(src, w.added, owner) && |w.added| <= |old(w.added)| + 1
    ensures w.mainPath == old(w.mainPath) && OnlyNew(old(w.added), w.added, NS_INDEX)
  {
    hide Creator.Accepting, Creator.Booked, Owned, Utf8, OnlyNew, BodyOf;
    ghost var before := w.added;
    r := GiveItem(w, index);
    if r.Ok? {
      Aside(src, before, owner, index.meta.Key(), BodyOf(w.settings, index.meta, index.content));
    }
  }

  /** The rebuilt indexes go in behind the content. */
  method AddIndexes(src: Archive, w: Creator, indexes: seq<Item>, ghost owner: map<Key, nat>) returns (r: Result<()>)
    requires w.Accepting() && w.Booked() && w.inFlight == None && Owned(src, w.added, owner)
    requires forall i :: 0 <= i < |indexes| ==> indexes[i].meta.ns == Some(NS_INDEX) && Utf8(indexes[i].meta)
    modifies w
    ensures w.Accepting() && w.Booked() && w.inFlight == None && Owned(src, w.added, owner)
    ensures |w.added| <= |old(w.added)| + |indexes|
    ensures w.mainPath == old(w.mainPath) && OnlyNew(old(w.added), w.added, NS_INDEX)
  {
    hide *;
    NoneNew(w.added, NS_INDEX);
    for i := 0 to |indexes|
      invariant |w.added| <= |old(w.added)| + i
      invariant w.Accepting() && w.Booked() && w.inFlight == None && Owned(src, w.added, owner)
      invariant w.mainPath == old(w.mainPath) && OnlyNew(old(w.added), w.added, NS_INDEX)
    {
      ghost var before := w.added;
      r := AddIndex(src, w, indexes[i], owner);
      MoreNew(old(w.added), before, w.added, NS_INDEX);
      if r.Err? {
        return;
      }
    }
    r := Ok(());
  }

  /** The dirents of the source can be read and are in path order. */
  ghost predicate DirentOrdered(src: Archive) {
    exists ds :: Holds(src, ds) && Ascending(Keys(ds))
  }

  /** The file opens, and shows the same content entries in the same order as the source. */
  ghost predicate SameView(src: Archive, codec: Codec, file: Bytes) {
    Open(codec, file).Ok? && ContentView(src).Ok? && ContentView(Open(codec, file).value) == ContentView(src)
  }

  /** The declared main page is the content path of the entry the source's main page leads to; there is none when the source
      has none. */
  ghost predicate MainForwarded(src: Archive, added: Contents, main: Option<Bytes>) {
    if src.header.mainPage == NO_MAIN_PAGE then main == None
    else
      && MainEntry(src).Ok? && Follow(src, MainEntry(src).value, 0).Ok?
      && var target := Follow(src, MainEntry(src).value, 0).value;
         && Included(src, target) && main == Some(ContentKey(src, target).text)
         && MAIN_PAGE in added && added[MAIN_PAGE] == Alias(MAIN_PAGE.text, ContentKey(src, target))
  }

  /** The main page of the copy is where the source's main page leads. */
  method CopyMain(src: Archive, w: Creator) returns (r: Result<()>)
    requires w.Accepting() && w.Booked() && w.added == map[] && w.inFlight == None && w.mainPath == None
    modifies w
    ensures w.Accepting() && w.Booked() && w.inFlight == None
    ensures r.Ok? ==> Owned(src, w.added, map[]) && |w.added| <= 1 && MainForwarded(src, w.added, w.mainPath)
    ensures forall k :: k in w.added ==> k.ns != NS_METADATA
  {
    hide EntryAt, Canonical, Creator.Accepting, Owned, ValidUtf8, MainEntry, Follow;
    NothingOwned(src);
    if src.header.mainPage == NO_MAIN_PAGE {
      return Ok(());
    }
    var main := MainEntry(src);
    if main.Err? {
      return Err(main.error);
    }
    var target := Follow(src, main.value, 0);
    if target.Err? {
      return Err(target.error);
    }
    var legacy := !src.header.UsesNewNamespaces();
    var path := ContentPath(legacy, target.value.dirent.Key());
    if path.None? {
      return Err(InvalidInput);
    }
    MainText(src, main.value);
    CanonicalUtf8(legacy, target.value.dirent.Key());
    r := w.TrySetMainPath(path.value);
    Aside(src, map[], map[], MAIN_PAGE, Alias(MAIN_PAGE.text, Key(NS_CONTENT, path.value)));
  }

  lemma MainStays(src: Archive, before: Contents, after: Contents, main: Option<Bytes>)
    requires MainForwarded(src, before, main) && forall k :: k in before ==> k in after && after[k] == before[k]
    ensures MainForwarded(src, after, main)
  {
    hide MainEntry, Follow, ContentKey, Included;
  }

  lemma ScraperEntry(s: Settings, scraper: Bytes)
    ensures var m := MetadataEntry(SCRAPER.text, TEXT_PLAIN_UTF8, scraper).Item().meta;
      && m.Key() == SCRAPER
      && BodyOf(s, m, scraper).title == SCRAPER.text && BodyOf(s, m, scraper).mime == TEXT_PLAIN_UTF8
      && BodyOf(s, m, scraper).content == scraper
    ensures ValidUtf8(SCRAPER.text)
  {
    hide CompOf;
    AsciiIsUtf8(SCRAPER.text);
  }

  /** The main page and the first pass, and behind it the scraper's name. */
  method GiveDirents(src: Archive, w: Creator, scraper: Bytes) returns (r: Result<seq<PendingContent>>, ghost owner: map<Key, nat>)
    requires w.Accepting() && w.Booked() && w.added == map[] && w.inFlight == None && w.mainPath == None
    modifies w
    ensures w.Accepting() && w.Booked() && w.inFlight == None
    ensures r.Ok? ==>
              && Owned(src, w.added, owner) && AllMetadata(src, w.added, scraper) && MainForwarded(src, w.added, w.mainPath)
              && (forall p :: p in r.value ==> PendingFor(src, p))
              && (forall i: nat :: i < src.header.entryCount ==> PassedOnce(src, owner, r.value, i))
              && |w.added| + |r.value| <= src.header.entryCount + 2
  {
    hide EntryAt, Creator.Accepting, Owned, Given, ValidUtf8, ValidArticle, MainForwarded, CopiedUpTo, AllMetadata, PendingFor, PassedOnce,
      CompOf;
    owner := map[];
    var main := CopyMain(src, w);
    if main.Err? {
      return Err(main.error), owner;
    }
    ghost var added0 := w.added;
    r, owner := FirstPass(src, w);
    if r.Err? {
      return;
    }
    MainStays(src, added0, w.added, w.mainPath);
    ghost var added1 := w.added;
    ScraperEntry(w.settings, scraper);
    var stamped := w.TryAddMetadataWithMimetype(SCRAPER.text, TEXT_PLAIN_UTF8, scraper);
    if stamped.Err? {
      return Err(stamped.error), owner;
    }
    ghost var st := BodyOf(w.settings, MetadataEntry(SCRAPER.text, TEXT_PLAIN_UTF8, scraper).Item().meta, scraper);
    Aside(src, added1, owner, SCRAPER, st);
    Stamped(src, added1, st, scraper);
    MainStays(src, added1, w.added, w.mainPath);
  }

  /** The two passes, and the indexes. */
  method GiveAll(src: Archive, w: Creator, scraper: Bytes, indexes: seq<Item>) returns (r: Result<()>, ghost owner: map<Key, nat>)
    requires w.Accepting() && w.Booked() && w.added == map[] && w.inFlight == None && w.mainPath == None
    requires forall i :: 0 <= i < |indexes| ==> indexes[i].meta.ns == Some(NS_INDEX) && Utf8(indexes[i].meta)
    modifies w
    ensures w.Accepting() && w.inFlight == None
    ensures r.Ok? ==> AllGiven(src, w.added, owner) && |w.added| <= src.header.entryCount + |indexes| + 2
    ensures r.Ok? ==> AllMetadata(src, w.added, scraper) && MainForwarded(src, w.added, w.mainPath)
  {
    hide EntryAt, Creator.Accepting, Owned, Given, Utf8, MainForwarded, AllMetadata, PendingFor, PassedOnce;
    var pending;
    pending, owner := GiveDirents(src, w, scraper);
    if pending.Err? {
      return Err(pending.error), owner;
    }
    ghost var owner0, added0 := owner, w.added;
    r, owner := SecondPass(src, w, pending.value, owner);
    if r.Err? {
      return;
    }
    forall i: nat | i < src.header.entryCount
      ensures Given(src, owner, i)
    {
      PassedTwice(src, owner0, owner, pending.value, i);
    }
    ghost var added1 := w.added;
    AllMetadataStays(src, added0, added1, NS_CONTENT, scraper);
    MainStays(src, added0, added1, w.mainPath);
    r := AddIndexes(src, w, indexes, owner);
    AllMetadataStays(src, added1, w.added, NS_INDEX, scraper);
    MainStays(src, added1, w.added, w.mainPath);
  }

  /** Everything is given to the writer, and the archive finished. On success the copy has the content view of the source,
      as long as the target size leaves the shared clusters within the decode limit; it has all metadata but the counter and
      the scraper's name, which are its own, and its main page is where the source's leads. */
  method Run(src: Archive, w: Creator, scraper: Bytes, indexes: seq<Item>)
    returns (r: Result<()>, ghost end: Ending, ghost before: Contents, ghost all: Contents, ghost img: Image, ghost owner: map<Key, nat>)
    requires w.Accepting() && w.Booked() && w.added == map[] && w.inFlight == None && |w.uuid| == 16 && w.mainPath == None
    requires forall i :: 0 <= i < |indexes| ==> indexes[i].meta.ns == Some(NS_INDEX) && Utf8(indexes[i].meta)
    modifies w
    ensures r.Ok? ==> AllGiven(src, before, owner) && |before| <= src.header.entryCount + |indexes| + 2
                      && Archived(w.settings, before, w.mainPath, w.md5, w.file, all, img)
    ensures r.Ok? ==> AllMetadata(src, before, scraper) && MainForwarded(src, before, w.mainPath)
    ensures r.Ok? && Sealing.Small(img) && Named(src) && DirentOrdered(src)
            && Roomy(w.settings.target, src.header.entryCount + |indexes| + 4)
            ==> SameView(src, w.settings.codec, w.file)
  {
    hide *;
    end, all, img := ItemOpen, map[], EMPTY_IMAGE;
    r, owner := GiveAll(src, w, scraper, indexes);
    before := w.added;
    if r.Err? {
      return;
    }
    r, end, all, img := w.Finalize();
    if r.Ok? && Sealing.Small(img) && Named(src) && DirentOrdered(src) && Roomy(w.settings.target, src.header.entryCount + |indexes| + 4) {
      Preserved(src, w.settings, before, owner, w.mainPath, w.md5, w.file, all, img, src.header.entryCount + |indexes| + 4);
    }
  }

  /** What a copy leaves behind: indexes, legacy ones too; redirects and the tools' own entries among the metadata; and in
      a modern archive whatever is neither content nor metadata. */
  predicate LeftBehind(legacy: bool, d: Dirent) {
    || d.ns == NS_INDEX
    || (d.ns == NS_METADATA && (d.RedirectEntry? || d.url == Ascii("Counter") || d.url == Ascii("Scraper")))
    || (if legacy then d.ns == NS_LEGACY_INDEX else d.ns != NS_CONTENT && d.ns != NS_METADATA)
  }

  /** Every entry of the source is content, is due as metadata, or is left behind, and only one of these. */
  lemma EachEntryOnce(src: Archive, i: nat)
    requires i < src.header.entryCount && EntryAt(src, i).Ok?
    ensures var e := EntryAt(src, i).value; var left := LeftBehind(!src.header.UsesNewNamespaces(), e.dirent);
      && (Included(src, e) <==> !Due(src, i) && !left)
      && (Due(src, i) ==> !left)
  {
    hide EntryAt;
  }

  /** What is in the copy for a metadata article: the source's bytes unless they are too long for a compressed cluster, and
      their type. */
  lemma MetadataBack(src: Archive, s: Settings, before: Contents, scraper: Bytes, main: Option<Bytes>, md5: Bytes -> Bytes, file: Bytes,
                     all: Contents, img: Image, i: nat)
    requires AllMetadata(src, before, scraper) && Archived(s, before, main, md5, file, all, img) && Sealing.Small(img)
    requires Roomy(s.target, |all|) && Due(src, i) && First(src, i)
    ensures Open(s.codec, file).Ok? && CopyKey(UrlOf(src, i)) in all && all[CopyKey(UrlOf(src, i))].Body?
    ensures MetadataRead(Open(s.codec, file).value, src, i, BodyFits(all[CopyKey(UrlOf(src, i))]))
  {
    hide AllMetadata, Archived, Sealing.Small, Roomy, Due, First, UrlOf, CopyKey, EntryAt, GetData, Mimetype, ByPath, Open, BodyFits,
      IllustrationSide, Delivered;
    CopiedEntry(src, before, scraper, i);
    ArchivedEntries(s, before, main, md5, file, all, img);
    BodyDelivered(s, before, main, md5, file, all, img, CopyKey(UrlOf(src, i)));
  }

  /** The reader `a` of the copy finds metadata article `i` of the source. */
  ghost predicate MetadataRead(a: Archive, src: Archive, i: nat, fits: bool) {
    Due(src, i) &&
    var k, source := CopyKey(UrlOf(src, i)), EntryAt(src, i).value;
    var e := ByPath(a, k.ns, k.text);
    && e.Ok? && e.value.dirent.ArticleEntry?
    && GetData(a, e.value) == (if fits then GetData(src, source) else Err(Decompression))
    && Mimetype(a, e.value) == (if IllustrationSide(UrlOf(src, i)).Some? then IMAGE_PNG else Mimetype(src, source))
  }

  lemma CopiedEntry(src: Archive, before: Contents, scraper: Bytes, i: nat)
    requires AllMetadata(src, before, scraper) && Due(src, i) && First(src, i)
    ensures var k, source := CopyKey(UrlOf(src, i)), EntryAt(src, i).value;
      && EntryAt(src, i).Ok? && source.dirent.ArticleEntry? && k in before && before[k].Body?
      && GetData(src, source) == Ok(before[k].content)
      && before[k].mime == (if IllustrationSide(UrlOf(src, i)).Some? then IMAGE_PNG else Mimetype(src, source))
  {
    hide EntryAt, GetData, Mimetype, CopyKey, IllustrationSide, First, ComesFrom;
    assert Copied(src, before, i);
  }

  lemma ArchivedEntries(s: Settings, before: Contents, main: Option<Bytes>, md5: Bytes -> Bytes, file: Bytes, all: Contents, img: Image)
    requires Archived(s, before, main, md5, file, all, img)
    ensures forall k :: k in before ==> k in all && all[k] == before[k]
    ensures Sealing.Small(img) ==> Delivered(s, main, file, img, all)
  {
    hide Delivered, Sealing.Small, FileOf, Sized, CountsAll, IsListing, Grounded, MadeOf;
  }

  /** The source's main page leads to an entry of the source. */
  lemma {:induction false} FollowEntry(src: Archive, e: Entry, hops: nat)
    requires EntryAt(src, e.index) == Ok(e) && e.index < src.header.entryCount && Follow(src, e, hops).Ok?
    ensures var t := Follow(src, e, hops).value; EntryAt(src, t.index) == Ok(t) && t.index < src.header.entryCount
    decreases MAX_REDIRECTS + 1 - hops
  {
    hide EntryAt;
    if e.dirent.RedirectEntry? {
      EntryWithin(src, e.dirent.redirectIndex);
      FollowEntry(src, EntryAt(src, e.dirent.redirectIndex).value, hops + 1);
    }
  }

  lemma EntryWithin(src: Archive, i: nat)
    requires EntryAt(src, i).Ok?
    ensures i < src.header.entryCount && EntryAt(src, i).value.index == i
  {
    hide ParseDirent;
  }

  lemma MainTarget(src: Archive, before: Contents, owner: map<Key, nat>)
    requires AllGiven(src, before, owner) && src.header.mainPage != NO_MAIN_PAGE && MainEntry(src).Ok?
    requires Follow(src, MainEntry(src).value, 0).Ok? && Included(src, Follow(src, MainEntry(src).value, 0).value)
    ensures var k := ContentKey(src, Follow(src, MainEntry(src).value, 0).value); k in before && before[k].Body?
  {
    EntryWithin(src, src.header.mainPage);
    FollowEntry(src, MainEntry(src).value, 0);
    var t := Follow(src, MainEntry(src).value, 0).value;
    hide EntryAt, Follow, ContentKey, Included, GetData, Mimetype, StaysRaw, TitleOr, MainEntry;
    assert Given(src, owner, t.index);
    assert Sourced(src, ContentKey(src, t), t.index, before[ContentKey(src, t)]);
  }

  /** A reader of the copy that follows its main page gets the content entry the source's main page leads to; without one
      in the source there is none in the copy. */
  lemma MainPageKept(src: Archive, s: Settings, before: Contents, owner: map<Key, nat>, main: Option<Bytes>, md5: Bytes -> Bytes,
                     file: Bytes, all: Contents, img: Image)
    requires AllGiven(src, before, owner) && MainForwarded(src, before, main)
    requires Archived(s, before, main, md5, file, all, img) && Sealing.Small(img)
    ensures Open(s.codec, file).Ok?
    ensures var a := Open(s.codec, file).value;
      if src.header.mainPage == NO_MAIN_PAGE then MainEntry(a) == Err(NoMainEntry)
      else
        && MainEntry(a).Ok? && MainEntry(src).Ok? && Follow(src, MainEntry(src).value, 0).Ok?
        && var k := ContentKey(src, Follow(src, MainEntry(src).value, 0).value);
           ByPath(a, k.ns, k.text).Ok? && GetItem(a, MainEntry(a).value, true) == ByPath(a, k.ns, k.text)
  {
    hide AllGiven, Archived, Open, Sealing.Small, EntryAt, Follow, ContentKey, Included, ByPath, GetItem, Holds, StrictlyAscending,
      ReadsBack, FromClusters, MainEntry, FileOf;
    ArchivedEntries(s, before, main, md5, file, all, img);
    if src.header.mainPage != NO_MAIN_PAGE {
      MainTarget(src, before, owner);
      var k := ContentKey(src, Follow(src, MainEntry(src).value, 0).value);
      OneHop(all, MAIN_PAGE, k);
      assert Follows(ArchiveOf(img, file), MAIN_PAGE, k, 1);
    }
  }

  lemma OneHop(all: Contents, k: Key, t: Key)
    requires k in all && all[k].Alias? && all[k].target == t && t in all && all[t].Body?
    ensures Reaches(all, k, t, 1)
  {
    assert Chase(all, k, 0) == Some(k);
  }

  lemma NothingOwned(src: Archive)
    ensures Owned(src, map[], map[])
  {
  }

  lemma {:induction false} FollowText(src: Archive, e: Entry, hops: nat)
    requires ValidUtf8(e.dirent.url)
    ensures Follow(src, e, hops).Ok? ==> ValidUtf8(Follow(src, e, hops).value.dirent.url)
    decreases MAX_REDIRECTS + 1 - hops
  {
    hide EntryAt, ValidUtf8;
    if e.dirent.RedirectEntry? && hops + 1 <= MAX_REDIRECTS && EntryAt(src, e.dirent.redirectIndex).Ok? {
      EntryText(src, e.dirent.redirectIndex);
      FollowText(src, EntryAt(src, e.dirent.redirectIndex).value, hops + 1);
    }
  }

  lemma MainText(src: Archive, main: Entry)
    requires MainEntry(src) == Ok(main) && Follow(src, main, 0).Ok?
    ensures ValidUtf8(Follow(src, main, 0).value.dirent.url)
  {
    hide EntryAt, ValidUtf8, Follow;
    EntryText(src, src.header.mainPage);
    FollowText(src, main, 0);
  }

  lemma PassedTwice(src: Archive, owner0: map<Key, nat>, owner: map<Key, nat>, pending: seq<PendingContent>, i: nat)
    requires PassedOnce(src, owner0, pending, i)
    requires forall j :: Given(src, owner0, j) ==> Given(src, owner, j)
    requires forall p :: p in pending ==> Given(src, owner, p.index)
    ensures Given(src, owner, i)
  {
    hide EntryAt, Given;
    if Postponed(src, pending, i) {
      var j :| 0 <= j < |pending| && pending[j].index == i;
      assert pending[j] in pending;
    }
  }

  // ---- The same content ----

  /** How an entry of the contents is shown. */
  function Display(k: Key, st: Stored): Shown {
    Shown(k.text, st.title,
      match st
      case Body(_, mime, content, _) => Carrying(mime, content)
      case Alias(_, target) => Pointing(target.text))
  }

  /** Entry `i` is shown as the contents say, or cannot be shown. */
  ghost predicate Displays(a: Archive, contents: Contents, i: nat) {
    EntryAt(a, i).Ok? && (Included(a, EntryAt(a, i).value) ==>
      var e := EntryAt(a, i).value;
      && ContentKey(a, e) in contents
      && (Show(a, e).Ok? ==> Show(a, e).value == Display(ContentKey(a, e), contents[ContentKey(a, e)])))
  }

  ghost predicate InOrder(a: Archive, i: nat, j: nat) {
    EntryAt(a, i).Ok? && EntryAt(a, j).Ok? && Included(a, EntryAt(a, i).value) && Included(a, EntryAt(a, j).value) ==>
      Lt(ContentKey(a, EntryAt(a, i).value).text, ContentKey(a, EntryAt(a, j).value).text)
  }

  /** The entries among the first `n` whose paths are `paths`. */
  ghost predicate Lists(a: Archive, contents: Contents, n: nat, v: seq<Shown>) {
    && (forall m :: 0 <= m < |v| ==> Listed(a, contents, n, v[m]))
    && (forall i: nat :: i < n ==> Covered(a, i, v))
    && (forall l, m :: 0 <= l < m < |v| ==> Lt(v[l].path, v[m].path))
  }

  ghost predicate Listed(a: Archive, contents: Contents, n: nat, s: Shown) {
    exists i: nat :: i < n && EntryAt(a, i).Ok? && Included(a, EntryAt(a, i).value)
      && ContentKey(a, EntryAt(a, i).value) in contents
      && s == Display(ContentKey(a, EntryAt(a, i).value), contents[ContentKey(a, EntryAt(a, i).value)])
  }

  ghost predicate Covered(a: Archive, i: nat, v: seq<Shown>) {
    EntryAt(a, i).Ok? && Included(a, EntryAt(a, i).value) ==>
      exists m :: 0 <= m < |v| && v[m].path == ContentKey(a, EntryAt(a, i).value).text
  }

  lemma ListsNext(a: Archive, contents: Contents, n: nat, v: seq<Shown>)
    requires Lists(a, contents, n, v) && Displays(a, contents, n) && (forall i: nat :: i < n ==> InOrder(a, i, n))
    requires Show(a, EntryAt(a, n).value).Ok?
    ensures var e := EntryAt(a, n).value;
      Lists(a, contents, n + 1, if Included(a, e) then v + [Show(a, e).value] else v)
  {
    hide EntryAt, ContentKey, Included, Show, Display, Compare;
    var e := EntryAt(a, n).value;
    var v' := if Included(a, e) then v + [Show(a, e).value] else v;
    forall m | 0 <= m < |v'|
      ensures Listed(a, contents, n + 1, v'[m])
    {
      if m < |v| {
        assert Listed(a, contents, n, v[m]);
      }
    }
    forall i: nat | i < n + 1
      ensures Covered(a, i, v')
    {
      if i < n {
        assert Covered(a, i, v);
        if EntryAt(a, i).Ok? && Included(a, EntryAt(a, i).value) {
          var m :| 0 <= m < |v| && v[m].path == ContentKey(a, EntryAt(a, i).value).text;
          assert v'[m].path == ContentKey(a, EntryAt(a, i).value).text;
        }
      } else if Included(a, e) {
        DisplayPath(ContentKey(a, e), contents[ContentKey(a, e)]);
        assert v'[|v|].path == ContentKey(a, e).text;
      }
    }
    if Included(a, e) {
      DisplayPath(ContentKey(a, e), contents[ContentKey(a, e)]);
      forall l | 0 <= l < |v|
        ensures Lt(v[l].path, v'[|v|].path)
      {
        assert Listed(a, contents, n, v[l]);
        var i: nat :| i < n && EntryAt(a, i).Ok? && Included(a, EntryAt(a, i).value)
          && ContentKey(a, EntryAt(a, i).value) in contents
          && v[l] == Display(ContentKey(a, EntryAt(a, i).value), contents[ContentKey(a, EntryAt(a, i).value)]);
        DisplayPath(ContentKey(a, EntryAt(a, i).value), contents[ContentKey(a, EntryAt(a, i).value)]);
        assert InOrder(a, i, n);
      }
    }
  }

  lemma DisplayPath(k: Key, st: Stored)
    ensures Display(k, st).path == k.text
  {
  }

  /** A view that can be read lists exactly the content entries, in path order. */
  lemma {:induction false} ViewLists(a: Archive, contents: Contents, n: nat)
    requires forall i: nat :: i < n ==> Displays(a, contents, i)
    requires forall i: nat, j: nat :: i < j < n ==> InOrder(a, i, j)
    ensures View(a, n).Ok? ==> Lists(a, contents, n, View(a, n).value)
    ensures View(a, n).Err? ==> exists i: nat :: i < n && Unshown(a, i, View(a, n).error)
  {
    hide Displays, InOrder, Lists, Show, EntryAt, Included;
    if n == 0 {
      NothingListed(a, contents);
    } else {
      ViewLists(a, contents, n - 1);
      assert Displays(a, contents, n - 1);
      DisplaysEntry(a, contents, n - 1);
      if View(a, n - 1).Ok? {
        var e := EntryAt(a, n - 1).value;
        if Included(a, e) && Show(a, e).Err? {
          assert Unshown(a, n - 1, Show(a, e).error);
        } else if Included(a, e) {
          ListsNext(a, contents, n - 1, View(a, n - 1).value);
        } else {
          ListsSkip(a, contents, n - 1, View(a, n - 1).value);
        }
      }
    }
  }

  lemma DisplaysEntry(a: Archive, contents: Contents, i: nat)
    requires Displays(a, contents, i)
    ensures EntryAt(a, i).Ok?
  {
  }

  lemma NothingListed(a: Archive, contents: Contents)
    ensures Lists(a, contents, 0, [])
  {
  }

  lemma ListsSkip(a: Archive, contents: Contents, n: nat, v: seq<Shown>)
    requires Lists(a, contents, n, v) && EntryAt(a, n).Ok? && !Included(a, EntryAt(a, n).value)
    ensures Lists(a, contents, n + 1, v)
  {
    hide EntryAt, ContentKey, Included, Display, Compare;
    forall m | 0 <= m < |v|
      ensures Listed(a, contents, n + 1, v[m])
    {
      assert Listed(a, contents, n, v[m]);
    }
    forall i: nat | i < n + 1
      ensures Covered(a, i, v)
    {
      assert i < n ==> Covered(a, i, v);
    }
  }

  /** An included entry that cannot be shown. */
  ghost predicate Unshown(a: Archive, i: nat, error: Error) {
    EntryAt(a, i).Ok? && Included(a, EntryAt(a, i).value) && Show(a, EntryAt(a, i).value) == Err(error)
  }

  ghost predicate Climbing(v: seq<Shown>) {
    forall l, m :: 0 <= l < m < |v| ==> Lt(v[l].path, v[m].path)
  }

  lemma ClimbingLast(v: seq<Shown>, s: Shown)
    requires Climbing(v) && s in v
    ensures s == v[|v| - 1] || Lt(s.path, v[|v| - 1].path)
  {
    hide Compare;
    var l :| 0 <= l < |v| && v[l] == s;
  }

  /** Two ascending lists of the same entries are the same list. */
  lemma {:induction false} SameClimbing(v: seq<Shown>, w: seq<Shown>)
    requires Climbing(v) && Climbing(w) && forall s :: s in v <==> s in w
    ensures v == w
    decreases |v|
  {
    hide Compare, Climbing;
    assert w != [] ==> w[0] in v;
    if v != [] {
      assert v[0] in w;
      SameLast(v, w);
      SameFronts(v, w);
      FrontClimbs(v);
      FrontClimbs(w);
      SameClimbing(Front(v), Front(w));
      assert v == Front(v) + [v[|v| - 1]] && w == Front(w) + [w[|w| - 1]];
    }
  }

  lemma SameLast(v: seq<Shown>, w: seq<Shown>)
    requires Climbing(v) && Climbing(w) && (forall s :: s in v <==> s in w) && v != [] && w != []
    ensures v[|v| - 1] == w[|w| - 1]
  {
    hide Compare, Climbing;
    var x, y := v[|v| - 1], w[|w| - 1];
    assert x in v && y in w;
    ClimbingLast(v, y);
    ClimbingLast(w, x);
    CompareTotal(x.path, y.path);
    CompareTotal(y.path, x.path);
  }

  lemma FrontClimbs(v: seq<Shown>)
    requires Climbing(v) && v != []
    ensures Climbing(Front(v))
  {
    hide Compare;
  }

  lemma SameFronts(v: seq<Shown>, w: seq<Shown>)
    requires Climbing(v) && Climbing(w) && (forall s :: s in v <==> s in w) && v != [] && w != [] && v[|v| - 1] == w[|w| - 1]
    ensures forall s :: s in Front(v) <==> s in Front(w)
  {
    hide Compare, Front;
    forall s
      ensures s in Front(v) <==> s in Front(w)
    {
      FrontMembers(v, s);
      FrontMembers(w, s);
    }
  }

  function Front(v: seq<Shown>): (f: seq<Shown>)
    requires v != []
    ensures |f| == |v| - 1 && forall l :: 0 <= l < |f| ==> f[l] == v[l]
  {
    v[..|v| - 1]
  }

  lemma FrontMembers(v: seq<Shown>, s: Shown)
    requires Climbing(v) && v != []
    ensures s in Front(v) <==> s in v && s != v[|v| - 1]
  {
    hide Compare;
    if l :| 0 <= l < |v| - 1 && v[l] == s {
      assert Front(v)[l] == s;
      CompareTotal(v[l].path, v[|v| - 1].path);
    }
    if s in v && s != v[|v| - 1] {
      var l :| 0 <= l < |v| && v[l] == s;
      assert Front(v)[l] == s;
    }
  }

  /** In a legacy archive content entries have a path. */
  ghost predicate Named(src: Archive) {
    !src.header.UsesNewNamespaces() ==>
      forall i: nat :: i < src.header.entryCount && EntryAt(src, i).Ok? ==> EntryAt(src, i).value.dirent.url != []
  }

  lemma TitleKept(src: Archive, i: nat)
    requires Named(src) && i < src.header.entryCount && EntryAt(src, i).Ok?
    ensures var e := EntryAt(src, i).value; TitleOr(e.dirent.Title(), ContentKey(src, e).text) == e.dirent.Title()
  {
    hide EntryAt;
  }

  lemma MatchesShown(src: Archive, e: Entry, st: Stored)
    requires Matches(src, e, st) && st.title == e.dirent.Title()
    ensures Show(src, e) == Ok(Display(ContentKey(src, e), st))
  {
    hide GetData, EntryAt, Included;
  }

  /** A source entry that was given to the writer is shown as what the writer was given. */
  lemma SourceDisplays(src: Archive, before: Contents, owner: map<Key, nat>, i: nat)
    requires AllGiven(src, before, owner) && Named(src) && i < src.header.entryCount
    ensures Displays(src, before, i)
    ensures Included(src, EntryAt(src, i).value) ==> Show(src, EntryAt(src, i).value).Ok?
  {
    hide EntryAt, Included, ContentKey, Show, Matches, TitleOr, Named;
    assert Given(src, owner, i);
    var e := EntryAt(src, i).value;
    if Included(src, e) {
      var k := ContentKey(src, e);
      assert Sourced(src, k, owner[k], before[k]);
      TitleKept(src, i);
      TitleMatches(src, e, before[k]);
      MatchesShown(src, e, before[k]);
    }
  }

  lemma TitleMatches(a: Archive, e: Entry, st: Stored)
    requires Matches(a, e, st)
    ensures st.title == TitleOr(e.dirent.Title(), ContentKey(a, e).text)
  {
    hide GetData, RedirectStep;
  }

  lemma SourceInOrder(src: Archive, ds: seq<Dirent>, before: Contents, owner: map<Key, nat>, i: nat, j: nat)
    requires AllGiven(src, before, owner) && Holds(src, ds) && Ascending(Keys(ds)) && i < j < src.header.entryCount
    ensures InOrder(src, i, j)
  {
    assert Given(src, owner, i) && Given(src, owner, j);
    HeldKeys(src, ds, i);
    HeldKeys(src, ds, j);
    hide EntryAt, Compare, DirentAt, Canonical, Owned;
    assert KeyLe(Keys(ds)[i], Keys(ds)[j]);
    var e, f := EntryAt(src, i).value, EntryAt(src, j).value;
    if Included(src, e) && Included(src, f) {
      CanonicalOrder(!src.header.UsesNewNamespaces(), e.dirent.Key(), f.dirent.Key());
      CompareTotal(ContentKey(src, e).text, ContentKey(src, f).text);
    }
  }

  /** The view of a source whose recreation went through can be read. */
  lemma SourceView(src: Archive, ds: seq<Dirent>, before: Contents, owner: map<Key, nat>)
    requires AllGiven(src, before, owner) && Holds(src, ds) && Ascending(Keys(ds)) && Named(src)
    ensures ContentView(src).Ok? && Lists(src, before, src.header.entryCount, ContentView(src).value)
  {
    hide AllGiven, Holds, Ascending, Named, View, Displays, InOrder, Lists, EntryAt, Show;
    var n := src.header.entryCount;
    forall i: nat | i < n
      ensures Displays(src, before, i)
    {
      SourceDisplays(src, before, owner, i);
    }
    forall i: nat, j: nat | i < j < n
      ensures InOrder(src, i, j)
    {
      SourceInOrder(src, ds, before, owner, i, j);
    }
    ViewLists(src, before, n);
    if View(src, n).Err? {
      var i: nat :| i < n && Unshown(src, i, View(src, n).error);
      SourceDisplays(src, before, owner, i);
    }
  }

  // The output.

  lemma OutputEntry(a: Archive, all: Contents, target: nat, i: nat)
    requires ReadsBack(a, all, target) && i < |all|
    ensures EntryAt(a, i).Ok? && EntryAt(a, i).value.dirent.Key() in all
    ensures EntryBack(a, all, target, EntryAt(a, i).value.dirent.Key())
    ensures var k := EntryAt(a, i).value.dirent.Key(); ByPath(a, k.ns, k.text) == EntryAt(a, i)
  {
    hide ByPath, KindBack, DirentAt;
    assert KeyOfEntry(a, i).Some?;
    var k := KeyOfEntry(a, i).value;
    assert EntryBack(a, all, target, k);
  }

  /** A content entry of the output is shown as what was added, or its body exceeds the decode limit. */
  lemma OutputDisplays(a: Archive, all: Contents, target: nat, i: nat)
    requires ReadsBack(a, all, target) && i < |all| && a.header.UsesNewNamespaces()
    requires forall k :: k in all && all[k].Alias? ==> all[k].target.ns == NS_CONTENT
    ensures Displays(a, all, i)
    ensures var e := EntryAt(a, i).value; Show(a, e).Err? ==> Show(a, e).error == Decompression
    ensures Included(a, EntryAt(a, i).value) <==> EntryAt(a, i).value.dirent.ns == NS_CONTENT
  {
    OutputEntry(a, all, target, i);
    hide EntryAt, ByPath, ReadsBack, GetData, Mimetype, Decodable, Join, RedirectStep, Alone;
    var e := EntryAt(a, i).value;
    var k := e.dirent.Key();
    if all[k].Body? {
      var p :| BodyBack(a, e, all[k], target, p);
    }
  }

  lemma OutputInOrder(a: Archive, ds: seq<Dirent>, i: nat, j: nat)
    requires Holds(a, ds) && StrictlyAscending(Keys(ds)) && i < j < |ds| && a.header.UsesNewNamespaces()
    ensures InOrder(a, i, j)
  {
    HeldKeys(a, ds, i);
    HeldKeys(a, ds, j);
    hide EntryAt, Compare, DirentAt;
    assert KeyLt(Keys(ds)[i], Keys(ds)[j]);
  }

  // What cannot be shown.

  ghost predicate Decodes(p: Plan) {
    Decodable(p.blobs, p.comp)
  }

  ghost predicate DecodesAt(img: Image, i: nat)
    requires i < |img.dirents|
  {
    var d := img.dirents[i];
    d.Article? && d.cluster < |img.plans| ==> Decodes(img.plans[d.cluster])
  }

  /** Every cluster that holds content can be decoded. */
  ghost predicate ContentDecodes(img: Image) {
    forall i: nat :: i < |img.dirents| && img.dirents[i].ns == NS_CONTENT ==> DecodesAt(img, i)
  }

  lemma {:induction false} ViewShows(a: Archive, n: nat, i: nat)
    requires View(a, n).Ok? && i < n
    ensures EntryAt(a, i).Ok? && (Included(a, EntryAt(a, i).value) ==> Show(a, EntryAt(a, i).value).Ok?)
  {
    hide EntryAt, Included, Show;
    if i < n - 1 {
      ViewShows(a, n - 1, i);
    }
  }

  /** An output entry is shown exactly when its cluster can be decoded. */
  lemma OutputShows(a: Archive, img: Image, all: Contents, target: nat, i: nat)
    requires ReadsBack(a, all, target) && FromClusters(a, img, all, target) && Holds(a, Views(img.dirents))
    requires i < |img.dirents| == |all|
    ensures EntryAt(a, i) == Ok(Entry(i, Dirents.View(img.dirents[i])))
    ensures Show(a, EntryAt(a, i).value).Ok? <==> DecodesAt(img, i)
  {
    HeldKeys(a, Views(img.dirents), i);
    OutputEntry(a, all, target, i);
    hide ReadsBack, Holds, EntryAt, ByPath, GetData, Mimetype, Decodable, Join, RedirectStep, Alone;
    var e := EntryAt(a, i).value;
    if img.dirents[i].Article? {
      assert FromCluster(a, img, all, target, i);
    }
  }

  /** The output can be listed exactly when every cluster that holds content can be decoded. */
  lemma OutputDecodes(a: Archive, img: Image, all: Contents, target: nat)
    requires ReadsBack(a, all, target) && FromClusters(a, img, all, target) && Holds(a, Views(img.dirents))
    requires |img.dirents| == |all| && a.header.UsesNewNamespaces()
    requires forall i: nat :: i < |all| ==> Displays(a, all, i)
    requires forall i: nat, j: nat :: i < j < |all| ==> InOrder(a, i, j)
    ensures View(a, |all|).Ok? <==> ContentDecodes(img)
  {
    hide ReadsBack, FromClusters, Holds, Show, EntryAt, DecodesAt, Displays, InOrder, Lists, View;
    var n := |all|;
    forall i: nat | i < n
      ensures EntryAt(a, i).Ok? && (Show(a, EntryAt(a, i).value).Ok? <==> DecodesAt(img, i))
      ensures Included(a, EntryAt(a, i).value) <==> img.dirents[i].ns == NS_CONTENT
    {
      OutputShows(a, img, all, target, i);
    }
    if View(a, n).Ok? {
      forall i: nat | i < n && img.dirents[i].ns == NS_CONTENT
        ensures DecodesAt(img, i)
      {
        ViewShows(a, n, i);
      }
    } else {
      ViewLists(a, all, n);
      var i: nat :| i < n && Unshown(a, i, View(a, n).error);
    }
  }

  /** The output, when it can be listed, lists the contents; it can be exactly when every cluster that holds content
      can be decoded. */
  lemma OutputView(a: Archive, img: Image, all: Contents, target: nat)
    requires ReadsBack(a, all, target) && FromClusters(a, img, all, target) && a.header.UsesNewNamespaces()
    requires Holds(a, Views(img.dirents)) && StrictlyAscending(Keys(Views(img.dirents)))
    requires forall k :: k in all && all[k].Alias? ==> all[k].target.ns == NS_CONTENT
    ensures ContentView(a).Ok? ==> Lists(a, all, |all|, ContentView(a).value)
    ensures ContentView(a).Err? ==> ContentView(a).error == Decompression
    ensures ContentView(a).Ok? <==> ContentDecodes(img)
  {
    var n := |all|;
    assert a.header.entryCount == n == |img.dirents|;
    hide ReadsBack, FromClusters, Holds, StrictlyAscending, View, Displays, InOrder, Lists, EntryAt, Show, ContentDecodes;
    forall i: nat | i < n
      ensures Displays(a, all, i)
    {
      OutputDisplays(a, all, target, i);
    }
    forall i: nat, j: nat | i < j < n
      ensures InOrder(a, i, j)
    {
      OutputInOrder(a, Views(img.dirents), i, j);
    }
    OutputDecodes(a, img, all, target);
    ViewLists(a, all, n);
    if View(a, n).Err? {
      var i: nat :| i < n && Unshown(a, i, View(a, n).error);
      OutputDisplays(a, all, target, i);
    }
  }

  /** The content entries of `all` are those given to the writer. */
  ghost predicate SameContent(before: Contents, all: Contents) {
    forall k: Key :: k.ns == NS_CONTENT ==> (k in before <==> k in all) && (k in before ==> all[k] == before[k])
  }

  lemma ShownBack(src: Archive, before: Contents, n: nat, v: seq<Shown>, a: Archive, all: Contents, target: nat, w: seq<Shown>, m: nat)
    requires Lists(src, before, n, v) && m < |v| && ReadsBack(a, all, target) && Lists(a, all, |all|, w)
    requires SameContent(before, all) && a.header.UsesNewNamespaces()
    ensures v[m] in w
  {
    hide EntryAt, Included, Compare, EntryBack, KeyOfEntry;
    assert Listed(src, before, n, v[m]);
    var i: nat :| i < n && EntryAt(src, i).Ok? && Included(src, EntryAt(src, i).value)
      && ContentKey(src, EntryAt(src, i).value) in before
      && v[m] == Display(ContentKey(src, EntryAt(src, i).value), before[ContentKey(src, EntryAt(src, i).value)]);
    var k := ContentKey(src, EntryAt(src, i).value);
    FindsShown(a, all, target, w, k);
  }

  lemma FindsShown(a: Archive, all: Contents, target: nat, w: seq<Shown>, k: Key)
    requires ReadsBack(a, all, target) && Lists(a, all, |all|, w) && k in all && k.ns == NS_CONTENT && a.header.UsesNewNamespaces()
    ensures Display(k, all[k]) in w
  {
    hide ByPath, KindBack, Compare, DirentAt;
    assert EntryBack(a, all, target, k);
    var e := ByPath(a, k.ns, k.text).value;
    IndexWithin(a, e);
    assert Covered(a, e.index, w);
    var m :| 0 <= m < |w| && w[m].path == k.text;
    assert Listed(a, all, |all|, w[m]);
  }

  lemma IndexWithin(a: Archive, e: Entry)
    requires EntryAt(a, e.index) == Ok(e)
    ensures e.index < a.header.entryCount
  {
    hide ParseDirent;
  }

  lemma GivenBack(src: Archive, before: Contents, owner: map<Key, nat>, v: seq<Shown>, a: Archive, all: Contents, w: seq<Shown>, m: nat)
    requires AllGiven(src, before, owner) && Lists(src, before, src.header.entryCount, v)
    requires Lists(a, all, |all|, w) && m < |w| && SameContent(before, all)
    ensures w[m] in v
  {
    hide EntryAt, Included, Compare, Matches;
    assert Listed(a, all, |all|, w[m]);
    var i: nat :| i < |all| && EntryAt(a, i).Ok? && Included(a, EntryAt(a, i).value)
      && ContentKey(a, EntryAt(a, i).value) in all
      && w[m] == Display(ContentKey(a, EntryAt(a, i).value), all[ContentKey(a, EntryAt(a, i).value)]);
    var k := ContentKey(a, EntryAt(a, i).value);
    assert Sourced(src, k, owner[k], before[k]);
    assert Covered(src, owner[k], v);
    var l :| 0 <= l < |v| && v[l].path == k.text;
    assert Listed(src, before, src.header.entryCount, v[l]);
  }

  lemma SameViews(src: Archive, before: Contents, owner: map<Key, nat>, v: seq<Shown>, a: Archive, all: Contents, target: nat, w: seq<Shown>)
    requires AllGiven(src, before, owner) && Lists(src, before, src.header.entryCount, v)
    requires ReadsBack(a, all, target) && Lists(a, all, |all|, w) && SameContent(before, all) && a.header.UsesNewNamespaces()
    ensures v == w
  {
    ListsClimb(src, before, src.header.entryCount, v);
    ListsClimb(a, all, |all|, w);
    hide AllGiven, ReadsBack, Lists, SameContent, Climbing;
    forall x
      ensures x in v <==> x in w
    {
      if m :| 0 <= m < |v| && v[m] == x {
        ShownBack(src, before, src.header.entryCount, v, a, all, target, w, m);
      }
      if m :| 0 <= m < |w| && w[m] == x {
        GivenBack(src, before, owner, v, a, all, w, m);
      }
    }
    SameClimbing(v, w);
  }

  /** What a finished archive gives this proof. */
  lemma ArchivedParts(s: Settings, before: Contents, main: Option<Bytes>, md5: Bytes -> Bytes, file: Bytes, all: Contents, img: Image)
    requires Archived(s, before, main, md5, file, all, img) && Sealing.Small(img)
    ensures var a := ArchiveOf(img, file);
      && Open(s.codec, file) == Ok(a) && ReadsBack(a, all, s.target) && FromClusters(a, img, all, s.target)
      && a.header.UsesNewNamespaces()
      && Holds(a, Views(img.dirents)) && StrictlyAscending(Keys(Views(img.dirents)))
    ensures SameContent(before, all) && forall k :: k in all && all[k].Alias? ==> all[k].target.ns == NS_CONTENT
  {
    hide Open, ReadsBack, FromClusters, Holds, StrictlyAscending, Sealing.Small, FileOf, Sized, IsListing, CountsAll, Grounded, Follows;
    forall k | k in all && all[k].Alias?
      ensures all[k].target.ns == NS_CONTENT
    {
      assert AliasShaped(all[k]);
    }
  }

  /** Recreating a dirent-ordered archive keeps the content view: the output shows the same entries in the same order,
      exactly when every cluster of the output that holds content can be decoded; otherwise it cannot be listed. */
  lemma ContentPreserved(src: Archive, ds: seq<Dirent>, s: Settings, before: Contents, owner: map<Key, nat>, main: Option<Bytes>,
                         md5: Bytes -> Bytes, file: Bytes, all: Contents, img: Image)
    requires Holds(src, ds) && Ascending(Keys(ds)) && Named(src)
    requires AllGiven(src, before, owner) && Archived(s, before, main, md5, file, all, img) && Sealing.Small(img)
    ensures Open(s.codec, file).Ok? && ContentView(src).Ok?
    ensures var a := Open(s.codec, file).value;
      && (ContentView(a) == ContentView(src) <==> ContentDecodes(img))
      && (!ContentDecodes(img) ==> ContentView(a) == Err(Decompression))
  {
    hide Archived, Holds, Ascending, StrictlyAscending, Named, AllGiven, ReadsBack, FromClusters, Open, Lists, View, SameContent,
      Sealing.Small, ContentDecodes;
    var a := ArchiveOf(img, file);
    ArchivedParts(s, before, main, md5, file, all, img);
    SourceView(src, ds, before, owner);
    OutputView(a, img, all, s.target);
    if ContentView(a).Ok? {
      SameViews(src, before, owner, ContentView(src).value, a, all, s.target, ContentView(a).value);
    }
  }

  lemma ListsClimb(a: Archive, contents: Contents, n: nat, v: seq<Shown>)
    requires Lists(a, contents, n, v)
    ensures Climbing(v)
  {
  }

  // ---- Nothing the source holds exceeds the limit ----

  ghost predicate BodiesFit(before: Contents) {
    forall k :: k in before && k.ns == NS_CONTENT && before[k].Body? ==> BodyFits(before[k])
  }

  /** A body read from the source fits: it was stored and stays so, or its own compressed cluster was within the limit. */
  lemma SourceFits(src: Archive, e: Entry, st: Stored)
    requires e.dirent.ArticleEntry? && st.Body? && GetData(src, e) == Ok(st.content) && StaysRaw(src, e, st)
    ensures BodyFits(st)
  {
    hide ClusterRaw, Parse, Blob;
    var raw := ClusterRaw(src, e.dirent.cluster).value;
    CompressedBlobFits(src.codec, raw, ClusterUncached(src, e.dirent.cluster).value, e.dirent.blob);
  }

  lemma GivenFits(src: Archive, before: Contents, owner: map<Key, nat>)
    requires AllGiven(src, before, owner)
    ensures BodiesFit(before)
  {
    hide EntryAt, GetData, Mimetype, BodyFits, StaysRaw, ContentKey, Included, TitleOr;
    forall k | k in before && k.ns == NS_CONTENT && before[k].Body?
      ensures BodyFits(before[k])
    {
      assert Sourced(src, k, owner[k], before[k]);
      SourceFits(src, EntryAt(src, owner[k]).value, before[k]);
    }
  }

  lemma FitsDecode(a: Archive, img: Image, s: Settings, before: Contents, all: Contents)
    requires FromClusters(a, img, all, s.target) && SameContent(before, all) && Roomy(s.target, a.header.entryCount)
    requires BodiesFit(before)
    ensures ContentDecodes(img)
  {
    hide FromClusters, Roomy, SameContent, BodiesFit, DecodesAt;
    forall i: nat | i < |img.dirents| && img.dirents[i].ns == NS_CONTENT
      ensures DecodesAt(img, i)
    {
      ArticleDecodes(a, img, s, before, all, i);
    }
  }

  lemma ArticleDecodes(a: Archive, img: Image, s: Settings, before: Contents, all: Contents, i: nat)
    requires FromClusters(a, img, all, s.target) && SameContent(before, all) && Roomy(s.target, a.header.entryCount)
    requires BodiesFit(before) && i < |img.dirents| && img.dirents[i].ns == NS_CONTENT
    ensures DecodesAt(img, i)
  {
    hide Join, BodyFits, Roomy, GetData, Mimetype, EntryAt, Dirents.View, Decodable;
    var d := img.dirents[i];
    if d.Article? {
      assert FromCluster(a, img, all, s.target, i);
      DecodesBySize(img.plans[d.cluster], all[d.Key()], s.target, a.header.entryCount);
    }
  }

  /** Two entries more than were given: the counter and the listing. */
  lemma FewMore(s: Settings, before: Contents, all: Contents, ds: seq<RawDirent>)
    requires Completed(s, before, all, ds)
    ensures |all| <= |before| + 2
  {
    hide CountsAll, IsListing, Grounded, AliasShaped, CounterEntry;
    SubsetSize(all.Keys, before.Keys + {COUNTER, LISTING});
  }

  lemma ArchivedCount(s: Settings, before: Contents, main: Option<Bytes>, md5: Bytes -> Bytes, file: Bytes, all: Contents, img: Image)
    requires Archived(s, before, main, md5, file, all, img) && Sealing.Small(img)
    ensures ArchiveOf(img, file).header.entryCount <= |before| + 2
  {
    hide Open, FromClusters, Holds, StrictlyAscending, Sealing.Small, FileOf, Sized, EntryBack, Follows, Completed, KeyOfEntry;
    FewMore(s, before, all, img.dirents);
  }

  /** A successful copy has the content view of its source, for every target size that leaves room for `n` entries. */
  lemma Preserved(src: Archive, s: Settings, before: Contents, owner: map<Key, nat>, main: Option<Bytes>, md5: Bytes -> Bytes,
                  file: Bytes, all: Contents, img: Image, n: nat)
    requires DirentOrdered(src) && Named(src)
    requires AllGiven(src, before, owner) && Archived(s, before, main, md5, file, all, img) && Sealing.Small(img)
    requires |before| + 2 <= n && Roomy(s.target, n)
    ensures SameView(src, s.codec, file)
  {
    var ds :| Holds(src, ds) && Ascending(Keys(ds));
    hide Archived, Holds, Ascending, StrictlyAscending, Named, AllGiven, ReadsBack, FromClusters, Open, View, SameContent,
      Sealing.Small, ContentDecodes, BodiesFit;
    ContentPreserved(src, ds, s, before, owner, main, md5, file, all, img);
    ArchivedParts(s, before, main, md5, file, all, img);
    ArchivedCount(s, before, main, md5, file, all, img);
    GivenFits(src, before, owner);
    FitsDecode(ArchiveOf(img, file), img, s, before, all);
  }
}
