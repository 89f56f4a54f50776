/** Directory entries: the writer's encoder and the reader's parser. */
module Dirents {
  import opened Outcome
  import opened Bytes
  import opened Text

  const MIME_REDIRECT: nat := 0xFFFF
  const MIME_LINKTARGET: nat := 0xFFFE
  const MIME_DELETED: nat := 0xFFFD

  // ---- Writer ----

  datatype RawDirent =
    | Article(ns: byte, url: Bytes, title: Bytes, mimeIdx: nat, cluster: nat, blob: nat)
    | Redirect(ns: byte, url: Bytes, title: Bytes, targetNs: byte, targetUrl: Bytes, resolved: Option<nat>)
  {
    function Key(): Key {
      Text.Key(ns, url)
    }

    function TitleKey(): Key {
      Text.Key(ns, title)
    }
  }

  /** Number of bytes `EncodeDirent` will produce, computed without rendering. */
  function DirentLen(d: RawDirent): nat {
    (if d.Article? then 16 else 12) + |d.url| + 1 + (if d.title != d.url then |d.title| else 0) + 1
  }

  function EncodeStrings(d: RawDirent): Bytes {
    d.url + [0] + ((if d.title != d.url then d.title else []) + [0])
  }

  function EncodePrefix(mime: nat, ns: byte): (s: Bytes)
    ensures |s| == 8
  {
    Le(mime, 2) + [0, ns] + Le(0, 4)
  }

  function EncodeDirent(d: RawDirent): (s: Bytes)
    ensures |s| == DirentLen(d)
  {
    match d
    case Article(ns, _, _, mimeIdx, cluster, blob) =>
      EncodePrefix(mimeIdx, ns) + (Le(cluster, 4) + (Le(blob, 4) + EncodeStrings(d)))
    case Redirect(ns, _, _, _, _, resolved) =>
      EncodePrefix(MIME_REDIRECT, ns) + (Le(if resolved.Some? then resolved.value else 0, 4) + EncodeStrings(d))
  }

  // ---- Reader ----

  datatype Dirent =
    | ArticleEntry(ns: byte, url: Bytes, rawTitle: Bytes, mimetype: nat, cluster: nat, blob: nat)
    | RedirectEntry(ns: byte, url: Bytes, rawTitle: Bytes, redirectIndex: nat)
  {
    /** Effective title: the path when no title is stored. */
    function Title(): Bytes {
      if rawTitle == [] then url else rawTitle
    }

    function Key(): Key {
      Text.Key(ns, url)
    }

    function TitleKey(): Key {
      Text.Key(ns, Title())
    }
  }

  function ParseDirent(buf: Bytes, off: nat): Result<Dirent> {
    var mimetype :- UintAt(buf, off, 2);
    var _ :- U8At(buf, off + 2);
    var ns :- U8At(buf, off + 3);
    var _ :- UintAt(buf, off + 4, 4);
    if mimetype == MIME_REDIRECT then
      var index :- UintAt(buf, off + 8, 4);
      var url :- CStrAt(buf, off + 12);
      var title :- CStrAt(buf, url.1);
      Ok(RedirectEntry(ns, url.0, title.0, index))
    else
      var cluster :- UintAt(buf, off + 8, 4);
      var blob :- UintAt(buf, off + 12, 4);
      var url :- CStrAt(buf, off + 16);
      var title :- CStrAt(buf, url.1);
      Ok(ArticleEntry(ns, url.0, title.0, mimetype, cluster, blob))
  }

  function UrlOffset(mimetype: nat, off: nat): nat {
    if mimetype == MIME_REDIRECT then off + 12 else off + 16
  }

  /** The path key of the dirent at `off`, read without parsing the rest. */
  function KeyAt(buf: Bytes, off: nat): Result<Key> {
    var mimetype :- UintAt(buf, off, 2);
    var ns :- U8At(buf, off + 3);
    var url :- CStrAt(buf, UrlOffset(mimetype, off));
    Ok(Key(ns, url.0))
  }

  /** The title key of the dirent at `off`; an empty title reads as the path. */
  function TitleKeyAt(buf: Bytes, off: nat): Result<Key> {
    var mimetype :- UintAt(buf, off, 2);
    var ns :- U8At(buf, off + 3);
    var url :- CStrAt(buf, UrlOffset(mimetype, off));
    var title :- CStrAt(buf, url.1);
    Ok(Key(ns, if title.0 == [] then url.0 else title.0))
  }

  /** On any dirent that parses, the cheap probes read the keys the full parse gives. */
  lemma ProbesAgree(buf: Bytes, off: nat)
    requires ParseDirent(buf, off).Ok?
    ensures KeyAt(buf, off) == Ok(ParseDirent(buf, off).value.Key())
    ensures TitleKeyAt(buf, off) == Ok(ParseDirent(buf, off).value.TitleKey())
    ensures U8At(buf, off + 3) == Ok(ParseDirent(buf, off).value.ns)
    ensures Storable(ParseDirent(buf, off).value.url) && Storable(ParseDirent(buf, off).value.rawTitle)
  {
    hide UnLe, FindNul, ValidUtf8, CStrAt;
    var mimetype := UintAt(buf, off, 2).value;
    var url := CStrAt(buf, UrlOffset(mimetype, off)).value;
    var title := CStrAt(buf, url.1).value;
    StorableCStr(buf, UrlOffset(mimetype, off));
    StorableCStr(buf, url.1);
  }

  lemma StorableCStr(buf: Bytes, off: nat)
    ensures CStrAt(buf, off).Ok? ==> Storable(CStrAt(buf, off).value.0)
  {
  }

  // ---- Round trip ----

  /** What the reader sees of a writer's dirent. */
  function View(d: RawDirent): Dirent {
    var title := if d.title != d.url then d.title else [];
    match d
    case Article(ns, url, _, mimeIdx, cluster, blob) => ArticleEntry(ns, url, title, mimeIdx, cluster, blob)
    case Redirect(ns, url, _, _, _, resolved) =>
      RedirectEntry(ns, url, title, if resolved.Some? then resolved.value else 0)
  }

  predicate Encodable(d: RawDirent) {
    && Storable(d.url) && Storable(d.title)
    && (d.title == [] ==> d.url == [])
    && (match d
        case Article(_, _, _, mimeIdx, cluster, blob) =>
          mimeIdx < MIME_DELETED && cluster < U32_LIMIT && blob < U32_LIMIT
        case Redirect(_, _, _, _, _, resolved) => resolved.Some? && resolved.value < U32_LIMIT)
  }

  lemma ViewKeys(d: RawDirent)
    requires d.title == [] ==> d.url == []
    ensures View(d).Key() == d.Key() && View(d).TitleKey() == d.TitleKey() && View(d).Title() == d.title
  {
  }

  lemma StringsRoundTrip(buf: Bytes, off: nat, d: RawDirent)
    requires At(buf, off, EncodeStrings(d)) && Storable(d.url) && Storable(d.title)
    ensures CStrAt(buf, off) == Ok((d.url, off + |d.url| + 1))
    ensures CStrAt(buf, off + |d.url| + 1).Ok? && CStrAt(buf, off + |d.url| + 1).value.0 == View(d).rawTitle
  {
    var title: Bytes := if d.title != d.url then d.title else [];
    AtSplit(buf, off, d.url + [0], title + [0]);
    CStrAtStored(buf, off, d.url);
    CStrAtStored(buf, off + |d.url| + 1, title);
  }

  lemma PrefixRoundTrip(buf: Bytes, off: nat, mime: nat, ns: byte)
    requires At(buf, off, EncodePrefix(mime, ns)) && mime < U16_LIMIT
    ensures UintAt(buf, off, 2) == Ok(mime) && U8At(buf, off + 2).Ok? && U8At(buf, off + 3) == Ok(ns)
    ensures UintAt(buf, off + 4, 4).Ok?
  {
    hide Le, UnLe, Pow256;
    Pow256Values();
    AtSplit(buf, off, Le(mime, 2) + [0, ns], Le(0, 4));
    AtSplit(buf, off, Le(mime, 2), [0, ns]);
    UintAtLe(buf, off, mime, 2);
    assert buf[off + 3] == buf[off + 2..off + 4][1] == [0, ns][1];
  }

  /** An encoded dirent parses back, with its path key, title key and fields. */
  lemma DirentRoundTrip(buf: Bytes, off: nat, d: RawDirent)
    requires At(buf, off, EncodeDirent(d)) && Encodable(d)
    ensures ParseDirent(buf, off) == Ok(View(d))
  {
    hide Le, UnLe, Pow256, Storable, EncodeStrings, EncodePrefix, CStrAt;
    Pow256Values();
    match d {
      case Article(ns, _, _, mimeIdx, cluster, blob) =>
        AtSplit(buf, off, EncodePrefix(mimeIdx, ns), Le(cluster, 4) + (Le(blob, 4) + EncodeStrings(d)));
        AtSplit(buf, off + 8, Le(cluster, 4), Le(blob, 4) + EncodeStrings(d));
        AtSplit(buf, off + 12, Le(blob, 4), EncodeStrings(d));
        PrefixRoundTrip(buf, off, mimeIdx, ns);
        UintAtLe(buf, off + 8, cluster, 4);
        UintAtLe(buf, off + 12, blob, 4);
        StringsRoundTrip(buf, off + 16, d);
      case Redirect(ns, _, _, _, _, resolved) =>
        AtSplit(buf, off, EncodePrefix(MIME_REDIRECT, ns), Le(resolved.value, 4) + EncodeStrings(d));
        AtSplit(buf, off + 8, Le(resolved.value, 4), EncodeStrings(d));
        PrefixRoundTrip(buf, off, MIME_REDIRECT, ns);
        UintAtLe(buf, off + 8, resolved.value, 4);
        StringsRoundTrip(buf, off + 12, d);
    }
  }
}
