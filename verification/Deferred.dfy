/** Entries kept aside until `finalize`: redirects, metadata, illustrations and the main page. Each is a promise that a
    reader is to find kept. */
module Deferred {
  import opened Outcome
  import opened Bytes
  import opened Text
  import opened Dirents
  import opened Clusters
  import opened Reader
  import opened Counting
  import opened MimeTypes
  import opened Packing
  import opened Tables
  import opened Numerals

  datatype Redirection = Redirection(path: Bytes, title: Bytes, target: Bytes) {
    function Key(): Key {
      Text.Key(NS_CONTENT, path)
    }

    function Title(): Bytes {
      if title == [] then path else title
    }
  }

  datatype MetadataEntry = MetadataEntry(name: Bytes, mimetype: Bytes, value: Bytes) {
    function Item(): Item {
      Packing.Item(Meta(Some(NS_METADATA), name, name, mimetype, None), value)
    }
  }

  datatype Illustration = Illustration(side: nat, png: Bytes) {
    /** `Illustration_NxN@1` */
    function Path(): Bytes {
      Ascii("Illustration_") + Decimal(side) + [120] + Decimal(side) + [64, 49]
    }

    function Item(): Item {
      Packing.Item(Meta(Some(NS_METADATA), Path(), Path(), IMAGE_PNG, None), png)
    }
  }

  const MAIN_PAGE: Key := Key(NS_WELLKNOWN, Ascii("mainPage"))

  datatype Waiting = Waiting(
    redirections: seq<Redirection>,
    metadata: seq<MetadataEntry>,
    illustrations: seq<Illustration>,
    mainPath: Option<Bytes>)

  /** A reader is to find `stored` under `key`. */
  datatype Promise = Promise(key: Key, stored: Stored)

  function RedirectPromise(r: Redirection): Promise {
    Promise(r.Key(), Alias(r.Title(), Key(NS_CONTENT, r.target)))
  }

  function ItemPromise(s: Settings, item: Item): Promise {
    Promise(item.meta.Key(), BodyOf(s, item.meta, item.content))
  }

  function MainPromise(target: Bytes): Promise {
    Promise(MAIN_PAGE, Alias(MAIN_PAGE.text, Key(NS_CONTENT, target)))
  }

  function RedirectPromises(rs: seq<Redirection>): (ps: seq<Promise>)
    ensures |ps| == |rs|
  {
    seq(|rs|, i requires 0 <= i < |rs| => RedirectPromise(rs[i]))
  }

  function MetadataPromises(s: Settings, ms: seq<MetadataEntry>): (ps: seq<Promise>)
    ensures |ps| == |ms|
  {
    seq(|ms|, i requires 0 <= i < |ms| => ItemPromise(s, ms[i].Item()))
  }

  function IllustrationPromises(s: Settings, ils: seq<Illustration>): (ps: seq<Promise>)
    ensures |ps| == |ils|
  {
    seq(|ils|, i requires 0 <= i < |ils| => ItemPromise(s, ils[i].Item()))
  }

  function MainPromises(main: Option<Bytes>): seq<Promise> {
    if main.Some? then [MainPromise(main.value)] else []
  }

  /** What the waiting entries are to become. */
  function Promises(s: Settings, w: Waiting): seq<Promise> {
    RedirectPromises(w.redirections) + (MetadataPromises(s, w.metadata)
    + (IllustrationPromises(s, w.illustrations) + MainPromises(w.mainPath)))
  }

  ghost predicate Holding(added: Contents, p: Promise) {
    p.key in added && added[p.key] == p.stored
  }

  ghost predicate Promising(ps: seq<Promise>, k: Key) {
    exists i :: 0 <= i < |ps| && ps[i].key == k
  }

  /** `added` is what was pushed and what is promised; no key occurs twice, and the item in flight has another. */
  ghost predicate Kept(pushed: Contents, ps: seq<Promise>, open: Option<Key>, added: Contents) {
    && (forall k :: k in pushed ==> Holding(added, Promise(k, pushed[k])))
    && (forall i :: 0 <= i < |ps| ==> Holding(added, ps[i]) && ps[i].key !in pushed && open != Some(ps[i].key))
    && (forall k :: k in added ==> k in pushed || Promising(ps, k))
    && (forall i, j :: 0 <= i < j < |ps| ==> ps[i].key != ps[j].key)
    && (open.Some? ==> open.value !in pushed)
  }

  function OpenKey(f: Option<InFlight>): Option<Key> {
    if f.Some? then Some(f.value.meta.Key()) else None
  }

  // ---- Changes ----

  lemma AtMiddle(front: seq<Promise>, p: Promise, back: seq<Promise>, i: nat)
    requires i < |front| + 1 + |back|
    ensures (front + ([p] + back))[i]
            == if i < |front| then (front + back)[i] else if i == |front| then p else (front + back)[i - 1]
  {
  }

  lemma PromisingMiddle(front: seq<Promise>, p: Promise, back: seq<Promise>, k: Key)
    ensures Promising(front + ([p] + back), k) <==> Promising(front + back, k) || k == p.key
  {
    var with, without := front + ([p] + back), front + back;
    if i :| 0 <= i < |with| && with[i].key == k {
      AtMiddle(front, p, back, i);
      if i < |front| {
        assert without[i].key == k;
      } else if i > |front| {
        assert without[i - 1].key == k;
      }
    }
    if i :| 0 <= i < |without| && without[i].key == k {
      var j := if i < |front| then i else i + 1;
      AtMiddle(front, p, back, j);
      assert with[j].key == k;
    }
    assert with[|front|] == p;
  }

  lemma DistinctMiddle(front: seq<Promise>, p: Promise, back: seq<Promise>)
    ensures (forall i, j :: 0 <= i < j < |front + ([p] + back)| ==> (front + ([p] + back))[i].key != (front + ([p] + back))[j].key)
            <==> (forall i, j :: 0 <= i < j < |front + back| ==> (front + back)[i].key != (front + back)[j].key)
                 && !Promising(front + back, p.key)
  {
    var with, without := front + ([p] + back), front + back;
    assert forall i :: 0 <= i < |without| ==> without[i] == with[if i < |front| then i else i + 1];
    assert forall i :: 0 <= i < |with| && i != |front| ==> with[i] == without[if i < |front| then i else i - 1];
    assert with[|front|] == p;
    if Promising(without, p.key) {
      var i :| 0 <= i < |without| && without[i].key == p.key;
      var j := if i < |front| then i else i + 1;
      assert with[j].key == p.key && j != |front|;
    }
  }

  /** A new promise under a fresh key. */
  lemma Insert(pushed: Contents, front: seq<Promise>, back: seq<Promise>, open: Option<Key>, added: Contents, p: Promise)
    requires Kept(pushed, front + back, open, added)
    requires p.key !in pushed && !Promising(front + back, p.key) && open != Some(p.key)
    ensures Kept(pushed, front + ([p] + back), open, added[p.key := p.stored])
  {
    var with, without := front + ([p] + back), front + back;
    DistinctMiddle(front, p, back);
    forall i | 0 <= i < |with|
      ensures Holding(added[p.key := p.stored], with[i]) && with[i].key !in pushed && open != Some(with[i].key)
    {
      AtMiddle(front, p, back, i);
      if i != |front| {
        assert without[if i < |front| then i else i - 1].key != p.key;
      }
    }
    forall k | k in added[p.key := p.stored]
      ensures k in pushed || Promising(with, k)
    {
      PromisingMiddle(front, p, back, k);
    }
  }

  /** A promise that has been pushed. */
  lemma Redeem(pushed: Contents, front: seq<Promise>, back: seq<Promise>, open: Option<Key>, added: Contents, p: Promise)
    requires Kept(pushed, front + ([p] + back), open, added)
    ensures p.key !in pushed
    ensures Kept(pushed[p.key := p.stored], front + back, open, added)
  {
    var with, without := front + ([p] + back), front + back;
    DistinctMiddle(front, p, back);
    assert with[|front|] == p;
    forall i | 0 <= i < |without|
      ensures Holding(added, without[i]) && without[i].key !in pushed && without[i].key != p.key && open != Some(without[i].key)
    {
      assert without[i] == with[if i < |front| then i else i + 1];
    }
    forall k | k in added
      ensures k in pushed || k == p.key || Promising(without, k)
    {
      PromisingMiddle(front, p, back, k);
    }
  }

  /** A promise replaced by another one under the same key. */
  lemma Replace(pushed: Contents, front: seq<Promise>, back: seq<Promise>, open: Option<Key>, added: Contents, p: Promise, q: Promise)
    requires Kept(pushed, front + ([p] + back), open, added) && q.key == p.key
    ensures Kept(pushed, front + ([q] + back), open, added[q.key := q.stored])
  {
    Redeem(pushed, front, back, open, added, p);
    var with, without := front + ([q] + back), front + back;
    DistinctMiddle(front, p, back);
    DistinctMiddle(front, q, back);
    assert (front + ([p] + back))[|front|] == p;
    forall i | 0 <= i < |with|
      ensures Holding(added[q.key := q.stored], with[i]) && with[i].key !in pushed && open != Some(with[i].key)
    {
      AtMiddle(front, q, back, i);
      if i != |front| {
        assert without[if i < |front| then i else i - 1].key != p.key;
      }
    }
    forall k | k in added
      ensures k in pushed || Promising(with, k)
    {
      PromisingMiddle(front, p, back, k);
      PromisingMiddle(front, q, back, k);
    }
  }

  /** An item that was pushed although nothing was promised. */
  lemma Unpromised(pushed: Contents, ps: seq<Promise>, open: Option<Key>, added: Contents, p: Promise)
    requires Kept(pushed, ps, open, added) && p.key !in pushed && !Promising(ps, p.key) && open != Some(p.key)
    ensures Kept(pushed[p.key := p.stored], ps, open, added[p.key := p.stored])
  {
    Insert(pushed, ps, [], open, added, p);
    assert ps + [] == ps;
    Redeem(pushed, ps, [], open, added[p.key := p.stored], p);
  }

  lemma OpenClosed(pushed: Contents, ps: seq<Promise>, open: Option<Key>, added: Contents, open': Option<Key>)
    requires Kept(pushed, ps, open, added)
    requires open'.Some? ==> open' == open || (open'.value !in pushed && !Promising(ps, open'.value))
    ensures Kept(pushed, ps, open', added)
  {
  }

  // ---- The shape of the promises ----

  lemma WithRedirect(s: Settings, w: Waiting, r: Redirection)
    ensures Promises(s, w.(redirections := w.redirections + [r]))
            == RedirectPromises(w.redirections)
               + ([RedirectPromise(r)]
                  + (MetadataPromises(s, w.metadata) + (IllustrationPromises(s, w.illustrations) + MainPromises(w.mainPath))))
  {
    assert RedirectPromises(w.redirections + [r]) == RedirectPromises(w.redirections) + [RedirectPromise(r)];
  }

  lemma WithMetadata(s: Settings, w: Waiting, m: MetadataEntry)
    ensures Promises(s, w.(metadata := w.metadata + [m]))
            == (RedirectPromises(w.redirections) + MetadataPromises(s, w.metadata))
               + ([ItemPromise(s, m.Item())] + (IllustrationPromises(s, w.illustrations) + MainPromises(w.mainPath)))
    ensures Promises(s, w)
            == (RedirectPromises(w.redirections) + MetadataPromises(s, w.metadata))
               + (IllustrationPromises(s, w.illustrations) + MainPromises(w.mainPath))
  {
    assert MetadataPromises(s, w.metadata + [m]) == MetadataPromises(s, w.metadata) + [ItemPromise(s, m.Item())];
  }

  lemma WithIllustration(s: Settings, w: Waiting, il: Illustration)
    ensures Promises(s, w.(illustrations := w.illustrations + [il]))
            == (RedirectPromises(w.redirections) + MetadataPromises(s, w.metadata) + IllustrationPromises(s, w.illustrations))
               + ([ItemPromise(s, il.Item())] + MainPromises(w.mainPath))
    ensures Promises(s, w)
            == (RedirectPromises(w.redirections) + MetadataPromises(s, w.metadata) + IllustrationPromises(s, w.illustrations))
               + MainPromises(w.mainPath)
  {
    assert IllustrationPromises(s, w.illustrations + [il]) == IllustrationPromises(s, w.illustrations) + [ItemPromise(s, il.Item())];
  }

  lemma WithMain(s: Settings, w: Waiting, p: Bytes)
    ensures var front := RedirectPromises(w.redirections) + MetadataPromises(s, w.metadata) + IllustrationPromises(s, w.illustrations);
      && Promises(s, w.(mainPath := Some(p))) == front + ([MainPromise(p)] + [])
      && Promises(s, w) == (if w.mainPath.Some? then front + ([MainPromise(w.mainPath.value)] + []) else front + [])
  {
    assert [MainPromise(p)] + [] == [MainPromise(p)];
    if w.mainPath.Some? {
      assert [MainPromise(w.mainPath.value)] + [] == [MainPromise(w.mainPath.value)];
    }
  }

  lemma FirstMetadata(s: Settings, w: Waiting)
    requires w.metadata != []
    ensures Promises(s, w)
            == RedirectPromises(w.redirections)
               + ([ItemPromise(s, w.metadata[0].Item())]
                  + (MetadataPromises(s, w.metadata[1..]) + (IllustrationPromises(s, w.illustrations) + MainPromises(w.mainPath))))
  {
    assert MetadataPromises(s, w.metadata) == [ItemPromise(s, w.metadata[0].Item())] + MetadataPromises(s, w.metadata[1..]);
  }

  lemma FirstIllustration(s: Settings, w: Waiting)
    requires w.illustrations != [] && w.metadata == []
    ensures Promises(s, w)
            == RedirectPromises(w.redirections)
               + ([ItemPromise(s, w.illustrations[0].Item())] + (IllustrationPromises(s, w.illustrations[1..]) + MainPromises(w.mainPath)))
    ensures Promises(s, w.(illustrations := w.illustrations[1..]))
            == RedirectPromises(w.redirections) + (IllustrationPromises(s, w.illustrations[1..]) + MainPromises(w.mainPath))
  {
    assert IllustrationPromises(s, w.illustrations)
        == [ItemPromise(s, w.illustrations[0].Item())] + IllustrationPromises(s, w.illustrations[1..]);
    assert MetadataPromises(s, w.metadata) == [];
  }

  // ---- Validation ----

  predicate Graphic(ns: byte) {
    33 <= ns <= 126
  }

  predicate ValidEntry(ns: byte, path: Bytes, title: Bytes) {
    Graphic(ns) && !HasControl(path) && !HasControl(title)
  }

  predicate ValidArticle(m: Meta) {
    ValidEntry(m.Namespace(), m.path, m.title) && ValidMime(m.mimetype)
  }

  /** The strings are UTF-8, as the source's string type guarantees. */
  predicate Utf8(m: Meta) {
    ValidUtf8(m.path) && ValidUtf8(m.title)
  }

  /** An article is accepted exactly when its namespace is a printable character, neither its path nor its title has a
      control character, and its type is `type/subtype` with parameters, in printable ASCII, and fits the list. */
  lemma ValidArticleExact(m: Meta, path: seq<nat>, title: seq<nat>)
    requires Scalars(path) && m.path == EncodeText(path) && Scalars(title) && m.title == EncodeText(title)
    ensures ValidArticle(m) <==>
            && 33 <= m.Namespace() <= 126
            && (forall i :: 0 <= i < |path| ==> !Control(path[i])) && (forall i :: 0 <= i < |title| ==> !Control(title[i]))
            && |m.mimetype| <= MIME_LIST_RESERVE - 2 && Printable(m.mimetype) && IsTyped(m.mimetype)
  {
    hide HasControl, EncodeText, Scalars, Control, ValidMime, Printable, IsTyped;
    HasControlExact(path);
    HasControlExact(title);
    ValidMimeExact(m.mimetype);
  }

  lemma ValidIsStorable(m: Meta)
    requires Utf8(m) && ValidArticle(m)
    ensures MetaOk(m)
  {
    NoControlNoNul(m.path);
    NoControlNoNul(m.title);
  }

  /** What waits has been validated. */
  ghost predicate ItemReady(item: Item) {
    MetaOk(item.meta) && Utf8(item.meta) && ValidArticle(item.meta)
  }

  ghost predicate Ready(w: Waiting) {
    && (forall i :: 0 <= i < |w.redirections| ==> Storable(w.redirections[i].path) && Storable(w.redirections[i].title))
    && (forall i :: 0 <= i < |w.metadata| ==> ItemReady(w.metadata[i].Item()))
    && (forall i :: 0 <= i < |w.illustrations| ==> ItemReady(w.illustrations[i].Item()))
  }

  /** Printable ASCII. */
  predicate Plain(s: Bytes) {
    forall i :: 0 <= i < |s| ==> 32 <= s[i] < 127
  }

  lemma PlainText(s: Bytes)
    requires Plain(s)
    ensures ValidUtf8(s) && !HasControl(s) && 0 !in s
  {
    AsciiIsUtf8(s);
  }

  lemma PlainConcat(a: Bytes, b: Bytes)
    requires Plain(a) && Plain(b)
    ensures Plain(a + b)
  {
  }

  lemma {:induction false} DecimalPlain(n: nat)
    ensures Plain(Decimal(n))
  {
    if n >= 10 {
      DecimalPlain(n / 10);
    }
  }

  lemma PathPlain(il: Illustration)
    ensures Plain(il.Path())
  {
    var stem, n := Ascii("Illustration_"), Decimal(il.side);
    DecimalPlain(il.side);
    assert Plain(stem) && Plain([120]) && Plain([64, 49]);
    hide Plain, Ascii, Decimal;
    PlainConcat(stem, n);
    PlainConcat(stem + n, [120]);
    PlainConcat(stem + n + [120], n);
    PlainConcat(stem + n + [120] + n, [64, 49]);
  }

  lemma PlainMetadata(name: Bytes, mimetype: Bytes, value: Bytes)
    requires Plain(name) && ValidMime(mimetype)
    ensures ItemReady(Packing.Item(Meta(Some(NS_METADATA), name, name, mimetype, None), value))
  {
    PlainText(name);
    hide ValidMime, ValidUtf8, HasControl;
  }

  lemma IllustrationReady(il: Illustration)
    ensures ItemReady(il.Item())
  {
    OwnTypesValid();
    PathPlain(il);
    PlainMetadata(il.Path(), IMAGE_PNG, il.png);
    hide *;
  }
}
