/** Bin-packing of accepted items into buckets and clusters, as functions on values, and the invariant it keeps. */
module Packing {
  import opened Outcome
  import opened Bytes
  import opened Text
  import opened Dirents
  import opened Clusters
  import opened Reader
  import opened Counting
  import opened MimeTypes
  import opened Layout
  import Pipeline

  datatype Strategy = Single | ByMime | ByExtension | ByFirstPathSegment

  datatype Settings = Settings(codec: Codec, compression: Compression, target: nat, threshold: nat, strategy: Strategy)

  datatype Meta = Meta(ns: Option<byte>, path: Bytes, title: Bytes, mimetype: Bytes, compress: Option<bool>) {
    function Namespace(): byte {
      if ns.Some? then ns.value else NS_CONTENT
    }

    function Key(): Key {
      Text.Key(Namespace(), path)
    }

    function Title(): Bytes {
      if title == [] then path else title
    }
  }

  datatype Item = Item(meta: Meta, content: Bytes)

  /** What a reader is to find under a key. */
  datatype Stored =
    | Body(title: Bytes, mime: Bytes, content: Bytes, comp: Compression)
    | Alias(title: Bytes, target: Key)

  datatype Pending = Pending(ns: byte, url: Bytes, title: Bytes, mimeIdx: nat, blobIdx: nat) {
    function Key(): Key {
      Text.Key(ns, url)
    }
  }

  datatype Bucket = Bucket(blobs: seq<Bytes>, size: nat, pending: seq<Pending>, comp: Compression)

  /** A chunked item between its begin and its end. The streaming variants have fed `fed` to the encoder, or
      written it behind the info byte of the scratch file. */
  datatype InFlight =
    | Buffered(meta: Meta, content: Bytes, expected: Option<nat>)
    | StreamingZstd(meta: Meta, fed: Bytes, clusterIdx: nat, written: nat, size: nat, mimeIdx: nat)
    | StreamingRaw(meta: Meta, fed: Bytes, clusterIdx: nat, written: nat, size: nat, mimeIdx: nat)

  /** A finished streamed item: its cluster slot and the bytes of its scratch file. */
  datatype Task = Task(clusterIdx: nat, result: Result<Bytes>)

  /** `plans[c]` is what cluster `c` holds, None while its item is still in flight. */
  datatype Draft = Draft(
    mimes: seq<Bytes>,
    buckets: map<Bytes, Bucket>,
    dirents: seq<RawDirent>,
    plans: seq<Option<Plan>>,
    jobs: seq<Pipeline.Job>,
    tasks: seq<Task>,
    inFlight: Option<InFlight>)

  // ---- Routing ----

  function EffectiveCompression(default: Compression, compress: Option<bool>, ns: Option<byte>): Compression {
    if ns == Some(NS_INDEX) || compress == Some(false) then Raw else default
  }

  function Tag(comp: Compression): byte {
    match comp case Raw => 110 case Zstd => 122 case Xz => 120
  }

  function Extension(path: Bytes): Bytes {
    match LastOf(path, 46)
    case Some(i) => if 47 in path[i + 1..] then [] else path[i + 1..]
    case None => []
  }

  function FirstSegment(path: Bytes): Bytes {
    match FirstOf(path, 47)
    case Some(i) => path[..i]
    case None => path
  }

  function BucketKey(strategy: Strategy, path: Bytes, mimetype: Bytes, comp: Compression): (key: Bytes)
    ensures |key| >= 1 && key[0] == Tag(comp)
  {
    [Tag(comp), 124]
    + match strategy
      case Single => []
      case ByMime => mimetype
      case ByExtension => Extension(path)
      case ByFirstPathSegment => FirstSegment(path)
  }

  // When two items share a bucket.

  /** The text behind the last dot, unless that dot is in a directory name. */
  ghost predicate HasExtension(path: Bytes, ext: Bytes) {
    if exists i :: LastDot(path, i) then exists i :: LastDot(path, i) && ext == (if 47 in path[i + 1..] then [] else path[i + 1..])
    else ext == []
  }

  ghost predicate LastDot(path: Bytes, i: int) {
    0 <= i < |path| && path[i] == 46 && 46 !in path[i + 1..]
  }

  /** The text in front of the first slash. */
  ghost predicate HasFirstSegment(path: Bytes, head: Bytes) {
    47 !in head && (path == head || exists rest :: path == head + [47] + rest)
  }

  lemma NotBehind(path: Bytes, i: nat, j: nat)
    requires i < |path| && j < |path| && path[j] == 46
    ensures i < j ==> 46 in path[i + 1..]
  {
    if i < j {
      assert path[i + 1..][j - i - 1] == 46;
    }
  }

  lemma ExtensionExact(path: Bytes, ext: Bytes)
    ensures Extension(path) == ext <==> HasExtension(path, ext)
  {
    match LastOf(path, 46) {
      case Some(n) =>
        assert LastDot(path, n);
        forall i | LastDot(path, i)
          ensures i == n
        {
          NotBehind(path, i, n);
          NotBehind(path, n, i);
        }
      case None =>
        forall i
          ensures !LastDot(path, i)
        {
          assert 0 <= i < |path| ==> path[i] in path;
        }
    }
  }

  lemma FirstSegmentExact(path: Bytes, head: Bytes)
    ensures FirstSegment(path) == head <==> HasFirstSegment(path, head)
  {
    var at := FirstOf(path, 47);
    assert at.Some? ==> path == path[..at.value] + [47] + path[at.value + 1..];
    if HasFirstSegment(path, head) {
      FirstBehind(head, 47, []);
      if rest :| path == head + [47] + rest {
        FirstBehind(head, 47, rest);
        assert path[..|head|] == head;
      }
    }
  }

  /** A body is stored uncompressed exactly when the caller says so, when it is an index blob, or when the writer stores
      everything so; otherwise it gets the writer's compression. */
  lemma CompressionExact(s: Settings, m: Meta)
    ensures (m.compress == Some(false) || m.ns == Some(NS_INDEX)) ==> CompOf(s, m) == Raw
    ensures m.compress != Some(false) && m.ns != Some(NS_INDEX) ==> CompOf(s, m) == s.compression
  {
  }

  /** Two items share a bucket exactly when they have the same compression and, by the strategy, any type and path, the
      same type, the same extension, or the same first path segment. */
  lemma SharedBucket(s: Settings, m: Meta, m': Meta)
    ensures KeyOf(s, m) == KeyOf(s, m') <==>
            && CompOf(s, m) == CompOf(s, m')
            && match s.strategy
               case Single => true
               case ByMime => m.mimetype == m'.mimetype
               case ByExtension => exists ext :: HasExtension(m.path, ext) && HasExtension(m'.path, ext)
               case ByFirstPathSegment => exists head :: HasFirstSegment(m.path, head) && HasFirstSegment(m'.path, head)
  {
    ExtensionExact(m.path, Extension(m.path));
    FirstSegmentExact(m.path, FirstSegment(m.path));
    forall t
      ensures (Extension(m.path) == t <==> HasExtension(m.path, t)) && (Extension(m'.path) == t <==> HasExtension(m'.path, t))
      ensures FirstSegment(m.path) == t <==> HasFirstSegment(m.path, t)
      ensures FirstSegment(m'.path) == t <==> HasFirstSegment(m'.path, t)
    {
      ExtensionExact(m.path, t);
      ExtensionExact(m'.path, t);
      FirstSegmentExact(m.path, t);
      FirstSegmentExact(m'.path, t);
    }
    hide Extension, FirstSegment, HasExtension, HasFirstSegment, CompOf;
    KeyParts(s, m);
    KeyParts(s, m');
  }

  /** What the strategy looks at. */
  function StrategyText(s: Settings, m: Meta): Bytes {
    match s.strategy
    case Single => []
    case ByMime => m.mimetype
    case ByExtension => Extension(m.path)
    case ByFirstPathSegment => FirstSegment(m.path)
  }

  lemma KeyParts(s: Settings, m: Meta)
    ensures KeyOf(s, m)[..1] == [Tag(CompOf(s, m))] && KeyOf(s, m)[2..] == StrategyText(s, m)
    ensures KeyOf(s, m) == [Tag(CompOf(s, m)), 124] + StrategyText(s, m)
  {
    hide Extension, FirstSegment, CompOf;
  }

  function KeyOf(s: Settings, m: Meta): Bytes {
    BucketKey(s.strategy, m.path, m.mimetype, CompOf(s, m))
  }

  function CompOf(s: Settings, m: Meta): Compression {
    EffectiveCompression(s.compression, m.compress, m.ns)
  }

  function BodyOf(s: Settings, m: Meta, content: Bytes): Stored {
    Body(m.Title(), m.mimetype, content, CompOf(s, m))
  }

  // ---- Flushing and pushing ----

  function Emptied(comp: Compression): Bucket {
    Bucket([], 0, [], comp)
  }

  function Commit(pending: seq<Pending>, cluster: nat): (s: seq<RawDirent>)
    ensures |s| == |pending|
  {
    seq(|pending|, i requires 0 <= i < |pending| =>
      Article(pending[i].ns, pending[i].url, pending[i].title, pending[i].mimeIdx, cluster, pending[i].blobIdx))
  }

  /** Gives the bucket the next cluster, commits its dirents and submits its blobs. */
  function Flush(d: Draft, key: Bytes): Draft {
    if key !in d.buckets then d
    else
      var b := d.buckets[key];
      if b.blobs == [] then d.(buckets := d.buckets[key := Emptied(b.comp)])
      else
        var idx := |d.plans|;
        d.(buckets := d.buckets[key := Emptied(b.comp)],
           dirents := d.dirents + Commit(b.pending, idx),
           plans := d.plans + [Some(Plan(b.blobs, b.comp))],
           jobs := d.jobs + [Pipeline.Job(idx, b.blobs, b.comp, |JoinAll(b.blobs)|)])
  }

  predicate NeedsFlush(s: Settings, d: Draft, key: Bytes, more: nat) {
    key in d.buckets && d.buckets[key].blobs != [] && d.buckets[key].size + more > s.target
  }

  function BucketOf(d: Draft, key: Bytes, comp: Compression): Bucket {
    if key in d.buckets then d.buckets[key] else Emptied(comp)
  }

  /** Flushes the bucket first when the body would push it over the target. */
  function MakeRoom(s: Settings, d: Draft, key: Bytes, more: nat): Draft {
    if NeedsFlush(s, d, key, more) then Flush(d, key) else d
  }

  /** Puts a body at the end of its bucket. */
  function Put(s: Settings, d: Draft, m: Meta, mimeIdx: nat, content: Bytes): Draft {
    var key := KeyOf(s, m);
    var b := BucketOf(d, key, CompOf(s, m));
    d.(buckets := d.buckets[key := Bucket(b.blobs + [content], b.size + |content|,
                                          b.pending + [Pending(m.Namespace(), m.path, m.Title(), mimeIdx, |b.blobs|)], b.comp)])
  }

  function Settle(s: Settings, d: Draft, key: Bytes): Draft {
    if key in d.buckets && d.buckets[key].size >= s.target then Flush(d, key) else d
  }

  /** `push_item` on a validated item. */
  function Push(s: Settings, d: Draft, item: Item): Result<Draft> {
    var m := item.meta;
    var interned :- Intern(d.mimes, m.mimetype);
    var ready := MakeRoom(s, d.(mimes := interned.0), KeyOf(s, m), |item.content|);
    Ok(Settle(s, Put(s, ready, m, interned.1, item.content), KeyOf(s, m)))
  }

  // ---- What is kept ----

  /** Where the dirent of an accepted item is. */
  datatype Loc = Committed(i: nat) | InBucket(key: Bytes, i: nat)

  /** The accepted items and where their dirents are. */
  datatype Record = Record(pushed: map<Key, Stored>, at: map<Key, Loc>)

  ghost predicate Lists(r: Record, k: Key, loc: Loc) {
    k in r.pushed && k in r.at && r.at[k] == loc
  }

  ghost predicate PlanHolds(plans: seq<Option<Plan>>, cluster: nat, blob: nat, content: Bytes, comp: Compression) {
    && cluster < |plans| && plans[cluster].Some?
    && blob < |plans[cluster].value.blobs| && plans[cluster].value.blobs[blob] == content
    && plans[cluster].value.comp == comp
  }

  /** The dirent designates exactly the body, type and title of what was accepted. */
  ghost predicate ArticleFits(mimes: seq<Bytes>, plans: seq<Option<Plan>>, st: Stored, a: RawDirent) {
    && a.Article? && st.Body? && a.title == st.title
    && a.mimeIdx < |mimes| && mimes[a.mimeIdx] == st.mime
    && PlanHolds(plans, a.cluster, a.blob, st.content, st.comp)
  }

  ghost predicate CommittedOk(d: Draft, r: Record, i: nat)
    requires i < |d.dirents|
  {
    && Lists(r, d.dirents[i].Key(), Committed(i))
    && ArticleFits(d.mimes, d.plans, r.pushed[d.dirents[i].Key()], d.dirents[i])
  }

  ghost predicate PendingOk(mimes: seq<Bytes>, r: Record, key: Bytes, b: Bucket, i: nat)
    requires i < |b.pending| && |b.pending| == |b.blobs|
  {
    var p := b.pending[i];
    && Lists(r, p.Key(), InBucket(key, i))
    && p.blobIdx == i && p.mimeIdx < |mimes|
    && r.pushed[p.Key()] == Body(p.title, mimes[p.mimeIdx], b.blobs[i], b.comp)
  }

  /** A bucket holds one compression, and no more than the target unless it holds a single blob. */
  ghost predicate BucketOk(s: Settings, mimes: seq<Bytes>, r: Record, key: Bytes, b: Bucket) {
    && |b.pending| == |b.blobs| && b.size == |JoinAll(b.blobs)|
    && |key| >= 1 && key[0] == Tag(b.comp)
    && (|b.blobs| > 1 ==> b.size <= s.target)
    && forall i: nat :: i < |b.pending| ==> PendingOk(mimes, r, key, b, i)
  }

  ghost predicate Located(d: Draft, r: Record, k: Key) {
    && k in r.pushed && k in r.at
    && match r.at[k]
       case Committed(i) => i < |d.dirents| && d.dirents[i].Key() == k
       case InBucket(key, i) => key in d.buckets && i < |d.buckets[key].pending| && d.buckets[key].pending[i].Key() == k
  }

  ghost predicate StoredOk(k: Key, st: Stored) {
    Storable(k.text) && Storable(st.title) && (st.title == [] ==> k.text == [])
  }

  /** A cluster is a single blob or within the target, and has at most `n` blobs. */
  ghost predicate PlanSized(s: Settings, p: Option<Plan>, n: nat) {
    p.Some? ==> p.value.blobs != [] && (|p.value.blobs| > 1 ==> |JoinAll(p.value.blobs)| <= s.target) && |p.value.blobs| <= n
  }

  ghost predicate RecordsOk(d: Draft, r: Record) {
    && r.pushed.Keys == r.at.Keys
    && (forall k :: k in r.pushed ==> Located(d, r, k))
    && (forall k :: k in r.pushed ==> StoredOk(k, r.pushed[k]))
  }

  ghost predicate DirentsFit(d: Draft, r: Record) {
    forall i: nat :: i < |d.dirents| ==> CommittedOk(d, r, i)
  }

  ghost predicate BucketsFit(s: Settings, d: Draft, r: Record) {
    forall key :: key in d.buckets ==> BucketOk(s, d.mimes, r, key, d.buckets[key])
  }

  ghost predicate PlansFit(s: Settings, d: Draft) {
    forall c :: 0 <= c < |d.plans| ==> PlanSized(s, d.plans[c], |d.dirents|)
  }

  // Every cluster slot is filled once: by a submitted job or by a finished streamed item.

  function Slots(d: Draft): (s: seq<nat>)
    ensures |s| == |d.jobs| + |d.tasks|
  {
    seq(|d.jobs|, i requires 0 <= i < |d.jobs| => d.jobs[i].idx)
    + seq(|d.tasks|, i requires 0 <= i < |d.tasks| => d.tasks[i].clusterIdx)
  }

  ghost predicate JobFits(plans: seq<Option<Plan>>, j: Pipeline.Job) {
    j.idx < |plans| && plans[j.idx] == Some(Plan(j.blobs, j.comp))
  }

  ghost predicate TaskFits(codec: Codec, plans: seq<Option<Plan>>, t: Task) {
    && t.clusterIdx < |plans| && plans[t.clusterIdx].Some?
    && (t.result.Ok? ==>
          EncodingOf(codec, t.result.value, plans[t.clusterIdx].value.blobs, plans[t.clusterIdx].value.comp))
  }

  ghost predicate SlotsOk(s: Settings, d: Draft) {
    && Distinct(Slots(d))
    && (forall i :: 0 <= i < |d.jobs| ==> JobFits(d.plans, d.jobs[i]))
    && (forall i :: 0 <= i < |d.tasks| ==> TaskFits(s.codec, d.plans, d.tasks[i]))
    && (forall i, j :: 0 <= i < j < |d.tasks| ==> d.tasks[i].clusterIdx < d.tasks[j].clusterIdx)
    && (forall c: nat :: c < |d.plans| && d.plans[c].Some? ==> c in Slots(d))
  }

  /** The slot an item in flight has reserved. */
  function OpenSlot(d: Draft): Option<nat> {
    if d.inFlight.Some? && !d.inFlight.value.Buffered? then Some(d.inFlight.value.clusterIdx) else None
  }

  ghost predicate Streaming(s: Settings, d: Draft, f: InFlight, raw: bool)
    requires !f.Buffered?
  {
    && f.written <= f.size && f.mimeIdx < |d.mimes| && d.mimes[f.mimeIdx] == f.meta.mimetype
    && (forall i :: 0 <= i < |d.tasks| ==> d.tasks[i].clusterIdx < f.clusterIdx)
    && |StreamHeader(f.size)| + f.written == |f.fed| && StreamHeader(f.size) <= f.fed
    && CompOf(s, f.meta) == (if raw then Raw else Zstd)
  }

  ghost predicate MetaOk(m: Meta) {
    Storable(m.path) && Storable(m.title) && ValidMime(m.mimetype)
  }

  ghost predicate InFlightOk(s: Settings, d: Draft) {
    && (forall c: nat :: c < |d.plans| ==> (d.plans[c].None? <==> OpenSlot(d) == Some(c)))
    && (OpenSlot(d).Some? ==> OpenSlot(d).value < |d.plans|)
    && (match d.inFlight
        case None => true
        case Some(Buffered(m, content, expected)) => MetaOk(m) && (expected.Some? ==> |content| <= expected.value)
        case Some(f) => MetaOk(f.meta) && Streaming(s, d, f, f.StreamingRaw?))
  }

  /** Some accepted item has this body, compressed this way. */
  ghost predicate Brought(pushed: map<Key, Stored>, content: Bytes, comp: Compression) {
    exists k :: k in pushed && pushed[k].Body? && pushed[k].content == content && pushed[k].comp == comp
  }

  ghost predicate MadeOf(pushed: map<Key, Stored>, blobs: seq<Bytes>, comp: Compression) {
    forall i :: 0 <= i < |blobs| ==> Brought(pushed, blobs[i], comp)
  }

  /** No cluster holds anything but accepted bodies. */
  ghost predicate PlansKnown(plans: seq<Option<Plan>>, pushed: map<Key, Stored>) {
    forall c :: 0 <= c < |plans| && plans[c].Some? ==> MadeOf(pushed, plans[c].value.blobs, plans[c].value.comp)
  }

  /** The streamer invariant. */
  ghost predicate Faithful(s: Settings, d: Draft, r: Record) {
    RecordsOk(d, r) && DirentsFit(d, r) && BucketsFit(s, d, r) && PlansFit(s, d) && SlotsOk(s, d) && InFlightOk(s, d)
    && GoodList(d.mimes) && PlansKnown(d.plans, r.pushed)
  }

  lemma StillBrought(pushed: map<Key, Stored>, pushed': map<Key, Stored>, content: Bytes, comp: Compression)
    requires Brought(pushed, content, comp) && forall k :: k in pushed ==> k in pushed' && pushed'[k] == pushed[k]
    ensures Brought(pushed', content, comp)
  {
    var k :| k in pushed && pushed[k].Body? && pushed[k].content == content && pushed[k].comp == comp;
    assert k in pushed';
  }

  lemma StillMadeOf(pushed: map<Key, Stored>, pushed': map<Key, Stored>, blobs: seq<Bytes>, comp: Compression)
    requires MadeOf(pushed, blobs, comp) && forall k :: k in pushed ==> k in pushed' && pushed'[k] == pushed[k]
    ensures MadeOf(pushed', blobs, comp)
  {
    hide Brought;
    forall i | 0 <= i < |blobs|
      ensures Brought(pushed', blobs[i], comp)
    {
      StillBrought(pushed, pushed', blobs[i], comp);
    }
  }

  lemma OneMade(pushed: map<Key, Stored>, k: Key)
    requires k in pushed && pushed[k].Body?
    ensures MadeOf(pushed, [pushed[k].content], pushed[k].comp)
  {
    assert Brought(pushed, pushed[k].content, pushed[k].comp);
  }

  /** Accepting one more item. */
  lemma StillKnown(plans: seq<Option<Plan>>, pushed: map<Key, Stored>, k: Key, st: Stored)
    requires PlansKnown(plans, pushed) && k !in pushed
    ensures PlansKnown(plans, pushed[k := st])
  {
    hide MadeOf;
    forall c | 0 <= c < |plans| && plans[c].Some?
      ensures MadeOf(pushed[k := st], plans[c].value.blobs, plans[c].value.comp)
    {
      StillMadeOf(pushed, pushed[k := st], plans[c].value.blobs, plans[c].value.comp);
    }
  }

  const EMPTY_DRAFT: Draft := Draft([], map[], [], [], [], [], None)

  lemma EmptyFaithful(s: Settings)
    ensures Faithful(s, EMPTY_DRAFT, Record(map[], map[]))
  {
    hide CommittedOk, BucketOk, PlanSized, JobFits, TaskFits, Located, StoredOk, MadeOf, Streaming, ValidMime, MetaOk;
    assert ListLen([]) == 0;
  }

  // ---- Flush ----

  /** The pending dirents of `key` become dirents `n`, `n + 1`, ... */
  ghost function Promoted(loc: Loc, key: Bytes, n: nat): Loc {
    if loc.InBucket? && loc.key == key then Committed(n + loc.i) else loc
  }

  ghost function Relocated(r: Record, key: Bytes, n: nat): Record {
    Record(r.pushed, map k | k in r.at :: Promoted(r.at[k], key, n))
  }

  predicate Flushable(d: Draft, key: Bytes) {
    key in d.buckets && d.buckets[key].blobs != []
  }

  lemma FlushDirents(s: Settings, d: Draft, r: Record, key: Bytes)
    requires DirentsFit(d, r) && BucketsFit(s, d, r) && Flushable(d, key)
    ensures DirentsFit(Flush(d, key), Relocated(r, key, |d.dirents|))
  {
    var b, n := d.buckets[key], |d.dirents|;
    var d', r' := Flush(d, key), Relocated(r, key, n);
    assert BucketOk(s, d.mimes, r, key, b);
    forall i: nat | i < |d'.dirents|
      ensures CommittedOk(d', r', i)
    {
      if i < n {
        assert CommittedOk(d, r, i);
        assert d'.dirents[i] == d.dirents[i];
      } else {
        assert PendingOk(d.mimes, r, key, b, i - n);
        assert d'.dirents[i] == Commit(b.pending, |d.plans|)[i - n];
      }
    }
  }

  lemma FlushBuckets(s: Settings, d: Draft, r: Record, key: Bytes)
    requires BucketsFit(s, d, r) && Flushable(d, key)
    ensures BucketsFit(s, Flush(d, key), Relocated(r, key, |d.dirents|))
  {
    var d', r' := Flush(d, key), Relocated(r, key, |d.dirents|);
    forall k | k in d'.buckets
      ensures BucketOk(s, d'.mimes, r', k, d'.buckets[k])
    {
      assert BucketOk(s, d.mimes, r, k, d.buckets[k]);
      if k != key {
        forall i: nat | i < |d.buckets[k].pending|
          ensures PendingOk(d.mimes, r', k, d.buckets[k], i)
        {
          assert PendingOk(d.mimes, r, k, d.buckets[k], i);
        }
      }
    }
  }

  lemma FlushLocated(d: Draft, r: Record, key: Bytes, k: Key)
    requires Located(d, r, k) && Flushable(d, key)
    ensures Located(Flush(d, key), Relocated(r, key, |d.dirents|), k)
  {
    var d' := Flush(d, key);
    if r.at[k].InBucket? && r.at[k].key == key {
      var i := r.at[k].i;
      assert d'.dirents[|d.dirents| + i] == Commit(d.buckets[key].pending, |d.plans|)[i];
    }
  }

  lemma FlushRecords(d: Draft, r: Record, key: Bytes)
    requires RecordsOk(d, r) && Flushable(d, key)
    ensures RecordsOk(Flush(d, key), Relocated(r, key, |d.dirents|))
  {
    hide Located, StoredOk, Flush, Flushable, Promoted;
    forall k | k in r.pushed
      ensures Located(Flush(d, key), Relocated(r, key, |d.dirents|), k)
    {
      FlushLocated(d, r, key, k);
    }
  }

  lemma SlotsBelow(s: Settings, d: Draft)
    requires SlotsOk(s, d)
    ensures forall c :: c in Slots(d) ==> c < |d.plans| && d.plans[c].Some?
  {
    hide EncodingOf;
    forall c | c in Slots(d)
      ensures c < |d.plans| && d.plans[c].Some?
    {
      var i :| 0 <= i < |Slots(d)| && Slots(d)[i] == c;
      assert i < |d.jobs| ==> JobFits(d.plans, d.jobs[i]);
      assert i >= |d.jobs| ==> TaskFits(s.codec, d.plans, d.tasks[i - |d.jobs|]);
    }
  }

  /** A submitted cluster takes the next slot. */
  function Submit(d: Draft, blobs: seq<Bytes>, comp: Compression): Draft {
    d.(plans := d.plans + [Some(Plan(blobs, comp))],
       jobs := d.jobs + [Pipeline.Job(|d.plans|, blobs, comp, |JoinAll(blobs)|)])
  }

  lemma SubmitSlots(s: Settings, d: Draft, blobs: seq<Bytes>, comp: Compression)
    requires SlotsOk(s, d)
    ensures SlotsOk(s, Submit(d, blobs, comp))
  {
    var d' := Submit(d, blobs, comp);
    SlotsBelow(s, d);
    SlotAdded(d, d', |d.plans|);
    hide EncodingOf, Slots, Join, Distinct;
    assert forall c: nat :: c < |d.plans| ==> d'.plans[c] == d.plans[c];
    assert forall i :: 0 <= i < |d.jobs| ==> JobFits(d.plans, d.jobs[i]);
    assert forall i :: 0 <= i < |d.tasks| ==> TaskFits(s.codec, d.plans, d.tasks[i]);
  }

  lemma SubmitInFlight(s: Settings, d: Draft, blobs: seq<Bytes>, comp: Compression)
    requires InFlightOk(s, d)
    ensures InFlightOk(s, Submit(d, blobs, comp))
  {
    hide MetaOk, StreamHeader;
    assert forall c: nat :: c < |d.plans| ==> Submit(d, blobs, comp).plans[c] == d.plans[c];
  }

  lemma FlushSlots(s: Settings, d: Draft, key: Bytes)
    requires SlotsOk(s, d) && InFlightOk(s, d) && Flushable(d, key)
    ensures SlotsOk(s, Flush(d, key)) && InFlightOk(s, Flush(d, key))
  {
    var b := d.buckets[key];
    SubmitSlots(s, d, b.blobs, b.comp);
    SubmitInFlight(s, d, b.blobs, b.comp);
    SlotsDepend(s, Submit(d, b.blobs, b.comp), Flush(d, key));
  }

  /** The slots concern neither the buckets nor the dirents. */
  lemma SlotsDepend(s: Settings, d: Draft, d': Draft)
    requires d'.plans == d.plans && d'.jobs == d.jobs && d'.tasks == d.tasks && d'.inFlight == d.inFlight && d.mimes <= d'.mimes
    ensures Slots(d') == Slots(d)
    ensures SlotsOk(s, d) ==> SlotsOk(s, d')
    ensures InFlightOk(s, d) ==> InFlightOk(s, d')
  {
    hide EncodingOf, MetaOk, StreamHeader, Distinct;
  }

  /** Submitting a job for a fresh slot. */
  lemma SlotAdded(d: Draft, d': Draft, idx: nat)
    requires Distinct(Slots(d)) && idx !in Slots(d)
    requires d'.tasks == d.tasks && |d'.jobs| == |d.jobs| + 1 && d'.jobs[..|d.jobs|] == d.jobs && d'.jobs[|d.jobs|].idx == idx
    ensures Distinct(Slots(d')) && forall c :: c in Slots(d') <==> c in Slots(d) || c == idx
  {
    var n := |d.jobs|;
    assert forall i :: 0 <= i < n ==> d'.jobs[i] == d.jobs[i];
    assert Slots(d') == Slots(d)[..n] + [idx] + Slots(d)[n..];
    InsertDistinct(Slots(d)[..n], Slots(d)[n..], idx);
    assert Slots(d) == Slots(d)[..n] + Slots(d)[n..];
  }

  lemma InsertDistinct<T>(a: seq<T>, b: seq<T>, x: T)
    requires Distinct(a + b) && x !in a + b
    ensures Distinct(a + [x] + b)
    ensures forall y :: y in a + [x] + b <==> y in a + b || y == x
  {
    var s, t := a + b, a + [x] + b;
    forall i, j | 0 <= i < j < |t|
      ensures t[i] != t[j]
    {
      var i' := if i > |a| then i - 1 else i;
      var j' := if j > |a| then j - 1 else j;
      assert i != |a| ==> t[i] == s[i'];
      assert j != |a| ==> t[j] == s[j'];
    }
  }

  /** Flushing a bucket gives its dirents a cluster that holds exactly their bodies. */
  lemma FlushKeeps(s: Settings, d: Draft, r: Record, key: Bytes) returns (r': Record)
    requires Faithful(s, d, r)
    ensures r'.pushed == r.pushed && Faithful(s, Flush(d, key), r')
  {
    if Flushable(d, key) {
      r' := Relocated(r, key, |d.dirents|);
      FlushDirents(s, d, r, key);
      FlushBuckets(s, d, r, key);
      FlushRecords(d, r, key);
      FlushSlots(s, d, key);
      FlushPlans(s, d, r, key);
      FlushKnown(s, d, r, key);
      hide RecordsOk, DirentsFit, BucketsFit, PlansFit, SlotsOk, InFlightOk, PlansKnown, GoodList;
    } else {
      r' := r;
      FlushNothing(s, d, r, key);
    }
  }

  lemma FlushPlans(s: Settings, d: Draft, r: Record, key: Bytes)
    requires PlansFit(s, d) && BucketsFit(s, d, r) && Flushable(d, key)
    ensures PlansFit(s, Flush(d, key))
  {
    hide Join, PendingOk;
    assert BucketOk(s, d.mimes, r, key, d.buckets[key]);
  }

  /** The bodies of a bucket are the bodies of its pending items. */
  lemma FlushKnown(s: Settings, d: Draft, r: Record, key: Bytes)
    requires PlansKnown(d.plans, r.pushed) && BucketsFit(s, d, r) && Flushable(d, key)
    ensures PlansKnown(Flush(d, key).plans, r.pushed)
  {
    var b := d.buckets[key];
    assert BucketOk(s, d.mimes, r, key, b);
    hide Join;
    forall i | 0 <= i < |b.blobs|
      ensures Brought(r.pushed, b.blobs[i], b.comp)
    {
      assert PendingOk(d.mimes, r, key, b, i);
      assert r.pushed[b.pending[i].Key()].Body?;
    }
    assert MadeOf(r.pushed, b.blobs, b.comp);
  }

  lemma FlushNothing(s: Settings, d: Draft, r: Record, key: Bytes)
    requires BucketsFit(s, d, r) && !Flushable(d, key)
    ensures Flush(d, key) == d
  {
    if key in d.buckets {
      assert BucketOk(s, d.mimes, r, key, d.buckets[key]);
      assert d.buckets[key] == Emptied(d.buckets[key].comp);
    }
  }

  // ---- Push ----

  lemma InternDirents(d: Draft, r: Record, mimes: seq<Bytes>)
    requires DirentsFit(d, r) && d.mimes <= mimes
    ensures DirentsFit(d.(mimes := mimes), r)
  {
    hide PlanHolds;
    forall i: nat | i < |d.dirents|
      ensures CommittedOk(d.(mimes := mimes), r, i)
    {
      assert CommittedOk(d, r, i);
    }
  }

  lemma InternBuckets(s: Settings, d: Draft, r: Record, mimes: seq<Bytes>)
    requires BucketsFit(s, d, r) && d.mimes <= mimes
    ensures BucketsFit(s, d.(mimes := mimes), r)
  {
    hide Join, Lists;
    forall k | k in d.buckets
      ensures BucketOk(s, mimes, r, k, d.buckets[k])
    {
      assert BucketOk(s, d.mimes, r, k, d.buckets[k]);
      forall i: nat | i < |d.buckets[k].pending|
        ensures PendingOk(mimes, r, k, d.buckets[k], i)
      {
        assert PendingOk(d.mimes, r, k, d.buckets[k], i);
      }
    }
  }

  lemma InternRecords(d: Draft, r: Record, mimes: seq<Bytes>)
    requires RecordsOk(d, r)
    ensures RecordsOk(d.(mimes := mimes), r)
  {
    hide StoredOk;
    forall k | k in r.pushed
      ensures Located(d.(mimes := mimes), r, k)
    {
      assert Located(d, r, k);
    }
  }

  lemma InternDraft(s: Settings, d: Draft, r: Record, mimes: seq<Bytes>)
    requires Faithful(s, d, r) && d.mimes <= mimes && GoodList(mimes)
    ensures Faithful(s, d.(mimes := mimes), r)
  {
    SlotsDepend(s, d, d.(mimes := mimes));
    InternDirents(d, r, mimes);
    InternBuckets(s, d, r, mimes);
    InternRecords(d, r, mimes);
    hide RecordsOk, DirentsFit, BucketsFit, SlotsOk, InFlightOk, GoodList, PlansKnown;
  }

  ghost function Recorded(r: Record, k: Key, st: Stored, loc: Loc): Record {
    Record(r.pushed[k := st], r.at[k := loc])
  }

  lemma PutDirents(d: Draft, d': Draft, r: Record, k: Key, st: Stored, loc: Loc)
    requires DirentsFit(d, r) && k !in r.pushed
    requires d'.dirents == d.dirents && d'.mimes == d.mimes && d'.plans == d.plans
    ensures DirentsFit(d', Recorded(r, k, st, loc))
  {
    hide PlanHolds;
    forall i: nat | i < |d'.dirents|
      ensures CommittedOk(d', Recorded(r, k, st, loc), i)
    {
      assert CommittedOk(d, r, i);
    }
  }

  lemma PendingStays(mimes: seq<Bytes>, r: Record, key: Bytes, b: Bucket, b': Bucket, i: nat, k: Key, st: Stored, loc: Loc)
    requires |b.pending| == |b.blobs| && |b'.pending| == |b'.blobs| && i < |b.pending| && i < |b'.pending|
    requires PendingOk(mimes, r, key, b, i) && k !in r.pushed
    requires b'.pending[i] == b.pending[i] && b'.blobs[i] == b.blobs[i] && b'.comp == b.comp
    ensures PendingOk(mimes, Recorded(r, k, st, loc), key, b', i)
  {
  }

  lemma PutBucket(s: Settings, d: Draft, r: Record, m: Meta, mimeIdx: nat, content: Bytes)
    requires BucketsFit(s, d, r) && m.Key() !in r.pushed && mimeIdx < |d.mimes| && d.mimes[mimeIdx] == m.mimetype
    requires !NeedsFlush(s, d, KeyOf(s, m), |content|)
    ensures var b := BucketOf(d, KeyOf(s, m), CompOf(s, m));
      BucketOk(s, d.mimes, Recorded(r, m.Key(), BodyOf(s, m, content), InBucket(KeyOf(s, m), |b.blobs|)), KeyOf(s, m),
               Put(s, d, m, mimeIdx, content).buckets[KeyOf(s, m)])
  {
    var key := KeyOf(s, m);
    var b := BucketOf(d, key, CompOf(s, m));
    var b' := Put(s, d, m, mimeIdx, content).buckets[key];
    var loc := InBucket(key, |b.blobs|);
    var r' := Recorded(r, m.Key(), BodyOf(s, m, content), loc);
    if key in d.buckets {
      assert BucketOk(s, d.mimes, r, key, b);
    }
    JoinAppend(b.blobs, content);
    hide Join, BucketKey, EffectiveCompression;
    assert b.comp == CompOf(s, m);
    forall i: nat | i < |b'.pending|
      ensures PendingOk(d.mimes, r', key, b', i)
    {
      if i < |b.pending| {
        assert PendingOk(d.mimes, r, key, b, i);
        PendingStays(d.mimes, r, key, b, b', i, m.Key(), BodyOf(s, m, content), loc);
      }
    }
  }

  lemma PutBuckets(s: Settings, d: Draft, r: Record, m: Meta, mimeIdx: nat, content: Bytes)
    requires BucketsFit(s, d, r) && m.Key() !in r.pushed && mimeIdx < |d.mimes| && d.mimes[mimeIdx] == m.mimetype
    requires !NeedsFlush(s, d, KeyOf(s, m), |content|)
    ensures var b := BucketOf(d, KeyOf(s, m), CompOf(s, m));
      BucketsFit(s, Put(s, d, m, mimeIdx, content),
                 Recorded(r, m.Key(), BodyOf(s, m, content), InBucket(KeyOf(s, m), |b.blobs|)))
  {
    PutBucket(s, d, r, m, mimeIdx, content);
    var key := KeyOf(s, m);
    var loc := InBucket(key, |BucketOf(d, key, CompOf(s, m)).blobs|);
    var d' := Put(s, d, m, mimeIdx, content);
    var r' := Recorded(r, m.Key(), BodyOf(s, m, content), loc);
    hide Recorded, BodyOf, PendingOk, Join;
    forall k | k in d'.buckets
      ensures BucketOk(s, d'.mimes, r', k, d'.buckets[k])
    {
      if k != key {
        assert BucketOk(s, d.mimes, r, k, d.buckets[k]);
        forall i: nat | i < |d.buckets[k].pending|
          ensures PendingOk(d.mimes, r', k, d.buckets[k], i)
        {
          PendingStays(d.mimes, r, k, d.buckets[k], d.buckets[k], i, m.Key(), BodyOf(s, m, content), loc);
        }
      }
    }
  }

  lemma PutLocated(s: Settings, d: Draft, r: Record, m: Meta, mimeIdx: nat, content: Bytes, st: Stored, k: Key)
    requires BucketsFit(s, d, r) && (k == m.Key() || Located(d, r, k))
    ensures var b := BucketOf(d, KeyOf(s, m), CompOf(s, m));
      Located(Put(s, d, m, mimeIdx, content), Recorded(r, m.Key(), st, InBucket(KeyOf(s, m), |b.blobs|)), k)
  {
    var key := KeyOf(s, m);
    var b := BucketOf(d, key, CompOf(s, m));
    if key in d.buckets {
      assert BucketOk(s, d.mimes, r, key, b);
    }
    hide BucketsFit, KeyOf, CompOf, PendingOk, Join;
    assert Put(s, d, m, mimeIdx, content).buckets[key].pending[|b.blobs|].Key() == m.Key();
  }

  lemma PutRecords(s: Settings, d: Draft, r: Record, m: Meta, mimeIdx: nat, content: Bytes)
    requires RecordsOk(d, r) && BucketsFit(s, d, r) && m.Key() !in r.pushed && MetaOk(m)
    ensures var b := BucketOf(d, KeyOf(s, m), CompOf(s, m));
      RecordsOk(Put(s, d, m, mimeIdx, content),
                Recorded(r, m.Key(), BodyOf(s, m, content), InBucket(KeyOf(s, m), |b.blobs|)))
  {
    var st := BodyOf(s, m, content);
    var r' := Recorded(r, m.Key(), st, InBucket(KeyOf(s, m), |BucketOf(d, KeyOf(s, m), CompOf(s, m)).blobs|));
    assert StoredOk(m.Key(), st);
    hide BucketsFit, Put, KeyOf, CompOf, BodyOf, StoredOk, MetaOk, BucketOf, Located;
    forall k | k in r'.pushed
      ensures Located(Put(s, d, m, mimeIdx, content), r', k) && StoredOk(k, r'.pushed[k])
    {
      PutLocated(s, d, r, m, mimeIdx, content, st, k);
    }
  }

  /** A body put into a bucket it fits into is designated by its pending dirent. */
  lemma PutKeeps(s: Settings, d: Draft, r: Record, m: Meta, mimeIdx: nat, content: Bytes) returns (r': Record)
    requires Faithful(s, d, r) && m.Key() !in r.pushed && MetaOk(m)
    requires mimeIdx < |d.mimes| && d.mimes[mimeIdx] == m.mimetype
    requires !NeedsFlush(s, d, KeyOf(s, m), |content|)
    ensures r'.pushed == r.pushed[m.Key() := BodyOf(s, m, content)]
    ensures Faithful(s, Put(s, d, m, mimeIdx, content), r')
  {
    var loc := InBucket(KeyOf(s, m), |BucketOf(d, KeyOf(s, m), CompOf(s, m)).blobs|);
    var d' := Put(s, d, m, mimeIdx, content);
    r' := Recorded(r, m.Key(), BodyOf(s, m, content), loc);
    PutDirents(d, d', r, m.Key(), BodyOf(s, m, content), loc);
    PutBuckets(s, d, r, m, mimeIdx, content);
    PutRecords(s, d, r, m, mimeIdx, content);
    SlotsDepend(s, d, d');
    StillKnown(d.plans, r.pushed, m.Key(), BodyOf(s, m, content));
    hide RecordsOk, DirentsFit, BucketsFit, SlotsOk, InFlightOk, GoodList, PlansKnown, BodyOf, KeyOf, CompOf, BucketOf;
  }

  lemma MakeRoomKeeps(s: Settings, d: Draft, r: Record, key: Bytes, more: nat) returns (r': Record)
    requires Faithful(s, d, r)
    ensures var d' := MakeRoom(s, d, key, more); r'.pushed == r.pushed && Faithful(s, d', r') && d'.mimes == d.mimes
    ensures !NeedsFlush(s, MakeRoom(s, d, key, more), key, more)
  {
    hide Faithful;
    r' := r;
    if NeedsFlush(s, d, key, more) {
      r' := FlushKeeps(s, d, r, key);
      FlushFrame(d, key);
      hide Flush;
    }
  }

  lemma SettleKeeps(s: Settings, d: Draft, r: Record, key: Bytes) returns (r': Record)
    requires Faithful(s, d, r)
    ensures r'.pushed == r.pushed && Faithful(s, Settle(s, d, key), r')
  {
    hide Faithful, Flush;
    r' := r;
    if key in d.buckets && d.buckets[key].size >= s.target {
      r' := FlushKeeps(s, d, r, key);
    }
  }

  /** Pushing an item records exactly its body, title and type under its key, and keeps everything else. */
  lemma PushKeeps(s: Settings, d: Draft, r: Record, item: Item) returns (r': Record)
    requires Faithful(s, d, r) && item.meta.Key() !in r.pushed && MetaOk(item.meta)
    requires Push(s, d, item).Ok?
    ensures r'.pushed == r.pushed[item.meta.Key() := BodyOf(s, item.meta, item.content)]
    ensures Faithful(s, Push(s, d, item).value, r')
  {
    var m := item.meta;
    var key := KeyOf(s, m);
    assert GoodList(d.mimes);
    InternKeeps(d.mimes, m.mimetype);
    var interned := Intern(d.mimes, m.mimetype).value;
    hide Faithful, Intern, KeyOf, BodyOf, MakeRoom, Put, Settle, NeedsFlush, GoodList;
    InternDraft(s, d, r, interned.0);
    var d1 := d.(mimes := interned.0);
    var r1 := MakeRoomKeeps(s, d1, r, key, |item.content|);
    var d2 := MakeRoom(s, d1, key, |item.content|);
    var r2 := PutKeeps(s, d2, r1, m, interned.1, item.content);
    r' := SettleKeeps(s, Put(s, d2, m, interned.1, item.content), r2, key);
  }

  lemma FlushFrame(d: Draft, key: Bytes)
    ensures var d' := Flush(d, key); d'.mimes == d.mimes && d'.inFlight == d.inFlight && d'.tasks == d.tasks
    ensures forall k :: k in Flush(d, key).buckets <==> k in d.buckets
    ensures forall k :: k in d.buckets && k != key ==> Flush(d, key).buckets[k] == d.buckets[k]
    ensures key in d.buckets ==> Flush(d, key).buckets[key].blobs == []
  {
  }

  /** A push fails only for a type that does not fit the list, and adds to the list only that type. */
  lemma PushMimes(s: Settings, d: Draft, item: Item)
    ensures Push(s, d, item).Ok? <==> Intern(d.mimes, item.meta.mimetype).Ok?
    ensures Push(s, d, item).Ok? ==> Push(s, d, item).value.mimes == Intern(d.mimes, item.meta.mimetype).value.0
  {
    if Intern(d.mimes, item.meta.mimetype).Ok? {
      var interned := Intern(d.mimes, item.meta.mimetype).value;
      var key := KeyOf(s, item.meta);
      var d1 := d.(mimes := interned.0);
      FlushFrame(d1, key);
      var d2 := MakeRoom(s, d1, key, |item.content|);
      FlushFrame(Put(s, d2, item.meta, interned.1, item.content), key);
      hide Flush, Intern, KeyOf, CompOf, NeedsFlush;
    }
  }

  function OpenBlobs(s: Settings, d: Draft, m: Meta): seq<Bytes> {
    BucketOf(d, KeyOf(s, m), CompOf(s, m)).blobs
  }

  /** The body does not fit behind what its bucket holds already. */
  predicate Crowded(s: Settings, d: Draft, item: Item) {
    var open := OpenBlobs(s, d, item.meta);
    open != [] && |JoinAll(open)| + |item.content| > s.target
  }

  /** What its bucket holds once the body is in. */
  function WithBody(s: Settings, d: Draft, item: Item): seq<Bytes> {
    (if Crowded(s, d, item) then [] else OpenBlobs(s, d, item.meta)) + [item.content]
  }

  ghost predicate Closes(d: Draft, d': Draft, blobs: seq<Bytes>) {
    |d'.jobs| == |d.jobs| + 1 && d.jobs <= d'.jobs && d'.jobs[|d.jobs|].blobs == blobs
  }

  /** Clusters are closed neither earlier nor later than need be: what the bucket held exactly when the body no longer fits
      behind it, and what it then holds exactly when that reaches the target. Nothing else is submitted. */
  lemma PushFills(s: Settings, d: Draft, r: Record, item: Item)
    requires Faithful(s, d, r) && Push(s, d, item).Ok?
    ensures var d', filled := Push(s, d, item).value, WithBody(s, d, item);
      var full := |JoinAll(filled)| >= s.target;
      && (if Crowded(s, d, item) then exists middle :: Closes(d, middle, OpenBlobs(s, d, item.meta))
                                                     && (if full then Closes(middle, d', filled) else d'.jobs == middle.jobs)
          else if full then Closes(d, d', filled) else d'.jobs == d.jobs)
      && OpenBlobs(s, d', item.meta) == if full then [] else filled
  {
    hide Faithful, Intern, KeyOf, CompOf, Join;
    var m, key := item.meta, KeyOf(s, item.meta);
    var interned := Intern(d.mimes, m.mimetype).value;
    var d1 := d.(mimes := interned.0);
    var d2 := MakeRoom(s, d1, key, |item.content|);
    var d3 := Put(s, d2, m, interned.1, item.content);
    BucketSize(s, d, r, m);
    JoinAppend(OpenBlobs(s, d, m), item.content);
    JoinAppend([], item.content);
    EmptyJoin();
    assert Crowded(s, d, item) <==> NeedsFlush(s, d1, key, |item.content|);
    assert OpenBlobs(s, d3, m) == WithBody(s, d, item);
    assert d3.buckets[key].size == |JoinAll(WithBody(s, d, item))|;
    assert Crowded(s, d, item) ==> Closes(d, d2, OpenBlobs(s, d, m));
  }

  lemma EmptyJoin()
    ensures JoinAll([]) == []
  {
  }

  lemma BucketSize(s: Settings, d: Draft, r: Record, m: Meta)
    requires Faithful(s, d, r)
    ensures BucketOf(d, KeyOf(s, m), CompOf(s, m)).size == |JoinAll(OpenBlobs(s, d, m))|
  {
    hide RecordsOk, DirentsFit, PlansFit, SlotsOk, InFlightOk, GoodList, PlansKnown, PendingOk;
    var key := KeyOf(s, m);
    if key in d.buckets {
      assert BucketOk(s, d.mimes, r, key, d.buckets[key]);
    }
  }

  /** Between calls every bucket is empty or below the target. */
  ghost predicate Underfull(s: Settings, d: Draft) {
    forall key :: key in d.buckets ==> d.buckets[key].blobs == [] || d.buckets[key].size < s.target
  }

  lemma PushUnderfull(s: Settings, d: Draft, item: Item)
    requires Underfull(s, d) && Push(s, d, item).Ok?
    ensures Underfull(s, Push(s, d, item).value)
  {
    hide Flush, Intern, KeyOf, CompOf, NeedsFlush;
    var key := KeyOf(s, item.meta);
    var d1 := d.(mimes := Intern(d.mimes, item.meta.mimetype).value.0);
    var d2 := MakeRoom(s, d1, key, |item.content|);
    FlushFrame(d1, key);
    var d3 := Put(s, d2, item.meta, Intern(d.mimes, item.meta.mimetype).value.1, item.content);
    FlushFrame(d3, key);
    assert forall k :: k in d3.buckets && k != key ==> k in d.buckets && d3.buckets[k] == d.buckets[k];
  }
}
