/** The streaming writer: a class whose methods take entries in any order and, at the end, lay out the archive. Each
    method is proved against the functions of `Packing`, `Chunked` and `Tables`, and `added` says at any time what a
    reader of the finished file is to find. */
module Writer {
  import opened Outcome
  import opened Bytes
  import opened Text
  import opened Headers
  import opened Dirents
  import opened Clusters
  import opened Reader
  import opened Counting
  import opened MimeTypes
  import opened Layout
  import opened Sorting
  import opened Packing
  import opened Chunked
  import opened Tables
  import opened Deferred
  import opened Assembly
  import opened ReadBack
  import opened Gate
  import opened Sealing
  import opened Staging
  import opened Census
  import opened Closing
  import Checks
  import Histogram
  import Pipeline

  // ---- Books ----

  ghost predicate Indexed(mimes: seq<Bytes>, index: map<Bytes, nat>) {
    && Distinct(mimes)
    && (forall m :: m in mimes <==> m in index)
    && (forall m :: m in index ==> index[m] < |mimes| && mimes[index[m]] == m)
  }

  lemma IndexedPosition(mimes: seq<Bytes>, index: map<Bytes, nat>, m: Bytes)
    requires Indexed(mimes, index)
    ensures m in index ==> Intern(mimes, m) == Ok((mimes, index[m]))
    ensures m !in index ==> Position(mimes, m, |mimes|) == None
  {
    assert mimes[..|mimes|] == mimes;
  }

  lemma IndexedAppend(mimes: seq<Bytes>, index: map<Bytes, nat>, m: Bytes)
    requires Indexed(mimes, index) && m !in index
    ensures Indexed(mimes + [m], index[m := |mimes|])
  {
    assert m !in mimes;
    forall x
      ensures x in mimes + [m] <==> x in index[m := |mimes|]
    {
      assert x in mimes <==> x in index;
    }
  }

  /** The key is neither recorded nor waiting nor in flight. */
  ghost predicate Unused(pushed: Contents, ps: seq<Promise>, open: Option<Key>, k: Key) {
    k !in pushed && !Promising(ps, k) && open != Some(k)
  }

  /** Every key in use is recorded. */
  ghost predicate Covers(keys: set<Key>, pushed: Contents, ps: seq<Promise>, open: Option<Key>) {
    forall k :: k !in keys ==> Unused(pushed, ps, open, k)
  }

  /** Nothing accepted, nothing waiting, nothing open. */
  lemma EmptyBooks(s: Settings)
    ensures Indexed([], map[]) && Underfull(s, EMPTY_DRAFT)
    ensures var w := Waiting([], [], [], None);
      Ready(w) && Kept(map[], Promises(s, w), None, map[]) && Covers({}, map[], Promises(s, w), None)
  {
    hide ItemReady, Storable, RedirectPromise, ItemPromise, MainPromise;
    assert Promises(s, Waiting([], [], [], None)) == [];
  }

  class Creator {
    const settings: Settings
    const uuid: Bytes
    const md5: Bytes -> Bytes

    var file: Bytes
    var mimes: seq<Bytes>
    var mimeIndex: map<Bytes, nat>
    var buckets: map<Bytes, Bucket>
    var clusterOffsets: seq<nat>
    var dirents: seq<RawDirent>
    var redirections: seq<Redirection>
    var metadata: seq<MetadataEntry>
    var illustrations: seq<Illustration>
    var mainPath: Option<Bytes>
    var inFlight: Option<InFlight>
    var streamingTasks: seq<Task>
    var submitted: seq<Pipeline.Job>
    var entryKeys: set<Key>

    /** What each cluster holds, where each accepted item is, and what has been accepted in all. */
    ghost var plans: seq<Option<Plan>>
    ghost var record: Record
    ghost var added: Contents

    ghost function Snapshot(): Draft
      reads `mimes, `buckets, `dirents, `plans, `submitted, `streamingTasks, `inFlight
    {
      Draft(mimes, buckets, dirents, plans, submitted, streamingTasks, inFlight)
    }

    ghost function Later(): Waiting
      reads `redirections, `metadata, `illustrations, `mainPath
    {
      Waiting(redirections, metadata, illustrations, mainPath)
    }

    ghost predicate Core()
      reads `mimes, `buckets, `dirents, `plans, `submitted, `streamingTasks, `inFlight, `record, `clusterOffsets, `mimeIndex
    {
      Faithful(settings, Snapshot(), record) && |clusterOffsets| == |plans| && Indexed(mimes, mimeIndex)
    }

    /** `added` is what a reader is to find: the accepted items, and what waits for the end. */
    ghost predicate Valid()
      reads this
    {
      && Core() && Underfull(settings, Snapshot())
      && Kept(record.pushed, Promises(settings, Later()), OpenKey(inFlight), added) && Ready(Later())
      && file == Zeros(CLUSTERS_POS)
      && (inFlight.Some? ==> Utf8(inFlight.value.meta) && ValidArticle(inFlight.value.meta))
    }

    /** The state between calls. */
    ghost predicate Accepting()
      reads this
    {
      Valid() && Covers(entryKeys, record.pushed, Promises(settings, Later()), OpenKey(inFlight))
    }

    lemma AcceptingMeans()
      ensures Accepting() <==>
                && Core() && Underfull(settings, Snapshot())
                && Kept(record.pushed, Promises(settings, Later()), OpenKey(inFlight), added) && Ready(Later())
                && file == Zeros(CLUSTERS_POS)
                && (inFlight.Some? ==> Utf8(inFlight.value.meta) && ValidArticle(inFlight.value.meta))
                && Covers(entryKeys, record.pushed, Promises(settings, Later()), OpenKey(inFlight))
      ensures OpenKey(inFlight) == if inFlight.Some? then Some(inFlight.value.meta.Key()) else None
    {
      hide Core, Underfull, Kept, Promises, Ready, Zeros, Utf8, ValidArticle, Covers;
    }

    lemma ValidMeans()
      ensures Valid() && inFlight == None <==>
                && Core() && Underfull(settings, Snapshot()) && inFlight == None
                && Kept(record.pushed, Promises(settings, Later()), None, added) && Ready(Later()) && file == Zeros(CLUSTERS_POS)
    {
      hide Core, Underfull, Kept, Promises, Ready, Zeros;
    }

    /** Everything added has its key taken. */
    ghost predicate Booked()
      reads this
    {
      forall k :: k in added ==> k in entryKeys
    }

    constructor (settings: Settings, uuid: Bytes, md5: Bytes -> Bytes)
      requires |uuid| == 16 && settings.target >= 1
      ensures this.settings == settings && this.uuid == uuid && this.md5 == md5
      ensures Accepting() && added == map[] && entryKeys == {} && inFlight == None && mainPath == None
    {
      hide Accepting, Faithful, Underfull, Indexed, Kept, Promises, Ready, Covers, Zeros;
      this.settings := settings;
      this.uuid := uuid;
      this.md5 := md5;
      file := Zeros(CLUSTERS_POS);
      mimes, mimeIndex, buckets := [], map[], map[];
      clusterOffsets, dirents, plans := [], [], [];
      redirections, metadata, illustrations, mainPath := [], [], [], None;
      inFlight, streamingTasks, submitted, entryKeys := None, [], [], {};
      record := Record(map[], map[]);
      added := map[];
      new;
      EmptyFaithful(settings);
      EmptyBooks(settings);
      AcceptingMeans();
    }

    /** Nothing an adding method guards has changed. */
    twostate predicate Untouched()
      reads this
    {
      && Snapshot() == old(Snapshot()) && Later() == old(Later()) && record == old(record)
      && entryKeys == old(entryKeys) && added == old(added)
    }

    /** `k` was free and now stands for `st`; everything else that was promised still is. */
    twostate predicate Gained(k: Key, st: Stored)
      reads this
    {
      k !in old(entryKeys) && entryKeys == old(entryKeys) + {k} && added == old(added)[k := st]
    }

    // ---- Bin-packing ----

    method InternMime(m: Bytes) returns (r: Result<nat>)
      requires Indexed(mimes, mimeIndex)
      modifies `mimes, `mimeIndex
      ensures Indexed(mimes, mimeIndex)
      ensures match Intern(old(mimes), m)
        case Ok(v) => r == Ok(v.1) && mimes == v.0
        case Err(e) => r == Err(e) && mimes == old(mimes)
    {
      IndexedPosition(mimes, mimeIndex, m);
      if m in mimeIndex {
        return Ok(mimeIndex[m]);
      }
      if |mimes| >= MIME_DELETED {
        return Err(Io);
      }
      var size := 0;
      for i := 0 to |mimes|
        invariant size == ListLen(mimes[..i])
      {
        assert mimes[..i + 1][..i] == mimes[..i];
        size := size + |mimes[i]| + 1;
      }
      assert mimes[..|mimes|] == mimes;
      if size + |m| + 2 > MIME_LIST_RESERVE {
        return Err(InvalidInput);
      }
      IndexedAppend(mimes, mimeIndex, m);
      r := Ok(|mimes|);
      mimeIndex := mimeIndex[m := |mimes|];
      mimes := mimes + [m];
    }

    /** Hands a cluster to the encode pipeline. */
    method SendCluster(idx: nat, blobs: seq<Bytes>, comp: Compression)
      modifies `submitted
      ensures submitted == old(submitted) + [Pipeline.Job(idx, blobs, comp, |JoinAll(blobs)|)]
    {
      var bytes := 0;
      for i := 0 to |blobs|
        invariant bytes == |Join(blobs, i)|
      {
        bytes := bytes + |blobs[i]|;
      }
      submitted := submitted + [Pipeline.Job(idx, blobs, comp, bytes)];
    }

    method FlushBucket(key: Bytes)
      requires |clusterOffsets| == |plans|
      modifies `buckets, `clusterOffsets, `dirents, `submitted, `plans
      ensures Snapshot() == Flush(old(Snapshot()), key) && |clusterOffsets| == |plans|
    {
      if key !in buckets {
        return;
      }
      var b := buckets[key];
      if b.blobs == [] {
        buckets := buckets[key := Emptied(b.comp)];
        return;
      }
      var idx := |clusterOffsets|;
      clusterOffsets := clusterOffsets + [0];
      for i := 0 to |b.pending|
        modifies `dirents
        invariant dirents == old(dirents) + Commit(b.pending[..i], idx)
      {
        var p := b.pending[i];
        dirents := dirents + [Article(p.ns, p.url, p.title, p.mimeIdx, idx, p.blobIdx)];
        assert Commit(b.pending[..i + 1], idx) == Commit(b.pending[..i], idx)
            + [Article(p.ns, p.url, p.title, p.mimeIdx, idx, p.blobIdx)];
      }
      assert b.pending[..|b.pending|] == b.pending;
      plans := plans + [Some(Plan(b.blobs, b.comp))];
      SendCluster(idx, b.blobs, b.comp);
      buckets := buckets[key := Emptied(b.comp)];
    }

    method MakeRoomFor(key: Bytes, more: nat)
      requires |clusterOffsets| == |plans|
      modifies `buckets, `clusterOffsets, `dirents, `submitted, `plans
      ensures Snapshot() == MakeRoom(settings, old(Snapshot()), key, more) && |clusterOffsets| == |plans|
    {
      hide Flush;
      if key in buckets && buckets[key].blobs != [] && buckets[key].size + more > settings.target {
        FlushBucket(key);
      }
    }

    method AppendToBucket(m: Meta, mimeIdx: nat, content: Bytes)
      modifies `buckets
      ensures Snapshot() == Put(settings, old(Snapshot()), m, mimeIdx, content)
      ensures KeyOf(settings, m) in buckets
    {
      hide KeyOf, CompOf;
      var key := KeyOf(settings, m);
      if key !in buckets {
        buckets := buckets[key := Emptied(CompOf(settings, m))];
      }
      var b := buckets[key];
      buckets := buckets[key := Bucket(b.blobs + [content], b.size + |content|,
        b.pending + [Pending(m.Namespace(), m.path, m.Title(), mimeIdx, |b.blobs|)], b.comp)];
      assert buckets == Put(settings, old(Snapshot()), m, mimeIdx, content).buckets;
    }

    method FlushIfFull(key: Bytes)
      requires |clusterOffsets| == |plans| && key in buckets
      modifies `buckets, `clusterOffsets, `dirents, `submitted, `plans
      ensures Snapshot() == Settle(settings, old(Snapshot()), key) && |clusterOffsets| == |plans|
    {
      hide Flush;
      if buckets[key].size >= settings.target {
        FlushBucket(key);
      }
    }

    /** Bin-packs one item; refuses invalid ones and those whose type does not fit the list, changing nothing. */
    method PushItem(item: Item) returns (r: Result<()>)
      requires Core() && Underfull(settings, Snapshot()) && Utf8(item.meta) && item.meta.Key() !in record.pushed
      modifies `mimes, `mimeIndex, `buckets, `clusterOffsets, `dirents, `submitted, `plans, `record
      ensures Core() && Underfull(settings, Snapshot())
      ensures r.Ok? <==> ValidArticle(item.meta) && Push(settings, old(Snapshot()), item).Ok?
      ensures r.Ok? ==>
                && Snapshot() == Push(settings, old(Snapshot()), item).value
                && record.pushed == old(record.pushed)[item.meta.Key() := BodyOf(settings, item.meta, item.content)]
      ensures r.Err? ==> Snapshot() == old(Snapshot()) && record == old(record)
    {
      hide Faithful, Flush, Intern, KeyOf, CompOf, ValidMime, HasControl, Indexed, Underfull, MakeRoom, Put, Settle, MetaOk;
      var m := item.meta;
      if !ValidArticle(m) {
        return Err(InvalidInput);
      }
      ValidIsStorable(m);
      ghost var before := Snapshot();
      PushUnderfullIf(settings, before, item);
      var mimeIdx := InternMime(m.mimetype);
      if mimeIdx.Err? {
        return Err(mimeIdx.error);
      }
      MakeRoomFor(KeyOf(settings, m), |item.content|);
      AppendToBucket(m, mimeIdx.value, item.content);
      FlushIfFull(KeyOf(settings, m));
      assert Snapshot() == Push(settings, before, item).value;
      hide Push;
      record := PushKeeps(settings, before, record, item);
      return Ok(());
    }

    // ---- Adding entries ----

    /** Accepts an item with valid strings, a free key and a type that fits the list, and then promises exactly its
        title, type and body; otherwise changes nothing. */
    method TryAddItem(item: Item) returns (r: Result<()>)
      requires Accepting() && Utf8(item.meta)
      modifies this
      ensures Accepting()
      ensures r.Ok? <==> ValidArticle(item.meta) && item.meta.Key() !in old(entryKeys)
                         && Push(settings, old(Snapshot()), item).Ok?
      ensures r.Ok? ==> Gained(item.meta.Key(), BodyOf(settings, item.meta, item.content)) && Later() == old(Later())
                        && inFlight == old(inFlight)
      ensures r.Err? ==> Untouched()
    {
      hide Accepting, Core, Underfull, Push, Kept, Ready, Promises, BodyOf, ValidArticle, Utf8, Unused, Covers, OpenKey, Zeros,
        Snapshot, Later;
      AcceptingMeans();
      if !ValidArticle(item.meta) {
        return Err(InvalidInput);
      }
      if item.meta.Key() in entryKeys {
        return Err(InvalidInput);
      }
      var k := item.meta.Key();
      ghost var st := BodyOf(settings, item.meta, item.content);
      ghost var pushed, ps := record.pushed, Promises(settings, Later());
      CoversUnused(entryKeys, pushed, ps, OpenKey(inFlight), k);
      PushKeepsFlight(settings, Snapshot(), item);
      r := PushItem(item);
      if r.Err? {
        AcceptingMeans();
        return;
      }
      Unpromised(pushed, ps, OpenKey(inFlight), added, Promise(k, st));
      CoversMore(entryKeys, pushed, ps, OpenKey(inFlight), k, st);
      entryKeys := entryKeys + {k};
      added := added[k := st];
      AcceptingMeans();
    }

    /** Reserves a cluster slot for a streamed item. */
    method OpenStream(m: Meta, size: nat, comp: Compression) returns (r: Result<()>)
      requires |clusterOffsets| == |plans| && Indexed(mimes, mimeIndex) && inFlight == None
      requires size <= U64_LIMIT - 1 - 16 && size >= settings.threshold && comp == CompOf(settings, m) && comp != Xz
      modifies `mimes, `mimeIndex, `clusterOffsets, `plans, `inFlight
      ensures match Begin(settings, old(Snapshot()), m, Some(size))
        case Ok(d) => r == Ok(()) && Snapshot() == d
        case Err(e) => r == Err(e) && Snapshot() == old(Snapshot())
      ensures |clusterOffsets| == |plans| && Indexed(mimes, mimeIndex)
    {
      hide Intern, StreamHeader, Indexed, CompOf;
      var mimeIdx := InternMime(m.mimetype);
      if mimeIdx.Err? {
        return Err(mimeIdx.error);
      }
      var clusterIdx := |clusterOffsets|;
      inFlight := Some(if comp == Zstd
        then StreamingZstd(m, StreamHeader(size), clusterIdx, 0, size, mimeIdx.value)
        else StreamingRaw(m, StreamHeader(size), clusterIdx, 0, size, mimeIdx.value));
      clusterOffsets := clusterOffsets + [0];
      plans := plans + [None];
      return Ok(());
    }

    /** `Begin` on the fields. */
    method BeginFlight(m: Meta, expected: Option<nat>) returns (r: Result<()>)
      requires |clusterOffsets| == |plans| && Indexed(mimes, mimeIndex)
      modifies `mimes, `mimeIndex, `clusterOffsets, `plans, `inFlight
      ensures match Begin(settings, old(Snapshot()), m, expected)
        case Ok(d) => r == Ok(()) && Snapshot() == d
        case Err(e) => r == Err(e) && Snapshot() == old(Snapshot())
      ensures |clusterOffsets| == |plans| && Indexed(mimes, mimeIndex)
    {
      hide Intern, StreamHeader, Indexed, CompOf;
      if inFlight.Some? {
        return Err(Io);
      }
      if expected.Some? && expected.value > U64_LIMIT - 1 - 16 {
        return Err(InvalidInput);
      }
      var comp := CompOf(settings, m);
      if expected.Some? && expected.value >= settings.threshold && (comp == Zstd || comp == Raw) {
        r := OpenStream(m, expected.value, comp);
      } else {
        inFlight := Some(Buffered(m, [], expected));
        r := Ok(());
      }
    }

    /** Opens a chunked item under a free key; nothing is promised before its end. */
    method BeginChunkedItem(m: Meta, expected: Option<nat>) returns (r: Result<()>)
      requires Accepting() && Utf8(m)
      modifies this
      ensures Accepting()
      ensures r.Ok? <==> ValidArticle(m) && m.Key() !in old(entryKeys) && Begin(settings, old(Snapshot()), m, expected).Ok?
      ensures r.Ok? ==> inFlight.Some? && inFlight.value.meta == m && Received(inFlight.value) == []
                        && entryKeys == old(entryKeys) + {m.Key()} && added == old(added) && Later() == old(Later())
      ensures r.Err? ==> Untouched()
    {
      hide Accepting, Faithful, Underfull, Kept, Ready, Promises, ValidArticle, Utf8, Unused, Covers, Indexed, MetaOk, Begin, Received,
        OpenKey, Zeros;
      AcceptingMeans();
      if !ValidArticle(m) {
        return Err(InvalidInput);
      }
      if m.Key() in entryKeys {
        return Err(InvalidInput);
      }
      ValidIsStorable(m);
      ghost var before := Snapshot();
      ghost var pushed, ps := record.pushed, Promises(settings, Later());
      CoversUnused(entryKeys, pushed, ps, OpenKey(inFlight), m.Key());
      r := BeginFlight(m, expected);
      if r.Err? {
        AcceptingMeans();
        return;
      }
      BeginKeeps(settings, before, record, m, expected);
      BeginUnderfull(settings, before, m, expected);
      OpenClosed(pushed, ps, OpenKey(before.inFlight), added, Some(m.Key()));
      assert before.inFlight == None by {
        BeginWhenFree(settings, before, m, expected);
      }
      CoversOpen(entryKeys, pushed, ps, None, m.Key());
      entryKeys := entryKeys + {m.Key()};
      AcceptingMeans();
    }

    /** Appends a chunk whole, or refuses it whole. */
    method ChunkedItemChunk(chunk: Bytes) returns (r: Result<()>)
      requires Accepting()
      modifies `inFlight
      ensures Accepting()
      ensures r.Ok? <==> Chunk(old(Snapshot()), chunk).Ok?
      ensures r.Ok? ==> old(inFlight).Some? && inFlight.Some? && inFlight.value.meta == old(inFlight).value.meta
                        && Received(inFlight.value) == Received(old(inFlight).value) + chunk
      ensures r.Err? ==> inFlight == old(inFlight)
    {
      hide Faithful, Underfull, Kept, Ready, Promises, Unused, StreamHeader, Indexed, Utf8, ValidArticle;
      ghost var before := Snapshot();
      match inFlight {
        case None => return Err(Io);
        case Some(Buffered(m, content, expected)) =>
          if expected.Some? && |content| + |chunk| > expected.value {
            return Err(InvalidInput);
          }
          inFlight := Some(Buffered(m, content + chunk, expected));
        case Some(StreamingZstd(m, fed, slot, written, size, mime)) =>
          if written + |chunk| > size {
            return Err(InvalidInput);
          }
          inFlight := Some(StreamingZstd(m, fed + chunk, slot, written + |chunk|, size, mime));
        case Some(StreamingRaw(m, fed, slot, written, size, mime)) =>
          if written + |chunk| > size {
            return Err(InvalidInput);
          }
          inFlight := Some(StreamingRaw(m, fed + chunk, slot, written + |chunk|, size, mime));
      }
      assert Chunk(before, chunk) == Ok(Snapshot());
      hide Chunk, Received;
      ChunkKeeps(settings, before, record, chunk);
      SameBuckets(settings, before, Snapshot());
      assert OpenKey(inFlight) == OpenKey(before.inFlight);
      return Ok(());
    }

    /** Pushes the assembled body of a buffered item; when that fails the item is gone. */
    method EndBuffered() returns (r: Result<()>)
      requires Core() && Underfull(settings, Snapshot())
      requires inFlight.Some? && inFlight.value.Buffered? && Complete(inFlight.value)
      requires Utf8(inFlight.value.meta) && ValidArticle(inFlight.value.meta) && inFlight.value.meta.Key() !in record.pushed
      modifies `mimes, `mimeIndex, `buckets, `clusterOffsets, `dirents, `submitted, `plans, `record, `inFlight
      ensures Core() && Underfull(settings, Snapshot())
      ensures Snapshot() == End(settings, old(Snapshot())).0 && (r.Ok? <==> End(settings, old(Snapshot())).1.Ok?)
      ensures inFlight == None
      ensures r.Ok? ==> var f := old(inFlight).value;
        record.pushed == old(record.pushed)[f.meta.Key() := BodyOf(settings, f.meta, Received(f))]
      ensures r.Err? ==> record == old(record)
    {
      hide Faithful, Underfull, ValidArticle, Utf8, Indexed, Push, BodyOf;
      var f := inFlight.value;
      BufferKeeps(settings, Snapshot(), record, None);
      SameBuckets(settings, Snapshot(), Snapshot().(inFlight := None));
      PushKeepsFlight(settings, Snapshot().(inFlight := None), Item(f.meta, f.content));
      inFlight := None;
      r := PushItem(Item(f.meta, f.content));
    }

    /** Commits the dirent of a streamed item and hands its scratch file over. */
    method EndStream()
      requires Core() && Underfull(settings, Snapshot())
      requires inFlight.Some? && !inFlight.value.Buffered? && Complete(inFlight.value)
      requires inFlight.value.meta.Key() !in record.pushed
      modifies `dirents, `streamingTasks, `plans, `record, `inFlight
      ensures Core() && Underfull(settings, Snapshot())
      ensures Snapshot() == End(settings, old(Snapshot())).0 && End(settings, old(Snapshot())).1.Ok?
      ensures inFlight == None
      ensures var f := old(inFlight).value;
        record.pushed == old(record.pushed)[f.meta.Key() := BodyOf(settings, f.meta, Received(f))]
    {
      hide Faithful, Underfull, Indexed, BodyOf, Received, Scratch, Complete;
      var f := inFlight.value;
      ghost var before := Snapshot();
      ghost var record' := EndStreamedKeeps(settings, before, record, f);
      var m := f.meta;
      dirents := dirents + [Article(m.Namespace(), m.path, m.Title(), f.mimeIdx, f.clusterIdx, 0)];
      streamingTasks := streamingTasks + [Task(f.clusterIdx, Scratch(settings.codec, f))];
      plans := plans[f.clusterIdx := Some(Plan([Received(f)], if f.StreamingRaw? then Raw else Zstd))];
      inFlight := None;
      record := record';
      SameBuckets(settings, before, Snapshot());
    }

    /** Ends the open item: with all announced bytes received, exactly those bytes are promised under its key. */
    method EndChunkedItem() returns (r: Result<()>)
      requires Accepting()
      modifies this
      ensures Accepting()
      ensures Snapshot() == End(settings, old(Snapshot())).0 && (r.Ok? <==> End(settings, old(Snapshot())).1.Ok?)
      ensures entryKeys == old(entryKeys) && Later() == old(Later())
      ensures r.Ok? ==> old(inFlight).Some? && var f := old(inFlight).value;
        Complete(f) && added == old(added)[f.meta.Key() := BodyOf(settings, f.meta, Received(f))]
      ensures r.Err? ==> added == old(added)
    {
      hide Accepting, Core, Underfull, Kept, Ready, Promises, Covers, Utf8, ValidArticle, BodyOf, Received, Complete, End,
        Snapshot, Later, OpenKey, Zeros;
      AcceptingMeans();
      EndWithout(settings, Snapshot());
      SnapshotFlight();
      if inFlight.None? {
        return Err(Io);
      }
      var f := inFlight.value;
      if !Complete(f) {
        return Err(InvalidInput);
      }
      ghost var k, st := f.meta.Key(), BodyOf(settings, f.meta, Received(f));
      ghost var pushed, ps := record.pushed, Promises(settings, Later());
      KeptOpen(pushed, ps, k, added);
      OpenClosed(pushed, ps, Some(k), added, None);
      CoversClosed(entryKeys, pushed, ps, k, st);
      if f.Buffered? {
        r := EndBuffered();
      } else {
        EndStream();
        r := Ok(());
      }
      if r.Ok? {
        Unpromised(pushed, ps, None, added, Promise(k, st));
        added := added[k := st];
      }
      AcceptingMeans();
    }

    lemma SnapshotFlight()
      ensures Snapshot().inFlight == inFlight
    {
    }

    // ---- Entries kept for the end ----

    /** Adds a content redirect with valid strings under a free key. */
    method TryAddRedirection(path: Bytes, title: Bytes, target: Bytes) returns (r: Result<()>)
      requires Accepting() && ValidUtf8(path) && ValidUtf8(title) && ValidUtf8(target)
      modifies this
      ensures Accepting() && Snapshot() == old(Snapshot())
      ensures r.Ok? <==> ValidEntry(NS_CONTENT, path, title) && !HasControl(target) && Key(NS_CONTENT, path) !in old(entryKeys)
      ensures r.Ok? ==> Gained(Key(NS_CONTENT, path), Alias(if title == [] then path else title, Key(NS_CONTENT, target)))
                        && Later() == old(Later()).(redirections := old(redirections) + [Redirection(path, title, target)])
      ensures r.Err? ==> Untouched()
    {
      hide Core, Underfull, Kept, Promises, Covers, Ready, Utf8, ValidArticle, HasControl, ValidUtf8, Storable;
      var red := Redirection(path, title, target);
      if !ValidEntry(NS_CONTENT, path, title) || HasControl(target) {
        return Err(InvalidInput);
      }
      if red.Key() in entryKeys {
        return Err(InvalidInput);
      }
      RedirectStorable(red);
      StillReady(Later(), red, None, None);
      RedirectAdded(settings, record.pushed, Later(), OpenKey(inFlight), added, entryKeys, red);
      entryKeys := entryKeys + {red.Key()};
      redirections := redirections + [red];
      added := added[red.Key() := RedirectPromise(red).stored];
      return Ok(());
    }

    /** Adds a metadata entry, stored in namespace M under its name. */
    method TryAddMetadataWithMimetype(name: Bytes, mimetype: Bytes, value: Bytes) returns (r: Result<()>)
      requires Accepting() && ValidUtf8(name)
      modifies this
      ensures Accepting() && Snapshot() == old(Snapshot())
      ensures var item := MetadataEntry(name, mimetype, value).Item();
        && (r.Ok? <==> ValidArticle(item.meta) && item.meta.Key() !in old(entryKeys))
        && (r.Ok? ==> Gained(item.meta.Key(), BodyOf(settings, item.meta, value))
                      && Later() == old(Later()).(metadata := old(metadata) + [MetadataEntry(name, mimetype, value)]))
      ensures r.Err? ==> Untouched()
    {
      hide Core, Underfull, Kept, Promises, Covers, Ready, Utf8, ValidArticle, BodyOf, ValidUtf8, MetaOk;
      var entry := MetadataEntry(name, mimetype, value);
      var m := entry.Item().meta;
      if !ValidArticle(m) {
        return Err(InvalidInput);
      }
      if m.Key() in entryKeys {
        return Err(InvalidInput);
      }
      assert Utf8(m) by {
        Utf8Means(m);
      }
      ValidIsStorable(m);
      StillReady(Later(), Redirection([], [], []), Some(entry), None);
      MetadataAdded(settings, record.pushed, Later(), OpenKey(inFlight), added, entryKeys, entry);
      entryKeys := entryKeys + {m.Key()};
      metadata := metadata + [entry];
      added := added[m.Key() := BodyOf(settings, m, value)];
      return Ok(());
    }

    /** Adds an illustration of the given side length. */
    method TryAddIllustration(side: nat, png: Bytes) returns (r: Result<()>)
      requires Accepting()
      modifies this
      ensures Accepting() && Snapshot() == old(Snapshot())
      ensures var item := Illustration(side, png).Item();
        && (r.Ok? <==> item.meta.Key() !in old(entryKeys))
        && (r.Ok? ==> Gained(item.meta.Key(), BodyOf(settings, item.meta, png))
                      && Later() == old(Later()).(illustrations := old(illustrations) + [Illustration(side, png)]))
      ensures r.Err? ==> Untouched()
    {
      hide Core, Underfull, Kept, Promises, Covers, Ready, ItemReady, Utf8, ValidArticle, BodyOf;
      var il := Illustration(side, png);
      var m := il.Item().meta;
      if m.Key() in entryKeys {
        return Err(InvalidInput);
      }
      IllustrationReady(il);
      StillReady(Later(), Redirection([], [], []), None, Some(il));
      IllustrationAdded(settings, record.pushed, Later(), OpenKey(inFlight), added, entryKeys, il);
      entryKeys := entryKeys + {m.Key()};
      illustrations := illustrations + [il];
      added := added[m.Key() := BodyOf(settings, m, png)];
      return Ok(());
    }

    /** Declares the main page, or changes it; only the first time its key must be free. */
    method TrySetMainPath(path: Bytes) returns (r: Result<()>)
      requires Accepting() && ValidUtf8(path)
      modifies this
      ensures Accepting() && Snapshot() == old(Snapshot())
      ensures r.Ok? <==> !HasControl(path) && (old(mainPath).None? ==> MAIN_PAGE !in old(entryKeys))
      ensures r.Ok? ==> entryKeys == old(entryKeys) + {MAIN_PAGE} && Later() == old(Later()).(mainPath := Some(path))
                        && added == old(added)[MAIN_PAGE := Alias(MAIN_PAGE.text, Key(NS_CONTENT, path))]
      ensures r.Err? ==> Untouched()
    {
      hide Core, Underfull, Kept, Promises, Covers, Utf8, ValidArticle, HasControl, ValidUtf8;
      if HasControl(path) {
        return Err(InvalidInput);
      }
      if mainPath.None? {
        if MAIN_PAGE in entryKeys {
          return Err(InvalidInput);
        }
      }
      MainSet(settings, record.pushed, Later(), OpenKey(inFlight), added, entryKeys, path);
      entryKeys := entryKeys + {MAIN_PAGE};
      mainPath := Some(path);
      added := added[MAIN_PAGE := MainPromise(path).stored];
      return Ok(());
    }

    // ---- Finishing: the remaining items ----

    method PushFirstMetadata() returns (r: Result<()>)
      requires Valid() && inFlight == None && metadata != []
      modifies `mimes, `mimeIndex, `buckets, `clusterOffsets, `dirents, `submitted, `plans, `record, `metadata
      ensures r.Ok? <==> Push(settings, old(Snapshot()), old(metadata)[0].Item()).Ok?
      ensures r.Ok? ==> Valid() && metadata == old(metadata)[1..]
                        && Push(settings, old(Snapshot()), old(metadata)[0].Item()) == Ok(Snapshot())
    {
      hide Valid, Core, Underfull, Kept, Ready, Promises, ItemReady, Push, BodyOf, Snapshot, Zeros;
      ValidMeans();
      var item := metadata[0].Item();
      ghost var pushed, w := record.pushed, Later();
      FirstMetadataReady(settings, pushed, w, added);
      ReadyMeans(item);
      r := PushItem(item);
      if r.Err? {
        return;
      }
      metadata := metadata[1..];
      ValidMeans();
    }

    /** Pushes the waiting metadata; fails exactly when their types do not all fit the list. */
    method PushMetadata() returns (r: Result<()>)
      requires Valid() && inFlight == None
      modifies `mimes, `mimeIndex, `buckets, `clusterOffsets, `dirents, `submitted, `plans, `record, `metadata
      ensures r.Ok? <==> InternAll(old(mimes), TypesOf(MetadataItems(old(metadata)))).Ok?
      ensures r.Ok? ==> Valid() && metadata == [] && InternAll(old(mimes), TypesOf(MetadataItems(old(metadata)))) == Ok(mimes)
      ensures r.Ok? ==> PushAll(settings, old(Snapshot()), MetadataItems(old(metadata))) == Ok(Snapshot())
    {
      hide Valid, MetadataItems, TypesOf, InternAll, Push;
      PushAllMimes(settings, Snapshot(), MetadataItems(metadata));
      while metadata != []
        invariant Valid()
        invariant PushAll(settings, Snapshot(), MetadataItems(metadata)) == PushAll(settings, old(Snapshot()), MetadataItems(old(metadata)))
        decreases |metadata|
      {
        NextMetadata(metadata);
        r := PushFirstMetadata();
        if r.Err? {
          return;
        }
      }
      return Ok(());
    }

    method PushFirstIllustration() returns (r: Result<()>)
      requires Valid() && inFlight == None && metadata == [] && illustrations != []
      modifies `mimes, `mimeIndex, `buckets, `clusterOffsets, `dirents, `submitted, `plans, `record, `illustrations
      ensures r.Ok? <==> Push(settings, old(Snapshot()), old(illustrations)[0].Item()).Ok?
      ensures r.Ok? ==> Valid() && illustrations == old(illustrations)[1..]
                        && Push(settings, old(Snapshot()), old(illustrations)[0].Item()) == Ok(Snapshot())
    {
      hide Valid, Core, Underfull, Kept, Ready, Promises, ItemReady, Push, BodyOf, Snapshot, Zeros;
      ValidMeans();
      var item := illustrations[0].Item();
      ghost var pushed, w := record.pushed, Later();
      FirstIllustrationReady(settings, pushed, w, added);
      ReadyMeans(item);
      r := PushItem(item);
      if r.Err? {
        return;
      }
      illustrations := illustrations[1..];
      ValidMeans();
    }

    method PushIllustrations() returns (r: Result<()>)
      requires Valid() && inFlight == None && metadata == []
      modifies `mimes, `mimeIndex, `buckets, `clusterOffsets, `dirents, `submitted, `plans, `record, `illustrations
      ensures r.Ok? <==> InternAll(old(mimes), TypesOf(IllustrationItems(old(illustrations)))).Ok?
      ensures r.Ok? ==> Valid() && illustrations == []
                        && InternAll(old(mimes), TypesOf(IllustrationItems(old(illustrations)))) == Ok(mimes)
      ensures r.Ok? ==> PushAll(settings, old(Snapshot()), IllustrationItems(old(illustrations))) == Ok(Snapshot())
    {
      hide Valid, IllustrationItems, TypesOf, InternAll, Push;
      PushAllMimes(settings, Snapshot(), IllustrationItems(illustrations));
      while illustrations != []
        invariant Valid()
        invariant PushAll(settings, Snapshot(), IllustrationItems(illustrations))
                  == PushAll(settings, old(Snapshot()), IllustrationItems(old(illustrations)))
        decreases |illustrations|
      {
        NextIllustration(illustrations);
        r := PushFirstIllustration();
        if r.Err? {
          return;
        }
      }
      return Ok(());
    }

    /** Whether an item was accepted under `key`: its dirent is committed, or pending in some bucket. */
    method IsPushed(key: Key) returns (b: bool)
      requires Core()
      ensures b <==> key in record.pushed
    {
      hide Indexed, SlotsOk, InFlightOk, PlansFit, GoodList, PlanHolds, Join;
      for i := 0 to |dirents|
        invariant forall j :: 0 <= j < i ==> dirents[j].Key() != key
      {
        if dirents[i].Key() == key {
          DirentMatched(settings, Snapshot(), record, i);
          return true;
        }
      }
      var keys := KeysInOrder(buckets.Keys);
      for i := 0 to |keys|
        invariant forall j, k :: 0 <= j < i && 0 <= k < |buckets[keys[j]].pending| ==> buckets[keys[j]].pending[k].Key() != key
      {
        var b := buckets[keys[i]];
        for j := 0 to |b.pending|
          invariant forall k :: 0 <= k < j ==> b.pending[k].Key() != key
        {
          if b.pending[j].Key() == key {
            PendingMatched(settings, Snapshot(), record, keys[i], j);
            return true;
          }
        }
      }
      forall k | k in buckets
        ensures forall i :: 0 <= i < |buckets[k].pending| ==> buckets[k].pending[i].Key() != key
      {
        assert k in keys;
      }
      Nowhere(settings, Snapshot(), record, key);
      return false;
    }

    /** The histogram of the content so far. */
    method CounterBody() returns (text: Bytes)
      requires Core() && Kept(record.pushed, Promises(settings, Later()), None, added) && metadata == [] && illustrations == []
      ensures CountsAll(added, text) && text == Histogram.CounterText(mimes, Articles(Snapshot()))
    {
      hide Faithful, Kept, Promises, Indexed, Histogram.CounterText, CountsAll, Listing, Articles;
      ghost var keys := ArticlesListed(settings, Snapshot(), record);
      var articles := ListArticles(dirents, buckets, Snapshot());
      text := Histogram.BuildCounter(mimes, articles);
      IndexedDistinct(mimes, mimeIndex);
      AcceptedTypes(settings, Snapshot(), record);
      CounterCounts(mimes, record.pushed, keys, articles);
      SameCounts(settings, record.pushed, Later(), added, text);
    }

    /** Adds `M/Counter`, the histogram of the content so far, unless the caller supplied one. */
    method PushCounter() returns (r: Result<()>)
      requires Valid() && inFlight == None && metadata == [] && illustrations == []
      modifies `mimes, `mimeIndex, `buckets, `clusterOffsets, `dirents, `submitted, `plans, `record, `added
      ensures r.Ok? ==> Valid() && Counted(settings, old(added), added)
      ensures r.Ok? <==> InternAll(old(mimes), CounterTypes(old(added))).Ok?
      ensures r.Ok? ==> InternAll(old(mimes), CounterTypes(old(added))) == Ok(mimes)
      ensures r.Ok? ==> WithCounter(settings, old(Snapshot()), COUNTER in old(added)) == Ok(Snapshot())
    {
      hide Faithful, Underfull, Kept, Ready, Indexed, Push, Promises, CountsAll, ItemReady, BodyOf, CounterItem, ValidArticle, Utf8,
        CounterTypes, InternAll, Articles, Histogram.CounterText;
      WithCounterMimes(settings, Snapshot(), added);
      CounterKnown(settings, record.pushed, Later(), added);
      var present := IsPushed(COUNTER);
      if present {
        return Ok(());
      }
      ghost var pushed, ps := record.pushed, Promises(settings, Later());
      var text := CounterBody();
      var item := CounterItem(text);
      CounterReady(text);
      r := PushItem(item);
      if r.Err? {
        return;
      }
      Unpromised(pushed, ps, None, added, Promise(COUNTER, CounterEntry(settings, text)));
      added := added[COUNTER := CounterEntry(settings, text)];
    }

    /** Closes every open bucket, in key order. */
    method FlushAllBuckets()
      requires Core()
      modifies `buckets, `clusterOffsets, `dirents, `submitted, `plans, `record
      ensures Core() && record.pushed == old(record.pushed) && Snapshot() == FlushAll(old(Snapshot()))
      ensures forall key :: key in buckets ==> buckets[key].blobs == []
    {
      hide Faithful, Indexed, Flush;
      var keys := KeysInOrder(set k | k in buckets && buckets[k].blobs != []);
      assert keys == InOrder(OpenKeys(Snapshot()));
      for i := 0 to |keys|
        invariant Core() && record.pushed == old(record.pushed)
        invariant FlushKeys(Snapshot(), keys[i..]) == FlushKeys(old(Snapshot()), keys)
        invariant forall key :: key in buckets ==> buckets[key].blobs == [] || key in keys[i..]
      {
        FlushFrame(Snapshot(), keys[i]);
        ghost var record' := FlushKeeps(settings, Snapshot(), record, keys[i]);
        FlushBucket(keys[i]);
        record := record';
        assert keys[i..][1..] == keys[i + 1..];
        assert forall key :: key in keys[i..] ==> key == keys[i] || key in keys[i + 1..];
      }
    }

    // ---- Finishing: the dirent table ----

    /** The slots and the type list are in order, and the dirents are the entries of `all`. */
    ghost predicate Tabled(all: Contents, hole: Option<Key>)
      reads `mimes, `buckets, `dirents, `plans, `submitted, `streamingTasks, `inFlight, `clusterOffsets, `mimeIndex
    {
      && Stocked(settings, Snapshot()) && |clusterOffsets| == |plans| && Indexed(mimes, mimeIndex)
      && Tabulates(mimes, plans, all, hole, dirents)
    }

    /** Every item is packed; only aliases are still waiting. */
    ghost predicate Packed()
      reads this
    {
      && Core() && inFlight == None && (forall key :: key in buckets ==> buckets[key].blobs == [])
      && Kept(record.pushed, Promises(settings, Later()), None, added) && Ready(Later())
      && metadata == [] && illustrations == []
    }

    method AppendMainPage(ghost all: Contents)
      requires Tabulates(mimes, plans, all, None, dirents) && Kept(all, MainPromises(mainPath), None, added)
      modifies `dirents
      ensures Tabulates(mimes, plans, added, None, dirents) && |dirents| >= |old(dirents)|
    {
      hide Tabulates, Kept, AliasOf, MainPromise;
      if mainPath.Some? {
        MainReady(all, mainPath.value, added);
        AddAlias(mimes, plans, all, dirents, MainPromise(mainPath.value));
        MainAlias(mainPath.value);
        dirents := dirents + [Redirect(NS_WELLKNOWN, MAIN_PAGE.text, MAIN_PAGE.text, NS_CONTENT, mainPath.value, None)];
        NothingLeft(all[MAIN_PAGE := MainPromise(mainPath.value).stored], added);
      } else {
        NothingLeft(all, added);
      }
    }

    /** Appends the redirects and the main page to the committed dirents. */
    method AppendRedirects()
      requires Packed()
      modifies `dirents
      ensures Tabled(added, None)
    {
      hide Faithful, Indexed, Tabulates, Kept, AliasOf, RedirectPromise, Stocked, StoredOk, MainPromises, Ready;
      FlushedTabulates(settings, Snapshot(), record);
      FaithfulStocked(settings, Snapshot(), record);
      AliasesOnly(settings, Later());
      ghost var before := Snapshot();
      ghost var all := record.pushed;
      for i := 0 to |redirections|
        modifies `dirents
        invariant Tabulates(mimes, plans, all, None, dirents) && |dirents| >= |before.dirents|
        invariant Kept(all, RedirectPromises(redirections[i..]) + MainPromises(mainPath), None, added)
      {
        var red := redirections[i];
        NextRedirect(all, redirections[i..], mainPath, added);
        RedirectStored(red, Later(), i);
        RedirectAlias(red);
        AddAlias(mimes, plans, all, dirents, RedirectPromise(red));
        dirents := dirents + [Redirect(NS_CONTENT, red.path, red.Title(), NS_CONTENT, red.target, None)];
        all := all[red.Key() := RedirectPromise(red).stored];
        assert redirections[i..][1..] == redirections[i + 1..];
      }
      LastPromises(redirections, mainPath);
      AppendMainPage(all);
      StockedDepend(settings, before, Snapshot());
    }

    method HasListing() returns (b: bool)
      requires Tabulates(mimes, plans, added, None, dirents)
      ensures b <==> LISTING in added
    {
      hide Tabulates;
      for i := 0 to |dirents|
        invariant forall j :: 0 <= j < i ==> dirents[j].Key() != LISTING
      {
        if dirents[i].Key() == LISTING {
          ListingThere(mimes, plans, added, dirents, i);
          return true;
        }
      }
      ListingAbsent(mimes, plans, added, dirents);
      return false;
    }

    /** Appends the entry of the generated listing, unless the caller supplied one; fails exactly when its type does not
        fit the list. */
    method ReserveListing() returns (r: Result<bool>)
      requires Tabled(added, None)
      modifies `mimes, `mimeIndex, `dirents
      ensures match r
        case Ok(false) => LISTING in added && Tabled(added, None)
        case Ok(true) => LISTING !in added && Tabled(WithHole(added), Some(LISTING))
        case Err(_) => true
      ensures r.Ok? <==> InternAll(old(mimes), ListingTypes(added)).Ok?
    {
      OneType(mimes, ZIM_LISTING);
      hide Stocked, Tabulates, Indexed, Intern, InternAll, WithHole;
      NoTypes(mimes);
      var present := HasListing();
      if present {
        return Ok(false);
      }
      ghost var before := Snapshot();
      StockedList(settings, before);
      InternListing(mimes);
      var mimeIdx := InternMime(ZIM_LISTING);
      if mimeIdx.Err? {
        return Err(mimeIdx.error);
      }
      AddHole(before.mimes, mimes, plans, added, dirents, mimeIdx.value);
      dirents := dirents + [HoleDirent(mimeIdx.value)];
      StockedDepend(settings, before, Snapshot());
      return Ok(true);
    }

    /** Sorts the entries by path, resolves the redirects and lists the pages. It fails exactly when a target was
        never added or aliases form a loop; the duplicate check never fires. */
    method Arrange(ghost all: Contents, ghost hole: Option<Key>) returns (r: Result<seq<nat>>)
      requires Tabled(all, hole)
      modifies `dirents
      ensures r.Err? <==> !TargetsPresent(all) || Looping(all)
      ensures r.Ok? ==> Tabled(all, hole) && AllLinked(all, dirents) && StrictlyAscending(DirentKeys(dirents))
                        && IsListing(all, dirents, r.value) && Grounded(all)
    {
      hide Stocked, Tabulates, Indexed, AllLinked, IsListing, TargetsPresent, Looping, StrictlyAscending, Sorted, Points, Grounded;
      ghost var before := Snapshot();
      ghost var ids;
      var sorted;
      sorted, ids := SortByPath(dirents);
      PermutedTabulates(mimes, plans, all, hole, dirents, ids);
      FitsAll(mimes, plans, all, hole, dirents);
      SortedStrictly(dirents, ids);
      var unique := NoDuplicates(sorted);
      StrictNoDuplicates(sorted);
      if !unique {
        return Err(InvalidInput);
      }
      var resolved := Resolve(sorted);
      DanglingIsMissing(mimes, plans, all, hole, sorted);
      if resolved.Err? {
        return Err(resolved.error);
      }
      ResolvedTabulates(mimes, plans, all, hole, sorted, resolved.value);
      ResolvedLinked(mimes, plans, all, hole, sorted, resolved.value);
      TabulatesFlagged(mimes, plans, all, hole, resolved.value);
      LinkedPresent(all, resolved.value);
      dirents := resolved.value;
      StockedDepend(settings, before, Snapshot());
      ghost var rounds;
      r, rounds := ListPages(mimes, all, dirents);
    }

    /** Gives the reserved entry its cluster and submits the listing, stored uncompressed. */
    method EmitListing(ghost all: Contents, listing: seq<nat>)
      requires Tabled(all, Some(LISTING)) && AllLinked(all, dirents) && StrictlyAscending(DirentKeys(dirents))
      requires IsListing(all, dirents, listing) && HoleThere(all) && Grounded(all)
      modifies `dirents, `clusterOffsets, `plans, `submitted
      ensures var all' := all[LISTING := ListingEntry(listing)];
        && Tabled(all', None) && AllLinked(all', dirents) && StrictlyAscending(DirentKeys(dirents))
        && IsListing(all', dirents, listing) && Grounded(all')
      ensures submitted == old(submitted) + [ListingJob(old(|clusterOffsets|), listing)] && plans == WithListing(old(plans), listing)
    {
      hide Stocked, Tabulates, Indexed, AllLinked, IsListing, StrictlyAscending, Table, ListingEntry, Grounded;
      ghost var before := Snapshot();
      FitsAll(mimes, plans, all, Some(LISTING), dirents);
      ghost var pos := IndexOf(dirents, LISTING);
      HoleReserved(mimes, plans, all, dirents, pos);
      var i := 0;
      while dirents[i].Key() != LISTING
        invariant 0 <= i <= pos
        decreases pos - i
      {
        i := i + 1;
      }
      SameKey(dirents, i, pos);
      var bytes := AppendTable([], listing, false);
      assert [] + Table(listing, false, |listing|) == Table(listing, false, |listing|);
      var clusterIdx := |clusterOffsets|;
      FilledTabulates(mimes, plans, all, dirents, pos, listing);
      FilledLinked(all, dirents, pos, clusterIdx, listing);
      FilledShape(all, dirents, pos, clusterIdx, listing);
      FilledKeys(dirents, pos, clusterIdx);
      SameGrounded(all, all[LISTING := ListingEntry(listing)]);
      SameListing(all, all[LISTING := ListingEntry(listing)], dirents, Filled(dirents, pos, clusterIdx), listing);
      SubmitStocked(settings, before, bytes);
      clusterOffsets := clusterOffsets + [0];
      dirents := Filled(dirents, i, clusterIdx);
      plans := plans + [Some(Plan([bytes], Raw))];
      SendCluster(clusterIdx, [bytes], Raw);
      StockedDepend(settings, Submit(before, [bytes], Raw), Snapshot());
    }

    // ---- Finishing: the file ----

    /** Ends the encode pipeline: the file grows by the submitted clusters in order, and each slot gets the offset at
        which its cluster starts. It fails exactly when a cluster cannot be encoded. */
    method ShutdownPipeline() returns (r: Result<()>)
      requires Stocked(settings, Snapshot()) && |clusterOffsets| == |plans| && file == Zeros(CLUSTERS_POS)
      modifies `file, `clusterOffsets
      ensures r.Ok? <==> AllCanEncode(settings.codec, submitted)
      ensures r.Ok? ==>
                && file == Pipeline.Log(settings.codec, old(file), submitted, |submitted|)
                && |clusterOffsets| == |plans|
                && Placed(clusterOffsets, Slots(Snapshot()), Parts(settings.codec, Snapshot()), |submitted|)
    {
      hide Stocked, EncodeCluster, Pipeline.Log, Pipeline.Offsets, Join, Zeros, Parts, Slots;
      var written, pos := file, |file|;
      var offsets: seq<(nat, nat)> := [];
      NothingLogged(settings.codec, file, submitted);
      for i := 0 to |submitted|
        modifies {}
        invariant pos == |written| && written == Pipeline.Log(settings.codec, file, submitted, i)
        invariant offsets == Pipeline.Offsets(settings.codec, file, submitted, i)
        invariant forall j :: 0 <= j < i ==> CanEncode(settings.codec, submitted[j])
      {
        var encoded := Encode(settings.codec, submitted[i].blobs, submitted[i].comp);
        if encoded.Err? {
          assert !CanEncode(settings.codec, submitted[i]);
          return Err(encoded.error);
        }
        Pipeline.LogStep(settings.codec, file, submitted, i);
        offsets := offsets + [(submitted[i].idx, pos)];
        written := written + encoded.value;
        pos := pos + |encoded.value|;
      }
      ghost var base := file;
      file := written;
      for i := 0 to |offsets|
        modifies `clusterOffsets
        invariant |clusterOffsets| == |plans|
        invariant Placed(clusterOffsets, Slots(Snapshot()), Parts(settings.codec, Snapshot()), i)
      {
        LoggedOffset(settings, Snapshot(), base, i);
        PlaceNext(clusterOffsets, Slots(Snapshot()), Parts(settings.codec, Snapshot()), i);
        clusterOffsets := clusterOffsets[offsets[i].0 := offsets[i].1];
      }
      return Ok(());
    }

    /** Appends the finished scratch files behind the pipeline's clusters, in slot order. */
    method DrainStreamingTasks() returns (r: Result<()>)
      requires Stocked(settings, Snapshot()) && |clusterOffsets| == |plans| && file == Zeros(CLUSTERS_POS)
      modifies `file, `clusterOffsets
      ensures r.Ok? <==> AllEncoded(settings.codec, Snapshot())
      ensures r.Ok? ==>
                && file == Zeros(CLUSTERS_POS) + JoinAll(Parts(settings.codec, Snapshot()))
                && |clusterOffsets| == |plans|
                && Placed(clusterOffsets, Slots(Snapshot()), Parts(settings.codec, Snapshot()), |Slots(Snapshot())|)
    {
      hide Stocked, EncodeCluster, Pipeline.Log, Join, Zeros, Placed, Parts, Slots, AllEncoded;
      EncodedMeans(settings.codec, Snapshot());
      r := ShutdownPipeline();
      if r.Err? {
        return;
      }
      for i := 0 to |streamingTasks|
        invariant forall j :: 0 <= j < i ==> streamingTasks[j].result.Ok?
      {
        if streamingTasks[i].result.Err? {
          return Err(streamingTasks[i].result.error);
        }
      }
      ghost var n := |submitted|;
      LoggedAll(settings, Snapshot());
      for i := 0 to |streamingTasks|
        modifies `file, `clusterOffsets
        invariant |clusterOffsets| == |plans|
        invariant file == Zeros(CLUSTERS_POS) + Join(Parts(settings.codec, Snapshot()), n + i)
        invariant Placed(clusterOffsets, Slots(Snapshot()), Parts(settings.codec, Snapshot()), n + i)
      {
        TaskPart(settings, Snapshot(), i);
        PlaceNext(clusterOffsets, Slots(Snapshot()), Parts(settings.codec, Snapshot()), n + i);
        clusterOffsets := clusterOffsets[streamingTasks[i].clusterIdx := |file|];
        file := file + streamingTasks[i].result.value;
      }
      return Ok(());
    }

    /** Lays out the tables behind the clusters, fills the reserved regions and appends the digest. */
    method WriteTables(ghost all: Contents) returns (ghost img: Image, ghost digest: Bytes)
      requires Finished(settings, Snapshot(), all) && |uuid| == 16 && |clusterOffsets| == |plans|
      requires Placed(clusterOffsets, Slots(Snapshot()), Parts(settings.codec, Snapshot()), |Slots(Snapshot())|)
      requires file == Zeros(CLUSTERS_POS) + JoinAll(Parts(settings.codec, Snapshot()))
      requires mainPath.Some? ==> MAIN_PAGE in all
      modifies `file
      ensures Sealed(settings, Snapshot(), img) && TitlesSorted(img) && img.uuid == uuid && Sized(img)
      ensures file == FileOf(img, digest) && digest == md5(file[..img.ChecksumPos()])
      ensures if mainPath.Some? then img.mainPage < |dirents| && dirents[img.mainPage].Key() == MAIN_PAGE
              else img.mainPage == U32_MAX
    {
      hide Finished, Placed, Sorted, Zeros, Join, Slots, Parts, PlansOf, StrictlyAscending, Stocked, FileOf, TotalLen;
      CompleteParts(settings, Snapshot(), all);
      var titles := Sort(TitleKeysOf(dirents), Numbers(|dirents|));
      var mainIdx := U32_MAX;
      if mainPath.Some? {
        var found := BinarySearch(DirentKeys(dirents), MAIN_PAGE);
        KeyListed(mimes, plans, all, dirents, MAIN_PAGE);
        assert found.Some?;
        assert DirentKeys(dirents)[found.value] == dirents[found.value].Key();
        mainIdx := found.value;
      }
      img := Seal(settings, Snapshot(), uuid, titles, clusterOffsets, mainIdx);
      SealSized(settings, Snapshot(), img);
      file, digest := WriteOut(file, uuid, mimes, dirents, titles, clusterOffsets, mainIdx, md5, img);
    }

    /** Re-opens the written file and runs the structural checks. */
    method VerifyOutput() returns (r: Result<()>)
      ensures r.Ok? <==> Passes(settings.codec, file)
    {
      hide Open, Checks.Sound;
      var archive := Open(settings.codec, file);
      if archive.Err? {
        return Err(Io);
      }
      r := Checks.VerifyArchive(archive.value);
    }

    /** The draft once everything that waits is packed. */
    ghost function Closing(): Result<Draft>
      reads `mimes, `buckets, `dirents, `plans, `submitted, `streamingTasks, `inFlight, `redirections, `metadata, `illustrations,
        `mainPath, `added
    {
      Closed(settings, Snapshot(), Later(), COUNTER in added)
    }

    lemma PackedKnown()
      requires Packed()
      ensures PlansKnown(plans, added)
    {
      hide Faithful, Kept, Ready, Promises, Indexed, PlansKnown;
      PlansOfAdded(settings, Snapshot(), record, Promises(settings, Later()), added);
    }

    /** Pushes what waits, adds the counter and closes the buckets. It fails exactly when the types do not fit the list. */
    method Pack() returns (r: Result<()>)
      requires Valid() && inFlight == None
      modifies `mimes, `mimeIndex, `buckets, `clusterOffsets, `dirents, `submitted, `plans, `record, `metadata, `illustrations, `added
      ensures r.Ok? <==> InternAll(old(mimes), TypesPacked(old(Later()), old(added))).Ok?
      ensures r.Ok? ==> InternAll(old(mimes), TypesPacked(old(Later()), old(added))) == Ok(mimes)
      ensures r.Ok? ==> Packed() && Counted(settings, old(added), added) && old(Closing()) == Ok(Snapshot())
    {
      hide Core, Underfull, Kept, Ready, Promises, Counted, InternAll, TypesOf, MetadataItems, IllustrationItems, CounterTypes, TypesPacked,
        PushAll, WithCounter, FlushAll;
      PackedInTurn(mimes, Later(), added);
      r := PushMetadata();
      if r.Err? {
        return;
      }
      r := PushIllustrations();
      if r.Err? {
        return;
      }
      r := PushCounter();
      if r.Err? {
        return;
      }
      FlushAllBuckets();
    }

    /** Packs everything and makes the dirent table, with a place for the listing unless the caller supplied one. It fails
        exactly when the types of all this do not fit the list. */
    method Collect() returns (r: Result<bool>)
      requires Valid() && inFlight == None
      modifies `mimes, `mimeIndex, `buckets, `clusterOffsets, `dirents, `submitted, `plans, `record, `metadata, `illustrations, `added
      ensures r.Ok? ==> r.value == (LISTING !in added) && Counted(settings, old(added), added)
                        && Tabled(if r.value then WithHole(added) else added, if r.value then Some(LISTING) else None)
      ensures r.Ok? <==> InternAll(old(mimes), TypesWanted(old(Later()), old(added))).Ok?
      ensures r.Ok? ==> PlansKnown(plans, added) && old(Closing()).Ok? && submitted == old(Closing()).value.jobs
    {
      hide Valid, Packed, Tabled, Later, WithHole, Counted, InternAll, TypesPacked, TypesWanted, ListingTypes, Closing, PlansKnown;
      WantedInTurn(mimes, Later(), added);
      ListingWanted(settings, added);
      var packed := Pack();
      if packed.Err? {
        return Err(packed.error);
      }
      PackedKnown();
      AppendRedirects();
      r := ReserveListing();
    }

    /** From the accepted entries to the final dirent table: sorted, resolved and complete. */
    method BuildTable() returns (r: Result<()>, ghost end: Ending, ghost all: Contents)
      requires Valid() && inFlight == None
      modifies `mimes, `mimeIndex, `buckets, `clusterOffsets, `dirents, `submitted, `plans, `record, `metadata, `illustrations, `added
      ensures r.Err? ==> end == TypesFull || end == BadRedirects
      ensures r.Ok? ==> end == Done
      ensures end == TypesFull <==> InternAll(old(mimes), TypesWanted(old(Later()), old(added))).Err?
      ensures end == BadRedirects ==> !TargetsPresent(old(added)) || Looping(old(added))
      ensures end == Done ==> TargetsPresent(old(added)) && !Looping(old(added))
      ensures r.Ok? ==> Tabled(all, None) && AllLinked(all, dirents) && StrictlyAscending(DirentKeys(dirents))
                        && Completed(settings, old(added), all, dirents) && (mainPath.Some? ==> MAIN_PAGE in all)
      ensures r.Ok? ==> PlansKnown(plans, all) && Submits(old(Closing()), submitted, LISTING in old(added))
    {
      hide Faithful, Underfull, Kept, Ready, Promises, Indexed, Tabulates, Stocked, InternAll, TypesWanted, WithHole, AllLinked, IsListing,
        TargetsPresent, Looping, StrictlyAscending, ListingEntry, HoleThere, Counted, Completed, AliasShaped, Grounded, Closed, PlansKnown;
      all := map[];
      ghost var before := added;
      AddedAtEnd(settings, Snapshot(), record, Later(), added);
      ListingWanted(settings, added);
      var generate := Collect();
      if generate.Err? {
        return Err(generate.error), TypesFull, all;
      }
      all := if generate.value then WithHole(added) else added;
      SameRedirects(settings, before, added, all);
      var listing := Arrange(all, if generate.value then Some(LISTING) else None);
      if listing.Err? {
        return Err(listing.error), BadRedirects, all;
      }
      if generate.value {
        HoleIsThere(added);
        HoleFilled(old(Closing()), plans, added, submitted, |clusterOffsets|, listing.value);
        EmitListing(all, listing.value);
        all := all[LISTING := ListingEntry(listing.value)];
      }
      CompletedMeans(settings, before, added, all, generate.value, listing.value, dirents);
      return Ok(()), Done, all;
    }

    /** From the table to the file, behind the structural checks. */
    method WriteArchive(ghost before: Contents, ghost all: Contents) returns (r: Result<()>, ghost end: Ending, ghost img: Image)
      requires Tabled(all, None) && AllLinked(all, dirents) && StrictlyAscending(DirentKeys(dirents))
      requires Completed(settings, before, all, dirents) && (mainPath.Some? ==> MAIN_PAGE in all) && PlansKnown(plans, all)
      requires file == Zeros(CLUSTERS_POS) && |uuid| == 16
      modifies `file, `clusterOffsets
      ensures r.Ok? <==> end == Done
      ensures end in {Unencodable, Rejected, Done}
      ensures end == Unencodable <==> !AllEncoded(settings.codec, Snapshot())
      ensures end != Unencodable ==> (end == Done <==> Passes(settings.codec, file))
      ensures end != Unencodable ==> Finished(settings, Snapshot(), all) && Sealed(settings, Snapshot(), img)
      ensures end != Unencodable ==> Archived(settings, before, mainPath, md5, file, all, img)
      ensures end == Rejected && Small(img) ==> CallerListing(before)
    {
      hide Indexed, Tabulates, Stocked, AllLinked, AllEncoded, Placed, Slots, Parts, Zeros, Join, Finished, Sealed, FileOf, Open,
        Checks.Sound, Small, Delivered, StrictlyAscending, TitlesSorted, Completed, Sized, CallerListing;
      var drained := DrainStreamingTasks();
      if drained.Err? {
        return Err(drained.error), Unencodable, EMPTY_IMAGE;
      }
      FinishedMeans(settings, Snapshot(), all);
      ghost var digest;
      img, digest := WriteTables(all);
      SealedParts(settings, Snapshot(), img);
      SealedKnown(settings, Snapshot(), all, img);
      Deliver(settings, Snapshot(), all, img, mainPath, file, digest);
      GateOpens(settings, before, all, Snapshot(), img, file, digest);
      var verified := VerifyOutput();
      if verified.Err? {
        return Err(verified.error), Rejected, img;
      }
      return Ok(()), Done, img;
    }

    /** The type list has room for everything `finalize` adds. */
    ghost predicate TypesFit()
      reads `mimes, `redirections, `metadata, `illustrations, `mainPath, `added
    {
      HasRoom(mimes, TypesWanted(Later(), added))
    }

    /** No scratch file failed, and the codec refuses none of the clusters, neither those submitted nor those to come. */
    ghost predicate Encodable()
      reads `mimes, `buckets, `dirents, `plans, `submitted, `streamingTasks, `inFlight, `redirections, `metadata, `illustrations,
        `mainPath, `added
    {
      TasksDone(streamingTasks) && Closing().Ok? && AllCanEncode(settings.codec, Closing().value.jobs)
    }

    /** Nothing stands in the way of `finalize`. */
    ghost predicate Finishable()
      reads this
    {
      inFlight.None? && TypesFit() && TargetsPresent(added) && !Looping(added) && Encodable()
    }

    lemma TypesFitExactly()
      requires Accepting()
      ensures Valid() && file == Zeros(CLUSTERS_POS)
      ensures TypesFit() <==> InternAll(mimes, TypesWanted(Later(), added)).Ok?
    {
      hide Underfull, Kept, Ready, Covers, Indexed, Zeros, Faithful, InternAll, HasRoom, TypesWanted;
      RoomForTypes(settings, Snapshot(), record, TypesWanted(Later(), added));
    }

    /** With scratch files that are all complete, a codec that refuses nothing encodes everything. */
    lemma TotalEncodes()
      requires Accepting() && TypesFit() && TasksDone(streamingTasks)
      requires forall blobs, comp :: EncodeCluster(settings.codec, blobs, comp).Ok?
      ensures Encodable()
    {
      hide Accepting, Valid, HasRoom, InternAll, TypesWanted, EncodeCluster, Closed, TasksDone;
      TypesFitExactly();
      ClosedFits(settings, Snapshot(), Later(), added);
    }

    lemma EncodableMeans()
      ensures Encodable() <==> TasksDone(streamingTasks) && Closing().Ok? && AllCanEncode(settings.codec, Closing().value.jobs)
      ensures AllEncoded(settings.codec, Snapshot()) <==> AllCanEncode(settings.codec, submitted) && TasksDone(streamingTasks)
      ensures Finishable() <==> inFlight.None? && TypesFit() && TargetsPresent(added) && !Looping(added) && Encodable()
    {
      hide AllEncoded, AllCanEncode, TasksDone, Closed;
      EncodedMeans(settings.codec, Snapshot());
    }

    lemma SomeRefusedHere(all: Contents)
      requires Tabled(all, None) && PlansKnown(plans, all)
      ensures submitted == Snapshot().jobs
      ensures !AllCanEncode(settings.codec, submitted) ==> exists blobs, comp :: Refuses(settings.codec, all, blobs, comp)
    {
      hide PlansKnown, AllCanEncode, Refuses, Tabulates, Indexed, InFlightOk, GoodList, SlotsOk, PlansFit;
      if !AllCanEncode(settings.codec, submitted) {
        SomeRefused(settings, Snapshot(), all);
      }
    }

    /** Finishes the archive. Whether anything stands in its way is decided by the state before the call. If nothing does,
        the file is the image of exactly what was added, plus the counter and the listing unless the caller brought its own;
        within the format's limits a reader finds all of it, and the checks can only stumble over a listing of the caller's. */
    method Finalize() returns (r: Result<()>, ghost end: Ending, ghost all: Contents, ghost img: Image)
      requires Accepting() && |uuid| == 16
      modifies this
      ensures r.Ok? <==> end == Done
      ensures end == ItemOpen <==> old(inFlight).Some?
      ensures end == TypesFull <==> old(inFlight).None? && !old(TypesFit())
      ensures end == BadRedirects <==> old(inFlight).None? && old(TypesFit()) && (!TargetsPresent(old(added)) || Looping(old(added)))
      ensures end == Unencodable <==> old(inFlight).None? && old(TypesFit()) && TargetsPresent(old(added)) && !Looping(old(added))
                                      && !old(Encodable())
      ensures end in {Rejected, Done} <==> old(Finishable())
      ensures old(Finishable()) && Small(img) && !CallerListing(old(added)) ==> r.Ok?
      ensures end == Unencodable ==>
                && Completed(settings, old(added), all, dirents)
                && (TasksDone(old(streamingTasks)) ==> exists blobs, comp :: Refuses(settings.codec, all, blobs, comp))
      ensures end in {Rejected, Done} ==> (end == Done <==> Passes(settings.codec, file))
      ensures end == Rejected && Small(img) ==> CallerListing(old(added))
      ensures end in {Rejected, Done} ==> Archived(settings, old(added), old(mainPath), md5, file, all, img)
      ensures end in {Rejected, Done} ==> LaidOut(settings, old(Closing()), LISTING in old(added), Snapshot(), all, img)
      ensures mainPath == old(mainPath) && streamingTasks == old(streamingTasks)
    {
      hide *;
      TypesFitExactly();
      EncodableMeans();
      all, img := map[], EMPTY_IMAGE;
      if inFlight.Some? {
        return Err(Io), ItemOpen, all, img;
      }
      ghost var before := added;
      r, end, all := BuildTable();
      if r.Err? {
        return;
      }
      EncodableMeans();
      SubmitsEncode(settings.codec, old(Closing()), submitted, LISTING in before);
      SomeRefusedHere(all);
      r, end, img := WriteArchive(before, all);
      LaidOutMeans(settings, old(Closing()), LISTING in before, Snapshot(), all, img);
    }
  }

  /** How `finalize` ended: an item still open, the type list full, a redirect without target or in a loop, a cluster
      that could not be encoded, the file refused by the checks, or success. */
  datatype Ending = ItemOpen | TypesFull | BadRedirects | Unencodable | Rejected | Done

  ghost predicate Counted(s: Settings, before: Contents, after: Contents) {
    && COUNTER in after
    && (COUNTER in before ==> after == before)
    && (COUNTER !in before ==> exists text :: CountsAll(before, text) && after == before[COUNTER := CounterEntry(s, text)])
  }

  /** The archive holds what was added, a counter, and a listing of exactly the pages. */
  ghost predicate Completed(s: Settings, before: Contents, all: Contents, ds: seq<RawDirent>) {
    && (forall k :: k in before ==> k in all && all[k] == before[k])
    && (forall k :: k in all ==> k in before || k == COUNTER || k == LISTING)
    && COUNTER in all && LISTING in all && Grounded(all) && (forall k :: k in all ==> AliasShaped(all[k]))
    && (COUNTER !in before ==> exists text :: CountsAll(before, text) && all[COUNTER] == CounterEntry(s, text))
    && (LISTING !in before ==> exists listing :: all[LISTING] == ListingEntry(listing) && IsListing(all, ds, listing))
  }

  /** Following redirects reaches the end of the chain exactly when it has at most 16 of them. */
  ghost predicate Follows(a: Archive, k: Key, t: Key, n: nat) {
    && ByPath(a, k.ns, k.text).Ok? && ByPath(a, t.ns, t.text).Ok?
    && GetItem(a, ByPath(a, k.ns, k.text).value, true)
       == if n <= MAX_REDIRECTS then ByPath(a, t.ns, t.text) else Err(RedirectLoop)
  }

  /** What a reader finds in the file. */
  ghost predicate Delivered(s: Settings, main: Option<Bytes>, file: Bytes, img: Image, all: Contents) {
    var a := ArchiveOf(img, file);
    && Open(s.codec, file) == Ok(a)
    && Holds(a, Views(img.dirents)) && StrictlyAscending(Keys(Views(img.dirents)))
    && ReadsBack(a, all, s.target) && FromClusters(a, img, all, s.target)
    && (forall k, t, n: nat :: k in all && Reaches(all, k, t, n) ==> Follows(a, k, t, n))
    && MainEntry(a) == (if main.Some? then ByPath(a, MAIN_PAGE.ns, MAIN_PAGE.text) else Err(NoMainEntry))
  }

  /** The file is the image with its digest behind it; it holds what was added, and its clusters nothing else; within the
      limits of the format a reader finds it all. */
  ghost predicate Archived(s: Settings, before: Contents, main: Option<Bytes>, md5: Bytes -> Bytes, file: Bytes, all: Contents, img: Image) {
    && Sized(img)
    && (exists digest :: file == FileOf(img, digest) && digest == md5(file[..img.ChecksumPos()]))
    && Completed(s, before, all, img.dirents)
    && (forall c :: 0 <= c < |img.plans| ==> MadeOf(all, img.plans[c].blobs, img.plans[c].comp))
    && (Small(img) ==> Delivered(s, main, file, img, all))
  }

  /** What a reader gets for a body that was added, in terms of the item and the target size alone: the body itself if
      and only if it was stored or is at least 16 bytes below the decode limit, a decompression error otherwise. */
  lemma BodyDelivered(s: Settings, before: Contents, main: Option<Bytes>, md5: Bytes -> Bytes, file: Bytes, all: Contents, img: Image,
                      k: Key)
    requires Archived(s, before, main, md5, file, all, img) && Small(img)
    requires k in all && all[k].Body? && Roomy(s.target, |all|)
    ensures Open(s.codec, file).Ok?
    ensures var a := Open(s.codec, file).value; var e := ByPath(a, k.ns, k.text);
      && e.Ok? && e.value.dirent.ArticleEntry? && e.value.dirent.Key() == k && e.value.dirent.Title() == all[k].title
      && Mimetype(a, e.value) == all[k].mime
      && GetData(a, e.value) == (if BodyFits(all[k]) then Ok(all[k].content) else Err(Decompression))
  {
    hide Open, FromClusters, Holds, StrictlyAscending, Small, FileOf, Sized, Follows, Completed, ByPath, GetData, Mimetype, Roomy,
      BodyFits, Join, Decodable, EntryAt, MainEntry, Alone;
    assert EntryBack(ArchiveOf(img, file), all, s.target, k);
  }

  /** The caller supplied a title listing of its own. */
  ghost predicate CallerListing(added: Contents) {
    LISTING in added || !NoOtherListing(added)
  }

  const EMPTY_IMAGE: Image := Image(Clusters.Stored, [], [], [], [], [], [], [], [], 0)

  ghost predicate AliasShaped(st: Stored) {
    st.Alias? ==> st.target.ns == NS_CONTENT
  }

  lemma PushedBody(s: Settings, d: Draft, r: Record, k: Key)
    requires Faithful(s, d, r) && k in r.pushed
    ensures r.pushed[k].Body?
  {
    hide SlotsOk, InFlightOk, PlansFit, GoodList, StoredOk, Join;
    assert Located(d, r, k);
    match r.at[k] {
      case Committed(i) => assert CommittedOk(d, r, i);
      case InBucket(key, i) =>
        assert BucketOk(s, d.mimes, r, key, d.buckets[key]);
        assert PendingOk(d.mimes, r, key, d.buckets[key], i);
    }
  }

  lemma PromiseShaped(s: Settings, w: Waiting, i: nat)
    requires i < |Promises(s, w)|
    ensures AliasShaped(Promises(s, w)[i].stored)
  {
  }

  /** Every redirect points into the content namespace. */
  lemma AddedShape(s: Settings, d: Draft, r: Record, w: Waiting, added: Contents)
    requires Faithful(s, d, r) && Kept(r.pushed, Promises(s, w), None, added)
    ensures forall k :: k in added ==> AliasShaped(added[k])
  {
    hide Faithful, Promises;
    forall k | k in added
      ensures AliasShaped(added[k])
    {
      if k in r.pushed {
        PushedBody(s, d, r, k);
        assert Holding(added, Promise(k, r.pushed[k]));
      } else {
        var i :| 0 <= i < |Promises(s, w)| && Promises(s, w)[i].key == k;
        PromiseShaped(s, w, i);
        assert Holding(added, Promises(s, w)[i]);
      }
    }
  }

  /** `all` has bodies of its own outside the content namespace, and otherwise what was added. */
  ghost predicate Extends(before: Contents, all: Contents) {
    && (forall k :: k in before ==> k in all && (before[k].Alias? || all[k].Alias? ==> all[k] == before[k]))
    && (forall k :: k in all && k !in before ==> all[k].Body? && k.ns != NS_CONTENT)
    && (forall k :: k in before ==> AliasShaped(before[k]))
  }

  lemma {:induction false} ExtendsChase(before: Contents, all: Contents, k: Key, n: nat)
    requires Extends(before, all)
    ensures Chase(before, k, n) == Chase(all, k, n)
  {
    if n > 0 {
      ExtendsChase(before, all, k, n - 1);
    }
  }

  /** The additions change neither which targets exist nor which aliases loop. */
  lemma ExtendsRedirects(before: Contents, all: Contents)
    requires Extends(before, all)
    ensures TargetsPresent(before) <==> TargetsPresent(all)
    ensures Looping(before) <==> Looping(all)
  {
    if k, n: nat :| k in before && n > 0 && Chase(before, k, n) == Some(k) {
      ExtendsChase(before, all, k, n);
      assert Looping(all);
    }
    if k, n: nat :| k in all && n > 0 && Chase(all, k, n) == Some(k) {
      ExtendsChase(before, all, k, n);
      assert k in before by {
        ChaseStarts(before, k, n);
      }
    }
  }

  lemma {:induction false} ChaseStarts(all: Contents, k: Key, n: nat)
    requires n > 0 && Chase(all, k, n).Some?
    ensures k in all && all[k].Alias?
  {
    if n > 1 {
      ChaseStarts(all, k, n - 1);
    } else {
      assert Chase(all, k, 0) == Some(k);
    }
  }

  lemma SameRedirects(s: Settings, before: Contents, after: Contents, all: Contents)
    requires forall k :: k in before ==> AliasShaped(before[k])
    requires Counted(s, before, after)
    requires all == after || (LISTING !in after && all == WithHole(after))
    ensures TargetsPresent(before) <==> TargetsPresent(all)
    ensures Looping(before) <==> Looping(all)
  {
    hide CountsAll, TargetsPresent, Looping;
    ExtendsRedirects(before, all);
  }

  lemma HoleIsThere(added: Contents)
    ensures HoleThere(WithHole(added))
  {
  }

  /** The image is the finished draft, whose clusters are the packed ones and that of a generated listing. */
  ghost predicate LaidOut(s: Settings, packed: Result<Draft>, own: bool, d: Draft, all: Contents, img: Image) {
    Finished(s, d, all) && Sealed(s, d, img) && Submits(packed, d.jobs, own)
  }

  lemma LaidOutMeans(s: Settings, packed: Result<Draft>, own: bool, d: Draft, all: Contents, img: Image)
    ensures LaidOut(s, packed, own, d, all, img) <==> Finished(s, d, all) && Sealed(s, d, img) && Submits(packed, d.jobs, own)
  {
    hide Finished, Sealed, Submits;
  }

  lemma HoleFilled(packed: Result<Draft>, plans: seq<Option<Plan>>, added: Contents, jobs: seq<Pipeline.Job>, idx: nat, listing: seq<nat>)
    requires PlansKnown(plans, added) && LISTING !in added && packed.Ok? && jobs == packed.value.jobs
    ensures PlansKnown(WithListing(plans, listing), WithHole(added)[LISTING := ListingEntry(listing)])
    ensures Submits(packed, jobs + [ListingJob(idx, listing)], false)
  {
    assert WithHole(added)[LISTING := ListingEntry(listing)] == added[LISTING := ListingEntry(listing)];
    hide PlansKnown, WithHole, ListingEntry, ListingJob, WithListing;
    ListingKnown(plans, added, listing);
  }

  /** At the end every redirect points into the content namespace, and the main page has its entry. */
  lemma AddedAtEnd(s: Settings, d: Draft, r: Record, w: Waiting, added: Contents)
    requires Faithful(s, d, r) && Kept(r.pushed, Promises(s, w), None, added)
    ensures forall k :: k in added ==> AliasShaped(added[k])
    ensures w.mainPath.Some? ==> MAIN_PAGE in added
  {
    AddedShape(s, d, r, w, added);
    if w.mainPath.Some? {
      WithMain(s, w, w.mainPath.value);
      var n := |Promises(s, w)| - 1;
      hide Faithful, Promises;
      assert Promises(s, w)[n] == MainPromise(w.mainPath.value);
      assert Holding(added, Promises(s, w)[n]);
    }
  }

  lemma CompletedMeans(s: Settings, before: Contents, after: Contents, all: Contents, generated: bool, listing: seq<nat>, ds: seq<RawDirent>)
    requires Counted(s, before, after) && generated == (LISTING !in after)
    requires all == if generated then WithHole(after)[LISTING := ListingEntry(listing)] else after
    requires (generated ==> IsListing(all, ds, listing)) && Grounded(all) && forall k :: k in before ==> AliasShaped(before[k])
    ensures Completed(s, before, all, ds)
    ensures MAIN_PAGE in before ==> MAIN_PAGE in all
  {
    OwnBodies(s);
    hide CountsAll, ListingEntry, IsListing, CounterEntry, Grounded;
    if COUNTER !in before {
      var text :| CountsAll(before, text) && after == before[COUNTER := CounterEntry(s, text)];
      assert all[COUNTER] == CounterEntry(s, text);
    }
  }

  lemma OwnBodies(s: Settings)
    ensures forall text :: CounterEntry(s, text).Body?
    ensures forall listing :: ListingEntry(listing).Body?
  {
  }

  lemma FollowsBack(img: Image, all: Contents, f: Bytes)
    requires Carries(img, all) && Written(img, f)
    ensures forall k, t, n: nat :: k in all && Reaches(all, k, t, n) ==> Follows(ArchiveOf(img, f), k, t, n)
  {
    hide Carries, Written, Reaches, ByPath, GetItem;
    forall k, t, n: nat | k in all && Reaches(all, k, t, n)
      ensures Follows(ArchiveOf(img, f), k, t, n)
    {
      FollowsToItem(img, all, f, k, t, n);
    }
  }

  lemma ReadsMain(img: Image, all: Contents, f: Bytes, main: Option<Bytes>)
    requires Carries(img, all) && Written(img, f)
    requires if main.Some? then img.mainPage < |img.dirents| && img.dirents[img.mainPage].Key() == MAIN_PAGE else img.mainPage == U32_MAX
    ensures MainEntry(ArchiveOf(img, f)) == if main.Some? then ByPath(ArchiveOf(img, f), MAIN_PAGE.ns, MAIN_PAGE.text) else Err(NoMainEntry)
  {
    hide Carries, Written, ByPath, EntryAt, View;
    if main.Some? {
      CarriesGood(img, all);
      Finds(img, all, f, img.mainPage);
    }
  }

  lemma HoldsInOrder(img: Image, all: Contents, f: Bytes)
    requires Carries(img, all) && Written(img, f)
    ensures Holds(ArchiveOf(img, f), Views(img.dirents)) && StrictlyAscending(Keys(Views(img.dirents)))
  {
    hide Carries, Written, Holds, StrictlyAscending, Good;
    CarriesGood(img, all);
    HoldsViews(img, f);
    ViewsAscend(img);
  }

  lemma DeliverWritten(s: Settings, img: Image, all: Contents, f: Bytes, main: Option<Bytes>)
    requires Carries(img, all) && Written(img, f) && WithinTarget(img.plans, s.target) && FewBlobs(img.plans, |img.dirents|)
             && img.codec == s.codec
    requires if main.Some? then img.mainPage < |img.dirents| && img.dirents[img.mainPage].Key() == MAIN_PAGE else img.mainPage == U32_MAX
    ensures Delivered(s, main, f, img, all)
  {
    hide Carries, Written, WithinTarget, FewBlobs, ReadsBack, FromClusters, Open, MainEntry, Follows, Holds, StrictlyAscending;
    HoldsInOrder(img, all, f);
    ReadsAllBack(img, all, f, s.target);
    ReadsArticles(img, all, f, s.target);
    FollowsBack(img, all, f);
    ReadsMain(img, all, f, main);
  }

  /** Within the format's limits the finished file delivers everything. */
  lemma Deliver(s: Settings, d: Draft, all: Contents, img: Image, main: Option<Bytes>, file: Bytes, digest: Bytes)
    requires Finished(s, d, all) && Sealed(s, d, img) && Sized(img) && file == FileOf(img, digest)
    requires if main.Some? then img.mainPage < |img.dirents| && img.dirents[img.mainPage].Key() == MAIN_PAGE else img.mainPage == U32_MAX
    ensures Small(img) ==> Delivered(s, main, file, img, all)
  {
    hide Finished, Sealed, Sized, FileOf, Carries, Written, WithinTarget, FewBlobs, Small, Delivered;
    SealedCodec(s, d, img);
    if Small(img) {
      SealCarries(s, d, all, img);
      FileIsWritten(img, digest);
      DeliverWritten(s, img, all, file, main);
    }
  }

  lemma SealedKnown(s: Settings, d: Draft, all: Contents, img: Image)
    requires Sealed(s, d, img) && PlansKnown(d.plans, all)
    ensures forall c :: 0 <= c < |img.plans| ==> MadeOf(all, img.plans[c].blobs, img.plans[c].comp)
  {
    hide Placed, Slots, Parts, Brought;
  }

  lemma SealedCodec(s: Settings, d: Draft, img: Image)
    requires Sealed(s, d, img)
    ensures img.codec == s.codec
  {
    hide Placed, Slots, Parts, PlansOf;
  }

  lemma OtherListings(s: Settings, before: Contents, all: Contents, ds: seq<RawDirent>)
    requires Completed(s, before, all, ds) && !CallerListing(before)
    ensures NoOtherListing(all)
  {
    hide CountsAll, IsListing, ListingEntry;
    assert TITLE_V0[22] != TITLE_V1[22] && |TITLE_UNVERSIONED| != |TITLE_V1|;
  }

  lemma SoundFile(img: Image, all: Contents, f: Bytes, listing: seq<nat>)
    requires Carries(img, all) && Written(img, f) && NoOtherListing(all) && TitlesSorted(img)
    requires LISTING in all && all[LISTING] == ListingEntry(listing) && IsListing(all, img.dirents, listing)
    ensures Open(img.codec, f) == Ok(ArchiveOf(img, f)) && Checks.Sound(ArchiveOf(img, f))
  {
    assert StoresListing(all, listing);
    hide Carries, Written, Open, Checks.Sound, TitlesSorted, IsListing, StoresListing, NoOtherListing;
    CarriesGood(img, all);
    Opens(img, f);
    GatePasses(img, all, f, listing);
  }

  /** Within the format's limits the checks pass unless the caller brought a title listing. */
  lemma GateOpens(s: Settings, before: Contents, all: Contents, d: Draft, img: Image, file: Bytes, digest: Bytes)
    requires Finished(s, d, all) && Sealed(s, d, img) && Sized(img) && TitlesSorted(img) && file == FileOf(img, digest)
    requires Completed(s, before, all, img.dirents)
    ensures Small(img) && !CallerListing(before) ==> Open(s.codec, file).Ok? && Checks.Sound(Open(s.codec, file).value)
  {
    hide Finished, Sealed, Sized, FileOf, Carries, Written, WithinTarget, FewBlobs, Small, Open, Checks.Sound, TitlesSorted, CountsAll, IsListing,
      ListingEntry, NoOtherListing;
    SealedCodec(s, d, img);
    if Small(img) && !CallerListing(before) {
      OtherListings(s, before, all, img.dirents);
      SealCarries(s, d, all, img);
      FileIsWritten(img, digest);
      var listing :| all[LISTING] == ListingEntry(listing) && IsListing(all, img.dirents, listing);
      SoundFile(img, all, file, listing);
    }
  }

  lemma FinishedMeans(s: Settings, d: Draft, all: Contents)
    ensures Finished(s, d, all) <==> Stocked(s, d) && AllEncoded(s.codec, d) && Tabulates(d.mimes, d.plans, all, None, d.dirents)
                                     && AllLinked(all, d.dirents) && StrictlyAscending(DirentKeys(d.dirents))
  {
    hide Stocked, AllEncoded, Tabulates, AllLinked, StrictlyAscending;
  }

  lemma NothingLogged(codec: Codec, base: Bytes, jobs: seq<Pipeline.Job>)
    ensures Pipeline.Log(codec, base, jobs, 0) == base && Pipeline.Offsets(codec, base, jobs, 0) == []
  {
    assert base + Join(Pipeline.Encodings(codec, jobs), 0) == base;
  }

  /** The pipeline's offsets are where the parts lie behind the reserved regions. */
  lemma LoggedOffset(s: Settings, d: Draft, base: Bytes, i: nat)
    requires Stocked(s, d) && i < |d.jobs| && |base| == CLUSTERS_POS
    ensures Pipeline.Offsets(s.codec, base, d.jobs, |d.jobs|)[i] == (Slots(d)[i], CLUSTERS_POS + |Join(Parts(s.codec, d), i)|)
    ensures Slots(d)[i] < |d.plans| && Distinct(Slots(d))
  {
    SlotsBelow(s, d);
    var encodings, parts := Pipeline.Encodings(s.codec, d.jobs), Parts(s.codec, d);
    assert encodings[..i] == parts[..i];
    JoinPrefix(encodings, parts, i);
    hide Pipeline.Encodings, Join, SlotsOk, InFlightOk, GoodList;
    assert Slots(d)[i] in Slots(d);
  }

  lemma LoggedAll(s: Settings, d: Draft)
    ensures Pipeline.Log(s.codec, Zeros(CLUSTERS_POS), d.jobs, |d.jobs|)
            == Zeros(CLUSTERS_POS) + Join(Parts(s.codec, d), |d.jobs|)
    ensures |Slots(d)| == |d.jobs| + |d.tasks|
  {
    var encodings, parts := Pipeline.Encodings(s.codec, d.jobs), Parts(s.codec, d);
    assert encodings[..|d.jobs|] == parts[..|d.jobs|];
    JoinPrefix(encodings, parts, |d.jobs|);
  }

  lemma TaskPart(s: Settings, d: Draft, i: nat)
    requires Stocked(s, d) && i < |d.tasks| && d.tasks[i].result.Ok?
    ensures |Slots(d)| == |d.jobs| + |d.tasks| == |Parts(s.codec, d)|
    ensures Slots(d)[|d.jobs| + i] == d.tasks[i].clusterIdx < |d.plans| && Distinct(Slots(d))
    ensures Parts(s.codec, d)[|d.jobs| + i] == d.tasks[i].result.value
    ensures Join(Parts(s.codec, d), |d.jobs| + i + 1) == Join(Parts(s.codec, d), |d.jobs| + i) + d.tasks[i].result.value
  {
    hide Pipeline.Encodings, SlotsOk, InFlightOk, PlansFit, GoodList;
    TaskSlot(s, d, i);
  }

  lemma TaskSlot(s: Settings, d: Draft, i: nat)
    requires SlotsOk(s, d) && i < |d.tasks|
    ensures Slots(d)[|d.jobs| + i] == d.tasks[i].clusterIdx < |d.plans| && Distinct(Slots(d))
  {
    SlotsBelow(s, d);
    hide JobFits, TaskFits;
    assert Slots(d)[|d.jobs| + i] in Slots(d);
  }

  lemma KeyListed(mimes: seq<Bytes>, plans: seq<Option<Plan>>, all: Contents, ds: seq<RawDirent>, k: Key)
    requires Tabulates(mimes, plans, all, None, ds) && k in all
    ensures k in DirentKeys(ds)
  {
    FitsAll(mimes, plans, all, None, ds);
    var i := IndexOf(ds, k);
    assert DirentKeys(ds)[i] == k;
  }

  /** The listing entry before its cluster exists. */
  function HoleDirent(mimeIdx: nat): RawDirent {
    Article(NS_INDEX, TITLE_V1, TITLE_V1, mimeIdx, U32_MAX, 0)
  }

  ghost function WithHole(added: Contents): Contents {
    added[LISTING := Body(TITLE_V1, ZIM_LISTING, [], Raw)]
  }

  ghost predicate HoleThere(all: Contents) {
    LISTING in all && all[LISTING] == Body(TITLE_V1, ZIM_LISTING, [], Raw)
  }

  lemma ListingThere(mimes: seq<Bytes>, plans: seq<Option<Plan>>, all: Contents, ds: seq<RawDirent>, i: nat)
    requires Tabulates(mimes, plans, all, None, ds) && i < |ds| && ds[i].Key() == LISTING
    ensures LISTING in all
  {
    FitsAt(mimes, plans, all, None, ds, i);
  }

  lemma ListingAbsent(mimes: seq<Bytes>, plans: seq<Option<Plan>>, all: Contents, ds: seq<RawDirent>)
    requires Tabulates(mimes, plans, all, None, ds) && forall i :: 0 <= i < |ds| ==> ds[i].Key() != LISTING
    ensures LISTING !in all
  {
    FitsAll(mimes, plans, all, None, ds);
  }

  lemma StockedList(s: Settings, d: Draft)
    requires Stocked(s, d)
    ensures GoodList(d.mimes)
  {
  }

  lemma InternListing(mimes: seq<Bytes>)
    requires GoodList(mimes)
    ensures Intern(mimes, ZIM_LISTING).Ok? ==> GoodList(Intern(mimes, ZIM_LISTING).value.0)
  {
    OwnTypesValid();
    hide Intern, GoodList, ValidMime;
    if Intern(mimes, ZIM_LISTING).Ok? {
      InternKeeps(mimes, ZIM_LISTING);
    }
  }

  lemma TabulatesGrow(mimes: seq<Bytes>, mimes': seq<Bytes>, plans: seq<Option<Plan>>, all: Contents, ds: seq<RawDirent>)
    requires Tabulates(mimes, plans, all, None, ds) && mimes <= mimes'
    ensures Tabulates(mimes', plans, all, None, ds)
  {
    hide PlanHolds, StoredOk, Has, DistinctKeys;
    forall i | 0 <= i < |ds|
      ensures Fits(mimes', plans, all, None, ds[i])
    {
      assert Fits(mimes, plans, all, None, ds[i]);
    }
  }

  lemma AddHole(mimes: seq<Bytes>, mimes': seq<Bytes>, plans: seq<Option<Plan>>, added: Contents, ds: seq<RawDirent>, mimeIdx: nat)
    requires Tabulates(mimes, plans, added, None, ds) && mimes <= mimes' && LISTING !in added
    requires mimeIdx < |mimes'| && mimes'[mimeIdx] == ZIM_LISTING
    ensures Tabulates(mimes', plans, WithHole(added), Some(LISTING), ds + [HoleDirent(mimeIdx)])
  {
    TabulatesGrow(mimes, mimes', plans, added, ds);
    ListingNameStorable();
    hide Tabulates, Storable;
    AddDirent(mimes', plans, added, None, ds, HoleDirent(mimeIdx), Body(TITLE_V1, ZIM_LISTING, [], Raw), Some(LISTING));
  }

  lemma ListingNameStorable()
    ensures Storable(TITLE_V1) && TITLE_V1 != []
  {
    assert Plain(TITLE_V1);
    PlainText(TITLE_V1);
  }

  lemma StrictNoDuplicates(ds: seq<RawDirent>)
    requires StrictlyAscending(DirentKeys(ds))
    ensures forall i :: 0 < i < |ds| ==> ds[i - 1].Key() != ds[i].Key()
  {
    hide CompareKey;
    forall i | 0 < i < |ds|
      ensures ds[i - 1].Key() != ds[i].Key()
    {
      assert KeyLt(DirentKeys(ds)[i - 1], DirentKeys(ds)[i]);
      CompareKeyTotal(DirentKeys(ds)[i - 1], DirentKeys(ds)[i]);
    }
  }

  lemma LinkedPresent(all: Contents, ds: seq<RawDirent>)
    requires AllLinked(all, ds)
    ensures TargetsPresent(all)
  {
    forall k | k in all && all[k].Alias?
      ensures all[k].target in all
    {
      var i := IndexOf(ds, k);
      assert Linked(all, ds, i);
      KeyIn(all, ds, ds[i].resolved.value);
    }
  }

  lemma HoleReserved(mimes: seq<Bytes>, plans: seq<Option<Plan>>, all: Contents, ds: seq<RawDirent>, pos: nat)
    requires Tabulates(mimes, plans, all, Some(LISTING), ds) && HoleThere(all) && pos < |ds| && ds[pos].Key() == LISTING
    ensures Reserved(all, ds, pos)
  {
    FitsAt(mimes, plans, all, Some(LISTING), ds, pos);
  }

  lemma FilledKeys(ds: seq<RawDirent>, pos: nat, cluster: nat)
    requires pos < |ds| && ds[pos].Article?
    ensures DirentKeys(Filled(ds, pos, cluster)) == DirentKeys(ds)
  {
  }

  lemma SubmitStocked(s: Settings, d: Draft, bytes: Bytes)
    requires Stocked(s, d) && d.dirents != []
    ensures Stocked(s, Submit(d, [bytes], Raw))
  {
    SubmitSlots(s, d, [bytes], Raw);
    SubmitInFlight(s, d, [bytes], Raw);
    hide SlotsOk, InFlightOk, GoodList, Join;
  }

  /** The dirent of a promised alias, before its target is resolved. */
  function AliasOf(p: Promise): RawDirent
    requires p.stored.Alias?
  {
    Redirect(p.key.ns, p.key.text, p.stored.title, p.stored.target.ns, p.stored.target.text, None)
  }

  lemma RedirectAlias(r: Redirection)
    ensures RedirectPromise(r).stored.Alias? && RedirectPromise(r).key == r.Key()
    ensures AliasOf(RedirectPromise(r)) == Redirect(NS_CONTENT, r.path, r.Title(), NS_CONTENT, r.target, None)
  {
  }

  lemma MainAlias(target: Bytes)
    ensures MainPromise(target).stored.Alias? && MainPromise(target).key == MAIN_PAGE
    ensures AliasOf(MainPromise(target)) == Redirect(NS_WELLKNOWN, MAIN_PAGE.text, MAIN_PAGE.text, NS_CONTENT, target, None)
  {
  }

  lemma FaithfulStocked(s: Settings, d: Draft, r: Record)
    requires Faithful(s, d, r) && d.inFlight == None
    ensures Stocked(s, d)
  {
    hide RecordsOk, DirentsFit, BucketsFit, PlansFit, SlotsOk, InFlightOk, GoodList;
  }

  lemma StockedDepend(s: Settings, d: Draft, d': Draft)
    requires Stocked(s, d) && (d'.mimes == d.mimes || (d.mimes <= d'.mimes && GoodList(d'.mimes)))
    requires d'.plans == d.plans && d'.jobs == d.jobs && d'.tasks == d.tasks && d'.inFlight == d.inFlight
    requires |d.dirents| <= |d'.dirents|
    ensures Stocked(s, d')
  {
    hide SlotsOk, InFlightOk, GoodList, Join;
    SlotsDepend(s, d, d');
    forall c | 0 <= c < |d'.plans|
      ensures PlanSized(s, d'.plans[c], |d'.dirents|)
    {
      assert PlanSized(s, d.plans[c], |d.dirents|);
    }
  }

  lemma AliasesOnly(s: Settings, w: Waiting)
    requires w.metadata == [] && w.illustrations == []
    ensures Promises(s, w) == RedirectPromises(w.redirections[0..]) + MainPromises(w.mainPath)
  {
    assert w.redirections[0..] == w.redirections;
    assert MetadataPromises(s, w.metadata) == [] && IllustrationPromises(s, w.illustrations) == [];
  }

  lemma NextRedirect(all: Contents, rest: seq<Redirection>, main: Option<Bytes>, added: Contents)
    requires rest != [] && Kept(all, RedirectPromises(rest) + MainPromises(main), None, added)
    ensures rest[0].Key() !in all
    ensures Kept(all[rest[0].Key() := RedirectPromise(rest[0]).stored], RedirectPromises(rest[1..]) + MainPromises(main), None, added)
  {
    hide Kept;
    var p, back := RedirectPromise(rest[0]), RedirectPromises(rest[1..]) + MainPromises(main);
    assert RedirectPromises(rest) + MainPromises(main) == [] + ([p] + back);
    Redeem(all, [], back, None, added, p);
    assert [] + back == back;
  }

  lemma RedirectStored(r: Redirection, w: Waiting, i: nat)
    requires Ready(w) && i < |w.redirections| && r == w.redirections[i]
    ensures StoredOk(r.Key(), RedirectPromise(r).stored) && RedirectPromise(r).stored.Alias? && RedirectPromise(r).key == r.Key()
  {
    hide ItemReady, ValidUtf8;
  }

  lemma LastPromises(rs: seq<Redirection>, main: Option<Bytes>)
    ensures RedirectPromises(rs[|rs|..]) + MainPromises(main) == MainPromises(main)
  {
  }

  lemma MainNameStorable()
    ensures Storable(MAIN_PAGE.text) && MAIN_PAGE.text != []
  {
    assert Plain(MAIN_PAGE.text);
    PlainText(MAIN_PAGE.text);
  }

  lemma MainReady(all: Contents, target: Bytes, added: Contents)
    requires Kept(all, MainPromises(Some(target)), None, added)
    ensures MAIN_PAGE !in all && Kept(all[MAIN_PAGE := MainPromise(target).stored], [], None, added)
    ensures StoredOk(MAIN_PAGE, MainPromise(target).stored) && MainPromise(target).stored.Alias? && MainPromise(target).key == MAIN_PAGE
  {
    hide Kept, Storable;
    MainNameStorable();
    var none: seq<Promise> := [];
    assert MainPromises(Some(target)) == none + ([MainPromise(target)] + none) && none + none == none;
    Redeem(all, none, none, None, added, MainPromise(target));
  }

  lemma AddAlias(mimes: seq<Bytes>, plans: seq<Option<Plan>>, all: Contents, ds: seq<RawDirent>, p: Promise)
    requires Tabulates(mimes, plans, all, None, ds) && p.key !in all && p.stored.Alias? && StoredOk(p.key, p.stored)
    ensures Tabulates(mimes, plans, all[p.key := p.stored], None, ds + [AliasOf(p)])
  {
    hide Tabulates, StoredOk;
    AddDirent(mimes, plans, all, None, ds, AliasOf(p), p.stored, None);
  }

  /** When every promise is redeemed, what was added is what is there. */
  lemma NothingLeft(all: Contents, added: Contents)
    requires Kept(all, [], None, added)
    ensures all == added
  {
    forall k
      ensures k in all <==> k in added
      ensures k in all ==> all[k] == added[k]
    {
      assert k in all ==> Holding(added, Promise(k, all[k]));
    }
  }

  lemma RoomForTypes(s: Settings, d: Draft, r: Record, wanted: seq<Bytes>)
    requires Faithful(s, d, r)
    ensures InternAll(d.mimes, wanted).Ok? <==> HasRoom(d.mimes, wanted)
  {
    MimesAreGood(s, d, r);
    hide Faithful, InFlightOk, SlotsOk, RecordsOk, ValidMime, Distinct;
    InternAllExact(d.mimes, wanted);
  }

  lemma ListingWanted(s: Settings, before: Contents)
    ensures forall after :: Counted(s, before, after) ==>
              ListingTypes(after) == ListingTypes(before) && (LISTING in after <==> LISTING in before)
  {
    hide CountsAll, CounterEntry;
  }

  ghost predicate Passes(codec: Codec, file: Bytes) {
    Open(codec, file).Ok? && Checks.Sound(Open(codec, file).value)
  }

  lemma Nowhere(s: Settings, d: Draft, r: Record, k: Key)
    requires Faithful(s, d, r) && forall i :: 0 <= i < |d.dirents| ==> d.dirents[i].Key() != k
    requires forall key :: key in d.buckets ==> forall i :: 0 <= i < |d.buckets[key].pending| ==> d.buckets[key].pending[i].Key() != k
    ensures k !in r.pushed
  {
    hide SlotsOk, InFlightOk, PlansFit, GoodList, BucketsFit, DirentsFit, StoredOk;
    assert k in r.pushed ==> Located(d, r, k);
  }

  lemma ReadyMeans(item: Item)
    requires ItemReady(item)
    ensures Utf8(item.meta) && ValidArticle(item.meta)
  {
    hide Utf8, ValidArticle, MetaOk;
  }

  /** The first metadata entry can be pushed, and then counts as pushed. */
  lemma FirstMetadataReady(s: Settings, pushed: Contents, w: Waiting, added: Contents)
    requires Kept(pushed, Promises(s, w), None, added) && Ready(w) && w.metadata != []
    ensures var item := w.metadata[0].Item();
      && ItemReady(item) && item.meta.Key() !in pushed
      && Kept(pushed[item.meta.Key() := BodyOf(s, item.meta, item.content)], Promises(s, w.(metadata := w.metadata[1..])), None, added)
      && Ready(w.(metadata := w.metadata[1..]))
  {
    FirstMetadata(s, w);
    hide Kept, ItemReady, Storable, BodyOf;
    Redeem(pushed, RedirectPromises(w.redirections),
      MetadataPromises(s, w.metadata[1..]) + (IllustrationPromises(s, w.illustrations) + MainPromises(w.mainPath)), None, added,
      ItemPromise(s, w.metadata[0].Item()));
  }

  lemma FirstIllustrationReady(s: Settings, pushed: Contents, w: Waiting, added: Contents)
    requires Kept(pushed, Promises(s, w), None, added) && Ready(w) && w.illustrations != [] && w.metadata == []
    ensures var item := w.illustrations[0].Item();
      && ItemReady(item) && item.meta.Key() !in pushed
      && Kept(pushed[item.meta.Key() := BodyOf(s, item.meta, item.content)],
              Promises(s, w.(illustrations := w.illustrations[1..])), None, added)
      && Ready(w.(illustrations := w.illustrations[1..]))
  {
    FirstIllustration(s, w);
    hide Kept, ItemReady, Storable, BodyOf;
    Redeem(pushed, RedirectPromises(w.redirections),
      IllustrationPromises(s, w.illustrations[1..]) + MainPromises(w.mainPath), None, added,
      ItemPromise(s, w.illustrations[0].Item()));
  }

  lemma CounterReady(text: Bytes)
    ensures var item := CounterItem(text);
      ItemReady(item) && Utf8(item.meta) && ValidArticle(item.meta) && item.meta.Key() == COUNTER && item.content == text
      && item.meta.mimetype == TEXT_PLAIN_UTF8
  {
    OwnTypesValid();
    assert Plain(COUNTER.text);
    PlainMetadata(COUNTER.text, TEXT_PLAIN_UTF8, text);
    hide Plain, ValidMime, Utf8, ValidArticle, MetaOk;
  }

  lemma AcceptedTypes(s: Settings, d: Draft, r: Record)
    requires Faithful(s, d, r)
    ensures Histogram.AllMimes(d.mimes)
  {
    MimesAreGood(s, d, r);
    hide Faithful, InFlightOk, SlotsOk, RecordsOk, PlansKnown, ValidMime;
  }

  lemma IndexedDistinct(mimes: seq<Bytes>, index: map<Bytes, nat>)
    requires Indexed(mimes, index)
    ensures Distinct(mimes)
  {
  }

  /** With metadata and illustrations pushed, only redirects and the main page are still waiting. */
  lemma WaitingAliases(s: Settings, pushed: Contents, w: Waiting, added: Contents, k: Key)
    requires Kept(pushed, Promises(s, w), None, added) && w.metadata == [] && w.illustrations == []
    ensures Promising(Promises(s, w), k) ==> k in added && added[k].Alias? && (k.ns == NS_CONTENT || k == MAIN_PAGE)
    ensures k in added && added[k].Body? ==> k in pushed
    ensures k in pushed ==> k in added && added[k] == pushed[k]
  {
    var ps := Promises(s, w);
    assert ps == RedirectPromises(w.redirections) + MainPromises(w.mainPath);
    if i :| 0 <= i < |ps| && ps[i].key == k {
      assert Holding(added, ps[i]);
    }
  }

  lemma CounterKnown(s: Settings, pushed: Contents, w: Waiting, added: Contents)
    requires Kept(pushed, Promises(s, w), None, added) && w.metadata == [] && w.illustrations == []
    ensures COUNTER in added <==> COUNTER in pushed
    ensures !Promising(Promises(s, w), COUNTER)
  {
    WaitingAliases(s, pushed, w, added, COUNTER);
  }

  /** What counts as content is the same among the pushed items and among everything added. */
  lemma SameCounts(s: Settings, pushed: Contents, w: Waiting, added: Contents, text: Bytes)
    requires Kept(pushed, Promises(s, w), None, added) && w.metadata == [] && w.illustrations == []
    requires CountsAll(pushed, text)
    ensures CountsAll(added, text)
  {
    hide Kept, Promises;
    forall kind
      ensures OfKind(added, kind) == OfKind(pushed, kind)
    {
      hide TypeIs;
      forall k
        ensures k in OfKind(added, kind) <==> k in OfKind(pushed, kind)
      {
        WaitingAliases(s, pushed, w, added, k);
      }
    }
    hide OfKind, Histogram.Find, Histogram.ReadCounter;
    assert IsHistogram(added, Histogram.ReadCounter(text).value);
  }

  lemma Utf8Means(m: Meta)
    requires ValidUtf8(m.path) && ValidUtf8(m.title)
    ensures Utf8(m)
  {
  }

  lemma KeptOpen(pushed: Contents, ps: seq<Promise>, k: Key, added: Contents)
    requires Kept(pushed, ps, Some(k), added)
    ensures k !in pushed && !Promising(ps, k)
  {
    forall i | 0 <= i < |ps|
      ensures ps[i].key != k
    {
    }
  }

  lemma CoversClosed(keys: set<Key>, pushed: Contents, ps: seq<Promise>, k: Key, st: Stored)
    requires Covers(keys, pushed, ps, Some(k))
    ensures Covers(keys, pushed, ps, None) && Covers(keys, pushed[k := st], ps, None)
  {
    forall x | x !in keys
      ensures Unused(pushed, ps, None, x) && Unused(pushed[k := st], ps, None, x)
    {
      assert Unused(pushed, ps, Some(k), x);
    }
  }

  /** Inserting a promise under a free key keeps the books. */
  lemma PromiseAdded(pushed: Contents, front: seq<Promise>, back: seq<Promise>, open: Option<Key>, added: Contents,
                     keys: set<Key>, p: Promise)
    requires Kept(pushed, front + back, open, added) && Covers(keys, pushed, front + back, open) && p.key !in keys
    ensures Kept(pushed, front + ([p] + back), open, added[p.key := p.stored])
    ensures Covers(keys + {p.key}, pushed, front + ([p] + back), open)
  {
    assert Unused(pushed, front + back, open, p.key);
    Insert(pushed, front, back, open, added, p);
    forall x | x !in keys + {p.key}
      ensures Unused(pushed, front + ([p] + back), open, x)
    {
      assert Unused(pushed, front + back, open, x);
      PromisingMiddle(front, p, back, x);
    }
  }

  lemma RedirectAdded(s: Settings, pushed: Contents, w: Waiting, open: Option<Key>, added: Contents, keys: set<Key>, r: Redirection)
    requires Kept(pushed, Promises(s, w), open, added) && Covers(keys, pushed, Promises(s, w), open) && r.Key() !in keys
    ensures var w' := w.(redirections := w.redirections + [r]);
      && Kept(pushed, Promises(s, w'), open, added[r.Key() := RedirectPromise(r).stored])
      && Covers(keys + {r.Key()}, pushed, Promises(s, w'), open)
  {
    WithRedirect(s, w, r);
    hide Kept, Covers;
    PromiseAdded(pushed, RedirectPromises(w.redirections),
      MetadataPromises(s, w.metadata) + (IllustrationPromises(s, w.illustrations) + MainPromises(w.mainPath)), open, added, keys,
      RedirectPromise(r));
  }

  lemma MetadataAdded(s: Settings, pushed: Contents, w: Waiting, open: Option<Key>, added: Contents, keys: set<Key>, m: MetadataEntry)
    requires Kept(pushed, Promises(s, w), open, added) && Covers(keys, pushed, Promises(s, w), open) && m.Item().meta.Key() !in keys
    ensures var w', p := w.(metadata := w.metadata + [m]), ItemPromise(s, m.Item());
      && Kept(pushed, Promises(s, w'), open, added[p.key := p.stored]) && Covers(keys + {p.key}, pushed, Promises(s, w'), open)
  {
    WithMetadata(s, w, m);
    hide Kept, Covers, Promises, BodyOf;
    PromiseAdded(pushed, RedirectPromises(w.redirections) + MetadataPromises(s, w.metadata),
      IllustrationPromises(s, w.illustrations) + MainPromises(w.mainPath), open, added, keys, ItemPromise(s, m.Item()));
  }

  lemma IllustrationAdded(s: Settings, pushed: Contents, w: Waiting, open: Option<Key>, added: Contents, keys: set<Key>, il: Illustration)
    requires Kept(pushed, Promises(s, w), open, added) && Covers(keys, pushed, Promises(s, w), open) && il.Item().meta.Key() !in keys
    ensures var w', p := w.(illustrations := w.illustrations + [il]), ItemPromise(s, il.Item());
      && Kept(pushed, Promises(s, w'), open, added[p.key := p.stored]) && Covers(keys + {p.key}, pushed, Promises(s, w'), open)
  {
    WithIllustration(s, w, il);
    hide Kept, Covers, Promises, BodyOf;
    PromiseAdded(pushed,
      RedirectPromises(w.redirections) + MetadataPromises(s, w.metadata) + IllustrationPromises(s, w.illustrations),
      MainPromises(w.mainPath), open, added, keys, ItemPromise(s, il.Item()));
  }

  lemma MainSet(s: Settings, pushed: Contents, w: Waiting, open: Option<Key>, added: Contents, keys: set<Key>, path: Bytes)
    requires Kept(pushed, Promises(s, w), open, added) && Covers(keys, pushed, Promises(s, w), open)
    requires w.mainPath.None? ==> MAIN_PAGE !in keys
    ensures var w' := w.(mainPath := Some(path));
      && Kept(pushed, Promises(s, w'), open, added[MAIN_PAGE := MainPromise(path).stored])
      && Covers(keys + {MAIN_PAGE}, pushed, Promises(s, w'), open)
  {
    WithMain(s, w, path);
    var front := RedirectPromises(w.redirections) + MetadataPromises(s, w.metadata) + IllustrationPromises(s, w.illustrations);
    hide Kept, Promises;
    if w.mainPath.None? {
      hide Covers;
      PromiseAdded(pushed, front, [], open, added, keys, MainPromise(path));
    } else {
      Replace(pushed, front, [], open, added, MainPromise(w.mainPath.value), MainPromise(path));
      forall x | x !in keys + {MAIN_PAGE}
        ensures Unused(pushed, front + ([MainPromise(path)] + []), open, x)
      {
        assert Unused(pushed, front + ([MainPromise(w.mainPath.value)] + []), open, x);
        PromisingMiddle(front, MainPromise(path), [], x);
        PromisingMiddle(front, MainPromise(w.mainPath.value), [], x);
      }
    }
  }

  lemma CoversUnused(keys: set<Key>, pushed: Contents, ps: seq<Promise>, open: Option<Key>, k: Key)
    requires Covers(keys, pushed, ps, open) && k !in keys
    ensures k !in pushed && !Promising(ps, k) && open != Some(k)
  {
    assert Unused(pushed, ps, open, k);
  }

  lemma RedirectStorable(r: Redirection)
    requires ValidUtf8(r.path) && ValidUtf8(r.title) && !HasControl(r.path) && !HasControl(r.title)
    ensures Storable(r.path) && Storable(r.title)
  {
    NoControlNoNul(r.path);
    NoControlNoNul(r.title);
  }

  /** One more validated entry waiting. */
  lemma StillReady(w: Waiting, r: Redirection, m: Option<MetadataEntry>, il: Option<Illustration>)
    requires Ready(w)
    ensures Storable(r.path) && Storable(r.title) ==> Ready(w.(redirections := w.redirections + [r]))
    ensures m.Some? && ItemReady(m.value.Item()) ==> Ready(w.(metadata := w.metadata + [m.value]))
    ensures il.Some? && ItemReady(il.value.Item()) ==> Ready(w.(illustrations := w.illustrations + [il.value]))
  {
    hide ItemReady, Storable;
  }

  lemma CoversMore(keys: set<Key>, pushed: Contents, ps: seq<Promise>, open: Option<Key>, k: Key, st: Stored)
    requires Covers(keys, pushed, ps, open)
    ensures Covers(keys + {k}, pushed[k := st], ps, open)
  {
  }

  lemma CoversOpen(keys: set<Key>, pushed: Contents, ps: seq<Promise>, open: Option<Key>, k: Key)
    requires Covers(keys, pushed, ps, open)
    ensures Covers(keys + {k}, pushed, ps, Some(k))
  {
  }

  lemma PushKeepsFlight(s: Settings, d: Draft, item: Item)
    ensures Push(s, d, item).Ok? ==> Push(s, d, item).value.inFlight == d.inFlight
  {
    hide Push;
    if Push(s, d, item).Ok? {
      PushInFlight(s, d, item);
    }
  }

  lemma EndWithout(s: Settings, d: Draft)
    ensures d.inFlight.None? ==> End(s, d) == (d, Err(Io))
    ensures d.inFlight.Some? && !Complete(d.inFlight.value) ==> End(s, d) == (d, Err(InvalidInput))
  {
    hide Complete, Push, EndStreamed;
  }

  lemma BeginWhenFree(s: Settings, d: Draft, m: Meta, expected: Option<nat>)
    requires Begin(s, d, m, expected).Ok?
    ensures d.inFlight == None
  {
    hide Intern, StreamHeader, CompOf;
  }

  lemma BeginUnderfull(s: Settings, d: Draft, m: Meta, expected: Option<nat>)
    requires Underfull(s, d) && Begin(s, d, m, expected).Ok?
    ensures Underfull(s, Begin(s, d, m, expected).value)
  {
    hide Intern, StreamHeader, CompOf;
  }

  lemma SameBuckets(s: Settings, d: Draft, d': Draft)
    requires Underfull(s, d) && d'.buckets == d.buckets
    ensures Underfull(s, d')
  {
  }

  lemma PushUnderfullIf(s: Settings, d: Draft, item: Item)
    requires Underfull(s, d)
    ensures Push(s, d, item).Ok? ==> Underfull(s, Push(s, d, item).value)
  {
    hide Push;
    if Push(s, d, item).Ok? {
      PushUnderfull(s, d, item);
    }
  }
}
