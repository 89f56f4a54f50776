/** Chunked items: begin, chunk and end. A small or unannounced body is buffered and pushed like any item; a large one is
    streamed into a cluster of its own, whose index is reserved at the start. */
module Chunked {
  import opened Outcome
  import opened Bytes
  import opened Text
  import opened Dirents
  import opened Clusters
  import opened Reader
  import opened Counting
  import opened MimeTypes
  import opened Layout
  import opened Packing
  import Pipeline

  /** The body received so far. */
  function Received(f: InFlight): Bytes {
    match f
    case Buffered(_, content, _) => content
    case _ => if |StreamHeader(f.size)| <= |f.fed| then f.fed[|StreamHeader(f.size)|..] else []
  }

  function Begin(s: Settings, d: Draft, m: Meta, expected: Option<nat>): Result<Draft> {
    if d.inFlight.Some? then Err(Io)
    else if expected.Some? && expected.value > U64_LIMIT - 1 - 16 then Err(InvalidInput)
    else
      var comp := CompOf(s, m);
      if expected.Some? && expected.value >= s.threshold && comp != Xz then
        var size := expected.value;
        var interned :- Intern(d.mimes, m.mimetype);
        var slot := |d.plans|;
        var f := if comp == Zstd then StreamingZstd(m, StreamHeader(size), slot, 0, size, interned.1)
                 else StreamingRaw(m, StreamHeader(size), slot, 0, size, interned.1);
        Ok(d.(mimes := interned.0, plans := d.plans + [None], inFlight := Some(f)))
      else Ok(d.(inFlight := Some(Buffered(m, [], expected))))
  }

  function Chunk(d: Draft, chunk: Bytes): Result<Draft> {
    match d.inFlight
    case None => Err(Io)
    case Some(Buffered(m, content, expected)) =>
      if expected.Some? && |content| + |chunk| > expected.value then Err(InvalidInput)
      else Ok(d.(inFlight := Some(Buffered(m, content + chunk, expected))))
    case Some(StreamingZstd(m, fed, slot, written, size, mime)) =>
      if written + |chunk| > size then Err(InvalidInput)
      else Ok(d.(inFlight := Some(StreamingZstd(m, fed + chunk, slot, written + |chunk|, size, mime))))
    case Some(StreamingRaw(m, fed, slot, written, size, mime)) =>
      if written + |chunk| > size then Err(InvalidInput)
      else Ok(d.(inFlight := Some(StreamingRaw(m, fed + chunk, slot, written + |chunk|, size, mime))))
  }

  /** The received bytes are as many as announced. */
  predicate Complete(f: InFlight) {
    match f
    case Buffered(_, content, expected) => expected == None || |content| == expected.value
    case _ => f.written == f.size
  }

  /** What the background task of a streamed item leaves in its scratch file. */
  function Scratch(codec: Codec, f: InFlight): Result<Bytes>
    requires !f.Buffered?
  {
    var extended := 8 + f.size > U32_MAX;
    if f.StreamingZstd? then Pack(InfoByte(Zstd, extended), codec.zstdStream(f.fed))
    else Ok([InfoByte(Raw, extended)] + f.fed)
  }

  function EndStreamed(s: Settings, d: Draft, f: InFlight): Draft
    requires !f.Buffered? && f.clusterIdx < |d.plans|
  {
    var m := f.meta;
    d.(dirents := d.dirents + [Article(m.Namespace(), m.path, m.Title(), f.mimeIdx, f.clusterIdx, 0)],
       tasks := d.tasks + [Task(f.clusterIdx, Scratch(s.codec, f))],
       plans := d.plans[f.clusterIdx := Some(Plan([Received(f)], if f.StreamingRaw? then Raw else Zstd))],
       inFlight := None)
  }

  /** The draft after `end_chunked_item`, and its result. A buffered item that cannot be pushed is dropped. */
  function End(s: Settings, d: Draft): (Draft, Result<()>) {
    match d.inFlight
    case None => (d, Err(Io))
    case Some(f) =>
      if !Complete(f) then (d, Err(InvalidInput))
      else if f.Buffered? then
        match Push(s, d.(inFlight := None), Item(f.meta, f.content))
        case Ok(d') => (d', Ok(()))
        case Err(e) => (d.(inFlight := None), Err(e))
      else if f.clusterIdx < |d.plans| then (EndStreamed(s, d, f), Ok(()))
      else (d, Err(Io))
  }

  // ---- What is refused ----

  /** The size given at the beginning, if any. */
  function Announced(f: InFlight): Option<nat> {
    match f
    case Buffered(_, _, expected) => expected
    case _ => Some(f.size)
  }

  /** An item can be begun exactly when none is open and its size leaves room for the offset table; one that is streamed
      at once also needs its type to fit the list. */
  lemma BeginExact(s: Settings, d: Draft, m: Meta, expected: Option<nat>)
    ensures Begin(s, d, m, expected).Ok? <==>
            && d.inFlight == None && (expected.Some? ==> expected.value + 16 < U64_LIMIT)
            && (expected.Some? && expected.value >= s.threshold && CompOf(s, m) != Xz ==> Intern(d.mimes, m.mimetype).Ok?)
    ensures Begin(s, d, m, expected).Ok? ==> Announced(Begin(s, d, m, expected).value.inFlight.value) == expected
  {
    hide Intern, StreamHeader, CompOf;
  }

  lemma ReceivedSize(s: Settings, d: Draft, r: Record)
    requires Faithful(s, d, r) && d.inFlight.Some? && !d.inFlight.value.Buffered?
    ensures |Received(d.inFlight.value)| == d.inFlight.value.written
  {
    MimesAreGood(s, d, r);
    var f := d.inFlight.value;
    hide Faithful, StreamHeader, MetaOk, SlotsOk, RecordsOk, GoodList, PlansKnown, CompOf;
    assert Streaming(s, d, f, f.StreamingRaw?);
  }

  /** A chunk is refused exactly when no item is open or it would exceed the announced size, which stays as it is. */
  lemma ChunkExact(s: Settings, d: Draft, r: Record, chunk: Bytes)
    requires Faithful(s, d, r)
    ensures Chunk(d, chunk).Ok? <==>
            && d.inFlight.Some?
            && var f := d.inFlight.value; Announced(f).Some? ==> |Received(f)| + |chunk| <= Announced(f).value
    ensures Chunk(d, chunk).Ok? ==> Announced(Chunk(d, chunk).value.inFlight.value) == Announced(d.inFlight.value)
  {
    hide Faithful, Received;
    if d.inFlight.Some? {
      if d.inFlight.value.Buffered? {
        BufferedReceived(d.inFlight.value);
      } else {
        ReceivedSize(s, d, r);
      }
    }
  }

  lemma BufferedReceived(f: InFlight)
    requires f.Buffered?
    ensures Received(f) == f.content
  {
  }

  /** An item can be ended only with exactly the announced number of bytes. */
  lemma CompleteExact(s: Settings, d: Draft, r: Record)
    requires Faithful(s, d, r) && d.inFlight.Some?
    ensures var f := d.inFlight.value; Complete(f) <==> (Announced(f).Some? ==> |Received(f)| == Announced(f).value)
  {
    hide Faithful, Received;
    if d.inFlight.value.Buffered? {
      BufferedReceived(d.inFlight.value);
    } else {
      ReceivedSize(s, d, r);
    }
  }

  // ---- Begin ----

  lemma NothingMoves(s: Settings, d: Draft, d': Draft, r: Record)
    requires d'.mimes == d.mimes && d'.buckets == d.buckets && d'.dirents == d.dirents
    requires d.plans <= d'.plans
    requires RecordsOk(d, r) && DirentsFit(d, r) && BucketsFit(s, d, r)
    ensures RecordsOk(d', r) && DirentsFit(d', r) && BucketsFit(s, d', r)
  {
    hide StoredOk, BucketOk;
    forall i: nat | i < |d'.dirents|
      ensures CommittedOk(d', r, i)
    {
      assert CommittedOk(d, r, i);
    }
    forall k | k in r.pushed
      ensures Located(d', r, k)
    {
      assert Located(d, r, k);
    }
  }

  lemma BufferKeeps(s: Settings, d: Draft, r: Record, f: Option<InFlight>)
    requires Faithful(s, d, r) && (d.inFlight == None || d.inFlight.value.Buffered?)
    requires f.Some? ==> f.value.Buffered? && MetaOk(f.value.meta)
    requires f.Some? && f.value.expected.Some? ==> |f.value.content| <= f.value.expected.value
    ensures Faithful(s, d.(inFlight := f), r)
  {
    var d' := d.(inFlight := f);
    hide RecordsOk, DirentsFit, BucketsFit, SlotsOk, InFlightOk, GoodList, MetaOk, PlansKnown;
    NothingMoves(s, d, d', r);
    BufferSlots(s, d, f);
  }

  lemma BufferSlots(s: Settings, d: Draft, f: Option<InFlight>)
    requires SlotsOk(s, d) && InFlightOk(s, d) && (d.inFlight == None || d.inFlight.value.Buffered?)
    requires f.Some? ==> f.value.Buffered? && MetaOk(f.value.meta)
    requires f.Some? && f.value.expected.Some? ==> |f.value.content| <= f.value.expected.value
    ensures SlotsOk(s, d.(inFlight := f)) && InFlightOk(s, d.(inFlight := f))
  {
    hide MetaOk, EncodingOf, Distinct, JobFits, TaskFits;
    assert Slots(d.(inFlight := f)) == Slots(d);
    hide Slots;
  }

  ghost predicate Fresh(s: Settings, d: Draft, f: InFlight) {
    && !f.Buffered? && MetaOk(f.meta) && f.clusterIdx == |d.plans| && f.written == 0 && f.fed == StreamHeader(f.size)
    && f.mimeIdx < |d.mimes| && d.mimes[f.mimeIdx] == f.meta.mimetype
    && CompOf(s, f.meta) == if f.StreamingRaw? then Raw else Zstd
  }

  lemma OpenSlots(s: Settings, d: Draft, f: InFlight)
    requires SlotsOk(s, d)
    ensures SlotsOk(s, d.(plans := d.plans + [None], inFlight := Some(f)))
  {
    var d' := d.(plans := d.plans + [None], inFlight := Some(f));
    assert Slots(d') == Slots(d);
    hide EncodingOf, Distinct, Slots;
    assert forall c: nat :: c < |d.plans| ==> d'.plans[c] == d.plans[c];
    assert forall i :: 0 <= i < |d.jobs| ==> JobFits(d.plans, d.jobs[i]);
    assert forall i :: 0 <= i < |d.tasks| ==> TaskFits(s.codec, d.plans, d.tasks[i]);
  }

  lemma OpenInFlight(s: Settings, d: Draft, f: InFlight)
    requires SlotsOk(s, d) && InFlightOk(s, d) && d.inFlight == None && Fresh(s, d, f)
    ensures InFlightOk(s, d.(plans := d.plans + [None], inFlight := Some(f)))
  {
    var d' := d.(plans := d.plans + [None], inFlight := Some(f));
    hide EncodingOf, Slots, Distinct, StreamHeader, CompOf, MetaOk;
    assert forall c: nat :: c < |d.plans| ==> d'.plans[c] == d.plans[c];
    forall i | 0 <= i < |d.tasks|
      ensures d.tasks[i].clusterIdx < f.clusterIdx
    {
      assert TaskFits(s.codec, d.plans, d.tasks[i]);
    }
    hide SlotsOk;
    assert Streaming(s, d', f, f.StreamingRaw?);
  }

  lemma OpenKnown(plans: seq<Option<Plan>>, pushed: map<Key, Stored>)
    requires PlansKnown(plans, pushed)
    ensures PlansKnown(plans + [None], pushed)
  {
    hide MadeOf;
  }

  lemma OpenSlotKeeps(s: Settings, d: Draft, r: Record, f: InFlight)
    requires Faithful(s, d, r) && d.inFlight == None && Fresh(s, d, f)
    ensures Faithful(s, d.(plans := d.plans + [None], inFlight := Some(f)), r)
  {
    var d' := d.(plans := d.plans + [None], inFlight := Some(f));
    NothingMoves(s, d, d', r);
    OpenSlots(s, d, f);
    OpenInFlight(s, d, f);
    OpenKnown(d.plans, r.pushed);
    hide PlansKnown, RecordsOk, DirentsFit, BucketsFit, SlotsOk, InFlightOk, GoodList, Fresh;
  }

  lemma TypeAdded(s: Settings, d: Draft, r: Record, m: Meta)
    requires Faithful(s, d, r) && MetaOk(m) && Intern(d.mimes, m.mimetype).Ok?
    ensures var interned := Intern(d.mimes, m.mimetype).value;
      Faithful(s, d.(mimes := interned.0), r) && interned.1 < |interned.0| && interned.0[interned.1] == m.mimetype
  {
    hide Faithful, GoodList;
    MimesAreGood(s, d, r);
    InternKeeps(d.mimes, m.mimetype);
    InternDraft(s, d, r, Intern(d.mimes, m.mimetype).value.0);
  }

  /** Beginning an item touches nothing that was accepted before; nothing has been received yet. */
  lemma BeginKeeps(s: Settings, d: Draft, r: Record, m: Meta, expected: Option<nat>)
    requires Faithful(s, d, r) && MetaOk(m) && Begin(s, d, m, expected).Ok?
    ensures var d' := Begin(s, d, m, expected).value;
      && Faithful(s, d', r)
      && d'.inFlight.Some? && d'.inFlight.value.meta == m && Received(d'.inFlight.value) == []
    ensures var d' := Begin(s, d, m, expected).value;
      OpenSlot(d').Some? <==> expected.Some? && expected.value >= s.threshold && CompOf(s, m) != Xz
  {
    hide Faithful, CompOf, MetaOk, Intern, StreamHeader;
    var comp := CompOf(s, m);
    if expected.Some? && expected.value >= s.threshold && comp != Xz {
      var interned := Intern(d.mimes, m.mimetype).value;
      TypeAdded(s, d, r, m);
      OpenSlotKeeps(s, d.(mimes := interned.0), r, Begin(s, d, m, expected).value.inFlight.value);
    } else {
      BufferKeeps(s, d, r, Some(Buffered(m, [], expected)));
    }
  }

  lemma MimesAreGood(s: Settings, d: Draft, r: Record)
    requires Faithful(s, d, r)
    ensures GoodList(d.mimes) && InFlightOk(s, d) && SlotsOk(s, d) && RecordsOk(d, r) && PlansKnown(d.plans, r.pushed)
  {
    hide PlansKnown, RecordsOk, DirentsFit, BucketsFit, PlansFit, SlotsOk, InFlightOk, GoodList;
  }

  // ---- Chunk ----

  lemma ChunkInFlight(s: Settings, d: Draft, chunk: Bytes)
    requires InFlightOk(s, d) && Chunk(d, chunk).Ok?
    ensures var d' := Chunk(d, chunk).value;
      && InFlightOk(s, d') && d'.inFlight.Some? && d.inFlight.Some?
      && d' == d.(inFlight := d'.inFlight)
      && d'.inFlight.value.meta == d.inFlight.value.meta && OpenSlot(d') == OpenSlot(d)
      && Received(d'.inFlight.value) == Received(d.inFlight.value) + chunk
  {
    hide StreamHeader, MetaOk, CompOf;
    var f := d.inFlight.value;
    if !f.Buffered? {
      assert Streaming(s, d, f, f.StreamingRaw?);
      assert f.fed[|StreamHeader(f.size)|..] + chunk == (f.fed + chunk)[|StreamHeader(f.size)|..];
    }
  }

  /** A chunk is appended whole, or refused whole when it exceeds the announced size. */
  lemma ChunkKeeps(s: Settings, d: Draft, r: Record, chunk: Bytes)
    requires Faithful(s, d, r) && Chunk(d, chunk).Ok?
    ensures var d' := Chunk(d, chunk).value;
      && Faithful(s, d', r) && d'.inFlight.Some? && d.inFlight.Some?
      && d'.inFlight.value.meta == d.inFlight.value.meta && OpenSlot(d') == OpenSlot(d)
      && Received(d'.inFlight.value) == Received(d.inFlight.value) + chunk
  {
    MimesAreGood(s, d, r);
    hide InFlightOk, RecordsOk, DirentsFit, BucketsFit, PlansFit, SlotsOk, GoodList, PlansKnown;
    ChunkInFlight(s, d, chunk);
    hide Chunk, Received, OpenSlot;
    ChunkRest(s, d, Chunk(d, chunk).value, r);
  }

  lemma ChunkRest(s: Settings, d: Draft, d': Draft, r: Record)
    requires Faithful(s, d, r) && d' == d.(inFlight := d'.inFlight)
    ensures RecordsOk(d', r) && DirentsFit(d', r) && BucketsFit(s, d', r) && PlansFit(s, d') && SlotsOk(s, d')
  {
    NothingMoves(s, d, d', r);
    hide RecordsOk, DirentsFit, BucketsFit, EncodingOf, Distinct, InFlightOk, GoodList, PlansKnown;
  }

  // ---- End ----

  /** The scratch file of a complete streamed item is an encoding of the one-blob cluster with its body. */
  lemma ScratchEncodes(codec: Codec, f: InFlight)
    requires !f.Buffered? && f.written == f.size
    requires |StreamHeader(f.size)| + f.written == |f.fed| && StreamHeader(f.size) <= f.fed
    requires Scratch(codec, f).Ok?
    ensures EncodingOf(codec, Scratch(codec, f).value, [Received(f)], if f.StreamingRaw? then Raw else Zstd)
  {
    var body := Received(f);
    assert |body| == f.size;
    StreamHeaderIsTable(body);
    assert f.fed == StreamHeader(f.size) + body;
    hide StreamHeader, Payload, Extended, InfoByte;
    assert Scratch(codec, f).value[1..] == if f.StreamingRaw? then f.fed else codec.zstdStream(f.fed).value;
  }

  lemma OpenIsEmpty(s: Settings, d: Draft, f: InFlight)
    requires InFlightOk(s, d) && d.inFlight == Some(f) && !f.Buffered?
    ensures f.clusterIdx < |d.plans| && d.plans[f.clusterIdx] == None
    ensures forall c: nat :: c < |d.plans| && d.plans[c] == None ==> c == f.clusterIdx
    ensures f.mimeIdx < |d.mimes| && d.mimes[f.mimeIdx] == f.meta.mimetype
    ensures CompOf(s, f.meta) == if f.StreamingRaw? then Raw else Zstd
    ensures MetaOk(f.meta) && |StreamHeader(f.size)| + f.written == |f.fed| && StreamHeader(f.size) <= f.fed
    ensures forall i :: 0 <= i < |d.tasks| ==> d.tasks[i].clusterIdx < f.clusterIdx
  {
    hide StreamHeader, MetaOk, CompOf;
    assert Streaming(s, d, f, f.StreamingRaw?);
  }

  lemma EndDirents(s: Settings, d: Draft, r: Record, f: InFlight)
    requires DirentsFit(d, r) && InFlightOk(s, d) && d.inFlight == Some(f) && !f.Buffered? && f.meta.Key() !in r.pushed
    requires f.clusterIdx < |d.plans|
    ensures DirentsFit(EndStreamed(s, d, f), Recorded(r, f.meta.Key(), BodyOf(s, f.meta, Received(f)), Committed(|d.dirents|)))
  {
    hide Received, StreamHeader, CompOf, Scratch, MetaOk, InFlightOk;
    var d' := EndStreamed(s, d, f);
    var r' := Recorded(r, f.meta.Key(), BodyOf(s, f.meta, Received(f)), Committed(|d.dirents|));
    OpenIsEmpty(s, d, f);
    forall i: nat | i < |d'.dirents|
      ensures CommittedOk(d', r', i)
    {
      if i < |d.dirents| {
        assert CommittedOk(d, r, i);
      }
    }
  }

  lemma AppendLocated(d: Draft, d': Draft, r: Record, k: Key, st: Stored, x: Key)
    requires RecordsOk(d, r) && d'.buckets == d.buckets && (x in r.pushed || x == k)
    requires |d'.dirents| == |d.dirents| + 1 && d'.dirents[..|d.dirents|] == d.dirents && d'.dirents[|d.dirents|].Key() == k
    ensures Located(d', Recorded(r, k, st, Committed(|d.dirents|)), x) && (x != k ==> StoredOk(x, r.pushed[x]))
  {
    hide StoredOk;
    if x != k {
      assert Located(d, r, x) && StoredOk(x, r.pushed[x]);
    }
  }

  lemma AppendRecords(d: Draft, d': Draft, r: Record, k: Key, st: Stored)
    requires RecordsOk(d, r) && StoredOk(k, st) && d'.buckets == d.buckets
    requires |d'.dirents| == |d.dirents| + 1 && d'.dirents[..|d.dirents|] == d.dirents && d'.dirents[|d.dirents|].Key() == k
    ensures RecordsOk(d', Recorded(r, k, st, Committed(|d.dirents|)))
  {
    var r' := Recorded(r, k, st, Committed(|d.dirents|));
    hide StoredOk;
    forall x | x in r'.pushed
      ensures Located(d', r', x) && StoredOk(x, r'.pushed[x])
    {
      AppendLocated(d, d', r, k, st, x);
    }
    hide Located;
  }

  lemma EndRecords(s: Settings, d: Draft, r: Record, f: InFlight)
    requires RecordsOk(d, r) && !f.Buffered? && f.clusterIdx < |d.plans| && MetaOk(f.meta)
    ensures RecordsOk(EndStreamed(s, d, f), Recorded(r, f.meta.Key(), BodyOf(s, f.meta, Received(f)), Committed(|d.dirents|)))
  {
    var d' := EndStreamed(s, d, f);
    hide Received, Scratch, CompOf;
    AppendRecords(d, d', r, f.meta.Key(), BodyOf(s, f.meta, Received(f)));
  }

  lemma EndBuckets(s: Settings, d: Draft, r: Record, f: InFlight)
    requires BucketsFit(s, d, r) && !f.Buffered? && f.clusterIdx < |d.plans| && f.meta.Key() !in r.pushed
    ensures BucketsFit(s, EndStreamed(s, d, f), Recorded(r, f.meta.Key(), BodyOf(s, f.meta, Received(f)), Committed(|d.dirents|)))
  {
    var st, loc := BodyOf(s, f.meta, Received(f)), Committed(|d.dirents|);
    var r' := Recorded(r, f.meta.Key(), st, loc);
    hide Recorded, BodyOf, PendingOk, Join, Received, Scratch;
    forall k | k in d.buckets
      ensures BucketOk(s, d.mimes, r', k, d.buckets[k])
    {
      assert BucketOk(s, d.mimes, r, k, d.buckets[k]);
      forall i: nat | i < |d.buckets[k].pending|
        ensures PendingOk(d.mimes, r', k, d.buckets[k], i)
      {
        PendingStays(d.mimes, r, k, d.buckets[k], d.buckets[k], i, f.meta.Key(), st, loc);
      }
    }
  }

  lemma EndDistinct(s: Settings, d: Draft, f: InFlight)
    requires SlotsOk(s, d) && !f.Buffered? && f.clusterIdx < |d.plans| && d.plans[f.clusterIdx] == None
    ensures Slots(EndStreamed(s, d, f)) == Slots(d) + [f.clusterIdx] && Distinct(Slots(EndStreamed(s, d, f)))
  {
    var d' := EndStreamed(s, d, f);
    SlotsBelow(s, d);
    hide Received, Scratch, SlotsOk;
    assert Slots(d') == Slots(d) + [f.clusterIdx];
    InsertDistinct(Slots(d), [], f.clusterIdx);
    assert Slots(d) + [] == Slots(d) && Slots(d) + [f.clusterIdx] + [] == Slots(d');
  }

  /** Filling an open slot disturbs no other. */
  lemma Undisturbed(codec: Codec, plans: seq<Option<Plan>>, slot: nat, p: Plan, j: Pipeline.Job, t: Task)
    requires slot < |plans| && plans[slot] == None
    ensures JobFits(plans, j) ==> JobFits(plans[slot := Some(p)], j)
    ensures TaskFits(codec, plans, t) ==> TaskFits(codec, plans[slot := Some(p)], t)
  {
    hide EncodingOf;
  }

  lemma NewTask(s: Settings, d: Draft, f: InFlight)
    requires InFlightOk(s, d) && d.inFlight == Some(f) && !f.Buffered? && Complete(f) && f.clusterIdx < |d.plans|
    ensures TaskFits(s.codec, EndStreamed(s, d, f).plans, Task(f.clusterIdx, Scratch(s.codec, f)))
  {
    OpenIsEmpty(s, d, f);
    if Scratch(s.codec, f).Ok? {
      ScratchEncodes(s.codec, f);
    }
    hide Received, Scratch, StreamHeader, MetaOk, EncodingOf, CompOf, InFlightOk;
  }

  lemma EndTasks(s: Settings, d: Draft, f: InFlight)
    requires SlotsOk(s, d) && InFlightOk(s, d) && d.inFlight == Some(f) && !f.Buffered? && Complete(f) && f.clusterIdx < |d.plans|
    ensures var d' := EndStreamed(s, d, f);
      && (forall i :: 0 <= i < |d'.jobs| ==> JobFits(d'.plans, d'.jobs[i]))
      && (forall i :: 0 <= i < |d'.tasks| ==> TaskFits(s.codec, d'.plans, d'.tasks[i]))
  {
    var d' := EndStreamed(s, d, f);
    OpenIsEmpty(s, d, f);
    NewTask(s, d, f);
    var t := Task(f.clusterIdx, Scratch(s.codec, f));
    var j := Pipeline.Job(0, [], Raw, 0);
    var p := Plan([Received(f)], if f.StreamingRaw? then Raw else Zstd);
    hide Received, Scratch, TaskFits, JobFits, Slots, Distinct, InFlightOk, CompOf, StreamHeader, MetaOk;
    forall i | 0 <= i < |d'.jobs|
      ensures JobFits(d'.plans, d'.jobs[i])
    {
      Undisturbed(s.codec, d.plans, f.clusterIdx, p, d.jobs[i], t);
    }
    forall i | 0 <= i < |d'.tasks|
      ensures TaskFits(s.codec, d'.plans, d'.tasks[i])
    {
      if i < |d.tasks| {
        Undisturbed(s.codec, d.plans, f.clusterIdx, p, j, d.tasks[i]);
      }
    }
  }

  lemma EndSlots(s: Settings, d: Draft, f: InFlight)
    requires SlotsOk(s, d) && PlansFit(s, d) && InFlightOk(s, d) && d.inFlight == Some(f) && !f.Buffered? && Complete(f)
    requires f.clusterIdx < |d.plans|
    ensures SlotsOk(s, EndStreamed(s, d, f)) && PlansFit(s, EndStreamed(s, d, f)) && InFlightOk(s, EndStreamed(s, d, f))
  {
    OpenIsEmpty(s, d, f);
    EndDistinct(s, d, f);
    EndTasks(s, d, f);
    hide Received, Scratch, StreamHeader, MetaOk, EncodingOf, Join, CompOf, TaskFits, JobFits, Slots, Distinct, Complete, Streaming;
  }

  /** The streamed cluster holds the body of the item that ends. */
  lemma EndKnown(s: Settings, d: Draft, r: Record, f: InFlight)
    requires PlansKnown(d.plans, r.pushed) && !f.Buffered? && f.clusterIdx < |d.plans| && f.meta.Key() !in r.pushed
    requires CompOf(s, f.meta) == if f.StreamingRaw? then Raw else Zstd
    ensures PlansKnown(EndStreamed(s, d, f).plans, r.pushed[f.meta.Key() := BodyOf(s, f.meta, Received(f))])
  {
    hide Received, Scratch, CompOf, MadeOf;
    var k, st := f.meta.Key(), BodyOf(s, f.meta, Received(f));
    StillKnown(d.plans, r.pushed, k, st);
    assert MadeOf(r.pushed[k := st], [Received(f)], st.comp) by {
      OneMade(r.pushed[k := st], k);
    }
  }

  lemma EndStreamedKeeps(s: Settings, d: Draft, r: Record, f: InFlight) returns (r': Record)
    requires Faithful(s, d, r) && d.inFlight == Some(f) && !f.Buffered? && Complete(f) && f.meta.Key() !in r.pushed
    ensures f.clusterIdx < |d.plans|
    ensures r'.pushed == r.pushed[f.meta.Key() := BodyOf(s, f.meta, Received(f))]
    ensures Faithful(s, EndStreamed(s, d, f), r')
  {
    r' := Recorded(r, f.meta.Key(), BodyOf(s, f.meta, Received(f)), Committed(|d.dirents|));
    OpenIsEmpty(s, d, f);
    EndDirents(s, d, r, f);
    EndRecords(s, d, r, f);
    EndBuckets(s, d, r, f);
    EndSlots(s, d, f);
    EndKnown(s, d, r, f);
    hide RecordsOk, DirentsFit, BucketsFit, PlansFit, SlotsOk, InFlightOk, GoodList, PlansKnown, Scratch, Received, BodyOf, Complete;
  }

  /** Ending a complete item records exactly the bytes received, whichever way they travelled; an incomplete item
      stays open; a failed push drops the item and nothing else. */
  lemma EndKeeps(s: Settings, d: Draft, r: Record) returns (r': Record)
    requires Faithful(s, d, r)
    requires d.inFlight.Some? ==> d.inFlight.value.meta.Key() !in r.pushed
    ensures Faithful(s, End(s, d).0, r')
    ensures End(s, d).1.Ok? ==>
              && d.inFlight.Some? && Complete(d.inFlight.value) && End(s, d).0.inFlight == None
              && r'.pushed == r.pushed[d.inFlight.value.meta.Key() :=
                                         BodyOf(s, d.inFlight.value.meta, Received(d.inFlight.value))]
    ensures End(s, d).1.Err? ==> r' == r
    ensures End(s, d).1.Err? && (d.inFlight.None? || !Complete(d.inFlight.value)) ==> End(s, d).0 == d
  {
    r' := r;
    if d.inFlight.Some? && Complete(d.inFlight.value) {
      var f := d.inFlight.value;
      MimesAreGood(s, d, r);
      assert MetaOk(f.meta);
      if f.Buffered? {
        BufferKeeps(s, d, r, None);
        hide Faithful, Push, MetaOk;
        if Push(s, d.(inFlight := None), Item(f.meta, f.content)).Ok? {
          r' := PushKeeps(s, d.(inFlight := None), r, Item(f.meta, f.content));
          PushInFlight(s, d.(inFlight := None), Item(f.meta, f.content));
        }
      } else {
        hide Faithful, InFlightOk, EndStreamed;
        r' := EndStreamedKeeps(s, d, r, f);
        EndStreamedDone(s, d, f);
      }
    }
  }

  lemma EndStreamedDone(s: Settings, d: Draft, f: InFlight)
    requires !f.Buffered? && f.clusterIdx < |d.plans|
    ensures EndStreamed(s, d, f).inFlight == None
  {
  }

  lemma PushInFlight(s: Settings, d: Draft, item: Item)
    requires Push(s, d, item).Ok?
    ensures Push(s, d, item).value.inFlight == d.inFlight
  {
    hide Intern, KeyOf, CompOf, NeedsFlush;
  }
}
