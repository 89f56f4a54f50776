/** What `finalize` still packs, as functions of the draft: the waiting metadata and illustrations, the counter, and the
    buckets left open. They tell beforehand which clusters the encoder is going to be given. */
module Closing {
  import opened Outcome
  import opened Bytes
  import opened Text
  import opened Clusters
  import opened Reader
  import opened Counting
  import opened MimeTypes
  import opened Layout
  import opened Packing
  import opened Tables
  import opened Deferred
  import opened Assembly
  import opened Census
  import opened Chunked
  import Histogram
  import Pipeline

  // ---- Items and their types ----

  const COUNTER: Key := Key(NS_METADATA, Ascii("Counter"))

  function CounterItem(text: Bytes): Item {
    Item(Meta(Some(NS_METADATA), COUNTER.text, COUNTER.text, TEXT_PLAIN_UTF8, None), text)
  }

  function CounterEntry(s: Settings, text: Bytes): Stored {
    BodyOf(s, CounterItem(text).meta, text)
  }

  function MetadataItems(ms: seq<MetadataEntry>): (items: seq<Item>)
    ensures |items| == |ms|
  {
    seq(|ms|, i requires 0 <= i < |ms| => ms[i].Item())
  }

  function IllustrationItems(ils: seq<Illustration>): (items: seq<Item>)
    ensures |items| == |ils|
  {
    seq(|ils|, i requires 0 <= i < |ils| => ils[i].Item())
  }

  function TypesOf(items: seq<Item>): (types: seq<Bytes>)
    ensures |types| == |items|
  {
    seq(|items|, i requires 0 <= i < |items| => items[i].meta.mimetype)
  }

  function CounterTypes(added: Contents): seq<Bytes> {
    if COUNTER in added then [] else [TEXT_PLAIN_UTF8]
  }

  function ListingTypes(added: Contents): seq<Bytes> {
    if LISTING in added then [] else [ZIM_LISTING]
  }

  /** The types of the waiting metadata and illustrations and of the counter. */
  function TypesPacked(w: Waiting, added: Contents): seq<Bytes> {
    TypesOf(MetadataItems(w.metadata)) + (TypesOf(IllustrationItems(w.illustrations)) + CounterTypes(added))
  }

  function TypesWanted(w: Waiting, added: Contents): seq<Bytes> {
    TypesPacked(w, added) + ListingTypes(added)
  }

  lemma NoTypes(mimes: seq<Bytes>)
    ensures InternAll(mimes, []) == Ok(mimes)
  {
  }

  lemma OneType(mimes: seq<Bytes>, m: Bytes)
    ensures InternAll(mimes, [m]) ==
            match Intern(mimes, m)
            case Ok(v) => Ok(v.0)
            case Err(e) => Err(e)
  {
    hide Intern;
    assert [m][1..] == [];
  }

  /** The packed types in the three steps in which they are interned. */
  lemma PackedInTurn(mimes: seq<Bytes>, w: Waiting, added: Contents)
    ensures InternAll(mimes, TypesPacked(w, added)) ==
            match InternAll(mimes, TypesOf(MetadataItems(w.metadata)))
            case Err(e) => Err(e)
            case Ok(a) =>
              match InternAll(a, TypesOf(IllustrationItems(w.illustrations)))
              case Err(e) => Err(e)
              case Ok(b) => InternAll(b, CounterTypes(added))
  {
    hide InternAll, MetadataItems, IllustrationItems, TypesOf, CounterTypes;
    var a, b := TypesOf(MetadataItems(w.metadata)), TypesOf(IllustrationItems(w.illustrations));
    InternConcat(mimes, a, b + CounterTypes(added));
    if InternAll(mimes, a).Ok? {
      InternConcat(InternAll(mimes, a).value, b, CounterTypes(added));
    }
  }

  lemma WantedInTurn(mimes: seq<Bytes>, w: Waiting, added: Contents)
    ensures InternAll(mimes, TypesWanted(w, added)) ==
            match InternAll(mimes, TypesPacked(w, added))
            case Err(e) => Err(e)
            case Ok(a) => InternAll(a, ListingTypes(added))
  {
    hide InternAll, TypesPacked, ListingTypes;
    InternConcat(mimes, TypesPacked(w, added), ListingTypes(added));
  }

  // ---- Pushing what waits ----

  function PushAll(s: Settings, d: Draft, items: seq<Item>): Result<Draft>
    decreases |items|
  {
    if items == [] then Ok(d)
    else
      var next :- Push(s, d, items[0]);
      PushAll(s, next, items[1..])
  }

  /** Items can all be pushed exactly when their types fit the list. */
  lemma {:induction false} PushAllMimes(s: Settings, d: Draft, items: seq<Item>)
    ensures PushAll(s, d, items).Ok? <==> InternAll(d.mimes, TypesOf(items)).Ok?
    ensures PushAll(s, d, items).Ok? ==> InternAll(d.mimes, TypesOf(items)) == Ok(PushAll(s, d, items).value.mimes)
    decreases |items|
  {
    hide Push, Intern;
    if items != [] {
      PushMimes(s, d, items[0]);
      assert TypesOf(items)[1..] == TypesOf(items[1..]);
      if Push(s, d, items[0]).Ok? {
        PushAllMimes(s, Push(s, d, items[0]).value, items[1..]);
      }
    }
  }

  lemma NextMetadata(ms: seq<MetadataEntry>)
    requires ms != []
    ensures MetadataItems(ms)[0] == ms[0].Item() && MetadataItems(ms)[1..] == MetadataItems(ms[1..])
  {
  }

  lemma NextIllustration(ils: seq<Illustration>)
    requires ils != []
    ensures IllustrationItems(ils)[0] == ils[0].Item() && IllustrationItems(ils)[1..] == IllustrationItems(ils[1..])
  {
  }

  // ---- The counter and the open buckets ----

  /** The counter is made of what has been pushed so far, unless the caller brought one. */
  ghost function WithCounter(s: Settings, d: Draft, present: bool): Result<Draft> {
    if present then Ok(d) else Push(s, d, CounterItem(Histogram.CounterText(d.mimes, Articles(d))))
  }

  function FlushKeys(d: Draft, keys: seq<Bytes>): Draft
    decreases |keys|
  {
    if keys == [] then d else FlushKeys(Flush(d, keys[0]), keys[1..])
  }

  ghost function OpenKeys(d: Draft): set<Bytes> {
    set k | k in d.buckets && d.buckets[k].blobs != []
  }

  ghost function FlushAll(d: Draft): Draft {
    FlushKeys(d, InOrder(OpenKeys(d)))
  }

  /** The draft once everything is packed. */
  ghost function Closed(s: Settings, d: Draft, w: Waiting, present: bool): Result<Draft> {
    var described :- PushAll(s, d, MetadataItems(w.metadata));
    var illustrated :- PushAll(s, described, IllustrationItems(w.illustrations));
    var counted :- WithCounter(s, illustrated, present);
    Ok(FlushAll(counted))
  }

  lemma WithCounterMimes(s: Settings, d: Draft, added: Contents)
    ensures WithCounter(s, d, COUNTER in added).Ok? <==> InternAll(d.mimes, CounterTypes(added)).Ok?
    ensures WithCounter(s, d, COUNTER in added).Ok? ==>
              InternAll(d.mimes, CounterTypes(added)) == Ok(WithCounter(s, d, COUNTER in added).value.mimes)
  {
    hide Push, Intern, InternAll, Histogram.CounterText, Articles;
    NoTypes(d.mimes);
    OneType(d.mimes, TEXT_PLAIN_UTF8);
    PushMimes(s, d, CounterItem(Histogram.CounterText(d.mimes, Articles(d))));
  }

  /** Everything can be packed when its types fit the list. */
  lemma ClosedFits(s: Settings, d: Draft, w: Waiting, added: Contents)
    requires InternAll(d.mimes, TypesWanted(w, added)).Ok?
    ensures Closed(s, d, w, COUNTER in added).Ok?
  {
    hide PushAll, InternAll, TypesOf, TypesPacked, TypesWanted, MetadataItems, IllustrationItems, CounterTypes, ListingTypes, WithCounter,
      FlushAll;
    WantedInTurn(d.mimes, w, added);
    PackedInTurn(d.mimes, w, added);
    PushAllMimes(s, d, MetadataItems(w.metadata));
    var described := PushAll(s, d, MetadataItems(w.metadata)).value;
    PushAllMimes(s, described, IllustrationItems(w.illustrations));
    WithCounterMimes(s, PushAll(s, described, IllustrationItems(w.illustrations)).value, added);
  }

  // ---- What the encoder is given ----

  ghost predicate CanEncode(codec: Codec, j: Pipeline.Job) {
    EncodeCluster(codec, j.blobs, j.comp).Ok?
  }

  ghost predicate AllCanEncode(codec: Codec, jobs: seq<Pipeline.Job>) {
    forall i :: 0 <= i < |jobs| ==> CanEncode(codec, jobs[i])
  }

  ghost predicate TasksDone(tasks: seq<Task>) {
    forall i :: 0 <= i < |tasks| ==> tasks[i].result.Ok?
  }

  lemma EncodedMeans(codec: Codec, d: Draft)
    ensures AllEncoded(codec, d) <==> AllCanEncode(codec, d.jobs) && TasksDone(d.tasks)
  {
    hide EncodeCluster;
    if AllEncoded(codec, d) {
      assert forall i :: 0 <= i < |d.jobs| ==> CanEncode(codec, d.jobs[i]);
    }
    if AllCanEncode(codec, d.jobs) {
      forall i | 0 <= i < |d.jobs|
        ensures EncodeCluster(codec, d.jobs[i].blobs, d.jobs[i].comp).Ok?
      {
        assert CanEncode(codec, d.jobs[i]);
      }
    }
  }

  /** The codec refuses a cluster made of bodies of `all`. */
  ghost predicate Refuses(codec: Codec, all: Contents, blobs: seq<Bytes>, comp: Compression) {
    blobs != [] && MadeOf(all, blobs, comp) && EncodeCluster(codec, blobs, comp).Err?
  }

  lemma SomeRefused(s: Settings, d: Draft, all: Contents)
    requires SlotsOk(s, d) && PlansFit(s, d) && PlansKnown(d.plans, all) && !AllCanEncode(s.codec, d.jobs)
    ensures exists blobs, comp :: Refuses(s.codec, all, blobs, comp)
  {
    hide MadeOf, EncodeCluster, EncodingOf, Distinct, Slots, Join;
    var i :| 0 <= i < |d.jobs| && !CanEncode(s.codec, d.jobs[i]);
    var j := d.jobs[i];
    assert JobFits(d.plans, j) && PlanSized(s, d.plans[j.idx], |d.dirents|);
    assert Refuses(s.codec, all, j.blobs, j.comp);
  }

  lemma PlansOfMore(plans: seq<Option<Plan>>, some: Contents, all: Contents)
    requires PlansKnown(plans, some) && forall k :: k in some ==> k in all && all[k] == some[k]
    ensures PlansKnown(plans, all)
  {
    hide MadeOf;
    forall c | 0 <= c < |plans| && plans[c].Some?
      ensures MadeOf(all, plans[c].value.blobs, plans[c].value.comp)
    {
      StillMadeOf(some, all, plans[c].value.blobs, plans[c].value.comp);
    }
  }

  lemma PlansOfAdded(s: Settings, d: Draft, r: Record, ps: seq<Promise>, added: Contents)
    requires Faithful(s, d, r) && Kept(r.pushed, ps, None, added)
    ensures PlansKnown(d.plans, added)
  {
    MimesAreGood(s, d, r);
    hide Faithful, PlansKnown;
    assert forall k :: k in r.pushed ==> Holding(added, Promise(k, r.pushed[k]));
    PlansOfMore(d.plans, r.pushed, added);
  }

  function ListingJob(idx: nat, listing: seq<nat>): Pipeline.Job {
    var bytes := Table(listing, false, |listing|);
    Pipeline.Job(idx, [bytes], Raw, |JoinAll([bytes])|)
  }

  /** The packed clusters are submitted, and behind them that of the listing unless the caller brought its own. */
  ghost predicate Submits(packed: Result<Draft>, jobs: seq<Pipeline.Job>, own: bool) {
    && packed.Ok?
    && (own ==> jobs == packed.value.jobs)
    && (!own ==> exists idx, listing :: jobs == packed.value.jobs + [ListingJob(idx, listing)])
  }

  /** Stored clusters are never refused, so the listing is none that can fail. */
  lemma SubmitsEncode(codec: Codec, packed: Result<Draft>, jobs: seq<Pipeline.Job>, own: bool)
    requires Submits(packed, jobs, own)
    ensures packed.Ok? && (AllCanEncode(codec, jobs) <==> AllCanEncode(codec, packed.value.jobs))
  {
    if !own {
      var idx, listing :| jobs == packed.value.jobs + [ListingJob(idx, listing)];
      hide InfoByte, Payload, Join, Table;
      assert CanEncode(codec, ListingJob(idx, listing));
      hide CanEncode, ListingJob;
      assert jobs[..|packed.value.jobs|] == packed.value.jobs;
      assert forall i :: 0 <= i < |packed.value.jobs| ==> jobs[i] == packed.value.jobs[i];
    }
  }

  /** The listing is one more cluster, of a body of its own. */
  lemma ListingKnown(plans: seq<Option<Plan>>, added: Contents, listing: seq<nat>)
    requires PlansKnown(plans, added) && LISTING !in added
    ensures PlansKnown(WithListing(plans, listing), added[LISTING := ListingEntry(listing)])
  {
    hide MadeOf, Table;
    PlansOfMore(plans, added, added[LISTING := ListingEntry(listing)]);
    OneMade(added[LISTING := ListingEntry(listing)], LISTING);
  }
}
