/** The byte-budget cache of decoded clusters, shared by threads that look up and insert in separate lock sections. */
module Cache {
  import opened Outcome
  import opened Bytes
  import opened Clusters
  import opened Reader

  /** A resident cluster; the list is ordered from least to most recently used. */
  datatype Resident = Resident(idx: nat, cluster: Cluster)

  function Size(r: Resident): nat {
    |r.cluster.payload|
  }

  function Total(entries: seq<Resident>): nat {
    if entries == [] then 0 else Size(entries[0]) + Total(entries[1..])
  }

  ghost predicate DistinctKeys(entries: seq<Resident>) {
    forall i, j :: 0 <= i < j < |entries| ==> entries[i].idx != entries[j].idx
  }

  function Find(entries: seq<Resident>, idx: nat): (r: Option<nat>)
    ensures r.Some? ==> r.value < |entries| && entries[r.value].idx == idx
    ensures r.None? ==> forall i :: 0 <= i < |entries| ==> entries[i].idx != idx
  {
    if entries == [] then None
    else if entries[|entries| - 1].idx == idx then Some(|entries| - 1)
    else Find(entries[..|entries| - 1], idx)
  }

  function Without(entries: seq<Resident>, i: nat): seq<Resident>
    requires i < |entries|
  {
    entries[..i] + entries[i + 1..]
  }

  lemma {:induction false} TotalConcat(a: seq<Resident>, b: seq<Resident>)
    ensures Total(a + b) == Total(a) + Total(b)
  {
    if a == [] {
      assert a + b == b;
    } else {
      assert (a + b)[1..] == a[1..] + b;
      TotalConcat(a[1..], b);
    }
  }

  lemma TotalWithout(entries: seq<Resident>, i: nat)
    requires i < |entries|
    ensures Total(Without(entries, i)) + Size(entries[i]) == Total(entries)
  {
    assert Total([entries[i]]) == Size(entries[i]) + Total([]);
    hide Total, Size;
    assert entries == entries[..i] + ([entries[i]] + entries[i + 1..]);
    TotalConcat(entries[..i], [entries[i]] + entries[i + 1..]);
    TotalConcat([entries[i]], entries[i + 1..]);
    TotalConcat(entries[..i], entries[i + 1..]);
  }

  // ---- Eviction ----

  /** Drops the least recently used entries while the total exceeds the budget, but never the last one. */
  function Evicted(entries: seq<Resident>, budget: nat): seq<Resident> {
    if Total(entries) > budget && |entries| > 1 then Evicted(entries[1..], budget) else entries
  }

  lemma {:induction false} EvictedSuffix(entries: seq<Resident>, budget: nat)
    ensures |Evicted(entries, budget)| <= |entries|
    ensures entries != [] ==> Evicted(entries, budget) != []
    ensures forall i :: 0 <= i < |Evicted(entries, budget)| ==>
              Evicted(entries, budget)[i] == entries[|entries| - |Evicted(entries, budget)| + i]
    decreases |entries|
  {
    if Total(entries) > budget && |entries| > 1 {
      EvictedSuffix(entries[1..], budget);
    }
  }

  ghost predicate InBudget(entries: seq<Resident>, budget: nat) {
    Total(entries) <= budget || |entries| <= 1
  }

  /** The `n` most recently used entries. */
  function Recent(entries: seq<Resident>, n: nat): seq<Resident> {
    if n <= |entries| then entries[|entries| - n..] else entries
  }

  /** What stays is within budget, and the longest recent stretch that is. */
  lemma {:induction false} EvictedExact(entries: seq<Resident>, budget: nat)
    ensures InBudget(Evicted(entries, budget), budget)
    ensures forall n :: |Evicted(entries, budget)| < n <= |entries| ==> Total(Recent(entries, n)) > budget
    decreases |entries|
  {
    EvictedSuffix(entries, budget);
    if Total(entries) > budget && |entries| > 1 {
      EvictedExact(entries[1..], budget);
      hide Total, InBudget;
      forall n | |Evicted(entries, budget)| < n <= |entries|
        ensures Total(Recent(entries, n)) > budget
      {
        if n < |entries| {
          assert Recent(entries[1..], n) == Recent(entries, n);
        } else {
          assert Recent(entries, n) == entries;
        }
      }
    }
  }

  lemma EvictStep(entries: seq<Resident>, budget: nat)
    requires |entries| > 1
    ensures Total(entries) == Size(entries[0]) + Total(entries[1..])
    ensures Total(entries) > budget ==> Evicted(entries, budget) == Evicted(entries[1..], budget)
  {
  }

  lemma TailDistinct(entries: seq<Resident>)
    requires DistinctKeys(entries) && entries != []
    ensures DistinctKeys(entries[1..])
  {
  }

  lemma EvictStop(entries: seq<Resident>, budget: nat)
    requires Total(entries) <= budget || |entries| <= 1
    ensures Evicted(entries, budget) == entries
  {
  }

  // ---- The operations on values ----

  function Touched(entries: seq<Resident>, idx: nat): seq<Resident> {
    match Find(entries, idx)
    case None => entries
    case Some(i) => Without(entries, i) + [entries[i]]
  }

  function Inserted(entries: seq<Resident>, idx: nat, c: Cluster): seq<Resident> {
    (match Find(entries, idx) case None => entries case Some(i) => Without(entries, i)) + [Resident(idx, c)]
  }

  ghost predicate Fresh(a: Archive, e: Resident) {
    ClusterUncached(a, e.idx) == Ok(e.cluster)
  }

  /** Every resident cluster is what decoding it afresh gives. */
  ghost predicate Agrees(a: Archive, entries: seq<Resident>) {
    forall i :: 0 <= i < |entries| ==> Fresh(a, entries[i])
  }

  lemma WithoutAt(entries: seq<Resident>, i: nat, j: nat)
    requires i < |entries| && j < |Without(entries, i)|
    ensures Without(entries, i)[j] == if j < i then entries[j] else entries[j + 1]
  {
  }

  lemma WithoutKeeps(entries: seq<Resident>, i: nat)
    requires DistinctKeys(entries) && i < |entries|
    ensures |Without(entries, i)| == |entries| - 1 && DistinctKeys(Without(entries, i))
    ensures forall j :: 0 <= j < |Without(entries, i)| ==> Without(entries, i)[j].idx != entries[i].idx
  {
    forall j | 0 <= j < |Without(entries, i)|
      ensures Without(entries, i)[j] == if j < i then entries[j] else entries[j + 1]
    {
      WithoutAt(entries, i, j);
    }
  }

  lemma TouchedKeeps(entries: seq<Resident>, idx: nat)
    requires DistinctKeys(entries)
    ensures DistinctKeys(Touched(entries, idx)) && Total(Touched(entries, idx)) == Total(entries)
    ensures |Touched(entries, idx)| == |entries|
  {
    var at := Find(entries, idx);
    if at.Some? {
      TotalWithout(entries, at.value);
      WithoutKeeps(entries, at.value);
      TotalConcat(Without(entries, at.value), [entries[at.value]]);
      assert Total([entries[at.value]]) == Size(entries[at.value]);
      hide Total, Find, Without, Size;
    }
  }

  lemma TouchedAgrees(a: Archive, entries: seq<Resident>, idx: nat)
    requires Agrees(a, entries)
    ensures Agrees(a, Touched(entries, idx))
  {
    hide Fresh;
  }

  lemma InsertedKeeps(entries: seq<Resident>, idx: nat, c: Cluster)
    requires DistinctKeys(entries)
    ensures DistinctKeys(Inserted(entries, idx, c))
    ensures Total(Inserted(entries, idx, c))
            == Total(entries) + |c.payload|
               - (match Find(entries, idx) case None => 0 case Some(i) => Size(entries[i]))
  {
    var at := Find(entries, idx);
    var rest := if at.None? then entries else Without(entries, at.value);
    if at.Some? {
      TotalWithout(entries, at.value);
      WithoutKeeps(entries, at.value);
    }
    TotalConcat(rest, [Resident(idx, c)]);
    assert Total([Resident(idx, c)]) == |c.payload|;
    hide Total, Find, Without;
  }

  lemma InsertedAgrees(a: Archive, entries: seq<Resident>, idx: nat, c: Cluster)
    requires Agrees(a, entries) && ClusterUncached(a, idx) == Ok(c)
    ensures Agrees(a, Inserted(entries, idx, c))
  {
    assert Fresh(a, Resident(idx, c));
    hide Fresh, ClusterUncached, Find;
    var at := Find(entries, idx);
    var rest := if at.None? then entries else Without(entries, at.value);
    forall j | 0 <= j < |rest|
      ensures Fresh(a, rest[j])
    {
      if at.Some? {
        WithoutAt(entries, at.value, j);
      }
    }
    hide Without;
  }

  lemma EvictedAgrees(a: Archive, entries: seq<Resident>, budget: nat)
    requires Agrees(a, entries)
    ensures Agrees(a, Evicted(entries, budget))
  {
    hide Fresh, Total, Evicted;
    EvictedSuffix(entries, budget);
    var r := Evicted(entries, budget);
    forall i | 0 <= i < |r|
      ensures Fresh(a, r[i])
    {
      assert r[i] == entries[|entries| - |r| + i];
    }
  }

  /** What another thread may do to the cache while this one decodes. */
  datatype Step = Get(idx: nat) | Put(idx: nat, cluster: Cluster) | Resize(maxBytes: nat)

  /** Threads only insert what they decoded. */
  ghost predicate Honest(a: Archive, s: Step) {
    s.Put? ==> ClusterUncached(a, s.idx) == Ok(s.cluster)
  }

  class ClusterByteCache {
    var inner: seq<Resident>
    var maxBytes: nat
    var currentBytes: nat
    var hits: nat
    var misses: nat
    var evictions: nat

    /** The counter is the sum of the resident payloads, within the budget unless a single entry remains. */
    ghost predicate Valid()
      reads this
    {
      DistinctKeys(inner) && currentBytes == Total(inner) && InBudget(inner, maxBytes)
    }

    constructor (maxBytes: nat)
      ensures Valid() && inner == [] && this.maxBytes == maxBytes
    {
      inner, this.maxBytes, currentBytes, hits, misses, evictions := [], maxBytes, 0, 0, 0, 0;
    }

    method LookUp(idx: nat) returns (r: Option<Cluster>)
      requires Valid()
      modifies this
      ensures Valid() && inner == Touched(old(inner), idx) && maxBytes == old(maxBytes)
      ensures r == match Find(old(inner), idx) case None => None case Some(i) => Some(old(inner)[i].cluster)
      ensures hits + misses == old(hits) + old(misses) + 1 && (hits > old(hits) <==> r.Some?)
    {
      TouchedKeeps(inner, idx);
      match Find(inner, idx) {
        case None =>
          misses := misses + 1;
          r := None;
        case Some(i) =>
          hits := hits + 1;
          r := Some(inner[i].cluster);
          inner := Without(inner, i) + [inner[i]];
      }
    }

    /** Pops least recently used entries one by one. */
    method EvictToBudget()
      requires DistinctKeys(inner) && currentBytes == Total(inner)
      modifies `inner, `currentBytes, `evictions
      ensures Valid() && inner == Evicted(old(inner), maxBytes)
      ensures evictions == old(evictions) + |old(inner)| - |inner|
    {
      EvictedExact(inner, maxBytes);
      EvictedSuffix(inner, maxBytes);
      hide Total, Evicted, DistinctKeys;
      ghost var before := inner;
      while currentBytes > maxBytes && |inner| > 1
        invariant DistinctKeys(inner) && currentBytes == Total(inner)
        invariant Evicted(inner, maxBytes) == Evicted(before, maxBytes)
        invariant |inner| <= |before| && evictions == old(evictions) + |before| - |inner|
        decreases |inner|
      {
        EvictStep(inner, maxBytes);
        TailDistinct(inner);
        currentBytes := currentBytes - |inner[0].cluster.payload|;
        inner := inner[1..];
        evictions := evictions + 1;
      }
      EvictStop(inner, maxBytes);
    }

    /** Makes `idx` the most recently used entry; it stays resident whatever its size. */
    method Insert(idx: nat, cluster: Cluster)
      requires Valid()
      modifies this
      ensures Valid() && inner == Evicted(Inserted(old(inner), idx, cluster), maxBytes) && maxBytes == old(maxBytes)
      ensures inner != [] && inner[|inner| - 1] == Resident(idx, cluster)
    {
      InsertedKeeps(inner, idx, cluster);
      hide Total, Without, Evicted, DistinctKeys, Find;
      EvictedSuffix(Inserted(inner, idx, cluster), maxBytes);
      match Find(inner, idx) {
        case None => inner := inner + [Resident(idx, cluster)];
        case Some(i) =>
          TotalWithout(inner, i);
          currentBytes := currentBytes - |inner[i].cluster.payload|;
          inner := Without(inner, i) + [Resident(idx, cluster)];
      }
      currentBytes := currentBytes + |cluster.payload|;
      EvictToBudget();
    }

    method SetBudget(budget: nat)
      requires Valid()
      modifies this
      ensures Valid() && maxBytes == budget && inner == Evicted(old(inner), budget)
    {
      maxBytes := budget;
      EvictToBudget();
    }

    method Apply(ghost a: Archive, step: Step)
      requires Valid() && Agrees(a, inner) && Honest(a, step)
      modifies this
      ensures Valid() && Agrees(a, inner)
    {
      hide ClusterUncached, Agrees, Touched, Inserted, Evicted;
      match step {
        case Get(idx) =>
          TouchedAgrees(a, inner, idx);
          var _ := LookUp(idx);
        case Put(idx, cluster) =>
          InsertedAgrees(a, inner, idx, cluster);
          EvictedAgrees(a, Inserted(inner, idx, cluster), maxBytes);
          Insert(idx, cluster);
        case Resize(budget) =>
          EvictedAgrees(a, inner, budget);
          SetBudget(budget);
      }
    }

    /** Looks up, decodes on a miss, and inserts; other threads may do anything between the two lock sections. The
        answer is always the uncached one, and it is resident afterwards. */
    method LoadCluster(a: Archive, idx: nat, meanwhile: seq<Step>) returns (r: Result<Cluster>)
      requires Valid() && Agrees(a, inner) && forall i :: 0 <= i < |meanwhile| ==> Honest(a, meanwhile[i])
      modifies this
      ensures r == ClusterUncached(a, idx)
      ensures Valid() && Agrees(a, inner)
      ensures r.Ok? ==> inner != [] && inner[|inner| - 1] == Resident(idx, r.value)
    {
      hide ClusterUncached, Inserted, Evicted;
      TouchedAgrees(a, inner, idx);
      ghost var before := inner;
      var cached := LookUp(idx);
      if cached.Some? {
        assert Fresh(a, before[Find(before, idx).value]);
        return Ok(cached.value);
      }
      var decoded := ClusterUncached(a, idx);
      for i := 0 to |meanwhile|
        invariant Valid() && Agrees(a, inner)
      {
        Apply(a, meanwhile[i]);
      }
      if decoded.Err? {
        return decoded;
      }
      InsertedAgrees(a, inner, idx, decoded.value);
      EvictedAgrees(a, Inserted(inner, idx, decoded.value), maxBytes);
      Insert(idx, decoded.value);
      return decoded;
    }
  }
}
