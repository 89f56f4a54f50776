/** Cluster extents: where clusters end when index order is not file order. */
module Extents {
  import opened Outcome
  import opened Bytes
  import opened Headers
  import opened Clusters
  import opened Reader

  /** `offsets` is the cluster pointer table. */
  ghost predicate HasOffsets(a: Archive, offsets: seq<nat>) {
    ClusterOffsets(a, a.header.clusterCount) == Ok(offsets)
  }

  lemma {:induction false} ClusterOffsetsAre(a: Archive, n: nat)
    requires ClusterOffsets(a, n).Ok?
    ensures |ClusterOffsets(a, n).value| == n
    ensures forall i :: 0 <= i < n ==> ClusterPointer(a, i) == Ok(ClusterOffsets(a, n).value[i])
  {
    hide ClusterPointer;
    if n > 0 {
      ClusterOffsetsAre(a, n - 1);
    }
  }

  /** Position `e` does not lie between an offset and `limit`. */
  ghost predicate Aside(offsets: seq<nat>, limit: nat, e: nat) {
    limit <= e || forall i :: 0 <= i < |offsets| ==> e <= offsets[i]
  }

  /** `limit` is the first table, checksum or end of file behind all the offsets, and none lies among them. */
  ghost predicate FirstTable(a: Archive, offsets: seq<nat>, limit: nat) {
    var h := a.header;
    && (limit == h.urlPtrPos || limit == h.titlePtrPos || limit == h.clusterPtrPos || limit == Eof(a))
    && (forall i :: 0 <= i < |offsets| ==> offsets[i] < limit)
    && Aside(offsets, limit, h.urlPtrPos) && Aside(offsets, limit, h.titlePtrPos)
    && Aside(offsets, limit, h.clusterPtrPos) && Aside(offsets, limit, Eof(a))
  }

  lemma BoundaryIsFirstTable(a: Archive, offsets: seq<nat>, limit: nat, i: nat)
    requires FirstTable(a, offsets, limit) && i < |offsets|
    ensures BoundaryAfter(a, offsets[i]) == limit
  {
  }

  /** End of cluster `i` in terms of the offset table alone. */
  function End(offsets: seq<nat>, limit: nat, i: nat): nat
    requires i < |offsets|
  {
    match LeastAbove(offsets, |offsets|, offsets[i])
    case Some(next) => next
    case None => limit
  }

  lemma RangeIs(a: Archive, offsets: seq<nat>, limit: nat, i: nat)
    requires HasOffsets(a, offsets) && FirstTable(a, offsets, limit) && limit <= |a.file| && i < |offsets|
    ensures ClusterByteRange(a, i) == Ok((offsets[i], End(offsets, limit, i)))
    ensures offsets[i] < End(offsets, limit, i) <= limit
  {
    ClusterOffsetsAre(a, a.header.clusterCount);
    BoundaryIsFirstTable(a, offsets, limit, i);
    hide ClusterPointer, BoundaryAfter, ClusterOffsets, FirstTable, LeastAbove, Eof;
    EndBelow(a, offsets, limit, i);
  }

  lemma EndBelow(a: Archive, offsets: seq<nat>, limit: nat, i: nat)
    requires FirstTable(a, offsets, limit) && i < |offsets|
    ensures offsets[i] < End(offsets, limit, i) <= limit
  {
    var next := LeastAbove(offsets, |offsets|, offsets[i]);
    if next.Some? {
      var k :| 0 <= k < |offsets| && offsets[k] == next.value;
    }
  }

  /** For pairwise distinct offsets, in any index order, the ranges are non-empty and disjoint. */
  lemma RangesDisjoint(a: Archive, offsets: seq<nat>, limit: nat, i: nat, j: nat)
    requires HasOffsets(a, offsets) && FirstTable(a, offsets, limit) && limit <= |a.file|
    requires i < |offsets| && j < |offsets| && offsets[i] != offsets[j]
    ensures ClusterByteRange(a, i).Ok? && ClusterByteRange(a, j).Ok?
    ensures var r, s := ClusterByteRange(a, i).value, ClusterByteRange(a, j).value;
            r.0 < r.1 && s.0 < s.1 && (r.1 <= s.0 || s.1 <= r.0)
  {
    RangeIs(a, offsets, limit, i);
    RangeIs(a, offsets, limit, j);
  }

  lemma {:induction false} GreatestAtMost(offsets: seq<nat>, p: nat, n: nat) returns (k: nat)
    requires 0 < n <= |offsets| && exists i :: 0 <= i < n && offsets[i] <= p
    ensures k < n && offsets[k] <= p && forall j :: 0 <= j < n && offsets[j] <= p ==> offsets[j] <= offsets[k]
  {
    if n == 1 || forall i :: 0 <= i < n - 1 ==> offsets[i] > p {
      k := n - 1;
    } else {
      k := GreatestAtMost(offsets, p, n - 1);
      if offsets[k] <= offsets[n - 1] <= p {
        k := n - 1;
      }
    }
  }

  /** Every byte from the lowest offset up to the first table belongs to some cluster. */
  lemma RangesCover(a: Archive, offsets: seq<nat>, limit: nat, p: nat) returns (k: nat)
    requires HasOffsets(a, offsets) && FirstTable(a, offsets, limit) && limit <= |a.file|
    requires p < limit && exists i :: 0 <= i < |offsets| && offsets[i] <= p
    ensures k < |offsets| && ClusterByteRange(a, k).Ok?
    ensures ClusterByteRange(a, k).value.0 <= p < ClusterByteRange(a, k).value.1
  {
    k := GreatestAtMost(offsets, p, |offsets|);
    RangeIs(a, offsets, limit, k);
    var next := LeastAbove(offsets, |offsets|, offsets[k]);
    if next.Some? {
      var j :| 0 <= j < |offsets| && offsets[j] == next.value;
    }
  }

  // ---- Consecutive clusters ----

  /** The clusters' encoded bytes lie one after the other from `base`; `order[k]` is the index of the `k`th one. */
  ghost predicate Laid(offsets: seq<nat>, order: seq<nat>, parts: seq<Bytes>, base: nat) {
    && |offsets| == |order| == |parts|
    && (forall k :: 0 <= k < |order| ==> order[k] < |offsets| && offsets[order[k]] == base + |Join(parts, k)|)
    && (forall c :: 0 <= c < |offsets| ==> c in order)
    && (forall k :: 0 <= k < |parts| ==> parts[k] != [])
  }

  lemma {:induction false} JoinStrict(parts: seq<Bytes>, i: nat, j: nat)
    requires i < j <= |parts| && forall k :: 0 <= k < |parts| ==> parts[k] != []
    ensures |Join(parts, i)| < |Join(parts, j)|
    decreases j
  {
    if i < j - 1 {
      JoinStrict(parts, i, j - 1);
    }
  }

  lemma LaidApart(offsets: seq<nat>, order: seq<nat>, parts: seq<Bytes>, base: nat, k: nat, c: nat)
    requires Laid(offsets, order, parts, base) && k < |order| && c < |offsets|
    ensures offsets[c] <= offsets[order[k]] || base + |Join(parts, k + 1)| <= offsets[c]
  {
    hide Join;
    assert c in order;
    var j :| 0 <= j < |order| && order[j] == c;
    if j < k {
      JoinStrict(parts, j, k);
    } else if j > k + 1 {
      JoinStrict(parts, k + 1, j);
    }
  }

  lemma LaidEnd(offsets: seq<nat>, order: seq<nat>, parts: seq<Bytes>, base: nat, k: nat)
    requires Laid(offsets, order, parts, base) && k < |order|
    ensures End(offsets, base + |JoinAll(parts)|, order[k]) == base + |Join(parts, k + 1)|
  {
    hide Join;
    var start := offsets[order[k]];
    JoinStrict(parts, k, k + 1);
    var next := LeastAbove(offsets, |offsets|, start);
    hide LeastAbove;
    if next.Some? {
      var c :| 0 <= c < |offsets| && offsets[c] == next.value;
      LaidApart(offsets, order, parts, base, k, c);
      LaidBelow(offsets, order, parts, base, c);
    }
    if k + 1 < |order| {
      assert offsets[order[k + 1]] == base + |Join(parts, k + 1)|;
    }
  }

  lemma LaidBelow(offsets: seq<nat>, order: seq<nat>, parts: seq<Bytes>, base: nat, c: nat)
    requires Laid(offsets, order, parts, base) && c < |offsets|
    ensures base <= offsets[c] < base + |JoinAll(parts)|
  {
    assert c in order;
    var k :| 0 <= k < |order| && order[k] == c;
    JoinStrict(parts, k, |parts|);
  }

  /** The reader cuts out of the file exactly the bytes of each cluster, whatever order they were written in. */
  lemma LaidClusterRaw(a: Archive, offsets: seq<nat>, order: seq<nat>, parts: seq<Bytes>, base: nat, k: nat)
    requires HasOffsets(a, offsets) && Laid(offsets, order, parts, base) && k < |order|
    requires At(a.file, base, JoinAll(parts))
    requires base + |JoinAll(parts)| == a.header.urlPtrPos <= Min(a.header.titlePtrPos, Min(a.header.clusterPtrPos, Eof(a)))
    ensures ClusterRaw(a, order[k]) == Ok(parts[k])
  {
    hide ClusterByteRange, Eof, End;
    var limit := base + |JoinAll(parts)|;
    assert FirstTable(a, offsets, limit) by {
      forall c | 0 <= c < |offsets|
        ensures offsets[c] < limit
      {
        LaidBelow(offsets, order, parts, base, c);
      }
    }
    RangeIs(a, offsets, limit, order[k]);
    LaidEnd(offsets, order, parts, base, k);
    AtJoin(a.file, base, parts, |parts|, k);
    assert Join(parts, k + 1) == Join(parts, k) + parts[k];
  }
}
