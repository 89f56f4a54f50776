/** Sorting of entry numbers by key, and lookup in sorted keys. */
module Sorting {
  import opened Outcome
  import opened Text
  import opened Counting

  /** By key, then by number. */
  predicate Before(keys: seq<Key>, a: nat, b: nat)
    requires a < |keys| && b < |keys|
  {
    KeyLt(keys[a], keys[b]) || (keys[a] == keys[b] && a < b)
  }

  ghost predicate InRange(ids: seq<nat>, n: nat) {
    forall i :: 0 <= i < |ids| ==> ids[i] < n
  }

  ghost predicate Sorted(keys: seq<Key>, ids: seq<nat>)
    requires InRange(ids, |keys|)
  {
    forall i, j :: 0 <= i < j < |ids| ==> Before(keys, ids[i], ids[j])
  }

  lemma BeforeTotal(keys: seq<Key>, a: nat, b: nat)
    requires a < |keys| && b < |keys|
    ensures a != b ==> (Before(keys, a, b) <==> !Before(keys, b, a))
  {
    hide CompareKey;
    CompareKeyTotal(keys[a], keys[b]);
    CompareKeyTotal(keys[b], keys[a]);
  }

  lemma BeforeTransitive(keys: seq<Key>, a: nat, b: nat, c: nat)
    requires a < |keys| && b < |keys| && c < |keys| && Before(keys, a, b) && Before(keys, b, c)
    ensures Before(keys, a, c)
  {
    hide CompareKey;
    CompareKeyTotal(keys[a], keys[b]);
    CompareKeyTotal(keys[b], keys[c]);
    KeyLtTransitive(keys[a], keys[b], keys[c]);
  }

  ghost predicate SameMembers(a: seq<nat>, b: seq<nat>) {
    forall x :: x in a <==> x in b
  }

  function Inserted(ids: seq<nat>, p: nat, x: nat): (s: seq<nat>)
    requires p <= |ids|
    ensures |s| == |ids| + 1
    ensures forall i :: 0 <= i < |s| ==> s[i] == if i < p then ids[i] else if i == p then x else ids[i - 1]
  {
    ids[..p] + [x] + ids[p..]
  }

  lemma InsertMembers(ids: seq<nat>, p: nat, x: nat)
    requires p <= |ids|
    ensures forall y :: y in Inserted(ids, p, x) <==> y in ids || y == x
  {
    assert ids == ids[..p] + ids[p..];
  }

  lemma InsertPair(keys: seq<Key>, ids: seq<nat>, x: nat, p: nat, i: nat, j: nat)
    requires InRange(ids, |keys|) && Sorted(keys, ids) && x < |keys| && x !in ids && p <= |ids|
    requires p > 0 ==> Before(keys, ids[p - 1], x)
    requires p < |ids| ==> Before(keys, x, ids[p])
    requires i < j <= |ids| && InRange(Inserted(ids, p, x), |keys|)
    ensures Before(keys, Inserted(ids, p, x)[i], Inserted(ids, p, x)[j])
  {
    hide Before;
    if i == p && p + 1 < j {
      BeforeTransitive(keys, x, ids[p], ids[j - 1]);
    } else if j == p && i < p - 1 {
      BeforeTransitive(keys, ids[i], ids[p - 1], x);
    }
  }

  lemma InsertSorted(keys: seq<Key>, ids: seq<nat>, x: nat, p: nat)
    requires InRange(ids, |keys|) && Sorted(keys, ids) && Distinct(ids) && x < |keys| && x !in ids && p <= |ids|
    requires p > 0 ==> Before(keys, ids[p - 1], x)
    requires p < |ids| ==> !Before(keys, ids[p], x)
    ensures InRange(Inserted(ids, p, x), |keys|) && Distinct(Inserted(ids, p, x)) && Sorted(keys, Inserted(ids, p, x))
  {
    hide Before;
    if p < |ids| {
      BeforeTotal(keys, ids[p], x);
    }
    forall i, j | 0 <= i < j < |Inserted(ids, p, x)|
      ensures Before(keys, Inserted(ids, p, x)[i], Inserted(ids, p, x)[j])
    {
      InsertPair(keys, ids, x, p, i, j);
    }
  }

  /** The numbers in key order, equal keys in numeric order. */
  method Sort(keys: seq<Key>, ids: seq<nat>) returns (out: seq<nat>)
    requires InRange(ids, |keys|) && Distinct(ids)
    ensures |out| == |ids| && InRange(out, |keys|) && Distinct(out) && Sorted(keys, out)
    ensures SameMembers(out, ids)
  {
    hide Before;
    out := [];
    for k := 0 to |ids|
      invariant |out| == k && InRange(out, |keys|) && Distinct(out) && Sorted(keys, out)
      invariant SameMembers(out, ids[..k])
    {
      var x := ids[k];
      var p := 0;
      while p < |out| && Before(keys, out[p], x)
        invariant 0 <= p <= |out|
        invariant p > 0 ==> Before(keys, out[p - 1], x)
      {
        p := p + 1;
      }
      assert x !in ids[..k];
      InsertSorted(keys, out, x, p);
      InsertMembers(out, p, x);
      out := Inserted(out, p, x);
      assert ids[..k + 1] == ids[..k] + [x];
    }
    assert ids[..|ids|] == ids;
  }

  /** Position of `key` in strictly ascending keys. */
  method BinarySearch(keys: seq<Key>, key: Key) returns (r: Option<nat>)
    requires StrictlyAscending(keys)
    ensures r.Some? ==> r.value < |keys| && keys[r.value] == key
    ensures r.None? ==> key !in keys
  {
    hide CompareKey;
    var lo, hi := 0, |keys|;
    while lo < hi
      invariant 0 <= lo <= hi <= |keys|
      invariant forall i :: 0 <= i < |keys| && (i < lo || hi <= i) ==> keys[i] != key
    {
      var mid := lo + (hi - lo) / 2;
      CompareKeyTotal(keys[mid], key);
      match CompareKey(keys[mid], key) {
        case Equal => return Some(mid);
        case Less =>
          Excluded(keys, key, mid);
          lo := mid + 1;
        case Greater =>
          Excluded(keys, key, mid);
          hi := mid;
      }
    }
    return None;
  }

  lemma Excluded(keys: seq<Key>, key: Key, mid: nat)
    requires StrictlyAscending(keys) && mid < |keys|
    ensures CompareKey(keys[mid], key) == Less ==> forall i :: 0 <= i <= mid ==> keys[i] != key
    ensures CompareKey(keys[mid], key) == Greater ==> forall i :: mid <= i < |keys| ==> keys[i] != key
  {
    hide CompareKey;
    CompareKeyTotal(keys[mid], key);
    CompareKeyTotal(key, key);
    forall i | 0 <= i < |keys| && keys[i] == key
      ensures i <= mid ==> CompareKey(keys[mid], key) != Less
      ensures mid <= i ==> CompareKey(keys[mid], key) != Greater
    {
      if i < mid {
        assert KeyLt(keys[i], keys[mid]);
        CompareKeyTotal(keys[i], keys[mid]);
      } else if mid < i {
        assert KeyLt(keys[mid], keys[i]);
      }
    }
  }

  function Numbers(n: nat): (s: seq<nat>)
    ensures |s| == n && InRange(s, n) && Distinct(s)
    ensures forall x: nat {:trigger s[x]} :: x < n ==> s[x] == x
  {
    seq(n, i requires 0 <= i < n => i)
  }
}
