/** Inputs at the reader's decode limit: a body too long for any cluster, and a target too large for a shared one. */
module Limits {
  import opened Outcome
  import opened Bytes
  import opened Text
  import opened Clusters
  import opened MimeTypes
  import opened Layout
  import opened Packing
  import opened ReadBack

  function ZeroBody(n: nat): (s: Bytes)
    ensures |s| == n
  {
    seq(n, _ => 0)
  }

  lemma {:induction false} JoinEmpties(first: Bytes, n: nat, k: nat)
    requires k <= n + 1
    ensures |Join([first] + seq(n, _ => []), k)| == if k == 0 then 0 else |first|
  {
    if k > 0 {
      JoinEmpties(first, n, k - 1);
    }
  }

  ghost predicate AlwaysDecodable(target: nat, n: nat, comp: Compression) {
    forall blobs: seq<Bytes> :: |blobs| == n && |JoinAll(blobs)| <= target ==> Decodable(blobs, comp)
  }

  /** The condition on the target is exact: compressed clusters of `n` bodies within the target can all be decoded if
      and only if there is room for them. */
  lemma RoomyExact(target: nat, n: nat, comp: Compression)
    requires n >= 2 && comp != Raw
    ensures AlwaysDecodable(target, n, comp) <==> Roomy(target, n)
  {
    if !Roomy(target, n) {
      var blobs := [ZeroBody(target)] + seq(n - 1, _ => []);
      JoinEmpties(ZeroBody(target), n - 1, n);
      assert |blobs| == n && |JoinAll(blobs)| == target;
      hide Join;
      assert !Decodable(blobs, comp);
    }
    hide Join;
  }

  /** A bucket's blobs become one cluster, flushed once or twice. */
  lemma FlushedOnce(d: Draft, key: Bytes)
    requires key in d.buckets && d.buckets[key].blobs != []
    ensures var p := d.plans + [Some(Plan(d.buckets[key].blobs, d.buckets[key].comp))];
      Flush(d, key).plans == p && Flush(Flush(d, key), key).plans == p
  {
  }

  lemma FirstPush(s: Settings, m: Meta, content: Bytes) returns (d: Draft)
    requires ValidMime(m.mimetype)
    ensures Push(s, EMPTY_DRAFT, Item(m, content)) == Ok(Settle(s, d, KeyOf(s, m)))
    ensures d.plans == [] && m.mimetype in d.mimes && KeyOf(s, m) in d.buckets
    ensures d.buckets[KeyOf(s, m)].blobs == [content] && d.buckets[KeyOf(s, m)].size == |content|
    ensures d.buckets[KeyOf(s, m)].comp == CompOf(s, m)
  {
    InternOne([], m.mimetype);
    assert ListLen([]) == 0;
    hide Intern, KeyOf, CompOf, Typed, Printable;
    var interned := Intern([], m.mimetype).value;
    d := Put(s, EMPTY_DRAFT.(mimes := interned.0), m, interned.1, content);
  }

  /** A compressed body longer than the limit allows, added to an empty archive: it is accepted, and the cluster it gets
      cannot be decoded. */
  lemma OversizedBody(s: Settings, m: Meta, content: Bytes)
    requires ValidMime(m.mimetype) && CompOf(s, m) != Raw && |content| + 16 > MAX_EXTENDED_CLUSTER_BYTES
    ensures Push(s, EMPTY_DRAFT, Item(m, content)).Ok?
    ensures Flush(Push(s, EMPTY_DRAFT, Item(m, content)).value, KeyOf(s, m)).plans == [Some(Plan([content], CompOf(s, m)))]
    ensures !Decodable([content], CompOf(s, m)) && !BodyFits(BodyOf(s, m, content))
  {
    var d := FirstPush(s, m, content);
    FlushedOnce(d, KeyOf(s, m));
    hide Flush, KeyOf, CompOf, Push;
    assert Join([content], 1) == Join([content], 0) + content == content;
  }

  /** A target without room: two bodies that fit alone, one after the other in the same bucket, are accepted and share
      a cluster that cannot be decoded. */
  lemma SharedTooLong(s: Settings, m: Meta, n: Meta, x: Bytes, y: Bytes)
    requires ValidMime(m.mimetype) && n.mimetype == m.mimetype && KeyOf(s, n) == KeyOf(s, m)
    requires CompOf(s, m) == CompOf(s, n) != Raw && !Roomy(s.target, 2)
    requires |x| == (if s.target <= MAX_EXTENDED_CLUSTER_BYTES - 15 then s.target - 1 else MAX_EXTENDED_CLUSTER_BYTES - 16) && |y| == 1
    ensures BodyFits(BodyOf(s, m, x)) && BodyFits(BodyOf(s, n, y))
    ensures Push(s, EMPTY_DRAFT, Item(m, x)).Ok?
    ensures Push(s, Push(s, EMPTY_DRAFT, Item(m, x)).value, Item(n, y)).Ok?
    ensures Flush(Push(s, Push(s, EMPTY_DRAFT, Item(m, x)).value, Item(n, y)).value, KeyOf(s, m)).plans
            == [Some(Plan([x, y], CompOf(s, m)))]
    ensures !Decodable([x, y], CompOf(s, m))
  {
    var d := FirstPush(s, m, x);
    InternOne(d.mimes, n.mimetype);
    hide Flush, KeyOf, CompOf, Intern, ValidMime;
    var put := Put(s, d, n, Intern(d.mimes, n.mimetype).value.1, y);
    FlushedOnce(put, KeyOf(s, m));
    assert [x] + [y] == [x, y];
    assert put.buckets[KeyOf(s, m)].blobs == [x, y] && put.buckets[KeyOf(s, m)].comp == CompOf(s, m) && put.plans == [];
    assert Settle(s, d, KeyOf(s, m)) == d;
    assert Push(s, d, Item(n, y)) == Ok(Settle(s, put, KeyOf(s, m)));
    assert Join([x, y], 2) == Join([x, y], 0) + x + y == x + y;
  }
}
