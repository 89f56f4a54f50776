/** Byte strings, little-endian fields and slices of an archive file. */
module Bytes {
  import opened Outcome

  type byte = b: int | 0 <= b < 256

  type Bytes = seq<byte>

  const U16_LIMIT: nat := 0x1_0000
  const U32_LIMIT: nat := 0x1_0000_0000
  const U64_LIMIT: nat := 0x1_0000_0000_0000_0000
  const U32_MAX: nat := 0xFFFF_FFFF

  function Pow256(w: nat): (p: nat)
    ensures 1 <= p
  {
    if w == 0 then 1 else 256 * Pow256(w - 1)
  }

  lemma Pow256Values()
    ensures Pow256(1) == 256 && Pow256(2) == U16_LIMIT && Pow256(4) == U32_LIMIT && Pow256(8) == U64_LIMIT
  {
    assert Pow256(0) == 1;
    assert Pow256(1) == 256 * Pow256(0);
    assert Pow256(2) == 256 * Pow256(1);
    assert Pow256(3) == 256 * Pow256(2);
    assert Pow256(4) == 256 * Pow256(3);
    assert Pow256(5) == 256 * Pow256(4);
    assert Pow256(6) == 256 * Pow256(5);
    assert Pow256(7) == 256 * Pow256(6);
    assert Pow256(8) == 256 * Pow256(7);
  }

  /** The `w` low-order bytes of `n`, least significant first; higher bytes are cut off, as by an `as` cast. */
  function Le(n: nat, w: nat): (s: Bytes)
    ensures |s| == w
  {
    if w == 0 then [] else [n % 256] + Le(n / 256, w - 1)
  }

  function UnLe(s: Bytes): nat {
    if s == [] then 0 else s[0] + 256 * UnLe(s[1..])
  }

  lemma {:induction false} UnLeBound(s: Bytes)
    ensures UnLe(s) < Pow256(|s|)
  {
    if s != [] {
      UnLeBound(s[1..]);
    }
  }

  /** A little-endian field reads back exactly the numbers that fit into it. */
  lemma {:induction false} LeRoundTrip(n: nat, w: nat)
    ensures UnLe(Le(n, w)) == n <==> n < Pow256(w)
  {
    UnLeBound(Le(n, w));
    if w > 0 {
      LeRoundTrip(n / 256, w - 1);
      assert Le(n, w)[1..] == Le(n / 256, w - 1);
    }
  }

  /** Byte `i` of a field is digit `i` of the number in base 256. */
  lemma {:induction false} LeDigits(n: nat, w: nat, i: nat)
    requires i < w
    ensures Le(n, w)[i] == n / Pow256(i) % 256
  {
    assert Pow256(0) == 1;
    if i > 0 {
      LeDigits(n / 256, w - 1, i - 1);
      DivideTwice(n, Pow256(i - 1));
    }
  }

  lemma DivideTwice(n: nat, p: nat)
    requires p >= 1
    ensures n / 256 / p == n / (256 * p)
  {
    var q := n / 256 / p;
    var r, s := n / 256 % p, n % 256;
    assert n == 256 * (n / 256) + s && n / 256 == p * q + r;
    assert n == (256 * p) * q + (256 * r + s) by {
      assert 256 * (p * q + r) == (256 * p) * q + 256 * r;
    }
    Quotient(n, 256 * p, q, 256 * r + s);
  }

  lemma Quotient(n: nat, d: nat, q: nat, r: nat)
    requires d >= 1 && n == d * q + r && r < d
    ensures n / d == q
  {
    var k := n / d;
    assert n == d * k + n % d;
    if q > k {
      Further(d, k, q);
    } else if k > q {
      Further(d, q, k);
    }
  }

  lemma {:induction false} Further(d: nat, a: nat, b: nat)
    requires a < b
    ensures d * a + d <= d * b
    decreases b
  {
    assert d * b == d * (b - 1) + d;
    if a < b - 1 {
      Further(d, a, b - 1);
    }
  }

  /** `s` occupies `file[off..]`. */
  predicate At(file: Bytes, off: nat, s: Bytes) {
    off + |s| <= |file| && file[off..off + |s|] == s
  }

  lemma AtSplit(file: Bytes, off: nat, a: Bytes, b: Bytes)
    ensures At(file, off, a + b) <==> At(file, off, a) && At(file, off + |a|, b)
  {
    if off + |a + b| <= |file| {
      var s := file[off..off + |a + b|];
      assert s[..|a|] == file[off..off + |a|];
      assert s[|a|..] == file[off + |a|..off + |a| + |b|];
      assert (a + b)[..|a|] == a && (a + b)[|a|..] == b;
      assert s == s[..|a|] + s[|a|..];
    }
  }

  /** The first `n` parts, concatenated. */
  function Join(parts: seq<Bytes>, n: nat): Bytes
    requires n <= |parts|
  {
    if n == 0 then [] else Join(parts, n - 1) + parts[n - 1]
  }

  function JoinAll(parts: seq<Bytes>): Bytes {
    Join(parts, |parts|)
  }

  lemma {:induction false} JoinPrefix(a: seq<Bytes>, b: seq<Bytes>, n: nat)
    requires n <= |a| && n <= |b| && a[..n] == b[..n]
    ensures Join(a, n) == Join(b, n)
  {
    if n > 0 {
      assert a[..n][n - 1] == b[..n][n - 1];
      assert a[..n - 1] == a[..n][..n - 1] == b[..n][..n - 1] == b[..n - 1];
      JoinPrefix(a, b, n - 1);
    }
  }

  lemma JoinAppend(parts: seq<Bytes>, last: Bytes)
    ensures JoinAll(parts + [last]) == JoinAll(parts) + last
  {
    JoinPrefix(parts + [last], parts, |parts|);
  }

  lemma {:induction false} JoinMonotone(parts: seq<Bytes>, i: nat, n: nat)
    requires i <= n <= |parts|
    ensures |Join(parts, i)| <= |Join(parts, n)|
    decreases n
  {
    if i < n {
      JoinMonotone(parts, i, n - 1);
    }
  }

  /** Each part of a concatenation lies where the lengths of the parts before it say. */
  lemma {:induction false} AtJoin(file: Bytes, off: nat, parts: seq<Bytes>, n: nat, i: nat)
    requires i < n <= |parts|
    requires At(file, off, Join(parts, n))
    ensures At(file, off + |Join(parts, i)|, parts[i])
    decreases n
  {
    AtSplit(file, off, Join(parts, n - 1), parts[n - 1]);
    if i < n - 1 {
      AtJoin(file, off, parts, n - 1, i);
    }
  }

  // Bounds-checked reads (src/raw.rs).

  function U8At(buf: Bytes, off: nat): Result<byte> {
    if off < |buf| then Ok(buf[off]) else Err(Truncated)
  }

  /** A `w`-byte little-endian field at `off`. */
  function UintAt(buf: Bytes, off: nat, w: nat): Result<nat> {
    if off + w <= |buf| then Ok(UnLe(buf[off..off + w])) else Err(Truncated)
  }

  lemma UintAtLe(buf: Bytes, off: nat, n: nat, w: nat)
    requires At(buf, off, Le(n, w)) && n < Pow256(w)
    ensures UintAt(buf, off, w) == Ok(n)
  {
    LeRoundTrip(n, w);
  }
}
