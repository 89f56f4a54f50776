/** UTF-8 text as byte strings: validity, control characters, NUL-terminated fields, byte order. */
module Text {
  import opened Outcome
  import opened Bytes

  predicate Cont(b: byte) {
    0x80 <= b <= 0xBF
  }

  /** Length of the scalar value encoded at the front of `s` (RFC 3629, section 4), 0 when there is none. */
  function ScalarLen(s: Bytes): (k: nat)
    ensures k <= |s| && k <= 4
  {
    if |s| >= 1 && s[0] < 0x80 then 1
    else if |s| >= 2 && 0xC2 <= s[0] <= 0xDF && Cont(s[1]) then 2
    else if |s| >= 3 && 0xE0 <= s[0] <= 0xEF && Cont(s[1]) && Cont(s[2])
            && (s[0] == 0xE0 ==> 0xA0 <= s[1]) && (s[0] == 0xED ==> s[1] <= 0x9F) then 3
    else if |s| >= 4 && 0xF0 <= s[0] <= 0xF4 && Cont(s[1]) && Cont(s[2]) && Cont(s[3])
            && (s[0] == 0xF0 ==> 0x90 <= s[1]) && (s[0] == 0xF4 ==> s[1] <= 0x8F) then 4
    else 0
  }

  predicate ValidUtf8(s: Bytes)
    decreases |s|
  {
    s == [] || (ScalarLen(s) > 0 && ValidUtf8(s[ScalarLen(s)..]))
  }

  // ---- Scalar values ----

  /** A Unicode scalar value: a code point that is no surrogate. */
  predicate Scalar(c: nat) {
    c < 0xD800 || 0xE000 <= c < 0x11_0000
  }

  /** The value in base 64, lowest six bits last; the lead byte carries the length. */
  function EncodeScalar(c: nat): (s: Bytes)
    requires Scalar(c)
    ensures 1 <= |s| <= 4
  {
    if c < 0x80 then [c]
    else if c < 0x800 then [0xC0 + c / 64, 0x80 + c % 64]
    else if c < 0x1_0000 then [0xE0 + c / 64 / 64, 0x80 + c / 64 % 64, 0x80 + c % 64]
    else [0xF0 + c / 64 / 64 / 64, 0x80 + c / 64 / 64 % 64, 0x80 + c / 64 % 64, 0x80 + c % 64]
  }

  predicate Scalars(cs: seq<nat>) {
    forall i :: 0 <= i < |cs| ==> Scalar(cs[i])
  }

  function EncodeText(cs: seq<nat>): Bytes
    requires Scalars(cs)
  {
    if cs == [] then [] else EncodeScalar(cs[0]) + EncodeText(cs[1..])
  }

  lemma ScalarLenEncoded(c: nat, rest: Bytes)
    requires Scalar(c)
    ensures ScalarLen(EncodeScalar(c) + rest) == |EncodeScalar(c)|
  {
    var s := EncodeScalar(c) + rest;
    assert s[..|EncodeScalar(c)|] == EncodeScalar(c);
    assert forall i :: 0 <= i < |EncodeScalar(c)| ==> s[i] == EncodeScalar(c)[i];
  }

  /** What a byte carries behind its mark. */
  function Bits(b: byte, mark: byte): nat
    requires mark <= b
  {
    b - mark
  }

  /** The scalar value at the front of `s`. */
  function DecodeScalar(s: Bytes): (c: nat)
    requires ScalarLen(s) > 0
  {
    match ScalarLen(s)
    case 1 => s[0]
    case 2 => Bits(s[0], 0xC0) * 64 + Bits(s[1], 0x80)
    case 3 => (Bits(s[0], 0xE0) * 64 + Bits(s[1], 0x80)) * 64 + Bits(s[2], 0x80)
    case _ => ((Bits(s[0], 0xF0) * 64 + Bits(s[1], 0x80)) * 64 + Bits(s[2], 0x80)) * 64 + Bits(s[3], 0x80)
  }

  /** Six more bits behind `hi`. */
  lemma SixBits(hi: nat, lo: nat)
    requires lo < 64
    ensures (hi * 64 + lo) / 64 == hi && (hi * 64 + lo) % 64 == lo
  {
  }

  lemma TwoBytes(a: nat, b: nat)
    requires 2 <= a < 32 && b < 64
    ensures Scalar(a * 64 + b) && EncodeScalar(a * 64 + b) == [0xC0 + a, 0x80 + b]
  {
    SixBits(a, b);
  }

  lemma ThreeBytes(a: nat, b: nat, c: nat)
    requires a < 16 && b < 64 && c < 64 && (a == 0 ==> b >= 32) && (a == 13 ==> b < 32)
    ensures Scalar((a * 64 + b) * 64 + c) && EncodeScalar((a * 64 + b) * 64 + c) == [0xE0 + a, 0x80 + b, 0x80 + c]
  {
    SixBits(a, b);
    SixBits(a * 64 + b, c);
  }

  lemma FourBytes(a: nat, b: nat, c: nat, d: nat)
    requires a <= 4 && b < 64 && c < 64 && d < 64 && (a == 0 ==> b >= 16) && (a == 4 ==> b < 16)
    ensures Scalar(((a * 64 + b) * 64 + c) * 64 + d)
    ensures EncodeScalar(((a * 64 + b) * 64 + c) * 64 + d) == [0xF0 + a, 0x80 + b, 0x80 + c, 0x80 + d]
  {
    SixBits(a, b);
    SixBits(a * 64 + b, c);
    SixBits((a * 64 + b) * 64 + c, d);
  }

  lemma DecodeExact(s: Bytes)
    requires ScalarLen(s) > 0
    ensures Scalar(DecodeScalar(s)) && s[..ScalarLen(s)] == EncodeScalar(DecodeScalar(s))
  {
    hide EncodeScalar, Scalar;
    match ScalarLen(s) {
      case 1 => OneByte(s[0]);
      case 2 => TwoBytes(Bits(s[0], 0xC0), Bits(s[1], 0x80));
      case 3 => ThreeBytes(Bits(s[0], 0xE0), Bits(s[1], 0x80), Bits(s[2], 0x80));
      case _ => FourBytes(Bits(s[0], 0xF0), Bits(s[1], 0x80), Bits(s[2], 0x80), Bits(s[3], 0x80));
    }
  }

  lemma OneByte(a: nat)
    requires a < 0x80
    ensures Scalar(a) && EncodeScalar(a) == [a]
  {
  }

  function DecodeText(s: Bytes): seq<nat>
    requires ValidUtf8(s)
    decreases |s|
  {
    if s == [] then [] else [DecodeScalar(s)] + DecodeText(s[ScalarLen(s)..])
  }

  lemma {:induction false} DecodeTextExact(s: Bytes)
    requires ValidUtf8(s)
    ensures Scalars(DecodeText(s)) && EncodeText(DecodeText(s)) == s
    decreases |s|
  {
    hide ScalarLen, DecodeScalar, EncodeScalar, Scalar;
    if s != [] {
      var k := ScalarLen(s);
      DecodeTextExact(s[k..]);
      DecodeExact(s);
      assert s == s[..k] + s[k..];
      assert DecodeText(s)[1..] == DecodeText(s[k..]);
    }
  }

  lemma {:induction false} EncodedValid(cs: seq<nat>)
    requires Scalars(cs)
    ensures ValidUtf8(EncodeText(cs))
    decreases |cs|
  {
    if cs != [] {
      EncodedValid(cs[1..]);
      ScalarLenEncoded(cs[0], EncodeText(cs[1..]));
      var k := |EncodeScalar(cs[0])|;
      assert EncodeText(cs)[k..] == EncodeText(cs[1..]);
    }
  }

  /** Valid are exactly the concatenations of encoded scalar values. */
  lemma ValidUtf8Exact(s: Bytes)
    ensures ValidUtf8(s) <==> exists cs: seq<nat> :: Scalars(cs) && s == EncodeText(cs)
  {
    hide ScalarLen, EncodeScalar, Scalars, EncodeText, DecodeText;
    if ValidUtf8(s) {
      DecodeTextExact(s);
    }
    if cs: seq<nat> :| Scalars(cs) && s == EncodeText(cs) {
      EncodedValid(cs);
    }
  }

  /** No byte of valid UTF-8 reaches 0xF5; in particular 0xFF is larger than all of them. */
  lemma {:induction false} Utf8BytesSmall(s: Bytes, i: nat)
    requires ValidUtf8(s) && i < |s|
    ensures s[i] < 0xF5
    decreases |s|
  {
    var k := ScalarLen(s);
    if i >= k {
      Utf8BytesSmall(s[k..], i - k);
    }
  }

  lemma ScalarLenPrefix(a: Bytes, b: Bytes)
    requires ScalarLen(a) > 0
    ensures ScalarLen(a + b) == ScalarLen(a)
    ensures (a + b)[ScalarLen(a)..] == a[ScalarLen(a)..] + b
  {
    assert (a + b)[..|a|] == a;
  }

  lemma {:induction false} Utf8Concat(a: Bytes, b: Bytes)
    requires ValidUtf8(a) && ValidUtf8(b)
    ensures ValidUtf8(a + b)
    decreases |a|
  {
    hide ScalarLen;
    if a == [] {
      assert a + b == b;
    } else {
      Utf8Concat(a[ScalarLen(a)..], b);
      ScalarLenPrefix(a, b);
    }
  }

  predicate IsAscii(s: Bytes) {
    forall i :: 0 <= i < |s| ==> s[i] < 0x80
  }

  lemma {:induction false} AsciiIsUtf8(s: Bytes)
    requires IsAscii(s)
    ensures ValidUtf8(s)
    decreases |s|
  {
    if s != [] {
      AsciiIsUtf8(s[1..]);
    }
  }

  /** The bytes of an ASCII literal. */
  function Ascii(lit: string): (s: Bytes)
    requires forall i :: 0 <= i < |lit| ==> lit[i] < '\U{80}'
    ensures |s| == |lit| && IsAscii(s)
    ensures forall i :: 0 <= i < |s| ==> s[i] == lit[i] as int
  {
    seq(|lit|, i requires 0 <= i < |lit| => lit[i] as int as byte)
  }

  /** A character of Unicode category Cc: U+0000..U+001F, U+007F, U+0080..U+009F. */
  predicate ControlAt(s: Bytes, i: nat)
    requires i < |s|
  {
    s[i] < 0x20 || s[i] == 0x7F || (s[i] == 0xC2 && i + 1 < |s| && 0x80 <= s[i + 1] <= 0x9F)
  }

  predicate HasControl(s: Bytes) {
    exists i :: 0 <= i < |s| && ControlAt(s, i)
  }

  /** Category Cc, by scalar value. */
  predicate Control(c: nat) {
    c < 0x20 || 0x7F <= c < 0xA0
  }

  lemma ControlInScalar(c: nat, rest: Bytes)
    requires Scalar(c)
    ensures HasControl(EncodeScalar(c) + rest) <==> Control(c) || HasControl(rest)
  {
    hide EncodeScalar;
    var a := EncodeScalar(c);
    var s := a + rest;
    assert forall i :: 0 <= i < |rest| ==> s[|a| + i] == rest[i];
    if HasControl(rest) {
      var i :| 0 <= i < |rest| && ControlAt(rest, i);
      assert ControlAt(s, |a| + i);
    }
    forall i: nat | i < |a|
      ensures ControlAt(s, i) <==> i == 0 && Control(c)
    {
      ControlByte(c, rest, i);
    }
    if Control(c) {
      assert ControlAt(s, 0);
    }
    if HasControl(s) {
      var i :| 0 <= i < |s| && ControlAt(s, i);
      assert i >= |a| ==> ControlAt(rest, i - |a|);
    }
  }

  lemma ControlByte(c: nat, rest: Bytes, i: nat)
    requires Scalar(c) && i < |EncodeScalar(c)|
    ensures ControlAt(EncodeScalar(c) + rest, i) <==> i == 0 && Control(c)
  {
    var a := EncodeScalar(c);
    assert (a + rest)[i] == a[i];
    assert i + 1 < |a| ==> (a + rest)[i + 1] == a[i + 1];
  }

  /** A text has a control character exactly when one of its scalar values is one. */
  lemma {:induction false} HasControlExact(cs: seq<nat>)
    requires Scalars(cs)
    ensures HasControl(EncodeText(cs)) <==> exists i :: 0 <= i < |cs| && Control(cs[i])
  {
    hide HasControl, EncodeScalar, Control;
    if cs == [] {
      assert !HasControl([]) by {
        NothingControls();
      }
    } else {
      HasControlExact(cs[1..]);
      ControlInScalar(cs[0], EncodeText(cs[1..]));
      if i :| 0 <= i < |cs| && Control(cs[i]) {
        assert i > 0 ==> Control(cs[1..][i - 1]);
      }
      if i :| 0 <= i < |cs[1..]| && Control(cs[1..][i]) {
        assert Control(cs[i + 1]);
      }
    }
  }

  lemma NothingControls()
    ensures !HasControl([])
  {
  }

  lemma NoControlNoNul(s: Bytes)
    requires !HasControl(s)
    ensures 0 !in s
  {
    if 0 in s {
      var i :| 0 <= i < |s| && s[i] == 0;
      assert ControlAt(s, i);
    }
  }

  /** Text that a NUL-terminated field can carry. */
  predicate Storable(s: Bytes) {
    ValidUtf8(s) && 0 !in s
  }

  /** Position of the first NUL at or after `off`, or the length of `buf`. */
  function FindNul(buf: Bytes, off: nat): (p: nat)
    requires off <= |buf|
    ensures off <= p <= |buf|
    ensures p < |buf| ==> buf[p] == 0
    ensures forall i :: off <= i < p ==> buf[i] != 0
    decreases |buf| - off
  {
    if off == |buf| || buf[off] == 0 then off else FindNul(buf, off + 1)
  }

  /** The NUL-terminated string at `off` and the offset after its NUL. */
  function CStrAt(buf: Bytes, off: nat): (r: Result<(Bytes, nat)>)
    ensures r.Ok? ==> off < r.value.1 <= |buf| && Storable(r.value.0) && At(buf, off, r.value.0 + [0])
  {
    if off > |buf| then Err(Truncated)
    else
      var p := FindNul(buf, off);
      if p == |buf| then Err(Truncated)
      else if !ValidUtf8(buf[off..p]) then Err(BadUtf8)
      else
        assert buf[off..p + 1] == buf[off..p] + [0];
        Ok((buf[off..p], p + 1))
  }

  lemma CStrAtStored(buf: Bytes, off: nat, s: Bytes)
    requires At(buf, off, s + [0]) && Storable(s)
    ensures CStrAt(buf, off) == Ok((s, off + |s| + 1))
  {
    AtSplit(buf, off, s, [0]);
    assert buf[off + |s|] == buf[off + |s|..off + |s| + 1][0] == [0][0];
    forall i | off <= i < off + |s|
      ensures buf[i] != 0
    {
      assert buf[off..off + |s|][i - off] in s;
    }
    assert FindNul(buf, off) == off + |s|;
  }

  /** A field that ends at `p` is read as it is when it encodes scalar values, and refused otherwise. */
  lemma CStrAtExact(buf: Bytes, off: nat, p: nat)
    requires off <= p < |buf| && buf[p] == 0 && 0 !in buf[off..p]
    ensures CStrAt(buf, off) ==
            if exists cs: seq<nat> :: Scalars(cs) && buf[off..p] == EncodeText(cs) then Ok((buf[off..p], p + 1)) else Err(BadUtf8)
  {
    hide ValidUtf8, EncodeText;
    ValidUtf8Exact(buf[off..p]);
    forall i | off <= i < p
      ensures buf[i] != 0
    {
      assert buf[off..p][i - off] in buf[off..p];
    }
    assert FindNul(buf, off) == p;
  }

  // Byte order of strings (Rust's `str::cmp`).

  function Compare(a: Bytes, b: Bytes): Ordering
    decreases |a|
  {
    if a == [] then (if b == [] then Equal else Less)
    else if b == [] then Greater
    else if a[0] < b[0] then Less
    else if a[0] > b[0] then Greater
    else Compare(a[1..], b[1..])
  }

  predicate Lt(a: Bytes, b: Bytes) {
    Compare(a, b) == Less
  }

  lemma {:induction false} CompareTotal(a: Bytes, b: Bytes)
    ensures Compare(a, b) == Equal <==> a == b
    ensures Compare(a, b) == Less <==> Compare(b, a) == Greater
    decreases |a|
  {
    if a != [] && b != [] && a[0] == b[0] {
      CompareTotal(a[1..], b[1..]);
      assert a == [a[0]] + a[1..] && b == [b[0]] + b[1..];
    }
  }

  /** The texts agree in their first `k` bytes, and then `a` ends or has the smaller byte. */
  ghost predicate Precedes(a: Bytes, b: Bytes, k: nat) {
    k <= |a| && k < |b| && a[..k] == b[..k] && (k == |a| || a[k] < b[k])
  }

  lemma SameFirst(a: Bytes, b: Bytes, k: nat)
    requires Precedes(a, b, k)
    ensures k > 0 ==> a != [] && b != [] && a[0] == b[0]
  {
    if k > 0 {
      assert a[0] == a[..k][0] && b[0] == b[..k][0];
    }
  }

  /** Smaller is what ends first or has the smaller byte at the first difference. */
  lemma {:induction false} LtExact(a: Bytes, b: Bytes)
    ensures Lt(a, b) <==> exists k: nat :: Precedes(a, b, k)
    decreases |a|
  {
    if a == [] || b == [] || a[0] != b[0] {
      if Lt(a, b) {
        assert Precedes(a, b, 0);
      }
      if k: nat :| Precedes(a, b, k) {
        SameFirst(a, b, k);
      }
    } else {
      LtExact(a[1..], b[1..]);
      if k: nat :| Precedes(a[1..], b[1..], k) {
        assert a[..k + 1] == [a[0]] + a[1..][..k] && b[..k + 1] == [b[0]] + b[1..][..k];
        assert Precedes(a, b, k + 1);
      }
      if k: nat :| Precedes(a, b, k) {
        assert k > 0;
        assert a[1..][..k - 1] == a[..k][1..] && b[1..][..k - 1] == b[..k][1..];
        assert Precedes(a[1..], b[1..], k - 1);
      }
    }
  }

  lemma {:induction false} LtTransitive(a: Bytes, b: Bytes, c: Bytes)
    requires Lt(a, b) && Lt(b, c)
    ensures Lt(a, c)
    decreases |a|
  {
    if a != [] && b != [] && c != [] && a[0] == b[0] == c[0] {
      LtTransitive(a[1..], b[1..], c[1..]);
    }
  }

  lemma {:induction false} ComparePrefixed(p: Bytes, a: Bytes, b: Bytes)
    ensures Compare(p + a, p + b) == Compare(a, b)
    decreases |p|
  {
    if p == [] {
      assert p + a == a && p + b == b;
    } else {
      assert (p + a)[1..] == p[1..] + a && (p + b)[1..] == p[1..] + b;
      ComparePrefixed(p[1..], a, b);
    }
  }

  // Positions.

  /** Position of the first `b` in `s`. */
  function FirstOf(s: Bytes, b: byte): (r: Option<nat>)
    ensures r.Some? ==> r.value < |s| && s[r.value] == b && b !in s[..r.value]
    ensures r.None? ==> b !in s
  {
    if s == [] then None
    else if s[0] == b then Some(0)
    else
      match FirstOf(s[1..], b)
      case None => None
      case Some(i) =>
        assert s[..i + 1] == [s[0]] + s[1..][..i];
        Some(i + 1)
  }

  lemma {:induction false} FirstBehind(a: Bytes, b: byte, rest: Bytes)
    requires b !in a
    ensures FirstOf(a + [b] + rest, b) == Some(|a|) && FirstOf(a, b) == None
    decreases |a|
  {
    var s := a + [b] + rest;
    if a == [] {
      assert s[0] == b;
    } else {
      assert a[0] in a && s[1..] == a[1..] + [b] + rest;
      FirstBehind(a[1..], b, rest);
    }
  }

  /** Position of the last `b` in `s`. */
  function LastOf(s: Bytes, b: byte): (r: Option<nat>)
    ensures r.Some? ==> r.value < |s| && s[r.value] == b && b !in s[r.value + 1..]
    ensures r.None? ==> b !in s
  {
    if s == [] then None
    else if s[|s| - 1] == b then Some(|s| - 1)
    else
      assert s == s[..|s| - 1] + [s[|s| - 1]];
      match LastOf(s[..|s| - 1], b)
      case None => None
      case Some(i) =>
        assert s[i + 1..] == s[..|s| - 1][i + 1..] + [s[|s| - 1]];
        Some(i)
  }

  // Keys: a namespace byte, then a string.

  datatype Key = Key(ns: byte, text: Bytes)

  function CompareKey(a: Key, b: Key): Ordering {
    if a.ns < b.ns then Less else if a.ns > b.ns then Greater else Compare(a.text, b.text)
  }

  predicate KeyLt(a: Key, b: Key) {
    CompareKey(a, b) == Less
  }

  predicate KeyLe(a: Key, b: Key) {
    CompareKey(a, b) != Greater
  }

  lemma CompareKeyTotal(a: Key, b: Key)
    ensures CompareKey(a, b) == Equal <==> a == b
    ensures CompareKey(a, b) == Less <==> CompareKey(b, a) == Greater
  {
    CompareTotal(a.text, b.text);
  }

  lemma KeyLtTransitive(a: Key, b: Key, c: Key)
    requires KeyLe(a, b) && KeyLe(b, c)
    ensures KeyLe(a, c)
    ensures KeyLt(a, b) || KeyLt(b, c) ==> KeyLt(a, c)
  {
    CompareKeyTotal(a, b);
    CompareKeyTotal(b, c);
    if KeyLt(a, b) && KeyLt(b, c) && a.ns == b.ns == c.ns {
      LtTransitive(a.text, b.text, c.text);
    }
  }

  ghost predicate Ascending(keys: seq<Key>) {
    forall i, j :: 0 <= i < j < |keys| ==> KeyLe(keys[i], keys[j])
  }

  ghost predicate StrictlyAscending(keys: seq<Key>) {
    forall i, j :: 0 <= i < j < |keys| ==> KeyLt(keys[i], keys[j])
  }

  lemma {:induction false} StepsToFar(keys: seq<Key>, i: nat, j: nat)
    requires forall k :: 0 < k < |keys| ==> KeyLe(keys[k - 1], keys[k])
    requires i < j < |keys|
    ensures KeyLe(keys[i], keys[j])
    decreases j
  {
    hide KeyLe;
    if i < j - 1 {
      StepsToFar(keys, i, j - 1);
      KeyLtTransitive(keys[i], keys[j - 1], keys[j]);
    }
  }

  lemma StepsAscend(keys: seq<Key>)
    requires forall k :: 0 < k < |keys| ==> KeyLe(keys[k - 1], keys[k])
    ensures Ascending(keys)
  {
    forall i, j | 0 <= i < j < |keys|
      ensures KeyLe(keys[i], keys[j])
    {
      StepsToFar(keys, i, j);
    }
  }
}
