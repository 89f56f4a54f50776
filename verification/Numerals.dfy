/** Decimal numerals: writing a number and reading one. */
module Numerals {
  import opened Outcome
  import opened Bytes
  import opened Text

  function Decimal(n: nat): (s: Bytes)
    ensures IsAscii(s) && 0 !in s && s != []
  {
    if n < 10 then [48 + n] else Decimal(n / 10) + [48 + n % 10]
  }

  predicate Digit(b: byte) {
    48 <= b <= 57
  }

  /** The digits of `s`, read from the left behind a number `acc`. */
  function ReadDigits(s: Bytes, acc: nat): Option<nat>
    decreases |s|
  {
    if s == [] then Some(acc)
    else if !Digit(s[0]) then None
    else ReadDigits(s[1..], 10 * acc + s[0] - 48)
  }

  function ReadDecimal(s: Bytes): Option<nat> {
    if s == [] then None else ReadDigits(s, 0)
  }

  /** Reads a 32-bit number: a plus sign may stand in front, and leading zeros. */
  function ParseU32(s: Bytes): Option<nat> {
    match ReadDecimal(if s != [] && s[0] == 43 then s[1..] else s)
    case None => None
    case Some(n) => if n < U32_LIMIT then Some(n) else None
  }

  lemma {:induction false} ReadAppend(s: Bytes, acc: nat, b: byte)
    requires ReadDigits(s, acc).Some? && Digit(b)
    ensures ReadDigits(s + [b], acc) == Some(10 * ReadDigits(s, acc).value + b - 48)
    decreases |s|
  {
    if s == [] {
      assert (s + [b])[1..] == [];
    } else {
      assert (s + [b])[1..] == s[1..] + [b];
      ReadAppend(s[1..], 10 * acc + s[0] - 48, b);
    }
  }

  /** A numeral consists of digits, does not begin with a superfluous zero, and reads back as its number. */
  lemma {:induction false} DecimalExact(n: nat)
    ensures ReadDecimal(Decimal(n)) == Some(n)
    ensures (forall i :: 0 <= i < |Decimal(n)| ==> Digit(Decimal(n)[i])) && (n > 0 ==> Decimal(n)[0] != 48)
  {
    if n < 10 {
      assert [48 + n][1..] == [] && ReadDigits([], n) == Some(n);
    } else {
      DecimalExact(n / 10);
      ReadAppend(Decimal(n / 10), 0, 48 + n % 10);
    }
  }

  lemma ParsesDecimal(n: nat)
    requires n < U32_LIMIT
    ensures ParseU32(Decimal(n)) == Some(n)
  {
    DecimalExact(n);
  }
}
