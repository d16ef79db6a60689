/**
 Text renderings of numbers as Python produces them: `hex(n)[2:]` (lower-case,
 no padding), two-digit hex bytes, and `str(n)` for integers, each with the
 parser that inverts it.
 */
module Numerals {

  newtype byte = x: int | 0 <= x < 256

  /** A lower-case hexadecimal digit, the alphabet of `hex()` and `hexdigest()`. */
  predicate IsHexDigit(c: char) {
    ('0' <= c <= '9') || ('a' <= c <= 'f')
  }

  predicate AllHex(s: string) {
    forall i :: 0 <= i < |s| ==> IsHexDigit(s[i])
  }

  function HexDigit(d: nat): (c: char)
    requires d < 16
    ensures IsHexDigit(c)
  {
    if d < 10 then ('0' as int + d) as char else ('a' as int + d - 10) as char
  }

  function DigitValue(c: char): (d: nat)
    requires IsHexDigit(c)
    ensures d < 16 && HexDigit(d) == c
  {
    if c <= '9' then c as int - '0' as int else c as int - 'a' as int + 10
  }

  function Pow16(k: nat): (p: nat)
    ensures p >= 1
  {
    if k == 0 then 1 else 16 * Pow16(k - 1)
  }

  /** Python's `hex(n)[2:]`: lower-case digits, most significant first, with no
      leading zero except for `n == 0` itself. */
  function LowerHex(n: nat): (r: string)
    ensures 1 <= |r| && AllHex(r)
    ensures |r| > 1 ==> r[0] != '0'
    decreases n
  {
    if n < 16 then [HexDigit(n)] else LowerHex(n / 16) + [HexDigit(n % 16)]
  }

  /** The value of a string of hex digits, most significant first. */
  function ParseHex(s: string): nat
    requires AllHex(s)
  {
    if |s| == 0 then 0 else ParseHex(s[..|s| - 1]) * 16 + DigitValue(s[|s| - 1])
  }

  /** `LowerHex` loses nothing: parsing it back gives the number. */
  lemma {:induction false} ParseLowerHex(n: nat)
    ensures ParseHex(LowerHex(n)) == n
    decreases n
  {
    if n >= 16 {
      var r := LowerHex(n);
      assert r[..|r| - 1] == LowerHex(n / 16);
      ParseLowerHex(n / 16);
    }
  }

  /** A number below 16^k has at most k hex digits. */
  lemma {:induction false} LowerHexLength(n: nat, k: nat)
    requires 1 <= k && n < Pow16(k)
    ensures |LowerHex(n)| <= k
    decreases k
  {
    if n >= 16 {
      assert k >= 2;
      LowerHexLength(n / 16, k - 1);
    }
  }

  /** Two hex digits for one byte, as in `hexdigest()` and `'%032x'`. */
  function HexByte(b: byte): (r: string)
    ensures |r| == 2 && AllHex(r)
  {
    [HexDigit(b as nat / 16), HexDigit(b as nat % 16)]
  }

  function HexBytes(bs: seq<byte>): (r: string)
    ensures |r| == 2 * |bs| && AllHex(r)
  {
    if |bs| == 0 then "" else HexByte(bs[0]) + HexBytes(bs[1..])
  }

  function ParseHexBytes(s: string): seq<byte>
    requires AllHex(s) && |s| % 2 == 0
  {
    if |s| == 0 then []
    else [(DigitValue(s[0]) * 16 + DigitValue(s[1])) as byte] + ParseHexBytes(s[2..])
  }

  /** Hex rendering of bytes is invertible. */
  lemma {:induction false} ParseHexBytesInverse(bs: seq<byte>)
    ensures ParseHexBytes(HexBytes(bs)) == bs
  {
    if |bs| > 0 {
      var s := HexBytes(bs);
      assert s[2..] == HexBytes(bs[1..]);
      ParseHexBytesInverse(bs[1..]);
      assert bs == [bs[0]] + bs[1..];
    }
  }

  /** The hex digits of `bs[i]` sit at positions `2i` and `2i + 1`. */
  lemma {:induction false} HexBytesAt(bs: seq<byte>, i: nat)
    requires i < |bs|
    ensures HexBytes(bs)[2 * i] == HexDigit(bs[i] as nat / 16)
    ensures HexBytes(bs)[2 * i + 1] == HexDigit(bs[i] as nat % 16)
  {
    if i > 0 {
      HexBytesAt(bs[1..], i - 1);
    }
  }

  predicate IsDecimalDigit(c: char) {
    '0' <= c <= '9'
  }

  /** `str(n)` for a natural number. */
  function NatDecimal(n: nat): (r: string)
    ensures 1 <= |r|
    ensures forall i :: 0 <= i < |r| ==> IsDecimalDigit(r[i])
    ensures |r| > 1 ==> r[0] != '0'
    decreases n
  {
    if n < 10 then [('0' as int + n) as char]
    else NatDecimal(n / 10) + [('0' as int + n % 10) as char]
  }

  function ParseDecimal(s: string): nat
    requires forall i :: 0 <= i < |s| ==> IsDecimalDigit(s[i])
  {
    if |s| == 0 then 0
    else
      assert IsDecimalDigit(s[|s| - 1]);
      ParseDecimal(s[..|s| - 1]) * 10 + (s[|s| - 1] as int - '0' as int)
  }

  lemma {:induction false} ParseNatDecimal(n: nat)
    ensures ParseDecimal(NatDecimal(n)) == n
    decreases n
  {
    if n >= 10 {
      var r := NatDecimal(n);
      assert r[..|r| - 1] == NatDecimal(n / 10);
      ParseNatDecimal(n / 10);
    }
  }

  /** Python's `str(i)` for an integer: a minus sign, then the digits of |i|. */
  function Decimal(i: int): (r: string)
    ensures 1 <= |r|
    ensures i < 0 <==> r[0] == '-'
    ensures forall k :: 0 < k < |r| ==> IsDecimalDigit(r[k])
    ensures i >= 0 ==> IsDecimalDigit(r[0])
  {
    if i < 0 then "-" + NatDecimal(-i) else NatDecimal(i)
  }

  /** `str(i)` uses only digits and the minus sign. */
  lemma {:induction false} DecimalChars(i: int)
    ensures forall c :: c in Decimal(i) ==> c == '-' || IsDecimalDigit(c)
  {
  }

  /** `str` on integers is injective, so a printed integer names exactly one value. */
  lemma DecimalInjective(i: int, j: int)
    requires Decimal(i) == Decimal(j)
    ensures i == j
  {
    if i < 0 {
      assert NatDecimal(-i) == Decimal(i)[1..] == Decimal(j)[1..] == NatDecimal(-j);
      ParseNatDecimal(-i);
      ParseNatDecimal(-j);
    } else {
      ParseNatDecimal(i);
      ParseNatDecimal(j);
    }
  }
}
