/**
 * `bytes.hex()`: two lower-case hexadecimal digits per byte, high nibble
 * first. The server renders its 16 random bytes this way to form a session id.
 */
module HexCodec {
  import opened Wrappers

  type Bytes = seq<bv8>

  predicate IsHexDigit(c: char)
  {
    '0' <= c <= '9' || 'a' <= c <= 'f'
  }

  /** Every character is a lower-case hexadecimal digit. */
  predicate IsLowerHex(s: string)
  {
    forall i :: 0 <= i < |s| ==> IsHexDigit(s[i])
  }

  /** The digit for a nibble. */
  function DigitChar(n: nat): (c: char)
    requires n < 16
    ensures IsHexDigit(c)
  {
    if n < 10 then ('0' as int + n) as char else ('a' as int + n - 10) as char
  }

  /** The nibble a digit stands for; the inverse of DigitChar. */
  function DigitValue(c: char): (n: nat)
    requires IsHexDigit(c)
    ensures n < 16 && DigitChar(n) == c
  {
    if c <= '9' then c as int - '0' as int else c as int - 'a' as int + 10
  }

  function ByteHex(b: bv8): (s: string)
    ensures |s| == 2 && IsLowerHex(s)
  {
    [DigitChar(b as int / 16), DigitChar(b as int % 16)]
  }

  /** `bytes.hex()`. */
  function Hex(bytes: Bytes): (s: string)
    ensures |s| == 2 * |bytes|
    ensures IsLowerHex(s)
  {
    if bytes == [] then "" else ByteHex(bytes[0]) + Hex(bytes[1..])
  }

  /** The byte two digits stand for, high nibble first. */
  function ByteOf(hi: char, lo: char): bv8
    requires IsHexDigit(hi) && IsHexDigit(lo)
  {
    (DigitValue(hi) * 16 + DigitValue(lo)) as bv8
  }

  /** `bytes.fromhex` on lower-case digits without separators: the inverse of Hex. */
  function Unhex(s: string): Option<Bytes>
    decreases |s|
  {
    if s == [] then Some([])
    else if |s| == 1 || !IsHexDigit(s[0]) || !IsHexDigit(s[1]) then None
    else match Unhex(s[2..])
      case None => None
      case Some(rest) => Some([ByteOf(s[0], s[1])] + rest)
  }

  lemma DigitRoundTrip(n: nat)
    requires n < 16
    ensures DigitValue(DigitChar(n)) == n
  {
  }

  lemma ByteOfDigits(hi: nat, lo: nat)
    requires hi < 16 && lo < 16
    ensures ByteOf(DigitChar(hi), DigitChar(lo)) == (hi * 16 + lo) as bv8
  {
    DigitRoundTrip(hi);
    DigitRoundTrip(lo);
  }

  lemma ByteRoundTrip(b: bv8)
    ensures ByteOf(ByteHex(b)[0], ByteHex(b)[1]) == b
  {
    var n := b as int;
    assert n == n / 16 * 16 + n % 16;
    assert (n as bv8) == b;
    ByteOfDigits(n / 16, n % 16);
  }

  /** Decoding the hex rendering gives back the bytes. */
  lemma {:induction false} UnhexHex(bytes: Bytes)
    ensures Unhex(Hex(bytes)) == Some(bytes)
  {
    if bytes != [] {
      var s, head, tail := Hex(bytes), ByteHex(bytes[0]), Hex(bytes[1..]);
      assert s == head + tail;
      assert s[2..] == tail && s[0] == head[0] && s[1] == head[1];
      UnhexHex(bytes[1..]);
      ByteRoundTrip(bytes[0]);
      assert Unhex(s) == Some([ByteOf(s[0], s[1])] + bytes[1..]);
      assert [bytes[0]] + bytes[1..] == bytes;
    }
  }

  /** Distinct byte strings get distinct renderings. */
  lemma HexInjective(a: Bytes, b: Bytes)
    requires Hex(a) == Hex(b)
    ensures a == b
  {
    UnhexHex(a);
    UnhexHex(b);
  }
}
