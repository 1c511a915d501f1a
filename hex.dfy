/**
  Hexadecimal text, as produced by Python 2's `str.encode('hex')` and by the
  `binascii.hexlify` of the JavaScript tooling: two lower-case digits per byte.
 */
module Hex {

  type byte = x: int | 0 <= x < 256

  /** The lower-case hexadecimal digit of a value below 16. */
  function Digit(d: nat): (c: char)
    requires d < 16
    ensures IsHexDigit(c) && DigitValue(c) == d
  {
    if d < 10 then ('0' as int + d) as char else ('a' as int + d - 10) as char
  }

  predicate IsHexDigit(c: char) {
    ('0' <= c <= '9') || ('a' <= c <= 'f') || ('A' <= c <= 'F')
  }

  /** The value of a hexadecimal digit; both cases are accepted, as Python's `long(s, 16)` does. */
  function DigitValue(c: char): (d: nat)
    requires IsHexDigit(c)
    ensures d < 16
  {
    if '0' <= c <= '9' then c as int - '0' as int
    else if 'a' <= c <= 'f' then c as int - 'a' as int + 10
    else c as int - 'A' as int + 10
  }

  /** Two digits per byte, high nibble first. */
  function Hexlify(bs: seq<byte>): (s: string)
    ensures |s| == 2 * |bs|
    ensures forall i :: 0 <= i < |s| ==> IsHexDigit(s[i]) && !('A' <= s[i] <= 'F')
  {
    if bs == [] then []
    else
      var b := bs[|bs| - 1];
      Hexlify(bs[..|bs| - 1]) + [Digit(b / 16), Digit(b % 16)]
  }

  /** The inverse of Hexlify: reads back one byte from every pair of digits. */
  function Unhexlify(s: string): (bs: seq<byte>)
    requires |s| % 2 == 0
    requires forall i :: 0 <= i < |s| ==> IsHexDigit(s[i])
    ensures 2 * |bs| == |s|
  {
    if s == [] then []
    else Unhexlify(s[..|s| - 2]) + [DigitValue(s[|s| - 2]) * 16 + DigitValue(s[|s| - 1])]
  }

  lemma {:induction false} UnhexlifyHexlify(bs: seq<byte>)
    ensures Unhexlify(Hexlify(bs)) == bs
  {
    if bs != [] {
      var front, b := bs[..|bs| - 1], bs[|bs| - 1];
      var s := Hexlify(bs);
      assert s == Hexlify(front) + [Digit(b / 16), Digit(b % 16)];
      assert s[..|s| - 2] == Hexlify(front);
      UnhexlifyHexlify(front);
      assert bs == front + [b];
    }
  }

  /** Hexlify works byte by byte, so it distributes over concatenation. */
  lemma {:induction false} HexlifyAppend(a: seq<byte>, b: seq<byte>)
    ensures Hexlify(a + b) == Hexlify(a) + Hexlify(b)
  {
    if b != [] {
      var ab := a + b;
      var last := b[|b| - 1];
      assert ab[..|ab| - 1] == a + b[..|b| - 1];
      assert ab[|ab| - 1] == last;
      HexlifyAppend(a, b[..|b| - 1]);
    } else {
      assert a + b == a;
    }
  }

  /** A run of zero digits. */
  function Zeros(n: nat): (s: string)
    ensures |s| == n && forall i :: 0 <= i < n ==> s[i] == '0'
  {
    seq(n, _ => '0')
  }

  /** Zero bytes hexlify to zero digits, two per byte. */
  lemma {:induction false} HexlifyZeroBytes(n: nat)
    ensures Hexlify(seq(n, _ => 0)) == Zeros(2 * n)
  {
    if n > 0 {
      var z: seq<byte> := seq(n, _ => 0);
      assert z[..n - 1] == seq(n - 1, _ => 0);
      HexlifyZeroBytes(n - 1);
      assert Digit(0) == '0';
    }
  }
}
