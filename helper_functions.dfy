/**
  The string helpers of the deployment tooling (source/libraries/HelperFunctions.ts):
  `padAndHexlify`, which pads an ASCII string with NUL characters and writes it out
  as "0x"-prefixed hexadecimal, and `stringTo32ByteHex`, which uses it to build the
  32-byte identifiers handed to the contracts.
 */
module HelperFunctions {
  import opened Hex

  /** The helpers are documented for ASCII input. */
  predicate IsAscii(s: string) {
    forall i :: 0 <= i < |s| ==> s[i] as int < 128
  }

  /** The character codes of an ASCII string, the bytes `binascii.hexlify` writes out. */
  function Codes(s: string): (bs: seq<byte>)
    requires IsAscii(s)
    ensures |bs| == |s| && forall i :: 0 <= i < |s| ==> bs[i] == s[i] as int
  {
    seq(|s|, i requires 0 <= i < |s| => s[i] as int)
  }

  lemma CodesAppend(a: string, b: string)
    requires IsAscii(a) && IsAscii(b)
    ensures IsAscii(a + b) && Codes(a + b) == Codes(a) + Codes(b)
  {
  }

  function Nuls(n: nat): (s: string)
    ensures |s| == n && IsAscii(s)
  {
    seq(n, _ => '\0')
  }

  lemma CodesNuls(n: nat)
    ensures Codes(Nuls(n)) == seq(n, _ => 0)
  {
  }

  /**
    How many NUL characters padAndHexlify adds: its loop runs while the counter is
    below `length - 2 * |s|`, so it adds that many, or none when it is not positive.
   */
  function PadCount(s: string, length: int): (n: nat)
    ensures 2 * |s| < length ==> n == length - 2 * |s|
    ensures length <= 2 * |s| ==> n == 0
  {
    if length > 2 * |s| then length - 2 * |s| else 0
  }

  /** `s` with `n` NULs after it when the direction is "right", before it otherwise. */
  function Padded(s: string, n: nat, direction: string): (p: string)
    ensures |p| == |s| + n
  {
    if direction == "right" then s + Nuls(n) else Nuls(n) + s
  }

  /** "0x" followed by the hexadecimal form of each character of s. */
  function PrefixedHex(s: string): (r: string)
    requires IsAscii(s)
    ensures |r| == 2 + 2 * |s| && r[..2] == "0x"
  {
    "0x" + Hexlify(Codes(s))
  }

  /** The hexadecimal form of a padded string reads back as the padded string's codes. */
  lemma PaddedHexReadsBack(s: string, n: nat, direction: string)
    requires IsAscii(s)
    ensures IsAscii(Padded(s, n, direction))
    ensures Unhexlify(PrefixedHex(Padded(s, n, direction))[2..]) == Codes(Padded(s, n, direction))
  {
    var p := Padded(s, n, direction);
    var h := HexOfPadded(s, n, direction);
    assert PrefixedHex(p)[2..] == h;
    UnhexlifyHexlify(Codes(p));
  }

  /** The digits of a padded string: those of s, and two zeros per NUL on the padded side. */
  lemma HexOfPadded(s: string, n: nat, direction: string) returns (h: string)
    requires IsAscii(s)
    ensures IsAscii(Padded(s, n, direction))
    ensures h == Hexlify(Codes(Padded(s, n, direction)))
    ensures direction == "right" ==> h == Hexlify(Codes(s)) + Zeros(2 * n)
    ensures direction != "right" ==> h == Zeros(2 * n) + Hexlify(Codes(s))
  {
    CodesNuls(n);
    HexlifyZeroBytes(n);
    if direction == "right" {
      CodesAppend(s, Nuls(n));
      HexlifyAppend(Codes(s), Codes(Nuls(n)));
    } else {
      CodesAppend(Nuls(n), s);
      HexlifyAppend(Codes(Nuls(n)), Codes(s));
    }
    h := Hexlify(Codes(Padded(s, n, direction)));
  }

  /** The same digits with the "0x" prefix. */
  lemma PrefixedHexOfPadded(s: string, n: nat, direction: string)
    requires IsAscii(s)
    ensures IsAscii(Padded(s, n, direction))
    ensures direction == "right" ==> PrefixedHex(Padded(s, n, direction)) == "0x" + Hexlify(Codes(s)) + Zeros(2 * n)
    ensures direction != "right" ==> PrefixedHex(Padded(s, n, direction)) == "0x" + Zeros(2 * n) + Hexlify(Codes(s))
  {
    var h := HexOfPadded(s, n, direction);
    if direction == "right" {
      assert "0x" + (Hexlify(Codes(s)) + Zeros(2 * n)) == "0x" + Hexlify(Codes(s)) + Zeros(2 * n);
    } else {
      assert "0x" + (Zeros(2 * n) + Hexlify(Codes(s))) == "0x" + Zeros(2 * n) + Hexlify(Codes(s));
    }
  }

  /**
    `padAndHexlify(stringToEncode, length, direction)`: builds the pad one NUL at a
    time, puts it after the string for "right" and before it otherwise, and returns
    "0x" and the hexadecimal of the result.  `length` is meant as the number of hex
    digits, but every NUL adds two digits, so the result is only `length` digits long
    when no padding is needed.
   */
  method PadAndHexlify(s: string, length: int, direction: string) returns (r: string)
    requires IsAscii(s)
    ensures r == PrefixedHex(Padded(s, PadCount(s, length), direction))
    ensures |r| == 2 + 2 * |s| + 2 * PadCount(s, length)
    ensures direction == "right" ==> r == "0x" + Hexlify(Codes(s)) + Zeros(2 * PadCount(s, length))
    ensures direction != "right" ==> r == "0x" + Zeros(2 * PadCount(s, length)) + Hexlify(Codes(s))
  {
    var pad := "";
    var i := 0;
    while i < length - |s| * 2
      invariant 0 <= i && (i <= PadCount(s, length) || i == 0)
      invariant pad == Nuls(i)
      decreases length - |s| * 2 - i
    {
      pad := pad + "\0";
      i := i + 1;
    }
    assert i == PadCount(s, length);
    var padded: string;
    if direction == "right" {
      padded := s + pad;
    } else {
      padded := pad + s;
    }
    assert padded == Padded(s, i, direction);
    r := "0x" + Hexlify(Codes(padded));
    PrefixedHexOfPadded(s, i, direction);
  }

  /** `stringTo32ByteHex(s) = padAndHexlify(s, 64, "right")`, as written. */
  method StringTo32ByteHex(s: string) returns (r: string)
    requires IsAscii(s)
    ensures |s| <= 32 ==> |r| == 2 + 128 - 2 * |s|
    ensures |s| <= 32 ==> r == "0x" + Hexlify(Codes(s)) + Zeros(128 - 4 * |s|)
    ensures |s| >= 32 ==> r == PrefixedHex(s)
  {
    r := PadAndHexlify(s, 64, "right");
  }

  /**
    The string StringTo32ByteHex returns, as a function of its input, for the lemmas.
   */
  function StringTo32ByteHexSpec(s: string): (r: string)
    requires IsAscii(s)
    ensures |s| <= 32 ==> |r| == 2 + 128 - 2 * |s|
  {
    PrefixedHex(Padded(s, PadCount(s, 64), "right"))
  }

  /**
    As written, a string shorter than 32 characters does not come out as 32 bytes:
    "abc" gets 58 NULs and 61 bytes (122 digits); only a 32-character string gives
    exactly 32 bytes.
   */
  lemma StringTo32ByteHexOverlong()
    ensures |StringTo32ByteHexSpec("abc")| == 2 + 122
    ensures forall s :: IsAscii(s) && |s| < 32 ==> |StringTo32ByteHexSpec(s)| > 2 + 64
  {
  }

  // ---------------------------------------------------------------------
  // Corrected: the length counts bytes, as the comment on padAndHexlify proposes.

  /** How many NULs pad a string to `length` bytes. */
  function BytePadCount(s: string, length: int): (n: nat)
    ensures |s| < length ==> |s| + n == length
    ensures length <= |s| ==> n == 0
  {
    if length > |s| then length - |s| else 0
  }

  /** padAndHexlify with `length` counted in bytes: the pad loop stops at `length - |s|`. */
  method PadAndHexlifyBytes(s: string, length: int, direction: string) returns (r: string)
    requires IsAscii(s)
    ensures r == PrefixedHex(Padded(s, BytePadCount(s, length), direction))
    ensures |s| <= length ==> |r| == 2 + 2 * length
    ensures direction == "right" ==> r == "0x" + Hexlify(Codes(s)) + Zeros(2 * BytePadCount(s, length))
    ensures direction != "right" ==> r == "0x" + Zeros(2 * BytePadCount(s, length)) + Hexlify(Codes(s))
  {
    var pad := "";
    var i := 0;
    while i < length - |s|
      invariant 0 <= i && (i <= BytePadCount(s, length) || i == 0)
      invariant pad == Nuls(i)
      decreases length - |s| - i
    {
      pad := pad + "\0";
      i := i + 1;
    }
    assert i == BytePadCount(s, length);
    var padded: string;
    if direction == "right" {
      padded := s + pad;
    } else {
      padded := pad + s;
    }
    assert padded == Padded(s, i, direction);
    r := "0x" + Hexlify(Codes(padded));
    PrefixedHexOfPadded(s, i, direction);
  }

  /**
    The intended stringTo32ByteHex: any ASCII string of at most 32 characters becomes
    exactly 32 bytes, the string's codes followed by zero bytes, and reads back so.
   */
  method StringTo32ByteHexCorrected(s: string) returns (r: string)
    requires IsAscii(s)
    ensures |s| <= 32 ==> |r| == 2 + 64
    ensures |s| <= 32 ==> r == "0x" + Hexlify(Codes(s)) + Zeros(64 - 2 * |s|)
    ensures |s| <= 32 ==> Unhexlify(r[2..]) == Codes(s) + seq(32 - |s|, _ => 0)
    ensures |s| >= 32 ==> r == PrefixedHex(s)
  {
    r := PadAndHexlifyBytes(s, 32, "right");
    PaddedHexReadsBack(s, BytePadCount(s, 32), "right");
    CodesAppend(s, Nuls(BytePadCount(s, 32)));
    CodesNuls(BytePadCount(s, 32));
  }
}
