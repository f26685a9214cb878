/** Octets, as a Node `Buffer` or a `Uint8Array` holds them. */
module Bytes {

  type Byte = b: int | 0 <= b < 256

  /** `n` zero bytes (the padding SSZ appends to a short chunk). */
  function Zeros(n: nat): (z: seq<Byte>)
    ensures |z| == n
    ensures forall i :: 0 <= i < n ==> z[i] == 0
  {
    seq(n, _ => 0)
  }
}

/**
  Hexadecimal text: `buf2hex` (lower-case, two digits per byte, no prefix)
  and the decoder Node uses for `Buffer.from(s, "hex")`.
 */
module Hex {
  import opened Bytes

  const LOWER_DIGITS := "0123456789abcdef"

  predicate IsLowerHexDigit(c: char) {
    '0' <= c <= '9' || 'a' <= c <= 'f'
  }

  /** A digit Node's hex decoder accepts: either case. */
  predicate IsHexDigit(c: char) {
    '0' <= c <= '9' || 'a' <= c <= 'f' || 'A' <= c <= 'F'
  }

  /** A letter digit 'A'..'F' as its lower-case form; every other character unchanged. */
  function ToLowerHex(c: char): (lower: char) {
    if 'A' <= c <= 'F' then (c as int + 32) as char else c
  }

  /** The nibble a digit of either case stands for: the position of its lower-case form in "0123456789abcdef". */
  function DigitValue(c: char): (v: nat)
    requires IsHexDigit(c)
    ensures v < 16 && LOWER_DIGITS[v] == ToLowerHex(c)
  {
    if '0' <= c <= '9' then c as int - '0' as int
    else if 'a' <= c <= 'f' then c as int - 'a' as int + 10
    else c as int - 'A' as int + 10
  }

  /** The digit `Number.prototype.toString(16)` writes for `n`. */
  function Digit(n: nat): (c: char)
    requires n < 16
    ensures IsLowerHexDigit(c) && IsHexDigit(c) && DigitValue(c) == n
  {
    LOWER_DIGITS[n]
  }

  /** The number a string of hex digits denotes, most significant digit first. */
  function Base16Value(s: string): (v: nat)
    requires forall i :: 0 <= i < |s| ==> IsHexDigit(s[i])
    decreases |s|
  {
    if s == [] then 0 else 16 * Base16Value(s[..|s| - 1]) + DigitValue(s[|s| - 1])
  }

  /**
    `x.toString(16)` for a non-negative integer: lower-case base-16 digits
    with no leading zero (a single "0" for zero).
   */
  function ToBase16(x: nat): (s: string)
    ensures 1 <= |s|
    ensures forall i :: 0 <= i < |s| ==> IsLowerHexDigit(s[i]) && IsHexDigit(s[i])
    ensures Base16Value(s) == x
    ensures s[0] == '0' ==> x == 0
    ensures |s| == 1 <==> x < 16
    decreases x
  {
    if x < 16 then [Digit(x)]
    else
      var s := ToBase16(x / 16) + [Digit(x % 16)];
      assert s[..|s| - 1] == ToBase16(x / 16);
      s
  }

  /** One byte as `buf2hex` renders it: `` `00${x.toString(16)}`.slice(-2) ``. */
  function ByteToHex(x: Byte): (s: string)
    ensures s == [Digit(x / 16), Digit(x % 16)]
  {
    var t := "00" + ToBase16(x);
    assert x >= 16 ==> ToBase16(x / 16) == [Digit(x / 16)];
    t[|t| - 2..]
  }

  /**
    `buf2hex`: every byte as `ByteToHex` renders it, joined without separator.
    Each byte's text is written as the digit pair that `ByteToHex` is proved
    to return, which keeps the JavaScript padding out of every proof below.
   */
  function Buf2Hex(bytes: seq<Byte>): (s: string)
    ensures |s| == 2 * |bytes|
    decreases |bytes|
  {
    if bytes == [] then [] else [Digit(bytes[0] / 16), Digit(bytes[0] % 16)] + Buf2Hex(bytes[1..])
  }

  /** `buf2hex` is the map of `ByteToHex` over the bytes, joined: the first byte's text, then the rest. */
  lemma Buf2HexJoin(bytes: seq<Byte>)
    requires bytes != []
    ensures Buf2Hex(bytes) == ByteToHex(bytes[0]) + Buf2Hex(bytes[1..])
  {
  }

  /** Byte `i` of the input is rendered, zero-padded, at positions `2i` and `2i + 1`. */
  lemma {:induction false} Buf2HexAt(bytes: seq<Byte>, i: nat)
    requires i < |bytes|
    ensures Buf2Hex(bytes)[2 * i] == Digit(bytes[i] / 16)
    ensures Buf2Hex(bytes)[2 * i + 1] == Digit(bytes[i] % 16)
    decreases i
  {
    if i > 0 {
      Buf2HexAt(bytes[1..], i - 1);
      assert bytes[1..][i - 1] == bytes[i];
    }
  }

  /** `buf2hex` writes lower-case hex digits only. */
  lemma Buf2HexLowerCase(bytes: seq<Byte>)
    ensures forall j :: 0 <= j < |Buf2Hex(bytes)| ==> IsLowerHexDigit(Buf2Hex(bytes)[j])
  {
    var s := Buf2Hex(bytes);
    forall j | 0 <= j < |s|
      ensures IsLowerHexDigit(s[j])
    {
      Buf2HexAt(bytes, j / 2);
      assert j == 2 * (j / 2) || j == 2 * (j / 2) + 1;
    }
  }

  /**
    Node's `Buffer.from(s, "hex")`: decodes pairs of digits from the front and
    stops at the first pair that is not two hex digits; a trailing odd digit is
    dropped. It never throws.
   */
  function FromHex(s: string): (bytes: seq<Byte>)
    ensures |bytes| <= |s| / 2
    decreases |s|
  {
    if |s| < 2 || !IsHexDigit(s[0]) || !IsHexDigit(s[1]) then []
    else [16 * DigitValue(s[0]) + DigitValue(s[1])] + FromHex(s[2..])
  }

  /**
    Byte `i` of the decoding is the value of digits `2i` and `2i + 1`, and
    decoding stops short of `|s| / 2` bytes only at a pair that is not two
    hex digits.
   */
  lemma {:induction false} FromHexAt(s: string, i: nat)
    requires i <= |FromHex(s)|
    ensures i < |FromHex(s)| ==>
              IsHexDigit(s[2 * i]) && IsHexDigit(s[2 * i + 1]) &&
              FromHex(s)[i] == 16 * DigitValue(s[2 * i]) + DigitValue(s[2 * i + 1])
    ensures i == |FromHex(s)| < |s| / 2 ==> !(IsHexDigit(s[2 * i]) && IsHexDigit(s[2 * i + 1]))
    decreases i
  {
    if i > 0 {
      FromHexAt(s[2..], i - 1);
    }
  }

  /** Decoding what `buf2hex` wrote gives back the bytes. */
  lemma {:induction false} FromHexBuf2Hex(bytes: seq<Byte>)
    ensures FromHex(Buf2Hex(bytes)) == bytes
    decreases |bytes|
  {
    if bytes != [] {
      var s := Buf2Hex(bytes);
      assert s[2..] == Buf2Hex(bytes[1..]);
      FromHexBuf2Hex(bytes[1..]);
    }
  }

  /** And the other way: an even-length lower-case hex string is what `buf2hex` writes for its decoding. */
  lemma {:induction false} Buf2HexFromHex(s: string)
    requires |s| % 2 == 0
    requires forall i :: 0 <= i < |s| ==> IsLowerHexDigit(s[i])
    ensures Buf2Hex(FromHex(s)) == s
    decreases |s|
  {
    if s != [] {
      LowerDigitOfValue(s[0]);
      LowerDigitOfValue(s[1]);
      var v: Byte := 16 * DigitValue(s[0]) + DigitValue(s[1]);
      assert FromHex(s) == [v] + FromHex(s[2..]);
      var b := FromHex(s);
      assert b[0] == v && b[1..] == FromHex(s[2..]);
      assert v / 16 == DigitValue(s[0]) && v % 16 == DigitValue(s[1]);
      Buf2HexFromHex(s[2..]);
      assert Buf2Hex(b) == [s[0], s[1]] + Buf2Hex(FromHex(s[2..]));
      assert s == [s[0], s[1]] + s[2..];
    }
  }

  lemma LowerDigitOfValue(c: char)
    requires IsLowerHexDigit(c)
    ensures IsHexDigit(c) && Digit(DigitValue(c)) == c
  {
  }

  /** Two characters Node's decoder reads as the same digit, or the same character. */
  predicate SameDigit(a: char, b: char) {
    a == b || (IsHexDigit(a) && IsHexDigit(b) && DigitValue(a) == DigitValue(b))
  }

  /** Characters that differ at most in the case of a letter digit are read as the same digit. */
  lemma SameDigitOfLower(a: char, b: char)
    requires ToLowerHex(a) == ToLowerHex(b)
    ensures SameDigit(a, b)
  {
  }

  /**
    Decoding ignores letter case: spellings such as "ab…" and "AB…" give the
    same bytes (while they stay different strings).
   */
  lemma {:induction false} FromHexIgnoresCase(s: string, t: string)
    requires |s| == |t|
    requires forall i :: 0 <= i < |s| ==> ToLowerHex(s[i]) == ToLowerHex(t[i])
    ensures FromHex(s) == FromHex(t)
    decreases |s|
  {
    if |s| >= 2 {
      SameDigitOfLower(s[0], t[0]);
      SameDigitOfLower(s[1], t[1]);
      assert forall i :: 0 <= i < |s| - 2 ==> s[2..][i] == s[i + 2] && t[2..][i] == t[i + 2];
      FromHexIgnoresCase(s[2..], t[2..]);
    }
  }
}
