// The Go value types the tar package works with: bytes, byte strings and
// 64-bit signed integers, plus the byte-string predicates and helpers that the
// tar code applies to its string fields.
module GoTypes {

  /** One byte of a Go string. */
  newtype uint8 = x: int | 0 <= x < 256

  /** A Go string is an immutable sequence of bytes (not of characters). */
  type Bytes = seq<uint8>

  const MinInt64: int := -0x8000_0000_0000_0000
  const MaxInt64: int := 0x7FFF_FFFF_FFFF_FFFF

  /** Go's int64; the tar header's int fields (Uid, Gid) are 64 bits wide too. */
  type Int64 = x: int | MinInt64 <= x <= MaxInt64

  const NUL: uint8 := 0x00
  const Plus: uint8 := 0x2B
  const Minus: uint8 := 0x2D
  const Dot: uint8 := 0x2E
  const Slash: uint8 := 0x2F
  const Zero: uint8 := 0x30
  const Equals: uint8 := 0x3D

  /** Two's-complement truncation of an integer to int64, as Go's wrapping
      arithmetic does. */
  function Wrap64(x: int): (r: Int64)
    ensures MinInt64 <= x <= MaxInt64 ==> r == x
    ensures (r - x) % 0x1_0000_0000_0000_0000 == 0
  {
    var m := (x - MinInt64) % 0x1_0000_0000_0000_0000;
    m + MinInt64
  }

  /** b raised to the power e. */
  function Pow(b: nat, e: nat): (r: nat)
    ensures b > 0 ==> r > 0
  {
    if e == 0 then 1 else b * Pow(b, e - 1)
  }

  /** True when every character of a Dafny string literal is 7-bit, so that it
      denotes a Go string byte for byte. */
  predicate IsAsciiText(s: string)
  {
    forall i :: 0 <= i < |s| ==> s[i] as int < 0x80
  }

  /** The bytes of a 7-bit Dafny string literal. */
  function Ascii(s: string): (b: Bytes)
    requires IsAsciiText(s)
    ensures |b| == |s|
    ensures forall i :: 0 <= i < |s| ==> b[i] as int == s[i] as int
  {
    seq(|s|, i requires 0 <= i < |s| => s[i] as int as uint8)
  }

  lemma AsciiConcat(s: string, t: string)
    requires IsAsciiText(s) && IsAsciiText(t)
    ensures IsAsciiText(s + t) && Ascii(s + t) == Ascii(s) + Ascii(t)
  {
  }

  /** hasNUL: the string contains a NUL byte. */
  predicate HasNUL(s: Bytes)
  {
    NUL in s
  }

  /** isASCII: the string is an ASCII C-style string, i.e. every byte is
      below 0x80 and none is NUL. Decoding the string as UTF-8 first, as the Go
      code does, gives the same answer: a byte at or above 0x80 either starts
      or continues a multi-byte rune or decodes to the replacement rune, both
      of which are at or above 0x80. */
  predicate IsASCII(s: Bytes)
  {
    forall i :: 0 <= i < |s| ==> NUL < s[i] < 0x80
  }

  lemma ASCIIHasNoNUL(s: Bytes)
    requires IsASCII(s)
    ensures !HasNUL(s)
  {
    assert forall i :: 0 <= i < |s| ==> s[i] != NUL;
  }

  /** strings.IndexByte(s, b): the first position of b in s, or -1. */
  function IndexByte(s: Bytes, b: uint8): (r: int)
    ensures -1 <= r < |s|
    ensures r == -1 <==> b !in s
    ensures r >= 0 ==> s[r] == b && b !in s[..r]
  {
    if s == [] then -1
    else if s[0] == b then 0
    else
      var r := IndexByte(s[1..], b);
      assert s[1..][..r + 1] == s[1..r + 2] by {}
      assert r >= 0 ==> s[..r + 1] == [s[0]] + s[1..][..r];
      if r < 0 then -1 else r + 1
  }

  /** strings.TrimRight(s, c) for a single byte c: drop every trailing c. */
  function TrimRight(s: Bytes, c: uint8): (r: Bytes)
    ensures |r| <= |s| && r == s[..|r|]
    ensures r == [] || r[|r| - 1] != c
    ensures forall i :: |r| <= i < |s| ==> s[i] == c
  {
    if |s| > 0 && s[|s| - 1] == c then TrimRight(s[..|s| - 1], c) else s
  }

  /** strings.Repeat(s, n). */
  function Repeat(s: Bytes, n: nat): (r: Bytes)
    ensures |r| == n * |s|
  {
    if n == 0 then [] else s + Repeat(s, n - 1)
  }

  /** Every byte of Repeat(s, n) is a byte of s, and the first |s| bytes are s. */
  lemma {:induction false} RepeatBytes(s: Bytes, n: nat)
    ensures forall i :: 0 <= i < |Repeat(s, n)| ==> Repeat(s, n)[i] in s
    ensures n > 0 ==> Repeat(s, n)[..|s|] == s
  {
    if n > 0 {
      RepeatBytes(s, n - 1);
      var r := Repeat(s, n);
      assert r == s + Repeat(s, n - 1);
      forall i | 0 <= i < |r| ensures r[i] in s {
        if i >= |s| {
          assert r[i] == Repeat(s, n - 1)[i - |s|];
        }
      }
    }
  }
}
