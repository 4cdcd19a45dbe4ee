/** UTF-8, as `Buffer.from(s)` encodes a string before the guard compares two keys byte by
    byte. The one fact the guard needs is that the encoding is injective. */
module Utf8 {

  type Byte = x: int | 0 <= x < 256

  /** The one to four bytes of one code point. */
  function EncodeChar(c: char): (bs: seq<Byte>)
    ensures 1 <= |bs| <= 4
  {
    var n := c as int;
    if n < 0x80 then [n]
    else if n < 0x800 then [0xC0 + n / 64, 0x80 + n % 64]
    else if n < 0x1_0000 then [0xE0 + n / 4096, 0x80 + (n / 64) % 64, 0x80 + n % 64]
    else [0xF0 + n / 262144, 0x80 + (n / 4096) % 64, 0x80 + (n / 64) % 64, 0x80 + n % 64]
  }

  /** The length of a sequence, as its lead byte announces it. */
  function LeadLength(b: Byte): nat {
    if b < 0x80 then 1 else if b < 0xE0 then 2 else if b < 0xF0 then 3 else 4
  }

  /** The code point a well-formed one-to-four byte sequence stands for. */
  function DecodeChar(bs: seq<Byte>): int
    requires 1 <= |bs| <= 4
  {
    var b0: int := bs[0];
    if |bs| == 1 then b0
    else if |bs| == 2 then (b0 - 0xC0) * 64 + Tail(bs[1])
    else if |bs| == 3 then (b0 - 0xE0) * 4096 + Tail(bs[1]) * 64 + Tail(bs[2])
    else (b0 - 0xF0) * 262144 + Tail(bs[1]) * 4096 + Tail(bs[2]) * 64 + Tail(bs[3])
  }

  /** The six payload bits of a continuation byte. */
  function Tail(b: Byte): int {
    b - 0x80
  }

  /** The lead byte of a character's encoding gives that encoding's length. */
  lemma LeadLengthOfChar(c: char)
    ensures LeadLength(EncodeChar(c)[0]) == |EncodeChar(c)|
  {
  }

  /** Decoding a character's bytes gives the character back. */
  lemma DecodeEncodeChar(c: char)
    ensures DecodeChar(EncodeChar(c)) == c as int
  {
    var n := c as int;
    if 0x800 <= n < 0x1_0000 {
      assert n == (n / 4096) * 4096 + ((n / 64) % 64) * 64 + n % 64 by {
        DivModSplit(n);
      }
    } else if 0x1_0000 <= n {
      assert n == (n / 262144) * 262144 + ((n / 4096) % 64) * 4096 + ((n / 64) % 64) * 64 + n % 64 by {
        DivModSplit(n);
        DivModSplit(n / 64);
        assert n / 4096 == (n / 64) / 64;
        assert n / 262144 == (n / 4096) / 64;
      }
    }
  }

  lemma DivModSplit(n: nat)
    ensures n == (n / 64) * 64 + n % 64
    ensures n / 64 == (n / 4096) * 64 + (n / 64) % 64
    ensures n / 4096 == (n / 64) / 64
  {
  }

  /** `Buffer.from(s)`: the concatenated encodings of the characters of `s`. */
  function Encode(s: string): (bs: seq<Byte>)
    ensures |bs| >= |s|
  {
    if s == [] then [] else EncodeChar(s[0]) + Encode(s[1..])
  }

  /** Different strings have different encodings. */
  lemma {:induction false} EncodeInjective(a: string, b: string)
    requires Encode(a) == Encode(b)
    ensures a == b
  {
    if a != [] && b != [] {
      var ea, eb := EncodeChar(a[0]), EncodeChar(b[0]);
      assert Encode(a)[0] == ea[0] && Encode(b)[0] == eb[0];
      LeadLengthOfChar(a[0]);
      LeadLengthOfChar(b[0]);
      assert ea == Encode(a)[..|ea|] == Encode(b)[..|eb|] == eb;
      DecodeEncodeChar(a[0]);
      DecodeEncodeChar(b[0]);
      assert Encode(a[1..]) == Encode(a)[|ea|..] == Encode(b)[|eb|..] == Encode(b[1..]);
      EncodeInjective(a[1..], b[1..]);
      assert a == [a[0]] + a[1..];
      assert b == [b[0]] + b[1..];
    }
  }
}
