/**
 UTF-8 (RFC 3629, section 3): the byte form `String.getBytes()` produces under a
 UTF-8 platform charset. Strings here are sequences of Unicode scalar values, so
 every character has an encoding of one to four bytes whose lead byte announces
 the length; that makes the encoding of a whole string injective.
 */
module Utf8 {
  import opened Wrappers

  /** Number of bytes in the sequence that `lead` starts. */
  function SequenceLength(lead: byte): nat {
    if lead < 0x80 then 1
    else if lead < 0xE0 then 2
    else if lead < 0xF0 then 3
    else 4
  }

  /** The bytes of one scalar value. */
  function EncodeChar(c: char): (bs: seq<byte>)
    ensures 1 <= |bs| <= 4
    ensures |bs| == SequenceLength(bs[0])
    ensures forall i :: 1 <= i < |bs| ==> 0x80 <= bs[i] < 0xC0
  {
    var n := c as int;
    if n < 0x80 then [n]
    else if n < 0x800 then [0xC0 + n / 64, 0x80 + n % 64]
    else if n < 0x1_0000 then [0xE0 + n / 4096, 0x80 + n / 64 % 64, 0x80 + n % 64]
    else [0xF0 + n / 0x4_0000, 0x80 + n / 4096 % 64, 0x80 + n / 64 % 64, 0x80 + n % 64]
  }

  /** The scalar value a one- to four-byte sequence stands for. */
  function DecodeChar(bs: seq<byte>): int
    requires 1 <= |bs| <= 4
  {
    if |bs| == 1 then bs[0]
    else if |bs| == 2 then (bs[0] as int - 0xC0) * 64 + (bs[1] as int - 0x80)
    else if |bs| == 3 then (bs[0] as int - 0xE0) * 4096 + (bs[1] as int - 0x80) * 64 + (bs[2] as int - 0x80)
    else (bs[0] as int - 0xF0) * 0x4_0000 + (bs[1] as int - 0x80) * 4096 + (bs[2] as int - 0x80) * 64 + (bs[3] as int - 0x80)
  }

  /** Decoding undoes the encoding of one character. */
  lemma DecodeEncodeChar(c: char)
    ensures DecodeChar(EncodeChar(c)) == c as int
  {
    var n := c as int;
    if n >= 0x800 {
      assert n / 64 == n / 4096 * 64 + n / 64 % 64;
      if n >= 0x1_0000 {
        assert n / 4096 == n / 0x4_0000 * 64 + n / 4096 % 64;
      }
    }
  }

  /** Distinct characters have distinct encodings. */
  lemma EncodeCharInjective(c: char, d: char)
    requires EncodeChar(c) == EncodeChar(d)
    ensures c == d
  {
    DecodeEncodeChar(c);
    DecodeEncodeChar(d);
  }

  /** The bytes of a whole string, character after character. */
  function Encode(s: string): (bs: seq<byte>)
    ensures |s| <= |bs| <= 4 * |s|
  {
    if s == [] then [] else EncodeChar(s[0]) + Encode(s[1..])
  }

  /** Two strings with the same encoding are equal. */
  lemma {:induction false} EncodeInjective(s: string, t: string)
    requires Encode(s) == Encode(t)
    ensures s == t
    decreases |s|
  {
    if s != [] {
      assert t != [];
      var a, b := EncodeChar(s[0]), EncodeChar(t[0]);
      var e := Encode(s);
      assert e == a + Encode(s[1..]);
      assert e == b + Encode(t[1..]);
      assert a[0] == e[0] == b[0];
      assert a == e[..|a|] == b;
      EncodeCharInjective(s[0], t[0]);
      assert Encode(s[1..]) == e[|a|..] == Encode(t[1..]);
      EncodeInjective(s[1..], t[1..]);
      assert s == [s[0]] + s[1..];
      assert t == [t[0]] + t[1..];
    }
  }
}
