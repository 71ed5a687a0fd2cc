/**
 The basic Base64 encoding of RFC 4648, section 4 (what `java.util.Base64.getEncoder()`
 produces), the removal of its `=` padding, and the decoding of the unpadded text.
 The encoding is split into its arithmetic part (bytes to six-bit values) and its
 rendering part (six-bit values to alphabet characters, then padding).
 */
module Base64 {
  import opened Wrappers

  /** The padding character. */
  const PAD := '='

  /** Characters of the 64-character alphabet (RFC 4648, section 4, Table 1). */
  predicate IsDigit(c: char) {
    ('A' <= c <= 'Z') || ('a' <= c <= 'z') || ('0' <= c <= '9') || c == '+' || c == '/'
  }

  /** A six-bit value. */
  predicate IsSextet(v: int) {
    0 <= v < 64
  }

  /** The alphabet character for a six-bit value. */
  function Digit(v: int): (c: char)
    requires IsSextet(v)
    ensures IsDigit(c) && c != PAD
  {
    if v < 26 then ('A' as int + v) as char
    else if v < 52 then ('a' as int + (v - 26)) as char
    else if v < 62 then ('0' as int + (v - 52)) as char
    else if v == 62 then '+'
    else '/'
  }

  /** The six-bit value of an alphabet character (0 for anything else). */
  function Value(c: char): (v: int)
    ensures IsSextet(v)
  {
    if 'A' <= c <= 'Z' then c as int - 'A' as int
    else if 'a' <= c <= 'z' then c as int - 'a' as int + 26
    else if '0' <= c <= '9' then c as int - '0' as int + 52
    else if c == '+' then 62
    else if c == '/' then 63
    else 0
  }

  /** `Value` inverts `Digit`. */
  lemma ValueOfDigit(v: int)
    requires IsSextet(v)
    ensures Value(Digit(v)) == v
  {
  }

  /** The six-bit values of a byte string: each group of three bytes gives four values,
      a final group of one or two bytes gives two or three, its missing bits zero. */
  function Sextets(b: seq<byte>): (vs: seq<int>)
    ensures forall i :: 0 <= i < |vs| ==> IsSextet(vs[i])
  {
    if |b| == 0 then []
    else if |b| == 1 then [b[0] / 4, b[0] % 4 * 16]
    else if |b| == 2 then [b[0] / 4, b[0] % 4 * 16 + b[1] / 16, b[1] % 16 * 4]
    else [b[0] / 4, b[0] % 4 * 16 + b[1] / 16, b[1] % 16 * 4 + b[2] / 64, b[2] % 64] + Sextets(b[3..])
  }

  /** The bytes a sequence of six-bit values stands for; inverse of `Sextets`. */
  function FromSextets(vs: seq<int>): seq<byte>
    requires forall i :: 0 <= i < |vs| ==> IsSextet(vs[i])
  {
    if |vs| < 2 then []
    else
      assert IsSextet(vs[0]) && IsSextet(vs[1]);
      var x: byte := vs[0] * 4 + vs[1] / 16;
      if |vs| == 2 then [x]
      else
        assert IsSextet(vs[2]);
        var y: byte := vs[1] % 16 * 16 + vs[2] / 4;
        if |vs| == 3 then [x, y]
        else
          assert IsSextet(vs[3]);
          var z: byte := vs[2] % 4 * 64 + vs[3];
          [x, y, z] + FromSextets(vs[4..])
  }

  /** Alphabet characters for six-bit values, one each. */
  function Render(vs: seq<int>): (s: string)
    requires forall i :: 0 <= i < |vs| ==> IsSextet(vs[i])
    ensures |s| == |vs|
    ensures forall i :: 0 <= i < |s| ==> IsDigit(s[i]) && s[i] != PAD
  {
    seq(|vs|, i requires 0 <= i < |vs| => Digit(vs[i]))
  }

  /** The six-bit values of the characters of a text. */
  function Values(s: string): (vs: seq<int>)
    ensures |vs| == |s|
    ensures forall i :: 0 <= i < |vs| ==> IsSextet(vs[i])
  {
    seq(|s|, i requires 0 <= i < |s| => Value(s[i]))
  }

  /** The `=` characters that complete the last group of four. */
  function Padding(n: nat): string {
    if n % 3 == 1 then [PAD, PAD] else if n % 3 == 2 then [PAD] else []
  }

  /** Padded encoding, as `encodeToString` returns it. */
  function Encode(b: seq<byte>): string {
    Render(Sextets(b)) + Padding(|b|)
  }

  /** Decoding of unpadded text. */
  function Decode(s: string): seq<byte> {
    FromSextets(Values(s))
  }

  /** `String.replace("=", "")`: every padding character removed, the rest kept in order. */
  function StripPadding(s: string): (t: string)
    ensures |t| <= |s|
    ensures forall i :: 0 <= i < |t| ==> t[i] != PAD
  {
    if s == [] then []
    else if s[0] == PAD then StripPadding(s[1..])
    else [s[0]] + StripPadding(s[1..])
  }

  /** Text without padding is left as it is. */
  lemma {:induction false} StripPaddingNoPad(s: string)
    requires forall i :: 0 <= i < |s| ==> s[i] != PAD
    ensures StripPadding(s) == s
    decreases |s|
  {
    if s != [] {
      StripPaddingNoPad(s[1..]);
      assert s == [s[0]] + s[1..];
    }
  }

  /** Removing padding distributes over concatenation. */
  lemma {:induction false} StripPaddingAppend(s: string, t: string)
    ensures StripPadding(s + t) == StripPadding(s) + StripPadding(t)
    decreases |s|
  {
    if s == [] {
      assert s + t == t;
    } else {
      assert (s + t)[0] == s[0];
      assert (s + t)[1..] == s[1..] + t;
      StripPaddingAppend(s[1..], t);
    }
  }

  /** Stripping the padding of an encoding leaves exactly the rendered six-bit values. */
  lemma StripEncode(b: seq<byte>)
    ensures StripPadding(Encode(b)) == Render(Sextets(b))
  {
    var r := Render(Sextets(b));
    StripPaddingAppend(r, Padding(|b|));
    StripPaddingNoPad(r);
    assert StripPadding([PAD]) == [];
    assert StripPadding([PAD, PAD]) == [];
  }

  /** Reading the characters back gives the six-bit values rendered. */
  lemma ValuesOfRender(vs: seq<int>)
    requires forall i :: 0 <= i < |vs| ==> IsSextet(vs[i])
    ensures Values(Render(vs)) == vs
  {
    forall i | 0 <= i < |vs|
      ensures Values(Render(vs))[i] == vs[i]
    {
      ValueOfDigit(vs[i]);
    }
  }

  /** The three bytes of a full group come back from its four six-bit values. */
  lemma FullGroupRoundTrip(x: byte, y: byte, z: byte)
    ensures var v0, v1, v2, v3 := x / 4, x % 4 * 16 + y / 16, y % 16 * 4 + z / 64, z % 64;
      && v0 * 4 + v1 / 16 == x
      && v1 % 16 * 16 + v2 / 4 == y
      && v2 % 4 * 64 + v3 == z
  {
  }

  /** `FromSextets` undoes `Sextets`. */
  lemma {:induction false} FromSextetsRoundTrip(b: seq<byte>)
    ensures FromSextets(Sextets(b)) == b
    decreases |b|
  {
    if |b| >= 3 {
      var vs := Sextets(b);
      var rest := Sextets(b[3..]);
      assert vs[4..] == rest;
      FullGroupRoundTrip(b[0], b[1], b[2]);
      FromSextetsRoundTrip(b[3..]);
      assert b == b[..3] + b[3..];
    }
  }

  /** Unpadded encoding is undone by `Decode`, so it is injective. */
  lemma DecodeStripEncode(b: seq<byte>)
    ensures Decode(StripPadding(Encode(b))) == b
  {
    StripEncode(b);
    ValuesOfRender(Sextets(b));
    FromSextetsRoundTrip(b);
  }

  /** Unpadded encodings consist of alphabet characters only. */
  lemma StrippedEncodingIsAlphabet(b: seq<byte>)
    ensures forall i :: 0 <= i < |StripPadding(Encode(b))| ==> IsDigit(StripPadding(Encode(b))[i])
  {
    StripEncode(b);
  }
}
