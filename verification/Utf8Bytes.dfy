/** UTF-8 as bytes (section 3 of RFC 3629): encoding, strict decoding, and that they are inverse. */
module Utf8Bytes {
  import opened Wrappers
  import opened UnicodeText

  type Byte = b: int | 0 <= b < 256 witness 0

  function EncodeChar(c: char): (r: seq<Byte>)
    ensures |r| == Width(Utf8, c)
  {
    var v := c as int;
    if v < 0x80 then [v]
    else if v < 0x800 then [0xC0 + v / 64, 0x80 + v % 64]
    else if v < 0x1_0000 then [0xE0 + v / 64 / 64, 0x80 + v / 64 % 64, 0x80 + v % 64]
    else [0xF0 + v / 64 / 64 / 64, 0x80 + v / 64 / 64 % 64, 0x80 + v / 64 % 64, 0x80 + v % 64]
  }

  function Encode(s: string): seq<Byte> {
    if s == "" then [] else EncodeChar(s[0]) + Encode(s[1..])
  }

  predicate IsContinuation(b: Byte) { 0x80 <= b < 0xC0 }

  predicate IsScalar(v: int) { 0 <= v < 0xD800 || 0xE000 <= v < 0x11_0000 }

  /** The code point `v` in `n` bytes, if it is a scalar value and no shorter form exists. */
  function Scalar(v: int, least: int, n: nat): Option<(char, nat)> {
    if v >= least && IsScalar(v) then Some((v as char, n)) else None
  }

  function Bits(b: Byte, marker: int): int { b - marker }

  /** The first character of a byte sequence and its length. */
  function DecodeFirst(bs: seq<Byte>): (r: Option<(char, nat)>)
    ensures r.Some? ==> 0 < r.value.1 <= |bs|
  {
    if bs == [] then None
    else if bs[0] < 0x80 then Scalar(bs[0], 0, 1)
    else if 0xC0 <= bs[0] < 0xE0 && |bs| >= 2 && IsContinuation(bs[1]) then
      Scalar(Bits(bs[0], 0xC0) * 64 + Bits(bs[1], 0x80), 0x80, 2)
    else if 0xE0 <= bs[0] < 0xF0 && |bs| >= 3 && IsContinuation(bs[1]) && IsContinuation(bs[2]) then
      Scalar(Bits(bs[0], 0xE0) * 4096 + Bits(bs[1], 0x80) * 64 + Bits(bs[2], 0x80), 0x800, 3)
    else if 0xF0 <= bs[0] && |bs| >= 4 && IsContinuation(bs[1]) && IsContinuation(bs[2]) && IsContinuation(bs[3]) then
      Scalar(Bits(bs[0], 0xF0) * 262144 + Bits(bs[1], 0x80) * 4096 + Bits(bs[2], 0x80) * 64 + Bits(bs[3], 0x80),
             0x1_0000, 4)
    else None
  }

  function Decode(bs: seq<Byte>): Option<string>
    decreases |bs|
  {
    if bs == [] then Some("")
    else match DecodeFirst(bs)
      case None => None
      case Some((c, n)) =>
        match Decode(bs[n..])
        case None => None
        case Some(s) => Some([c] + s)
  }

  lemma SixBitGroups(v: nat)
    ensures v == v / 64 * 64 + v % 64
    ensures v == v / 64 / 64 * 4096 + v / 64 % 64 * 64 + v % 64
    ensures v == v / 64 / 64 / 64 * 262144 + v / 64 / 64 % 64 * 4096 + v / 64 % 64 * 64 + v % 64
  {
    var a, b := v / 64, v / 64 / 64;
    assert v == a * 64 + v % 64 && a == b * 64 + a % 64 && b == b / 64 * 64 + b % 64;
  }

  lemma ShortFormDecodes(c: char, bs: seq<Byte>)
    requires EncodeChar(c) <= bs && c as int < 0x800
    ensures DecodeFirst(bs) == Some((c, Width(Utf8, c)))
  {
    SixBitGroups(c as int);
    assert bs[0] == EncodeChar(c)[0];
    if c as int >= 0x80 { assert bs[1] == EncodeChar(c)[1]; }
  }

  lemma ThreeByteFormDecodes(c: char, bs: seq<Byte>)
    requires EncodeChar(c) <= bs && 0x800 <= c as int < 0x1_0000
    ensures DecodeFirst(bs) == Some((c, 3))
  {
    SixBitGroups(c as int);
    assert bs[0] == EncodeChar(c)[0] && bs[1] == EncodeChar(c)[1] && bs[2] == EncodeChar(c)[2];
  }

  lemma FourByteFormDecodes(c: char, bs: seq<Byte>)
    requires EncodeChar(c) <= bs && 0x1_0000 <= c as int
    ensures DecodeFirst(bs) == Some((c, 4))
  {
    SixBitGroups(c as int);
    assert bs[0] == EncodeChar(c)[0] && bs[1] == EncodeChar(c)[1];
    assert bs[2] == EncodeChar(c)[2] && bs[3] == EncodeChar(c)[3];
  }

  lemma DecodeFirstOfEncoded(c: char, bs: seq<Byte>)
    requires EncodeChar(c) <= bs
    ensures DecodeFirst(bs) == Some((c, Width(Utf8, c)))
  {
    if c as int < 0x800 { ShortFormDecodes(c, bs); }
    else if c as int < 0x1_0000 { ThreeByteFormDecodes(c, bs); }
    else { FourByteFormDecodes(c, bs); }
  }

  lemma {:induction false} DecodeOfEncode(s: string)
    ensures Decode(Encode(s)) == Some(s)
  {
    if s != "" {
      DecodeFirstOfEncoded(s[0], Encode(s));
      assert Encode(s)[Width(Utf8, s[0])..] == Encode(s[1..]);
      DecodeOfEncode(s[1..]);
      assert [s[0]] + s[1..] == s;
    }
  }

  lemma {:induction false} EncodeConcat(s: string, t: string)
    ensures Encode(s + t) == Encode(s) + Encode(t)
  {
    if s == "" {
      assert s + t == t;
    } else {
      assert (s + t)[1..] == s[1..] + t;
      EncodeConcat(s[1..], t);
    }
  }

  /** No byte of an encoded character other than a line feed's is a line feed. */
  lemma {:induction false} LineFeedOnlyFromItself(s: string)
    requires '\n' !in s
    ensures 10 !in Encode(s)
  {
    if s != "" {
      LineFeedOnlyFromItself(s[1..]);
      assert s[0] in s && s[0] as int != 10;
    }
  }

  /** An offset falls inside a character exactly when the byte there continues one. */
  lemma {:induction false} SplitIsContinuation(s: string, off: nat)
    ensures |Encode(s)| == Length(Utf8, s)
    ensures off < |Encode(s)| ==> (IsBoundary(Utf8, s, off) <==> !IsContinuation(Encode(s)[off]))
  {
    if s != "" {
      var w := Width(Utf8, s[0]);
      assert [s[0]] + s[1..] == s;
      BoundaryCons(Utf8, s[0], s[1..], off);
      SplitIsContinuation(s[1..], if off >= w then off - w else 0);
      HeadOnlyFirst(s[0]);
    }
  }

  lemma HeadOnlyFirst(c: char)
    ensures !IsContinuation(EncodeChar(c)[0])
    ensures forall i :: 0 < i < |EncodeChar(c)| ==> IsContinuation(EncodeChar(c)[i])
  {}
}
