/**
  Reading bytes that may not be UTF-8: what begins no character is replaced, piece by piece, by U+FFFD. A piece
  is as long as it could still have become a character (section 3 of RFC 3629 lists which bytes may follow which).
*/
module Utf8Lossy {
  import opened Wrappers
  import opened UnicodeText
  import opened Utf8Bytes

  const REPLACEMENT: char := '\U{FFFD}'

  /** The second byte may follow the first in a character of three or four bytes. */
  predicate MayFollow(b: Byte, second: Byte) {
    && IsContinuation(second)
    && (b == 0xE0 ==> 0xA0 <= second)
    && (b == 0xED ==> second < 0xA0)
    && (b == 0xF0 ==> 0x90 <= second)
    && (b == 0xF4 ==> second < 0x90)
  }

  /** The length of the piece replaced at the head of bytes that begin no character. */
  function BadLength(bs: seq<Byte>): (n: nat)
    requires bs != []
    ensures 0 < n <= |bs|
    ensures forall i :: 0 < i < n ==> IsContinuation(bs[i])
  {
    if !(0xE0 <= bs[0] <= 0xF4) || |bs| == 1 || !MayFollow(bs[0], bs[1]) then 1
    else if bs[0] < 0xF0 || |bs| == 2 || !IsContinuation(bs[2]) then 2
    else 3
  }

  function Lossy(bs: seq<Byte>): string
    decreases |bs|
  {
    if bs == [] then ""
    else match DecodeFirst(bs)
      case Some((c, n)) => [c] + Lossy(bs[n..])
      case None => [REPLACEMENT] + Lossy(bs[BadLength(bs)..])
  }

  // ---- strict decoding, the other way round ----

  /** A first character, when there is one, is encoded by the bytes it was read from. */
  lemma EncodeOfFirst(bs: seq<Byte>)
    requires DecodeFirst(bs).Some?
    ensures EncodeChar(DecodeFirst(bs).value.0) == bs[..DecodeFirst(bs).value.1]
  {
    if bs[0] < 0x80 {
    } else if bs[0] < 0xE0 {
      EncodeOfTwo(bs);
    } else if bs[0] < 0xF0 {
      EncodeOfThree(bs);
    } else {
      EncodeOfFour(bs);
    }
  }

  lemma SixBitsOff(q: nat, r: nat)
    requires r < 64
    ensures (q * 64 + r) / 64 == q && (q * 64 + r) % 64 == r
  {}

  lemma EncodeOfTwo(bs: seq<Byte>)
    requires DecodeFirst(bs).Some? && 0x80 <= bs[0] < 0xE0
    ensures EncodeChar(DecodeFirst(bs).value.0) == bs[..DecodeFirst(bs).value.1]
  {
    SixBitsOff(Bits(bs[0], 0xC0), Bits(bs[1], 0x80));
  }

  lemma EncodeOfThree(bs: seq<Byte>)
    requires DecodeFirst(bs).Some? && 0xE0 <= bs[0] < 0xF0
    ensures EncodeChar(DecodeFirst(bs).value.0) == bs[..DecodeFirst(bs).value.1]
  {
    SixBitsOff(Bits(bs[0], 0xE0) * 64 + Bits(bs[1], 0x80), Bits(bs[2], 0x80));
    SixBitsOff(Bits(bs[0], 0xE0), Bits(bs[1], 0x80));
  }

  lemma EncodeOfFour(bs: seq<Byte>)
    requires DecodeFirst(bs).Some? && 0xF0 <= bs[0]
    ensures EncodeChar(DecodeFirst(bs).value.0) == bs[..DecodeFirst(bs).value.1]
  {
    SixBitsOff((Bits(bs[0], 0xF0) * 64 + Bits(bs[1], 0x80)) * 64 + Bits(bs[2], 0x80), Bits(bs[3], 0x80));
    SixBitsOff(Bits(bs[0], 0xF0) * 64 + Bits(bs[1], 0x80), Bits(bs[2], 0x80));
    SixBitsOff(Bits(bs[0], 0xF0), Bits(bs[1], 0x80));
  }

  lemma HeadAndRest(bs: seq<Byte>, c: char, n: nat, s: string)
    requires n <= |bs| && EncodeChar(c) == bs[..n] && Encode(s) == bs[n..]
    ensures Encode([c] + s) == bs
  {
    assert ([c] + s)[1..] == s;
    assert bs[..n] + bs[n..] == bs;
  }

  lemma DecodeFirstAndRest(bs: seq<Byte>) returns (c: char, n: nat, s: string)
    requires Decode(bs).Some? && bs != []
    ensures DecodeFirst(bs) == Some((c, n)) && 0 < n <= |bs|
    ensures Decode(bs[n..]) == Some(s) && Decode(bs).value == [c] + s
  {
    c, n := DecodeFirst(bs).value.0, DecodeFirst(bs).value.1;
    s := Decode(bs[n..]).value;
  }

  /** What decodes is what encodes: no bytes but a text's own decode to it. */
  lemma {:induction false} EncodeOfDecode(bs: seq<Byte>)
    requires Decode(bs).Some?
    ensures Encode(Decode(bs).value) == bs
    decreases |bs|
  {
    if bs != [] {
      var c, n, s := DecodeFirstAndRest(bs);
      EncodeOfFirst(bs);
      EncodeOfDecode(bs[n..]);
      HeadAndRest(bs, c, n, s);
    }
  }

  /** Bytes cut off before one that continues no character are the encoding of a whole part of the text. */
  lemma CutBetweenCharacters(text: string, a: seq<Byte>, b: seq<Byte>) returns (k: nat)
    requires Encode(text) == a + b && (b == [] || !IsContinuation(b[0]))
    ensures k <= |text| && a == Encode(text[..k]) && b == Encode(text[k..])
  {
    SplitIsContinuation(text, |a|);
    IndexOfOffset(Utf8, text, |text|);
    k := Index(Utf8, text, |a|);
    assert text[..k] + text[k..] == text;
    OffsetInPrefix(Utf8, text[..k], text[k..], k);
    SplitIsContinuation(text[..k], 0);
    EncodeConcat(text[..k], text[k..]);
    assert a == Encode(text)[..|a|] && b == Encode(text)[|a|..];
  }

  // ---- how lossy reading compares with strict decoding ----

  lemma {:induction false} LossyOfText(bs: seq<Byte>)
    requires Decode(bs).Some?
    ensures Lossy(bs) == Decode(bs).value
    decreases |bs|
  {
    if bs != [] { LossyOfText(bs[DecodeFirst(bs).value.1..]); }
  }

  lemma {:induction false} LossyMarksLoss(bs: seq<Byte>)
    requires Decode(bs).None?
    ensures REPLACEMENT in Lossy(bs)
    decreases |bs|
  {
    if DecodeFirst(bs).Some? { LossyMarksLoss(bs[DecodeFirst(bs).value.1..]); }
  }

  /** The number of bytes that continue no character. */
  function Starts(bs: seq<Byte>): nat {
    if bs == [] then 0 else (if IsContinuation(bs[0]) then 0 else 1) + Starts(bs[1..])
  }

  lemma {:induction false} StartsConcat(a: seq<Byte>, b: seq<Byte>)
    ensures Starts(a + b) == Starts(a) + Starts(b)
  {
    if a == [] {
      assert a + b == b;
    } else {
      assert (a + b)[1..] == a[1..] + b;
      StartsConcat(a[1..], b);
    }
  }

  lemma {:induction false} NoStarts(bs: seq<Byte>)
    requires forall i :: 0 <= i < |bs| ==> IsContinuation(bs[i])
    ensures Starts(bs) == 0
  {
    if bs != [] { NoStarts(bs[1..]); }
  }

  lemma {:induction false} StartsOfText(s: string)
    ensures Starts(Encode(s)) == |s|
  {
    if s != "" {
      StartsOfText(s[1..]);
      StartsConcat(EncodeChar(s[0]), Encode(s[1..]));
      HeadOnlyFirst(s[0]);
      NoStarts(EncodeChar(s[0])[1..]);
    }
  }

  predicate StartsInside(bs: seq<Byte>) { bs != [] && IsContinuation(bs[0]) }

  lemma StartsOfPiece(bs: seq<Byte>, n: nat)
    requires 0 < n <= |bs| && forall i :: 0 < i < n ==> IsContinuation(bs[i])
    ensures Starts(bs) == (if IsContinuation(bs[0]) then 0 else 1) + Starts(bs[n..])
  {
    assert bs[1..] == bs[1..n] + bs[n..];
    StartsConcat(bs[1..n], bs[n..]);
    NoStarts(bs[1..n]);
  }

  /** How much of the bytes one character of the lossy text stands for. */
  function PieceLength(bs: seq<Byte>): (n: nat)
    requires bs != []
    ensures 0 < n <= |bs|
  {
    match DecodeFirst(bs) case Some((_, n)) => n case None => BadLength(bs)
  }

  lemma PieceContinues(bs: seq<Byte>)
    requires bs != []
    ensures forall i :: 0 < i < PieceLength(bs) ==> IsContinuation(bs[i])
    ensures |Lossy(bs)| == 1 + |Lossy(bs[PieceLength(bs)..])|
  {
    if DecodeFirst(bs).Some? {
      var n := DecodeFirst(bs).value.1;
      EncodeOfFirst(bs);
      HeadOnlyFirst(DecodeFirst(bs).value.0);
      assert forall i :: 0 <= i < n ==> bs[i] == bs[..n][i];
    }
  }

  /** Every byte that continues no character gives at least one, and bytes that start inside a character one more. */
  lemma {:induction false} LossyIsLong(bs: seq<Byte>)
    ensures |Lossy(bs)| >= Starts(bs) + if StartsInside(bs) then 1 else 0
    decreases |bs|
  {
    if bs != [] {
      PieceContinues(bs);
      StartsOfPiece(bs, PieceLength(bs));
      LossyIsLong(bs[PieceLength(bs)..]);
    }
  }

  // ---- how long a replaced piece is ----

  /** The bytes are the beginning of the character's encoding. */
  predicate Begins(bs: seq<Byte>, c: char) { bs <= EncodeChar(c) }

  /** What the first two bytes of an encoded character tell. */
  lemma SecondByteFits(c: char)
    requires |EncodeChar(c)| >= 3
    ensures 0xE0 <= EncodeChar(c)[0] <= 0xF4 && MayFollow(EncodeChar(c)[0], EncodeChar(c)[1])
    ensures EncodeChar(c)[0] < 0xF0 <==> |EncodeChar(c)| == 3
  {
    var v := c as int;
    assert v / 64 / 64 == v / 4096 && v / 64 / 64 / 64 == v / 262144;
    assert v / 64 == v / 4096 * 64 + v / 64 % 64;
    assert v / 4096 == v / 262144 * 64 + v / 4096 % 64;
  }

  /** Three bytes, the last left open. */
  function Opened(b: Byte, second: Byte): int { Bits(b, 0xE0) * 4096 + Bits(second, 0x80) * 64 }

  lemma OpenedThree(b: Byte, second: Byte) returns (c: char)
    requires 0xE0 <= b < 0xF0 && MayFollow(b, second)
    ensures Begins([b, second], c)
  {
    var v := Opened(b, second);
    c := v as char;
    SixBitsOff(Bits(b, 0xE0) * 64 + Bits(second, 0x80), 0);
    SixBitsOff(Bits(b, 0xE0), Bits(second, 0x80));
  }

  lemma OpenedFour(b: Byte, second: Byte, third: Byte) returns (c: char)
    requires 0xF0 <= b <= 0xF4 && MayFollow(b, second) && IsContinuation(third)
    ensures Begins([b, second, third], c)
  {
    var v := Bits(b, 0xF0) * 262144 + Bits(second, 0x80) * 4096 + Bits(third, 0x80) * 64;
    c := v as char;
    SixBitsOff((Bits(b, 0xF0) * 64 + Bits(second, 0x80)) * 64 + Bits(third, 0x80), 0);
    SixBitsOff(Bits(b, 0xF0) * 64 + Bits(second, 0x80), Bits(third, 0x80));
    SixBitsOff(Bits(b, 0xF0), Bits(second, 0x80));
  }

  /** A replaced piece of more than one byte begins some character. */
  lemma PieceBeginsCharacter(bs: seq<Byte>) returns (c: char)
    requires bs != [] && BadLength(bs) > 1
    ensures Begins(bs[..BadLength(bs)], c)
  {
    var n := BadLength(bs);
    if n == 2 && bs[0] < 0xF0 {
      c := OpenedThree(bs[0], bs[1]);
      assert bs[..2] == [bs[0], bs[1]];
    } else {
      c := OpenedFour(bs[0], bs[1], if n == 3 then bs[2] else 0x80);
      assert n == 3 ==> bs[..3] == [bs[0], bs[1], bs[2]];
      assert n == 2 ==> bs[..2] == [bs[0], bs[1]];
    }
  }

  /** And no longer one does: a replacement takes as much as could still have become a character. */
  lemma PieceIsLongest(bs: seq<Byte>, k: nat, c: char)
    requires bs != [] && DecodeFirst(bs).None? && BadLength(bs) < k <= |bs|
    ensures !Begins(bs[..k], c)
  {
    if Begins(bs[..k], c) {
      var e := EncodeChar(c);
      assert forall i :: 0 <= i < k ==> bs[i] == e[i];
      HeadOnlyFirst(c);
      if |e| >= 3 { SecondByteFits(c); }
      if k == |e| {
        assert e <= bs;
        DecodeFirstOfEncoded(c, bs);
      }
      assert false;
    }
  }
}
