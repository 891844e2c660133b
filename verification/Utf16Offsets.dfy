/** The two offset conversions between UTF-8 bytes and UTF-16 code units, and the laws they obey together. */
module Utf16Offsets {
  import opened UnicodeText

  function FromUtf16(s: string, units: nat): nat {
    Offset(Utf8, s, Index(Utf16, s, units))
  }

  function ToUtf16(s: string, bytes: nat): nat {
    Offset(Utf16, s, Index(Utf8, s, bytes))
  }

  method OffsetFromUtf16(s: string, offset: nat) returns (utf8Offset: nat)
    ensures utf8Offset == FromUtf16(s, offset)
  {
    utf8Offset := 0;
    var utf16Count := 0;
    for i := 0 to |s|
      invariant utf16Count == Offset(Utf16, s, i) && utf8Offset == Offset(Utf8, s, i)
      invariant Index(Utf16, s, offset) >= i
    {
      IndexIsLeast(Utf16, s, offset, i);
      if utf16Count >= offset {
        break;
      }
      utf16Count := utf16Count + Width(Utf16, s[i]);
      utf8Offset := utf8Offset + Width(Utf8, s[i]);
    }
  }

  method OffsetToUtf16(s: string, offset: nat) returns (utf16Offset: nat)
    ensures utf16Offset == ToUtf16(s, offset)
  {
    utf16Offset := 0;
    var utf8Count := 0;
    for i := 0 to |s|
      invariant utf8Count == Offset(Utf8, s, i) && utf16Offset == Offset(Utf16, s, i)
      invariant Index(Utf8, s, offset) >= i
    {
      IndexIsLeast(Utf8, s, offset, i);
      if utf8Count >= offset {
        break;
      }
      utf8Count := utf8Count + Width(Utf8, s[i]);
      utf16Offset := utf16Offset + Width(Utf16, s[i]);
    }
  }

  lemma FromToIsIdentity(s: string, b: nat)
    requires IsBoundary(Utf8, s, b)
    ensures FromUtf16(s, ToUtf16(s, b)) == b
  {
    IndexOfOffset(Utf16, s, Index(Utf8, s, b));
  }

  lemma FromLandsOnBoundary(s: string, u: nat)
    ensures IsBoundary(Utf8, s, FromUtf16(s, u))
    ensures FromUtf16(s, u) <= Length(Utf8, s)
  {
    IndexOfOffset(Utf8, s, Index(Utf16, s, u));
    OffsetIncreases(Utf8, s, Index(Utf16, s, u), |s|);
  }

  /** The unit offset lies strictly inside a character encoded as a surrogate pair. */
  ghost predicate SplitsPair(s: string, u: nat) {
    exists k: nat :: k < |s| && Offset(Utf16, s, k) < u < Offset(Utf16, s, k + 1)
  }

  lemma ToFromRoundsUp(s: string, u: nat)
    requires u <= Length(Utf16, s)
    ensures ToUtf16(s, FromUtf16(s, u)) == if SplitsPair(s, u) then u + 1 else u
  {
    var k := Index(Utf16, s, u);
    IndexOfOffset(Utf8, s, k);
    IndexIsLeast(Utf16, s, u, k);
    if SplitsPair(s, u) {
      var j: nat :| j < |s| && Offset(Utf16, s, j) < u < Offset(Utf16, s, j + 1);
      IndexIsLeast(Utf16, s, u, j);
      IndexIsLeast(Utf16, s, u, j + 1);
    } else if k > 0 {
      IndexIsLeast(Utf16, s, u, k - 1);
    }
  }

  lemma ConversionsMonotone(s: string, a: nat, b: nat)
    requires a <= b
    ensures FromUtf16(s, a) <= FromUtf16(s, b)
    ensures ToUtf16(s, a) <= ToUtf16(s, b)
  {
    IndexMonotone(Utf16, s, a, b);
    IndexMonotone(Utf8, s, a, b);
    OffsetIncreases(Utf8, s, Index(Utf16, s, a), Index(Utf16, s, b));
    OffsetIncreases(Utf16, s, Index(Utf8, s, a), Index(Utf8, s, b));
  }

  lemma ConversionsSaturate(s: string, off: nat)
    ensures off >= Length(Utf16, s) ==> FromUtf16(s, off) == Length(Utf8, s)
    ensures off >= Length(Utf8, s) ==> ToUtf16(s, off) == Length(Utf16, s)
  {
    forall enc | off >= Length(enc, s) ensures Index(enc, s, off) == |s| {
      var k := Index(enc, s, off);
      IndexIsLeast(enc, s, off, k);
      if k < |s| { OffsetIncreases(enc, s, |s| - 1, |s|); IndexIsLeast(enc, s, off, |s| - 1); }
    }
  }
}
