/**
  A text is a sequence of Unicode scalar values. The editor addresses it by byte offsets of its
  UTF-8 form (section 3 of RFC 3629) and input methods address it by code units of its UTF-16 form
  (section 2.1 of RFC 2781); both are sums of per-character widths over a prefix.
*/
module UnicodeText {
  datatype Encoding = Utf8 | Utf16

  function Width(enc: Encoding, c: char): (n: nat)
    ensures 1 <= n <= 4
    ensures enc.Utf16? ==> n <= 2
  {
    var v := c as int;
    match enc
    case Utf8 => if v < 0x80 then 1 else if v < 0x800 then 2 else if v < 0x1_0000 then 3 else 4
    case Utf16 => if v < 0x1_0000 then 1 else 2
  }

  /** The White_Space property of Unicode. */
  predicate IsWhitespace(c: char) {
    var v := c as int;
    || 0x9 <= v <= 0xD || v == 0x20 || v == 0x85 || v == 0xA0 || v == 0x1680
    || 0x2000 <= v <= 0x200A || v == 0x2028 || v == 0x2029 || v == 0x202F || v == 0x205F || v == 0x3000
  }

  /** Its 25 characters: the blanks and line ends of ASCII, NEL, the no-break spaces, and those of the higher blocks. */
  lemma WhitespaceIs(c: char)
    ensures IsWhitespace(c) <==>
            c in ['\t', '\n', '\U{B}', '\U{C}', '\r', ' ', '\U{85}', '\U{A0}', '\U{1680}', '\U{2000}', '\U{2001}',
                  '\U{2002}', '\U{2003}', '\U{2004}', '\U{2005}', '\U{2006}', '\U{2007}', '\U{2008}', '\U{2009}',
                  '\U{200A}', '\U{2028}', '\U{2029}', '\U{202F}', '\U{205F}', '\U{3000}']
  {}

  /** Number of code units taken by the first `k` characters of `s`. */
  function Offset(enc: Encoding, s: string, k: nat): nat
    requires k <= |s|
  {
    if k == 0 then 0 else Offset(enc, s, k - 1) + Width(enc, s[k - 1])
  }

  function Length(enc: Encoding, s: string): nat {
    Offset(enc, s, |s|)
  }

  /** The least number of characters, counting from `k`, that take at least `off` units; else all of them. */
  function IndexFrom(enc: Encoding, s: string, off: nat, k: nat): (r: nat)
    requires k <= |s|
    ensures k <= r <= |s|
    decreases |s| - k
  {
    if k == |s| || Offset(enc, s, k) >= off then k else IndexFrom(enc, s, off, k + 1)
  }

  function Index(enc: Encoding, s: string, off: nat): (r: nat)
    ensures r <= |s|
  {
    IndexFrom(enc, s, off, 0)
  }

  /** The offset falls between two characters, or at an end of the text. */
  predicate IsBoundary(enc: Encoding, s: string, off: nat) {
    Offset(enc, s, Index(enc, s, off)) == off
  }

  lemma {:induction false} IndexFromIsLeast(enc: Encoding, s: string, off: nat, k: nat, j: nat)
    requires k <= j <= |s|
    ensures j < IndexFrom(enc, s, off, k) ==> Offset(enc, s, j) < off
    ensures j == IndexFrom(enc, s, off, k) < |s| ==> Offset(enc, s, j) >= off
    decreases |s| - k
  {
    if k < |s| && Offset(enc, s, k) < off && k < j {
      IndexFromIsLeast(enc, s, off, k + 1, j);
    }
  }

  /** `Index` is a lower adjoint of `Offset`: a position lies before it exactly when its offset is too small. */
  lemma IndexIsLeast(enc: Encoding, s: string, off: nat, j: nat)
    requires j <= |s|
    ensures j < Index(enc, s, off) ==> Offset(enc, s, j) < off
    ensures j < |s| && Index(enc, s, off) <= j ==> off <= Offset(enc, s, j)
  {
    var k := Index(enc, s, off);
    IndexFromIsLeast(enc, s, off, 0, j);
    IndexFromIsLeast(enc, s, off, 0, k);
    if k <= j { OffsetIncreases(enc, s, k, j); }
  }

  lemma {:induction false} OffsetIncreases(enc: Encoding, s: string, j: nat, k: nat)
    requires j <= k <= |s|
    ensures Offset(enc, s, j) + (k - j) <= Offset(enc, s, k)
    decreases k
  {
    if j < k {
      OffsetIncreases(enc, s, j, k - 1);
    }
  }

  /** Offsets order characters exactly as their positions do, in both directions. */
  lemma OffsetOrder(enc: Encoding, s: string, j: nat, k: nat)
    requires j <= |s| && k <= |s|
    ensures Offset(enc, s, j) < Offset(enc, s, k) <==> j < k
    ensures Offset(enc, s, j) == Offset(enc, s, k) <==> j == k
  {
    if j <= k { OffsetIncreases(enc, s, j, k); } else { OffsetIncreases(enc, s, k, j); }
  }

  lemma IndexOfOffset(enc: Encoding, s: string, k: nat)
    requires k <= |s|
    ensures Index(enc, s, Offset(enc, s, k)) == k
    ensures IsBoundary(enc, s, Offset(enc, s, k))
  {
    var i := Index(enc, s, Offset(enc, s, k));
    IndexIsLeast(enc, s, Offset(enc, s, k), i);
    IndexIsLeast(enc, s, Offset(enc, s, k), k);
    OffsetOrder(enc, s, i, k);
  }

  /** Boundaries are exactly the offsets of positions. */
  lemma BoundariesAreOffsets(enc: Encoding, s: string, off: nat)
    ensures IsBoundary(enc, s, off) <==> exists k: nat :: k <= |s| && Offset(enc, s, k) == off
  {
    if k: nat :| k <= |s| && Offset(enc, s, k) == off {
      IndexOfOffset(enc, s, k);
    } else {
      assert Offset(enc, s, Index(enc, s, off)) != off;
    }
  }

  lemma IndexMonotone(enc: Encoding, s: string, a: nat, b: nat)
    requires a <= b
    ensures Index(enc, s, a) <= Index(enc, s, b)
  {
    var i, j := Index(enc, s, a), Index(enc, s, b);
    IndexIsLeast(enc, s, a, j);
    IndexIsLeast(enc, s, b, j);
  }

  lemma {:induction false} OffsetInPrefix(enc: Encoding, s: string, t: string, k: nat)
    requires k <= |s|
    ensures Offset(enc, s + t, k) == Offset(enc, s, k)
    decreases k
  {
    if k > 0 {
      OffsetInPrefix(enc, s, t, k - 1);
    }
  }

  lemma {:induction false} OffsetInSuffix(enc: Encoding, s: string, t: string, k: nat)
    requires k <= |t|
    ensures Offset(enc, s + t, |s| + k) == Length(enc, s) + Offset(enc, t, k)
    decreases k
  {
    if k == 0 {
      OffsetInPrefix(enc, s, t, |s|);
    } else {
      OffsetInSuffix(enc, s, t, k - 1);
    }
  }

  lemma LengthOfConcat(enc: Encoding, s: string, t: string)
    ensures Length(enc, s + t) == Length(enc, s) + Length(enc, t)
  {
    OffsetInSuffix(enc, s, t, |t|);
  }

  lemma OffsetCons(enc: Encoding, c: char, rest: string, k: nat)
    requires 0 < k <= |rest| + 1
    ensures Offset(enc, [c] + rest, k) == Width(enc, c) + Offset(enc, rest, k - 1)
  {
    OffsetInSuffix(enc, [c], rest, k - 1);
    assert Offset(enc, [c], 0) == 0;
  }

  /** The boundaries of a text are 0 and, past its first character, those of the rest. */
  lemma BoundaryCons(enc: Encoding, c: char, rest: string, off: nat)
    ensures var w := Width(enc, c);
            && Length(enc, [c] + rest) == w + Length(enc, rest)
            && (IsBoundary(enc, [c] + rest, off) <==> off == 0 || (off >= w && IsBoundary(enc, rest, off - w)))
  {
    var s, w := [c] + rest, Width(enc, c);
    OffsetCons(enc, c, rest, |s|);
    IndexOfOffset(enc, s, 0);
    if IsBoundary(enc, s, off) && off > 0 {
      OffsetCons(enc, c, rest, Index(enc, s, off));
      IndexOfOffset(enc, rest, Index(enc, s, off) - 1);
    }
    if off >= w && IsBoundary(enc, rest, off - w) {
      var k := Index(enc, rest, off - w) + 1;
      OffsetCons(enc, c, rest, k);
      IndexOfOffset(enc, s, k);
    }
  }

  // ---- byte slices, which can only be taken at character boundaries ----

  function SliceTo(s: string, to: nat): (r: string)
    requires IsBoundary(Utf8, s, to)
  {
    s[..Index(Utf8, s, to)]
  }

  function SliceFrom(s: string, from: nat): (r: string)
    requires IsBoundary(Utf8, s, from)
  {
    s[Index(Utf8, s, from)..]
  }

  function Slice(s: string, from: nat, to: nat): (r: string)
    requires IsBoundary(Utf8, s, from) && IsBoundary(Utf8, s, to) && from <= to
  {
    IndexMonotone(Utf8, s, from, to);
    s[Index(Utf8, s, from)..Index(Utf8, s, to)]
  }
}
