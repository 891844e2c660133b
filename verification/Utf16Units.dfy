/** UTF-16 as code units (section 2.1 of RFC 2781): surrogate pairs, and the offsets that split one. */
module Utf16Units {
  import opened Wrappers
  import opened UnicodeText
  import opened Utf16Offsets

  type Unit = u: int | 0 <= u < 0x1_0000 witness 0

  function UnitsOf(c: char): (r: seq<Unit>)
    ensures |r| == Width(Utf16, c)
  {
    var v := c as int;
    if v < 0x1_0000 then [v] else [0xD800 + (v - 0x1_0000) / 0x400, 0xDC00 + (v - 0x1_0000) % 0x400]
  }

  function Units(s: string): seq<Unit> {
    if s == "" then [] else UnitsOf(s[0]) + Units(s[1..])
  }

  predicate IsLeading(u: Unit) { 0xD800 <= u < 0xDC00 }

  predicate IsTrailing(u: Unit) { 0xDC00 <= u < 0xE000 }

  function Bits(u: Unit, marker: int): int { u - marker }

  /** The first character of a sequence of units and its length; an unpaired surrogate is none. */
  function DecodeFirst(us: seq<Unit>): (r: Option<(char, nat)>)
    ensures r.Some? ==> 0 < r.value.1 <= |us|
  {
    if us == [] || IsTrailing(us[0]) then None
    else if !IsLeading(us[0]) then Some((us[0] as char, 1))
    else if |us| >= 2 && IsTrailing(us[1]) then
      Some(((0x1_0000 + Bits(us[0], 0xD800) * 0x400 + Bits(us[1], 0xDC00)) as char, 2))
    else None
  }

  function Decode(us: seq<Unit>): Option<string>
    decreases |us|
  {
    if us == [] then Some("")
    else match DecodeFirst(us)
      case None => None
      case Some((c, n)) =>
        match Decode(us[n..])
        case None => None
        case Some(s) => Some([c] + s)
  }

  lemma DecodeFirstOfUnits(c: char, rest: seq<Unit>)
    ensures DecodeFirst(UnitsOf(c) + rest) == Some((c, Width(Utf16, c)))
  {
    var v := c as int - 0x1_0000;
    if v >= 0 { assert v == v / 0x400 * 0x400 + v % 0x400; }
  }

  lemma {:induction false} DecodeOfUnits(s: string)
    ensures Decode(Units(s)) == Some(s)
  {
    if s != "" {
      DecodeFirstOfUnits(s[0], Units(s[1..]));
      assert Units(s)[Width(Utf16, s[0])..] == Units(s[1..]);
      DecodeOfUnits(s[1..]);
      assert [s[0]] + s[1..] == s;
    }
  }

  /** An offset falls inside a character exactly when the unit there is the second half of a pair. */
  lemma {:induction false} SplitIsTrailing(s: string, off: nat)
    ensures |Units(s)| == Length(Utf16, s)
    ensures off < |Units(s)| ==> (IsBoundary(Utf16, s, off) <==> !IsTrailing(Units(s)[off]))
  {
    if s != "" {
      var w := Width(Utf16, s[0]);
      assert [s[0]] + s[1..] == s;
      BoundaryCons(Utf16, s[0], s[1..], off);
      SplitIsTrailing(s[1..], if off >= w then off - w else 0);
    }
  }

  /** What the offset conversions call splitting a pair is standing before a trailing surrogate. */
  lemma PairSplitAtTrailing(s: string, u: nat)
    ensures SplitsPair(s, u) <==> u < |Units(s)| && IsTrailing(Units(s)[u])
  {
    SplitIsTrailing(s, u);
    var k := Index(Utf16, s, u);
    IndexIsLeast(Utf16, s, u, k);
    if SplitsPair(s, u) {
      var j: nat :| j < |s| && Offset(Utf16, s, j) < u < Offset(Utf16, s, j + 1);
      OffsetIncreases(Utf16, s, j + 1, |s|);
      OffsetOrder(Utf16, s, j, k);
      OffsetOrder(Utf16, s, k, j + 1);
    } else if u < |Units(s)| && k > 0 {
      IndexIsLeast(Utf16, s, u, k - 1);
    }
  }
}
