/** Word motion: loops over byte offsets, proved against a description over character positions. */
module WordMotion {
  import opened Wrappers
  import opened UnicodeText

  /** A word starts at a non-space character that begins the text or follows a space. */
  predicate WordStart(s: string, k: nat) {
    k < |s| && !IsWhitespace(s[k]) && (k == 0 || IsWhitespace(s[k - 1]))
  }

  /** The least word start at or after `k`, else the end of the text. */
  function WordStartFrom(s: string, k: nat): (r: nat)
    requires k <= |s|
    ensures k <= r <= |s|
    decreases |s| - k
  {
    if k == |s| || WordStart(s, k) then k else WordStartFrom(s, k + 1)
  }

  /** The greatest word start before `k`, else 0. */
  function PrevWord(s: string, k: nat): (r: nat)
    requires k <= |s|
    ensures r <= k && (k > 0 ==> r < k)
  {
    if k == 0 then 0 else if WordStart(s, k - 1) then k - 1 else PrevWord(s, k - 1)
  }

  /** The least word start after `k`, else the end of the text. */
  function NextWord(s: string, k: nat): (r: nat)
    requires k <= |s|
    ensures k <= r <= |s| && (k < |s| ==> k < r)
  {
    if k == |s| then k else WordStartFrom(s, k + 1)
  }

  lemma {:induction false} WordStartFromIsLeast(s: string, k: nat)
    requires k <= |s|
    ensures WordStart(s, WordStartFrom(s, k)) || WordStartFrom(s, k) == |s|
    ensures forall j :: k <= j < WordStartFrom(s, k) ==> !WordStart(s, j)
    decreases |s| - k
  {
    if k < |s| && !WordStart(s, k) { WordStartFromIsLeast(s, k + 1); }
  }

  lemma NextWordIsLeast(s: string, k: nat)
    requires k <= |s|
    ensures WordStart(s, NextWord(s, k)) || NextWord(s, k) == |s|
    ensures forall j :: k < j < NextWord(s, k) ==> !WordStart(s, j)
  {
    if k < |s| { WordStartFromIsLeast(s, k + 1); }
  }

  lemma {:induction false} PrevWordIsGreatest(s: string, k: nat)
    requires k <= |s|
    ensures WordStart(s, PrevWord(s, k)) || PrevWord(s, k) == 0
    ensures forall j :: PrevWord(s, k) < j < k ==> !WordStart(s, j)
  {
    if k > 0 && !WordStart(s, k - 1) { PrevWordIsGreatest(s, k - 1); }
  }

  lemma PrevOfNextWord(s: string, p: nat)
    requires WordStart(s, p)
    ensures PrevWord(s, NextWord(s, p)) == p
  {
    var n := NextWord(s, p);
    NextWordIsLeast(s, p);
    PrevWordIsGreatest(s, n);
    assert WordStart(s, PrevWord(s, n)) || p == 0;
  }

  lemma NextOfPrevWord(s: string, q: nat)
    requires WordStart(s, q) && q > 0
    ensures NextWord(s, PrevWord(s, q)) == q
  {
    var p := PrevWord(s, q);
    PrevWordIsGreatest(s, q);
    NextWordIsLeast(s, p);
    assert WordStart(s, NextWord(s, p)) || q == |s|;
  }

  /** The byte index and value of the last character of `s[..idx]`. */
  function LastBefore(s: string, idx: nat): (r: Option<(nat, char)>)
    requires IsBoundary(Utf8, s, idx)
  {
    var k := Index(Utf8, s, idx);
    if k == 0 then None else Some((Offset(Utf8, s, k - 1), s[k - 1]))
  }

  /** The first character of `s[idx..]`, at relative byte index 0. */
  function FirstFrom(s: string, idx: nat): (r: Option<(nat, char)>)
    requires IsBoundary(Utf8, s, idx)
  {
    var k := Index(Utf8, s, idx);
    if k == |s| then None else Some((0, s[k]))
  }

  method PreviousWordBoundary(s: string, offset: nat) returns (idx: nat)
    requires IsBoundary(Utf8, s, offset)
    ensures IsBoundary(Utf8, s, idx) && Index(Utf8, s, idx) == PrevWord(s, Index(Utf8, s, offset))
  {
    idx := offset;
    ghost var k0 := Index(Utf8, s, offset);
    ghost var k := k0;
    while true
      invariant 0 <= k <= k0 && idx == Offset(Utf8, s, k)
      invariant PrevWord(s, k) == PrevWord(s, k0)
      decreases k
    {
      IndexOfOffset(Utf8, s, k);
      match LastBefore(s, idx)
      case Some((bi, c)) =>
        if !IsWhitespace(c) { break; }
        idx, k := bi, k - 1;
      case None => break;
    }
    while true
      invariant 0 <= k <= k0 && idx == Offset(Utf8, s, k)
      invariant PrevWord(s, k0) == if k == 0 || IsWhitespace(s[k - 1]) then k else PrevWord(s, k)
      decreases k
    {
      IndexOfOffset(Utf8, s, k);
      match LastBefore(s, idx)
      case Some((bi, c)) =>
        if IsWhitespace(c) { break; }
        idx, k := bi, k - 1;
      case None => break;
    }
  }

  method NextWordBoundary(s: string, offset: nat) returns (idx: nat)
    requires IsBoundary(Utf8, s, offset)
    ensures IsBoundary(Utf8, s, idx) && Index(Utf8, s, idx) == NextWord(s, Index(Utf8, s, offset))
  {
    idx := offset;
    ghost var k0 := Index(Utf8, s, offset);
    ghost var k := k0;
    while true
      invariant k0 <= k <= |s| && idx == Offset(Utf8, s, k)
      invariant NextWord(s, k) == NextWord(s, k0)
      decreases |s| - k
    {
      IndexOfOffset(Utf8, s, k);
      match FirstFrom(s, idx)
      case Some((rel, c)) =>
        if IsWhitespace(c) { break; }
        assert k + 1 < |s| ==> !WordStart(s, k + 1);
        idx, k := idx + rel + Width(Utf8, c), k + 1;
      case None => break;
    }
    while true
      invariant k0 <= k <= |s| && idx == Offset(Utf8, s, k)
      invariant NextWord(s, k0) == if k < |s| && IsWhitespace(s[k]) then NextWord(s, k) else k
      decreases |s| - k
    {
      IndexOfOffset(Utf8, s, k);
      match FirstFrom(s, idx)
      case Some((rel, c)) =>
        if !IsWhitespace(c) { break; }
        idx, k := idx + rel + Width(Utf8, c), k + 1;
      case None => break;
    }
  }

  /** `[lo, hi)` is the maximal run of non-space characters that touches position `k`. */
  ghost predicate MaximalRun(s: string, k: nat, lo: nat, hi: nat) {
    && lo <= k <= hi <= |s|
    && (forall j :: lo <= j < hi ==> !IsWhitespace(s[j]))
    && (lo == 0 || IsWhitespace(s[lo - 1]))
    && (hi == |s| || IsWhitespace(s[hi]))
  }

  function RunStart(s: string, k: nat): (r: nat)
    requires k <= |s|
    ensures r <= k
  {
    if k == 0 || IsWhitespace(s[k - 1]) then k else RunStart(s, k - 1)
  }

  function RunEnd(s: string, k: nat): (r: nat)
    requires k <= |s|
    ensures k <= r <= |s|
    decreases |s| - k
  {
    if k == |s| || IsWhitespace(s[k]) then k else RunEnd(s, k + 1)
  }

  lemma RunIsMaximal(s: string, k: nat)
    requires k <= |s|
    ensures MaximalRun(s, k, RunStart(s, k), RunEnd(s, k))
  {
    RunStartIsMaximal(s, k);
    RunEndIsMaximal(s, k);
  }

  lemma {:induction false} RunStartIsMaximal(s: string, k: nat)
    requires k <= |s|
    ensures forall j :: RunStart(s, k) <= j < k ==> !IsWhitespace(s[j])
    ensures RunStart(s, k) == 0 || IsWhitespace(s[RunStart(s, k) - 1])
  {
    if k > 0 && !IsWhitespace(s[k - 1]) { RunStartIsMaximal(s, k - 1); }
  }

  lemma {:induction false} RunEndIsMaximal(s: string, k: nat)
    requires k <= |s|
    ensures forall j :: k <= j < RunEnd(s, k) ==> !IsWhitespace(s[j])
    ensures RunEnd(s, k) == |s| || IsWhitespace(s[RunEnd(s, k)])
    decreases |s| - k
  {
    if k < |s| && !IsWhitespace(s[k]) { RunEndIsMaximal(s, k + 1); }
  }

  /** Being the maximal run singles out one pair of ends, the one found by scanning both ways. */
  lemma MaximalRunUnique(s: string, k: nat, lo: nat, hi: nat)
    requires k <= |s|
    ensures MaximalRun(s, k, lo, hi) <==> lo == RunStart(s, k) && hi == RunEnd(s, k)
  {
    var a, b := RunStart(s, k), RunEnd(s, k);
    RunIsMaximal(s, k);
    if MaximalRun(s, k, lo, hi) {
      if lo < a { assert false; }
      if a < lo { assert false; }
      if b < hi { assert false; }
      if hi < b { assert false; }
    }
  }

  /** A word starts exactly where a run of non-space characters does. */
  lemma WordsStartRuns(s: string, k: nat)
    ensures WordStart(s, k) <==> exists hi :: k < hi && MaximalRun(s, k, k, hi)
  {
    if k <= |s| { RunIsMaximal(s, k); }
    if WordStart(s, k) { assert MaximalRun(s, k, k, RunEnd(s, k)); }
  }

  method WordRangeAt(s: string, offset: nat) returns (start: nat, end: nat)
    requires IsBoundary(Utf8, s, offset)
    ensures IsBoundary(Utf8, s, start) && Index(Utf8, s, start) == RunStart(s, Index(Utf8, s, offset))
    ensures IsBoundary(Utf8, s, end) && Index(Utf8, s, end) == RunEnd(s, Index(Utf8, s, offset))
    ensures start <= end <= Length(Utf8, s)
  {
    ghost var k0 := Index(Utf8, s, offset);
    start := offset;
    ghost var lo := k0;
    while true
      invariant 0 <= lo <= k0 && start == Offset(Utf8, s, lo)
      invariant RunStart(s, lo) == RunStart(s, k0)
      decreases lo
    {
      IndexOfOffset(Utf8, s, lo);
      match LastBefore(s, start)
      case Some((bi, c)) =>
        if IsWhitespace(c) { break; }
        start, lo := bi, lo - 1;
      case None => break;
    }
    end := offset;
    ghost var hi := k0;
    while true
      invariant k0 <= hi <= |s| && end == Offset(Utf8, s, hi)
      invariant RunEnd(s, hi) == RunEnd(s, k0)
      decreases |s| - hi
    {
      IndexOfOffset(Utf8, s, hi);
      match FirstFrom(s, end)
      case Some((rel, c)) =>
        if IsWhitespace(c) { break; }
        end, hi := end + rel + Width(Utf8, c), hi + 1;
      case None => break;
    }
    OffsetIncreases(Utf8, s, lo, hi);
    OffsetIncreases(Utf8, s, hi, |s|);
  }
}
