/**
  The text field as it is stored: UTF-8 byte offsets, a selection kept as an ordered range plus a
  "reversed" flag, and a composed byte range. Every method is shown to act as the editor of module
  `Editor` does, and no slice is ever taken off a character boundary.
*/
module TextInput {
  import opened Wrappers
  import opened UnicodeText
  import opened Utf16Offsets
  import opened WordMotion
  import Editor

  type Span = Editor.Span

  /** Byte positions of character positions. */
  function ByteOffsets(s: string, cuts: seq<nat>): (r: seq<nat>)
    requires forall i :: 0 <= i < |cuts| ==> cuts[i] <= |s|
    ensures |r| == |cuts|
    ensures forall i :: 0 <= i < |cuts| ==> r[i] == Offset(Utf8, s, cuts[i])
  {
    seq(|cuts|, i requires 0 <= i < |cuts| => Offset(Utf8, s, cuts[i]))
  }

  /** Searching the byte offsets of the cuts is searching the cuts. */
  lemma {:induction false} PrevBelowInBytes(s: string, cuts: seq<nat>, k: nat)
    requires k <= |s| && forall i :: 0 <= i < |cuts| ==> cuts[i] <= |s|
    ensures Editor.PrevBelow(cuts, k) <= |s|
    ensures Editor.PrevBelow(ByteOffsets(s, cuts), Offset(Utf8, s, k)) == Offset(Utf8, s, Editor.PrevBelow(cuts, k))
  {
    if cuts != [] {
      var n := |cuts| - 1;
      OffsetOrder(Utf8, s, cuts[n], k);
      PrevBelowInBytes(s, cuts[..n], k);
      assert ByteOffsets(s, cuts)[..n] == ByteOffsets(s, cuts[..n]);
    }
  }

  lemma {:induction false} NextAboveInBytes(s: string, cuts: seq<nat>, k: nat)
    requires k <= |s| && forall i :: 0 <= i < |cuts| ==> cuts[i] <= |s|
    ensures Editor.NextAbove(cuts, k, |s|) <= |s|
    ensures Editor.NextAbove(ByteOffsets(s, cuts), Offset(Utf8, s, k), Length(Utf8, s))
            == Offset(Utf8, s, Editor.NextAbove(cuts, k, |s|))
  {
    if cuts != [] {
      OffsetOrder(Utf8, s, cuts[0], k);
      NextAboveInBytes(s, cuts[1..], k);
      assert ByteOffsets(s, cuts)[1..] == ByteOffsets(s, cuts[1..]);
    }
  }

  function CharSpan(s: string, r: Span): Span {
    Editor.Span(Index(Utf8, s, r.lo), Index(Utf8, s, r.hi))
  }

  /** Reading the text of a UTF-16 range fails exactly when its ends map to bytes in the wrong order. */
  method TextForRange(content: string, range: Span) returns (r: Option<(string, Span)>)
    ensures r.None? <==> Index(Utf16, content, range.lo) > Index(Utf16, content, range.hi)
    ensures r.Some? ==>
              var lo, hi := Index(Utf16, content, range.lo), Index(Utf16, content, range.hi);
              r.value == (content[lo..hi], Editor.Span(Offset(Utf16, content, lo), Offset(Utf16, content, hi)))
  {
    var start := OffsetFromUtf16(content, range.lo);
    var end := OffsetFromUtf16(content, range.hi);
    var ustart := OffsetToUtf16(content, start);
    var uend := OffsetToUtf16(content, end);
    ghost var lo, hi := Index(Utf16, content, range.lo), Index(Utf16, content, range.hi);
    IndexOfOffset(Utf8, content, lo);
    IndexOfOffset(Utf8, content, hi);
    OffsetOrder(Utf8, content, hi, lo);
    if start > end {
      return None;
    }
    return Some((Slice(content, start, end), Editor.Span(ustart, uend)));
  }

  class TextInput {
    var content: string
    var start: nat
    var end: nat
    var selectionReversed: bool
    var marked: Option<Span>
    var isSelecting: bool
    var clipboard: Option<string>

    ghost predicate Valid()
      reads this
    {
      && start <= end <= Length(Utf8, content)
      && IsBoundary(Utf8, content, start) && IsBoundary(Utf8, content, end)
      && (marked.Some? ==>
        && marked.value.lo <= marked.value.hi <= Length(Utf8, content)
        && IsBoundary(Utf8, content, marked.value.lo) && IsBoundary(Utf8, content, marked.value.hi))
    }

    /** The editor state these fields stand for. */
    ghost function Abs(): (e: Editor.State)
      requires Valid()
      reads this
      ensures Editor.Ok(e)
    {
      IndexMonotone(Utf8, content, start, end);
      if marked.Some? then IndexMonotone(Utf8, content, marked.value.lo, marked.value.hi); AbsState() else AbsState()
    }

    ghost function AbsState(): Editor.State
      reads this
    {
      var lo, hi := Index(Utf8, content, start), Index(Utf8, content, end);
      Editor.State(
        content,
        if selectionReversed then hi else lo,
        if selectionReversed then lo else hi,
        if marked.Some? then Some(CharSpan(content, marked.value)) else None,
        isSelecting,
        clipboard)
    }

    lemma AbsIsOk()
      requires Valid()
      ensures Editor.Lo(Abs()) == Index(Utf8, content, start) && Editor.Hi(Abs()) == Index(Utf8, content, end)
      ensures Offset(Utf8, content, Editor.Lo(Abs())) == start && Offset(Utf8, content, Editor.Hi(Abs())) == end
      ensures Offset(Utf8, content, Abs().cursor) == CursorOffset()
      ensures Abs().anchor == Abs().cursor <==> start >= end
      ensures marked.Some? ==>
                && Offset(Utf8, content, Abs().marked.value.lo) == marked.value.lo
                && Offset(Utf8, content, Abs().marked.value.hi) == marked.value.hi
    {
      IndexMonotone(Utf8, content, start, end);
      if marked.Some? {
        IndexMonotone(Utf8, content, marked.value.lo, marked.value.hi);
      }
    }

    constructor ()
      ensures Valid()
      ensures Abs() == Editor.State("", 0, 0, None, false, None)
    {
      content, start, end, selectionReversed := "", 0, 0, false;
      marked, isSelecting, clipboard := None, false, None;
      new;
      IndexOfOffset(Utf8, content, 0);
    }

    function CursorOffset(): nat
      reads this
    {
      if selectionReversed then start else end
    }

    method MoveTo(offset: nat)
      requires Valid() && IsBoundary(Utf8, content, offset)
      modifies `start, `end
      ensures Valid() && Abs() == Editor.MoveTo(old(Abs()), Index(Utf8, content, offset))
    {
      OffsetIncreases(Utf8, content, Index(Utf8, content, offset), |content|);
      start, end := offset, offset;
    }

    method SelectTo(offset: nat)
      requires Valid() && IsBoundary(Utf8, content, offset)
      modifies `start, `end, `selectionReversed
      ensures Valid() && Abs() == Editor.SelectTo(old(Abs()), Index(Utf8, content, offset))
    {
      OffsetIncreases(Utf8, content, Index(Utf8, content, offset), |content|);
      if selectionReversed {
        start := offset;
      } else {
        end := offset;
      }
      if end < start {
        selectionReversed := !selectionReversed;
        start, end := end, start;
      }
    }

    /** The byte range an edit replaces. */
    method TargetRange(range: Option<Span>) returns (lo: nat, hi: nat)
      requires Valid()
      ensures IsBoundary(Utf8, content, lo) && IsBoundary(Utf8, content, hi)
      ensures Editor.Target(Abs(), range) == CharSpan(content, Editor.Span(lo, hi))
    {
      AbsIsOk();
      match range
      case Some(u) =>
        lo := OffsetFromUtf16(content, u.lo);
        hi := OffsetFromUtf16(content, u.hi);
        IndexOfOffset(Utf8, content, Index(Utf16, content, u.lo));
        IndexOfOffset(Utf8, content, Index(Utf16, content, u.hi));
      case None =>
        match marked
        case Some(m) => lo, hi := m.lo, m.hi;
        case None => lo, hi := start, end;
    }

    /** Put new text over `[lo, hi)` and the cursor after it. */
    method Splice(lo: nat, hi: nat, newText: string)
      requires IsBoundary(Utf8, content, lo) && IsBoundary(Utf8, content, hi)
      modifies `content, `start, `end
      ensures content == old(content[..Index(Utf8, content, lo)]) + newText + old(content[Index(Utf8, content, hi)..])
      ensures start == end == lo + Length(Utf8, newText) <= Length(Utf8, content)
      ensures IsBoundary(Utf8, content, lo) && Index(Utf8, content, lo) == old(Index(Utf8, content, lo))
      ensures IsBoundary(Utf8, content, end)
      ensures Index(Utf8, content, end) == old(Index(Utf8, content, lo)) + |newText|
    {
      ghost var before, after := SliceTo(content, lo), SliceFrom(content, hi);
      SlicesAtOffset(content, Index(Utf8, content, lo));
      InsertedEnds(before, newText, after);
      content := SliceTo(content, lo) + newText + SliceFrom(content, hi);
      start, end := lo + Length(Utf8, newText), lo + Length(Utf8, newText);
    }

    /** Replace the target of an edit; `lo` is where the new text begins. */
    method ReplaceTarget(range: Option<Span>, newText: string) returns (lo: nat)
      requires Valid()
      modifies `content, `start, `end, `marked
      ensures Valid() && Abs() == Editor.Replace(old(Abs()), range, newText)
      ensures lo <= end && IsBoundary(Utf8, content, lo)
      ensures CharSpan(content, Editor.Span(lo, end)) == Editor.InsertedAt(old(Abs()), range, newText)
    {
      var hi;
      lo, hi := TargetRange(range);
      Splice(lo, hi, newText);
      marked := None;
    }

    method ReplaceTextInRange(range: Option<Span>, newText: string)
      requires Valid()
      modifies `content, `start, `end, `marked
      ensures Valid() && Abs() == Editor.Replace(old(Abs()), range, newText)
    {
      var _ := ReplaceTarget(range, newText);
    }

    /** Compose the bytes from `lo` up to the cursor. */
    method MarkUpTo(lo: nat)
      requires Valid() && IsBoundary(Utf8, content, lo) && lo <= end
      modifies `marked
      ensures Valid() && Abs() == old(Abs()).(marked := Some(CharSpan(content, Editor.Span(lo, end))))
    {
      marked := Some(Editor.Span(lo, end));
    }

    method ReplaceAndMarkTextInRange(range: Option<Span>, newText: string)
      requires Valid()
      modifies `content, `start, `end, `marked
      ensures Valid()
      ensures Abs() == Editor.ReplaceAndMark(old(Abs()), range, newText)
    {
      var lo := ReplaceTarget(range, newText);
      if newText != "" {
        MarkUpTo(lo);
      }
    }

    /**
      The same with a new selection asked for. Its ends are converted against the whole new text and shifted by
      the ends of the replaced range, so the fields stay valid exactly when both shifts end on a boundary.
    */
    method ReplaceAndMarkSelecting(range: Option<Span>, newText: string, selection: Span)
      requires Valid() && selection.lo <= selection.hi && (range.Some? ==> range.value.lo <= range.value.hi)
      modifies `content, `start, `end, `marked
      ensures content == Editor.Replace(old(Abs()), range, newText).text
      ensures start == FromUtf16(content, selection.lo) + old(Offset(Utf8, content, Editor.Target(Abs(), range).lo))
      ensures end == FromUtf16(content, selection.hi) + old(Offset(Utf8, content, Editor.Target(Abs(), range).hi))
      ensures Valid() <==>
              && ShiftFits(content, selection.lo, old(Offset(Utf8, content, Editor.Target(Abs(), range).lo)))
              && ShiftFits(content, selection.hi, old(Offset(Utf8, content, Editor.Target(Abs(), range).hi)))
    {
      var lo, hi := TargetRange(range);
      TargetIsOrdered(range, lo, hi);
      var from := ReplaceTarget(range, newText);
      if newText != "" {
        MarkUpTo(from);
      }
      SelectShifted(selection, lo, hi);
    }

    method SelectShifted(selection: Span, lo: nat, hi: nat)
      requires Valid() && selection.lo <= selection.hi && lo <= hi
      modifies `start, `end
      ensures start == FromUtf16(content, selection.lo) + lo && end == FromUtf16(content, selection.hi) + hi
      ensures Valid() <==> ShiftFits(content, selection.lo, lo) && ShiftFits(content, selection.hi, hi)
    {
      var from := OffsetFromUtf16(content, selection.lo);
      var to := OffsetFromUtf16(content, selection.hi);
      ConversionsMonotone(content, selection.lo, selection.hi);
      ShiftedBoundary(content, Index(Utf16, content, selection.lo), lo, from + lo);
      ShiftedBoundary(content, Index(Utf16, content, selection.hi), hi, to + hi);
      start, end := from + lo, to + hi;
    }

    lemma TargetIsOrdered(range: Option<Span>, lo: nat, hi: nat)
      requires Valid() && (range.Some? ==> range.value.lo <= range.value.hi)
      requires IsBoundary(Utf8, content, lo) && IsBoundary(Utf8, content, hi)
      requires Editor.Target(Abs(), range) == CharSpan(content, Editor.Span(lo, hi))
      ensures lo <= hi
    {
      if range.Some? { IndexMonotone(Utf16, content, range.value.lo, range.value.hi); }
      OffsetOrder(Utf8, content, Index(Utf8, content, hi), Index(Utf8, content, lo));
    }

    method PreviousBoundary(cuts: seq<nat>, offset: nat) returns (b: nat)
      requires Editor.Segmentation(content, cuts) && IsBoundary(Utf8, content, offset)
      ensures IsBoundary(Utf8, content, b)
      ensures Index(Utf8, content, b) == Editor.PrevBelow(cuts, Index(Utf8, content, offset))
    {
      PrevBelowInBytes(content, cuts, Index(Utf8, content, offset));
      b := Editor.PrevBelow(ByteOffsets(content, cuts), offset);
      IndexOfOffset(Utf8, content, Editor.PrevBelow(cuts, Index(Utf8, content, offset)));
    }

    method NextBoundary(cuts: seq<nat>, offset: nat) returns (b: nat)
      requires Editor.Segmentation(content, cuts) && IsBoundary(Utf8, content, offset)
      ensures IsBoundary(Utf8, content, b)
      ensures Index(Utf8, content, b) == Editor.NextAbove(cuts, Index(Utf8, content, offset), |content|)
    {
      NextAboveInBytes(content, cuts, Index(Utf8, content, offset));
      b := Editor.NextAbove(ByteOffsets(content, cuts), offset, Length(Utf8, content));
      IndexOfOffset(Utf8, content, Editor.NextAbove(cuts, Index(Utf8, content, offset), |content|));
    }

    method Left(cuts: seq<nat>)
      requires Valid() && Editor.Segmentation(content, cuts)
      modifies `start, `end
      ensures Valid() && Abs() == Editor.Apply(old(Abs()), Editor.Left(cuts))
    {
      AbsIsOk();
      if start >= end {
        var b := PreviousBoundary(cuts, CursorOffset());
        MoveTo(b);
      } else {
        MoveTo(start);
      }
    }

    method Right(cuts: seq<nat>)
      requires Valid() && Editor.Segmentation(content, cuts)
      modifies `start, `end
      ensures Valid() && Abs() == Editor.Apply(old(Abs()), Editor.Right(cuts))
    {
      AbsIsOk();
      if start >= end {
        var b := NextBoundary(cuts, end);
        MoveTo(b);
      } else {
        MoveTo(end);
      }
    }

    method WordLeft()
      requires Valid()
      modifies `start, `end
      ensures Valid() && Abs() == Editor.Apply(old(Abs()), Editor.WordLeft)
    {
      AbsIsOk();
      if start >= end {
        var b := PreviousWordBoundary(content, CursorOffset());
        MoveTo(b);
      } else {
        MoveTo(start);
      }
    }

    method WordRight()
      requires Valid()
      modifies `start, `end
      ensures Valid() && Abs() == Editor.Apply(old(Abs()), Editor.WordRight)
    {
      AbsIsOk();
      if start >= end {
        var b := NextWordBoundary(content, CursorOffset());
        MoveTo(b);
      } else {
        MoveTo(end);
      }
    }

    method SelectLeft(cuts: seq<nat>)
      requires Valid() && Editor.Segmentation(content, cuts)
      modifies `start, `end, `selectionReversed
      ensures Valid() && Abs() == Editor.Apply(old(Abs()), Editor.SelectLeft(cuts))
    {
      AbsIsOk();
      var b := PreviousBoundary(cuts, CursorOffset());
      SelectTo(b);
    }

    method SelectRight(cuts: seq<nat>)
      requires Valid() && Editor.Segmentation(content, cuts)
      modifies `start, `end, `selectionReversed
      ensures Valid() && Abs() == Editor.Apply(old(Abs()), Editor.SelectRight(cuts))
    {
      AbsIsOk();
      var b := NextBoundary(cuts, CursorOffset());
      SelectTo(b);
    }

    method SelectWordLeft()
      requires Valid()
      modifies `start, `end, `selectionReversed
      ensures Valid() && Abs() == Editor.Apply(old(Abs()), Editor.SelectWordLeft)
    {
      AbsIsOk();
      var b := PreviousWordBoundary(content, CursorOffset());
      SelectTo(b);
    }

    method SelectWordRight()
      requires Valid()
      modifies `start, `end, `selectionReversed
      ensures Valid() && Abs() == Editor.Apply(old(Abs()), Editor.SelectWordRight)
    {
      AbsIsOk();
      var b := NextWordBoundary(content, CursorOffset());
      SelectTo(b);
    }

    method SelectAll()
      requires Valid()
      modifies `start, `end, `selectionReversed
      ensures Valid() && Abs() == Editor.Apply(old(Abs()), Editor.SelectAll)
    {
      TextEnds(content);
      MoveTo(0);
      SelectTo(Length(Utf8, content));
    }

    method Home()
      requires Valid()
      modifies `start, `end
      ensures Valid() && Abs() == Editor.Apply(old(Abs()), Editor.Home)
    {
      TextEnds(content);
      MoveTo(0);
    }

    method End()
      requires Valid()
      modifies `start, `end
      ensures Valid() && Abs() == Editor.Apply(old(Abs()), Editor.End)
    {
      TextEnds(content);
      MoveTo(Length(Utf8, content));
    }

    method SelectToHome()
      requires Valid()
      modifies `start, `end, `selectionReversed
      ensures Valid() && Abs() == Editor.Apply(old(Abs()), Editor.SelectToHome)
    {
      TextEnds(content);
      SelectTo(0);
    }

    method SelectToEnd()
      requires Valid()
      modifies `start, `end, `selectionReversed
      ensures Valid() && Abs() == Editor.Apply(old(Abs()), Editor.SelectToEnd)
    {
      TextEnds(content);
      SelectTo(Length(Utf8, content));
    }

    method Backspace(cuts: seq<nat>)
      requires Valid() && Editor.Segmentation(content, cuts)
      modifies `content, `start, `end, `selectionReversed, `marked
      ensures Valid() && Abs() == Editor.Apply(old(Abs()), Editor.Backspace(cuts))
    {
      AbsIsOk();
      if start >= end {
        var b := PreviousBoundary(cuts, CursorOffset());
        SelectTo(b);
      }
      ReplaceTextInRange(None, "");
    }

    method Delete(cuts: seq<nat>)
      requires Valid() && Editor.Segmentation(content, cuts)
      modifies `content, `start, `end, `selectionReversed, `marked
      ensures Valid() && Abs() == Editor.Apply(old(Abs()), Editor.Delete(cuts))
    {
      AbsIsOk();
      if start >= end {
        var b := NextBoundary(cuts, CursorOffset());
        SelectTo(b);
      }
      ReplaceTextInRange(None, "");
    }

    method DeleteWordLeft()
      requires Valid()
      modifies `content, `start, `end, `selectionReversed, `marked
      ensures Valid() && Abs() == Editor.Apply(old(Abs()), Editor.DeleteWordLeft)
    {
      AbsIsOk();
      if start >= end {
        var b := PreviousWordBoundary(content, CursorOffset());
        SelectTo(b);
      }
      ReplaceTextInRange(None, "");
    }

    method DeleteWordRight()
      requires Valid()
      modifies `content, `start, `end, `selectionReversed, `marked
      ensures Valid() && Abs() == Editor.Apply(old(Abs()), Editor.DeleteWordRight)
    {
      AbsIsOk();
      if start >= end {
        var b := NextWordBoundary(content, CursorOffset());
        SelectTo(b);
      }
      ReplaceTextInRange(None, "");
    }

    method OnMouseDown(at: nat, clicks: nat, shift: bool)
      requires Valid() && at <= |content|
      modifies `start, `end, `selectionReversed, `isSelecting
      ensures Valid() && Abs() == Editor.Apply(old(Abs()), Editor.MouseDown(at, clicks, shift))
    {
      var offset := Offset(Utf8, content, at);
      IndexOfOffset(Utf8, content, at);
      if clicks >= 3 {
        TextEnds(content);
        isSelecting := false;
        start, end := 0, Length(Utf8, content);
        selectionReversed := false;
      } else if clicks == 2 {
        isSelecting := false;
        start, end := WordRangeAt(content, offset);
        selectionReversed := false;
      } else {
        isSelecting := true;
        if shift {
          SelectTo(offset);
        } else {
          MoveTo(offset);
        }
      }
    }

    method OnMouseUp()
      requires Valid()
      modifies `isSelecting
      ensures Valid() && Abs() == Editor.Apply(old(Abs()), Editor.MouseUp)
    {
      isSelecting := false;
    }

    method OnMouseMove(at: nat)
      requires Valid() && at <= |content|
      modifies `start, `end, `selectionReversed
      ensures Valid() && Abs() == Editor.Apply(old(Abs()), Editor.MouseMove(at))
    {
      if isSelecting {
        IndexOfOffset(Utf8, content, at);
        SelectTo(Offset(Utf8, content, at));
      }
    }

    method Paste(pasted: Option<string>)
      requires Valid()
      modifies `content, `start, `end, `marked
      ensures Valid() && Abs() == Editor.Apply(old(Abs()), Editor.Paste(pasted))
    {
      if pasted.Some? {
        ReplaceTextInRange(None, Editor.SpacesForNewlines(pasted.value));
      }
    }

    method Copy()
      requires Valid()
      modifies `clipboard
      ensures Valid() && Abs() == Editor.Apply(old(Abs()), Editor.CopySelection)
    {
      AbsIsOk();
      if start < end {
        clipboard := Some(Slice(content, start, end));
      }
    }

    method Cut()
      requires Valid()
      modifies `content, `start, `end, `marked, `clipboard
      ensures Valid() && Abs() == Editor.Apply(old(Abs()), Editor.Cut)
    {
      AbsIsOk();
      if start < end {
        clipboard := Some(Slice(content, start, end));
        ReplaceTextInRange(None, "");
      }
    }

    method SetValue(value: string)
      requires Valid()
      modifies `content, `start, `end, `marked
      ensures Valid() && Abs() == Editor.Apply(old(Abs()), Editor.SetValue(value))
    {
      TextEnds(value);
      content := value;
      start, end := Length(Utf8, value), Length(Utf8, value);
      marked := None;
    }

    method UnmarkText()
      requires Valid()
      modifies `marked
      ensures Valid() && Abs() == Editor.Apply(old(Abs()), Editor.Unmark)
    {
      marked := None;
    }

    method Perform(a: Editor.Action)
      requires Valid() && Editor.Enabled(Abs(), a)
      modifies this
      ensures Valid() && Abs() == Editor.Apply(old(Abs()), a)
    {
      match a
      case Left(cuts) => Left(cuts);
      case Right(cuts) => Right(cuts);
      case WordLeft => WordLeft();
      case WordRight => WordRight();
      case SelectLeft(cuts) => SelectLeft(cuts);
      case SelectRight(cuts) => SelectRight(cuts);
      case SelectWordLeft => SelectWordLeft();
      case SelectWordRight => SelectWordRight();
      case SelectAll => SelectAll();
      case Home => Home();
      case End => End();
      case SelectToHome => SelectToHome();
      case SelectToEnd => SelectToEnd();
      case Backspace(cuts) => Backspace(cuts);
      case Delete(cuts) => Delete(cuts);
      case DeleteWordLeft => DeleteWordLeft();
      case DeleteWordRight => DeleteWordRight();
      case MouseDown(at, clicks, shift) => OnMouseDown(at, clicks, shift);
      case MouseUp => OnMouseUp();
      case MouseMove(at) => OnMouseMove(at);
      case Paste(pasted) => Paste(pasted);
      case CopySelection => Copy();
      case Cut => Cut();
      case SetValue(v) => SetValue(v);
      case Unmark => UnmarkText();
      case ReplaceText(range, t) => ReplaceTextInRange(range, t);
      case ReplaceAndMarkText(range, t) => ReplaceAndMarkTextInRange(range, t);
    }

    /** Any run of actions keeps the fields valid and ends where the same run of the editor ends. */
    method Replay(actions: seq<Editor.Action>)
      requires Valid() && Editor.EnabledRun(Abs(), actions)
      modifies this
      ensures Valid() && Abs() == Editor.Run(old(Abs()), actions)
    {
      for i := 0 to |actions|
        invariant Valid() && Editor.EnabledRun(Abs(), actions[i..])
        invariant Editor.Run(Abs(), actions[i..]) == Editor.Run(old(Abs()), actions)
      {
        assert actions[i..][0] == actions[i] && actions[i..][1..] == actions[i + 1..];
        Perform(actions[i]);
      }
    }
  }

  /** Counting `shift` bytes on from a UTF-16 offset ends at a character boundary. */
  predicate ShiftFits(s: string, units: nat, shift: nat) {
    IsBoundary(Utf8, s[Index(Utf16, s, units)..], shift)
  }

  lemma ShiftedBoundary(s: string, k: nat, shift: nat, off: nat)
    requires k <= |s| && off == Offset(Utf8, s, k) + shift
    ensures IsBoundary(Utf8, s, off) <==> IsBoundary(Utf8, s[k..], shift)
    ensures IsBoundary(Utf8, s[k..], shift) ==> off <= Length(Utf8, s)
  {
    assert s == s[..k] + s[k..];
    FrontAndRest(s, s[..k], s[k..]);
    BoundaryAfter(s, s[..k], s[k..], off, shift);
    if IsBoundary(Utf8, s[k..], shift) { BoundaryInRange(s[k..], shift); }
  }

  lemma FrontAndRest(s: string, front: string, rest: string)
    requires s == front + rest
    ensures Length(Utf8, front) == Offset(Utf8, s, |front|)
    ensures Length(Utf8, s) == Length(Utf8, front) + Length(Utf8, rest)
  {
    OffsetInPrefix(Utf8, front, rest, |front|);
    LengthOfConcat(Utf8, front, rest);
  }

  lemma BoundaryInRange(s: string, off: nat)
    requires IsBoundary(Utf8, s, off)
    ensures off <= Length(Utf8, s)
  {
    OffsetIncreases(Utf8, s, Index(Utf8, s, off), |s|);
  }

  lemma {:induction false} BoundaryAfter(s: string, front: string, rest: string, off: nat, shift: nat)
    requires s == front + rest && off == Length(Utf8, front) + shift
    ensures IsBoundary(Utf8, s, off) <==> IsBoundary(Utf8, rest, shift)
    decreases |front|
  {
    if front == "" {
      assert s == rest;
    } else {
      var c, front' := front[0], front[1..];
      assert s == [c] + (front' + rest) && front == [c] + front';
      BoundaryCons(Utf8, c, front', 0);
      BoundaryCons(Utf8, c, front' + rest, off);
      BoundaryAfter(front' + rest, front', rest, off - Width(Utf8, c), shift);
    }
  }

  // ---- where a selection asked for while composing ends up ----

  predicate OneByte(s: string) { forall c :: c in s ==> c as int < 0x80 }

  lemma {:induction false} OneByteOffset(enc: Encoding, s: string, k: nat)
    requires OneByte(s) && k <= |s|
    ensures Offset(enc, s, k) == k
    decreases k
  {
    if k > 0 {
      assert s[k - 1] in s;
      OneByteOffset(enc, s, k - 1);
    }
  }

  function Min(a: nat, b: nat): nat { if a < b then a else b }

  lemma OneByteIndex(enc: Encoding, s: string, off: nat)
    requires OneByte(s)
    ensures Index(enc, s, off) == Min(off, |s|)
  {
    var k := Min(off, |s|);
    OneByteOffset(enc, s, k);
    OneByteOffset(enc, s, Index(enc, s, off));
    IndexOfOffset(enc, s, k);
    IndexIsLeast(enc, s, off, Index(enc, s, off));
  }

  /** In a text of one-byte characters a shift fits exactly when it does not go past the end. */
  lemma OneByteFits(s: string, units: nat, shift: nat)
    requires OneByte(s)
    ensures ShiftFits(s, units, shift) <==> Min(units, |s|) + shift <= |s|
  {
    var rest := s[Index(Utf16, s, units)..];
    OneByteIndex(Utf16, s, units);
    assert forall c :: c in rest ==> c in s;
    OneByteIndex(Utf8, rest, shift);
    OneByteOffset(Utf8, rest, Min(shift, |rest|));
  }

  /**
    So the caret may be asked for after the new text exactly when at least as many bytes follow it as were
    replaced.
  */
  lemma CaretFits(before: string, replaced: string, t: string, after: string)
    requires OneByte(before + t + after)
    ensures ShiftFits(before + t + after, Length(Utf16, t), Length(Utf8, before + replaced)) <==>
            Length(Utf8, replaced) <= |after|
  {
    var s := before + t + after;
    assert forall c :: c in before || c in t ==> c in s;
    OneByteOffset(Utf8, before, |before|);
    OneByteOffset(Utf16, t, |t|);
    LengthOfConcat(Utf8, before, replaced);
    OneByteFits(s, |t|, |before| + Length(Utf8, replaced));
  }

  /** Units counted from the start of the whole text, where they should be counted from the start of the new one. */
  lemma UnitsInPart(before: string, t: string, after: string, units: nat)
    requires units <= Length(Utf16, t) && (before == "" || OneByte(before + t + after))
    ensures FromUtf16(before + t + after, units) == FromUtf16(t, units)
  {
    var s := before + t + after;
    if before == "" {
      assert s == t + after;
      IndexInPrefix(t, after, units);
      OffsetInPrefix(Utf8, t, after, Index(Utf16, t, units));
    } else {
      assert forall c :: c in t ==> c in s;
      OneByteOffset(Utf16, t, |t|);
      OneByteIndex(Utf16, s, units);
      OneByteIndex(Utf16, t, units);
      OneByteOffset(Utf8, s, units);
      OneByteOffset(Utf8, t, units);
    }
  }

  lemma IndexInPrefix(t: string, after: string, units: nat)
    requires units <= Length(Utf16, t)
    ensures Index(Utf16, t + after, units) == Index(Utf16, t, units)
  {
    var i, j := Index(Utf16, t, units), Index(Utf16, t + after, units);
    IndexIsLeast(Utf16, t, units, i);
    OffsetInPrefix(Utf16, t, after, i);
    IndexIsLeast(Utf16, t + after, units, i);
    IndexIsLeast(Utf16, t + after, units, j);
    if j < i {
      IndexIsLeast(Utf16, t, units, j);
      OffsetInPrefix(Utf16, t, after, j);
    }
  }

  /**
    A selection is asked for by its place in the new text. When that text goes to the front, or all characters take
    one byte, it starts where it was asked for, and ends there exactly when nothing was replaced.
  */
  lemma SelectionLands(e: Editor.State, range: Option<Span>, t: string, selection: Span)
    requires Editor.Ok(e) && (range.Some? ==> range.value.lo <= range.value.hi)
    requires selection.lo <= selection.hi <= Length(Utf16, t)
    requires Editor.Target(e, range).lo == 0 || OneByte(Editor.Replace(e, range, t).text)
    ensures var at, s := Editor.Target(e, range), Editor.Replace(e, range, t).text;
            var asked := Editor.Span(Offset(Utf8, s, at.lo) + FromUtf16(t, selection.lo),
                                     Offset(Utf8, s, at.lo) + FromUtf16(t, selection.hi));
            && FromUtf16(s, selection.lo) + Offset(Utf8, e.text, at.lo) == asked.lo
            && (FromUtf16(s, selection.hi) + Offset(Utf8, e.text, at.hi) == asked.hi <==> at.lo == at.hi)
  {
    var at := Editor.Target(e, range);
    if range.Some? { IndexMonotone(Utf16, e.text, range.value.lo, range.value.hi); }
    var before, after := e.text[..at.lo], e.text[at.hi..];
    UnitsInPart(before, t, after, selection.lo);
    UnitsInPart(before, t, after, selection.hi);
    SamePrefix(e.text, before + t + after, at.lo);
    OffsetOrder(Utf8, e.text, at.lo, at.hi);
  }

  lemma SamePrefix(s: string, s': string, k: nat)
    requires k <= |s| && k <= |s'| && s[..k] == s'[..k]
    ensures Offset(Utf8, s, k) == Offset(Utf8, s', k)
  {
    assert s[..k] + s[k..] == s && s'[..k] + s'[k..] == s';
    OffsetInPrefix(Utf8, s[..k], s[k..], k);
    OffsetInPrefix(Utf8, s'[..k], s'[k..], k);
  }

  /** Composing "b" over a composed "a" with the caret asked for after it: the selection ends past the text. */
  lemma CaretAfterCompositionLeavesText()
    ensures var e := Editor.State("a", 1, 1, Some(Editor.Span(0, 1)), false, None);
            var s := Editor.Replace(e, None, "b").text;
            && Editor.Ok(e) && Editor.Target(e, None) == Editor.Span(0, 1)
            && FromUtf16(s, 1) + Offset(Utf8, e.text, Editor.Target(e, None).hi) > Length(Utf8, s)
            && !ShiftFits(s, 1, Offset(Utf8, e.text, Editor.Target(e, None).hi))
  {
    var s := "b";
    assert Editor.Replace(Editor.State("a", 1, 1, Some(Editor.Span(0, 1)), false, None), None, "b").text == s;
    OneByteIndex(Utf16, s, 1);
    OneByteOffset(Utf8, s, 1);
    OneByteOffset(Utf8, "a", 1);
    OneByteFits(s, 1, 1);
  }

  const E_ACUTE: char := '\U{E9}'

  /**
    After a character of two bytes even the start of the selection, asked for after a composed "a", is past
    the text.
  */
  lemma WideTextShiftsSelection()
    ensures var e := Editor.State([E_ACUTE], 1, 1, None, false, None);
            var s := Editor.Replace(e, None, "a").text;
            Editor.Ok(e) && FromUtf16(s, 1) + Offset(Utf8, e.text, Editor.Target(e, None).lo) > Length(Utf8, s)
  {
    var s := [E_ACUTE, 'a'];
    assert Editor.Replace(Editor.State([E_ACUTE], 1, 1, None, false, None), None, "a").text == s;
    assert Offset(Utf16, s, 0) == 0 && Offset(Utf16, s, 1) == 1;
    IndexOfOffset(Utf16, s, 1);
    assert Offset(Utf8, s, 0) == 0 && Offset(Utf8, s, 1) == 2 && Offset(Utf8, s, 2) == 3;
    assert Offset(Utf8, [E_ACUTE], 0) == 0 && Offset(Utf8, [E_ACUTE], 1) == 2;
  }

  lemma TextEnds(s: string)
    ensures IsBoundary(Utf8, s, 0) && Index(Utf8, s, 0) == 0
    ensures IsBoundary(Utf8, s, Length(Utf8, s)) && Index(Utf8, s, Length(Utf8, s)) == |s|
  {
    IndexOfOffset(Utf8, s, 0);
    IndexOfOffset(Utf8, s, |s|);
  }

  lemma PieceEnd(u: string, v: string)
    ensures Offset(Utf8, u + v, |u|) == Length(Utf8, u) <= Length(Utf8, u + v)
    ensures Index(Utf8, u + v, Length(Utf8, u)) == |u|
  {
    OffsetInPrefix(Utf8, u, v, |u|);
    LengthOfConcat(Utf8, u, v);
    IndexOfOffset(Utf8, u + v, |u|);
  }

  /** The ends of an inserted text are boundaries of the result, at the byte distances the pieces take. */
  lemma InsertedEnds(before: string, t: string, after: string)
    ensures var s, b, b' := before + t + after, Length(Utf8, before), Length(Utf8, before) + Length(Utf8, t);
            && IsBoundary(Utf8, s, b) && IsBoundary(Utf8, s, b') && b' <= Length(Utf8, s)
            && Index(Utf8, s, b) == |before| && Index(Utf8, s, b') == |before| + |t|
  {
    PieceEnd(before + t, after);
    PieceEnd(before, t + after);
    assert before + (t + after) == before + t + after;
    LengthOfConcat(Utf8, before, t);
  }

  lemma SlicesAtOffset(s: string, k: nat)
    requires k <= |s|
    ensures var b := Offset(Utf8, s, k);
            && IsBoundary(Utf8, s, b) && SliceTo(s, b) == s[..k] && SliceFrom(s, b) == s[k..]
            && Length(Utf8, s[..k]) == b
  {
    IndexOfOffset(Utf8, s, k);
    assert s == s[..k] + s[k..];
    OffsetInPrefix(Utf8, s[..k], s[k..], k);
  }
}
