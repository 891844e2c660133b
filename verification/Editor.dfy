/**
  The one-line editor a user sees: a text of characters, an anchor and a cursor between characters,
  and the range an input method is still composing. No byte or code-unit offset appears in its state.
*/
module Editor {
  import opened Wrappers
  import opened UnicodeText
  import opened WordMotion

  datatype Span = Span(lo: nat, hi: nat)

  datatype State = State(
    text: string,
    anchor: nat,
    cursor: nat,
    marked: Option<Span>,
    dragging: bool,
    clipboard: Option<string>)

  ghost predicate Ok(e: State) {
    && e.anchor <= |e.text| && e.cursor <= |e.text|
    && (e.marked.Some? ==> e.marked.value.lo <= e.marked.value.hi <= |e.text|)
  }

  function Lo(e: State): nat { if e.anchor <= e.cursor then e.anchor else e.cursor }

  function Hi(e: State): nat { if e.anchor <= e.cursor then e.cursor else e.anchor }

  function Selected(e: State): string
    requires Ok(e)
  {
    e.text[Lo(e)..Hi(e)]
  }

  /**
    Grapheme starts, ascending, as character positions. How a text is segmented is not modelled: any
    ascending choice of positions is allowed, at every action anew.
  */
  ghost predicate Segmentation(text: string, cuts: seq<nat>) {
    && (forall i, j :: 0 <= i < j < |cuts| ==> cuts[i] < cuts[j])
    && (forall i :: 0 <= i < |cuts| ==> cuts[i] < |text|)
  }

  /** The last element below `x`, searching backwards; 0 when there is none. */
  function PrevBelow(xs: seq<nat>, x: nat): nat {
    if xs == [] then 0 else if xs[|xs| - 1] < x then xs[|xs| - 1] else PrevBelow(xs[..|xs| - 1], x)
  }

  /** The first element above `x`, searching forwards; `end` when there is none. */
  function NextAbove(xs: seq<nat>, x: nat, end: nat): nat {
    if xs == [] then end else if xs[0] > x then xs[0] else NextAbove(xs[1..], x, end)
  }

  lemma {:induction false} CutsInRange(xs: seq<nat>, x: nat, end: nat)
    requires forall i :: 0 <= i < |xs| ==> xs[i] <= end
    ensures PrevBelow(xs, x) <= end && NextAbove(xs, x, end) <= end
    ensures PrevBelow(xs, x) == 0 || PrevBelow(xs, x) < x
    ensures NextAbove(xs, x, end) == end || NextAbove(xs, x, end) > x
  {
    if xs != [] {
      CutsInRange(xs[..|xs| - 1], x, end);
      CutsInRange(xs[1..], x, end);
    }
  }

  function MoveTo(e: State, k: nat): State { e.(anchor := k, cursor := k) }

  function SelectTo(e: State, k: nat): State { e.(cursor := k) }

  /** The characters an edit replaces: the given UTF-16 range, else the composed range, else the selection. */
  function Target(e: State, range: Option<Span>): (at: Span)
    requires Ok(e)
    ensures at.lo <= |e.text| && at.hi <= |e.text|
  {
    match range
    case Some(u) => Span(Index(Utf16, e.text, u.lo), Index(Utf16, e.text, u.hi))
    case None => match e.marked case Some(m) => m case None => Span(Lo(e), Hi(e))
  }

  function Replace(e: State, range: Option<Span>, t: string): (e': State)
    requires Ok(e)
    ensures Ok(e')
  {
    var at := Target(e, range);
    MoveTo(e.(text := e.text[..at.lo] + t + e.text[at.hi..], marked := None), at.lo + |t|)
  }

  /** Where the new text of an edit ends up. */
  function InsertedAt(e: State, range: Option<Span>, t: string): Span
    requires Ok(e)
  {
    Span(Target(e, range).lo, Target(e, range).lo + |t|)
  }

  function ReplaceAndMark(e: State, range: Option<Span>, t: string): (e': State)
    requires Ok(e)
    ensures Ok(e')
  {
    Replace(e, range, t).(marked := if t == "" then None else Some(InsertedAt(e, range, t)))
  }

  function Copy(e: State): State
    requires Ok(e)
  {
    if e.anchor == e.cursor then e else e.(clipboard := Some(Selected(e)))
  }

  function SpacesForNewlines(t: string): (r: string)
    ensures |r| == |t|
    ensures forall i :: 0 <= i < |t| ==> r[i] == if t[i] == '\n' then ' ' else t[i]
  {
    seq(|t|, i requires 0 <= i < |t| => if t[i] == '\n' then ' ' else t[i])
  }

  datatype Action =
    | Left(cuts: seq<nat>) | Right(cuts: seq<nat>) | WordLeft | WordRight
    | SelectLeft(cuts: seq<nat>) | SelectRight(cuts: seq<nat>) | SelectWordLeft | SelectWordRight
    | SelectAll | Home | End | SelectToHome | SelectToEnd
    | Backspace(cuts: seq<nat>) | Delete(cuts: seq<nat>) | DeleteWordLeft | DeleteWordRight
    | MouseDown(at: nat, clicks: nat, shift: bool) | MouseUp | MouseMove(at: nat)
    | Paste(pasted: Option<string>) | CopySelection | Cut
    | SetValue(value: string) | Unmark
    | ReplaceText(range: Option<Span>, t: string)
    | ReplaceAndMarkText(range: Option<Span>, t: string)

  ghost predicate Enabled(e: State, a: Action) {
    match a
    case Left(cuts) => Segmentation(e.text, cuts)
    case Right(cuts) => Segmentation(e.text, cuts)
    case SelectLeft(cuts) => Segmentation(e.text, cuts)
    case SelectRight(cuts) => Segmentation(e.text, cuts)
    case Backspace(cuts) => Segmentation(e.text, cuts)
    case Delete(cuts) => Segmentation(e.text, cuts)
    case MouseDown(at, _, _) => at <= |e.text|
    case MouseMove(at) => at <= |e.text|
    case _ => true
  }

  /** Move to `k` when nothing is selected, else to the given end of the selection. */
  function Motion(e: State, k: nat, selectionEnd: nat): (e': State)
    requires Ok(e) && k <= |e.text| && selectionEnd <= |e.text|
    ensures Ok(e')
  {
    if e.anchor == e.cursor then MoveTo(e, k) else MoveTo(e, selectionEnd)
  }

  /** Delete the selection, first extending an empty one to `k`. */
  function DeleteTo(e: State, k: nat): (e': State)
    requires Ok(e) && k <= |e.text|
    ensures Ok(e')
  {
    Replace(if e.anchor == e.cursor then SelectTo(e, k) else e, None, "")
  }

  function PrevGrapheme(e: State, cuts: seq<nat>): (k: nat)
    requires Ok(e) && Segmentation(e.text, cuts)
    ensures k <= |e.text|
  {
    CutsInRange(cuts, e.cursor, |e.text|);
    PrevBelow(cuts, e.cursor)
  }

  function NextGrapheme(e: State, cuts: seq<nat>): (k: nat)
    requires Ok(e) && Segmentation(e.text, cuts)
    ensures k <= |e.text|
  {
    CutsInRange(cuts, e.cursor, |e.text|);
    NextAbove(cuts, e.cursor, |e.text|)
  }

  function MouseDownAt(e: State, at: nat, clicks: nat, shift: bool): (e': State)
    requires Ok(e) && at <= |e.text|
    ensures Ok(e')
  {
    if clicks >= 3 then e.(anchor := 0, cursor := |e.text|, dragging := false)
    else if clicks == 2 then e.(anchor := RunStart(e.text, at), cursor := RunEnd(e.text, at), dragging := false)
    else (if shift then SelectTo(e, at) else MoveTo(e, at)).(dragging := true)
  }

  function Apply(e: State, a: Action): (e': State)
    requires Ok(e) && Enabled(e, a)
    ensures Ok(e')
  {
    match a
    case Left(cuts) => Motion(e, PrevGrapheme(e, cuts), Lo(e))
    case Right(cuts) => Motion(e, NextGrapheme(e, cuts), Hi(e))
    case WordLeft => Motion(e, PrevWord(e.text, e.cursor), Lo(e))
    case WordRight => Motion(e, NextWord(e.text, e.cursor), Hi(e))
    case SelectLeft(cuts) => SelectTo(e, PrevGrapheme(e, cuts))
    case SelectRight(cuts) => SelectTo(e, NextGrapheme(e, cuts))
    case SelectWordLeft => SelectTo(e, PrevWord(e.text, e.cursor))
    case SelectWordRight => SelectTo(e, NextWord(e.text, e.cursor))
    case SelectAll => e.(anchor := 0, cursor := |e.text|)
    case Home => MoveTo(e, 0)
    case End => MoveTo(e, |e.text|)
    case SelectToHome => SelectTo(e, 0)
    case SelectToEnd => SelectTo(e, |e.text|)
    case Backspace(cuts) => DeleteTo(e, PrevGrapheme(e, cuts))
    case Delete(cuts) => DeleteTo(e, NextGrapheme(e, cuts))
    case DeleteWordLeft => DeleteTo(e, PrevWord(e.text, e.cursor))
    case DeleteWordRight => DeleteTo(e, NextWord(e.text, e.cursor))
    case MouseDown(at, clicks, shift) => MouseDownAt(e, at, clicks, shift)
    case MouseUp => e.(dragging := false)
    case MouseMove(at) => if e.dragging then SelectTo(e, at) else e
    case Paste(pasted) => if pasted.Some? then Replace(e, None, SpacesForNewlines(pasted.value)) else e
    case CopySelection => Copy(e)
    case Cut => if e.anchor == e.cursor then e else Replace(Copy(e), None, "")
    case SetValue(v) => MoveTo(e.(text := v, marked := None), |v|)
    case Unmark => e.(marked := None)
    case ReplaceText(range, t) => Replace(e, range, t)
    case ReplaceAndMarkText(range, t) => ReplaceAndMark(e, range, t)
  }

  ghost predicate EnabledRun(e: State, actions: seq<Action>)
    requires Ok(e)
    decreases |actions|
  {
    actions == [] || (Enabled(e, actions[0]) && EnabledRun(Apply(e, actions[0]), actions[1..]))
  }

  ghost function Run(e: State, actions: seq<Action>): (e': State)
    requires Ok(e) && EnabledRun(e, actions)
    ensures Ok(e')
    decreases |actions|
  {
    if actions == [] then e else Run(Apply(e, actions[0]), actions[1..])
  }

  /** The actions that extend the selection and do nothing else. */
  predicate Extends(a: Action) {
    || a.SelectLeft? || a.SelectRight? || a.SelectWordLeft? || a.SelectWordRight?
    || a.SelectToHome? || a.SelectToEnd? || a.MouseMove?
  }

  /** However far a selection is extended, only its cursor end moves. */
  lemma {:induction false} ExtendingKeepsAnchor(e: State, actions: seq<Action>)
    requires Ok(e) && EnabledRun(e, actions)
    requires forall a :: a in actions ==> Extends(a)
    ensures Run(e, actions) == e.(cursor := Run(e, actions).cursor)
    decreases |actions|
  {
    if actions != [] {
      assert Extends(actions[0]);
      var e1 := Apply(e, actions[0]);
      assert e1 == e.(cursor := e1.cursor);
      ExtendingKeepsAnchor(e1, actions[1..]);
    }
  }

  /** Grapheme motion finds the nearest cut on either side, and never the position it started from. */
  lemma {:induction false} PrevBelowIsGreatest(xs: seq<nat>, x: nat)
    requires forall i, j :: 0 <= i < j < |xs| ==> xs[i] < xs[j]
    ensures PrevBelow(xs, x) == 0 || (PrevBelow(xs, x) in xs && PrevBelow(xs, x) < x)
    ensures forall i :: 0 <= i < |xs| && xs[i] < x ==> xs[i] <= PrevBelow(xs, x)
  {
    if xs != [] && xs[|xs| - 1] >= x {
      PrevBelowIsGreatest(xs[..|xs| - 1], x);
    }
  }

  lemma {:induction false} NextAboveIsLeast(xs: seq<nat>, x: nat, end: nat)
    requires forall i, j :: 0 <= i < j < |xs| ==> xs[i] < xs[j]
    requires forall i :: 0 <= i < |xs| ==> xs[i] < end
    ensures NextAbove(xs, x, end) == end || (NextAbove(xs, x, end) in xs && NextAbove(xs, x, end) > x)
    ensures forall i :: 0 <= i < |xs| && xs[i] > x ==> NextAbove(xs, x, end) <= xs[i]
  {
    if xs != [] && xs[0] <= x {
      NextAboveIsLeast(xs[1..], x, end);
      forall i | 0 <= i < |xs| && xs[i] > x ensures NextAbove(xs, x, end) <= xs[i] {
        assert xs[i] == xs[1..][i - 1];
      }
    }
  }

  predicate GoesLeft(a: Action) { a.Left? || a.WordLeft? || a.Home? }

  predicate GoesRight(a: Action) { a.Right? || a.WordRight? || a.End? }

  /**
    A motion leaves text and composition alone, collapses the selection, and goes its way; from a bare cursor,
    strictly.
  */
  lemma MotionsGoTheirWay(e: State, a: Action)
    requires Ok(e) && Enabled(e, a) && (GoesLeft(a) || GoesRight(a))
    ensures var k := Apply(e, a).cursor;
            && Apply(e, a) == e.(anchor := k, cursor := k)
            && (GoesLeft(a) ==> k <= Lo(e)) && (GoesRight(a) ==> k >= Hi(e))
            && (GoesLeft(a) && e.anchor == e.cursor > 0 ==> k < e.cursor)
            && (GoesRight(a) && e.anchor == e.cursor < |e.text| ==> k > e.cursor)
            && (e.anchor != e.cursor && !a.Home? && !a.End? ==> k == if GoesLeft(a) then Lo(e) else Hi(e))
  {
    match a
    case Left(cuts) => CutsInRange(cuts, e.cursor, |e.text|);
    case Right(cuts) => CutsInRange(cuts, e.cursor, |e.text|);
    case _ =>
  }

  /** Where a motion may stop on its way: at a cut, or at a word start. */
  predicate Stops(text: string, a: Action, i: nat) {
    match a
    case Left(cuts) => i in cuts
    case Right(cuts) => i in cuts
    case WordLeft => WordStart(text, i)
    case WordRight => WordStart(text, i)
    case _ => false
  }

  /** From a bare cursor a motion goes to the nearest place it may stop at, else to the end of the text on its side. */
  lemma MotionsStopAtNearest(e: State, a: Action)
    requires Ok(e) && Enabled(e, a) && (GoesLeft(a) || GoesRight(a)) && e.anchor == e.cursor
    ensures var k := Apply(e, a).cursor;
            && (Stops(e.text, a, k) || k == if GoesLeft(a) then 0 else |e.text|)
            && forall i: nat :: (k < i < e.cursor || e.cursor < i < k) ==> !Stops(e.text, a, i)
  {
    match a
    case Left(cuts) => PrevBelowIsGreatest(cuts, e.cursor);
    case Right(cuts) => NextAboveIsLeast(cuts, e.cursor, |e.text|);
    case WordLeft => PrevWordIsGreatest(e.text, e.cursor);
    case WordRight => NextWordIsLeast(e.text, e.cursor);
    case _ =>
  }

  /** The motion an extension or a deletion is named after. */
  function MotionOf(a: Action): Action {
    match a
    case SelectLeft(cuts) => Left(cuts)
    case SelectRight(cuts) => Right(cuts)
    case SelectWordLeft => WordLeft
    case SelectWordRight => WordRight
    case SelectToHome => Home
    case SelectToEnd => End
    case Backspace(cuts) => Left(cuts)
    case Delete(cuts) => Right(cuts)
    case DeleteWordLeft => WordLeft
    case DeleteWordRight => WordRight
    case _ => a
  }

  /** The side an action is named after. */
  predicate NamedLeft(a: Action) {
    a.SelectLeft? || a.SelectWordLeft? || a.SelectToHome? || a.Backspace? || a.DeleteWordLeft?
  }

  /**
    An extension puts the cursor where the motion of its name puts a bare one, on its named side, and changes
    nothing else.
  */
  lemma ExtensionsFollowMotions(e: State, a: Action)
    requires Ok(e) && Enabled(e, a) && Extends(a) && !a.MouseMove?
    ensures var k := Apply(e.(anchor := e.cursor), MotionOf(a)).cursor;
            && Apply(e, a) == e.(cursor := k)
            && (if NamedLeft(a) then k < e.cursor || k == e.cursor == 0 else k > e.cursor || k == e.cursor == |e.text|)
            && (Stops(e.text, MotionOf(a), k) || k == if NamedLeft(a) then 0 else |e.text|)
            && forall i: nat :: (k < i < e.cursor || e.cursor < i < k) ==> !Stops(e.text, MotionOf(a), i)
  {
    var bare := e.(anchor := e.cursor);
    MotionsGoTheirWay(bare, MotionOf(a));
    MotionsStopAtNearest(bare, MotionOf(a));
  }

  predicate DeletesLeft(a: Action) { a.Backspace? || a.DeleteWordLeft? }

  predicate DeletesRight(a: Action) { a.Delete? || a.DeleteWordRight? }

  /** The composed range; else the selection; else the characters between the cursor and `k`. */
  function Removal(e: State, k: nat): Span {
    if e.marked.Some? then e.marked.value
    else if e.anchor != e.cursor then Span(Lo(e), Hi(e))
    else if k <= e.cursor then Span(k, e.cursor) else Span(e.cursor, k)
  }

  predicate TakesOut(e: State, e': State, at: Span) {
    && at.lo <= at.hi <= |e.text|
    && e' == MoveTo(e.(text := e.text[..at.lo] + e.text[at.hi..], marked := None), at.lo)
  }

  lemma DeleteToTakesOut(e: State, k: nat)
    requires Ok(e) && k <= |e.text|
    ensures TakesOut(e, DeleteTo(e, k), Removal(e, k))
  {
    var at := Removal(e, k);
    assert e.text[..at.lo] + "" == e.text[..at.lo];
  }

  /** Where a deletion extends an empty selection to. */
  ghost function DeletionGoal(e: State, a: Action): (k: nat)
    requires Ok(e) && Enabled(e, a) && (DeletesLeft(a) || DeletesRight(a))
    ensures k <= |e.text|
  {
    match a
    case Backspace(cuts) => PrevGrapheme(e, cuts)
    case Delete(cuts) => NextGrapheme(e, cuts)
    case DeleteWordLeft => PrevWord(e.text, e.cursor)
    case DeleteWordRight => NextWord(e.text, e.cursor)
  }

  lemma DeletionGoes(e: State, a: Action)
    requires Ok(e) && Enabled(e, a) && (DeletesLeft(a) || DeletesRight(a))
    ensures Apply(e, a) == DeleteTo(e, DeletionGoal(e, a))
    ensures e.anchor == e.cursor ==> DeletionGoal(e, a) == Apply(e, MotionOf(a)).cursor
  {}

  lemma BareGoal(e: State, a: Action)
    requires Ok(e) && Enabled(e, a) && (DeletesLeft(a) || DeletesRight(a)) && e.anchor == e.cursor
    ensures DeletesLeft(a) ==> DeletionGoal(e, a) <= e.cursor && (e.cursor > 0 ==> DeletionGoal(e, a) < e.cursor)
    ensures DeletesRight(a) ==>
              DeletionGoal(e, a) >= e.cursor && (e.cursor < |e.text| ==> DeletionGoal(e, a) > e.cursor)
  {
    match a
    case Backspace(cuts) => CutsInRange(cuts, e.cursor, |e.text|);
    case Delete(cuts) => CutsInRange(cuts, e.cursor, |e.text|);
    case _ =>
  }

  /**
    A deletion takes out what is being composed, wherever the cursor is. With nothing composed it takes out
    the selection, or the characters from a bare cursor to where the motion of its name goes: at least one, on
    its own side, if there is one.
  */
  lemma DeletionsTakeTheirSide(e: State, a: Action) returns (at: Span)
    requires Ok(e) && Enabled(e, a) && (DeletesLeft(a) || DeletesRight(a))
    ensures TakesOut(e, Apply(e, a), at)
    ensures e.marked.Some? ==> at == e.marked.value
    ensures e.marked.None? && e.anchor != e.cursor ==> at == Span(Lo(e), Hi(e))
    ensures e.marked.None? && e.anchor == e.cursor && DeletesLeft(a) ==>
              at == Span(Apply(e, MotionOf(a)).cursor, e.cursor) && (e.cursor > 0 ==> at.lo < at.hi)
    ensures e.marked.None? && e.anchor == e.cursor && DeletesRight(a) ==>
              at == Span(e.cursor, Apply(e, MotionOf(a)).cursor) && (e.cursor < |e.text| ==> at.lo < at.hi)
  {
    var k := DeletionGoal(e, a);
    DeletionGoes(e, a);
    DeleteToTakesOut(e, k);
    at := Removal(e, k);
    if e.anchor == e.cursor { BareGoal(e, a); }
  }

  /**
    Selecting all and clicking three times select the whole text, and a double click the word under it;
    nothing else changes.
  */
  lemma WholesAreSelected(e: State, at: nat, clicks: nat, shift: bool)
    requires Ok(e) && at <= |e.text|
    ensures var e' := Apply(e, SelectAll);
            Selected(e') == e.text && e'.cursor == |e.text| && e' == e.(anchor := e'.anchor, cursor := e'.cursor)
    ensures clicks >= 3 ==>
              var e' := Apply(e, MouseDown(at, clicks, shift));
              && Selected(e') == e.text && e'.cursor == |e.text|
              && e' == e.(anchor := e'.anchor, cursor := e'.cursor, dragging := false)
    ensures clicks == 2 ==>
              var e' := Apply(e, MouseDown(at, clicks, shift));
              && MaximalRun(e.text, at, e'.anchor, e'.cursor)
              && e' == e.(anchor := e'.anchor, cursor := e'.cursor, dragging := false)
  {
    MaximalRunUnique(e.text, at, RunStart(e.text, at), RunEnd(e.text, at));
  }

  /**
    A press puts the cursor under the mouse, with the anchor unless shift holds it back, and while it lasts
    the cursor follows.
  */
  lemma MouseDrags(e: State, at: nat, clicks: nat, shift: bool, to: nat)
    requires Ok(e) && at <= |e.text| && to <= |e.text| && clicks <= 1
    ensures var e1 := Apply(e, MouseDown(at, clicks, shift));
            var e2 := Apply(e1, MouseMove(to));
            var e3 := Apply(e2, MouseUp);
            && e1 == e.(anchor := if shift then e.anchor else at, cursor := at, dragging := true)
            && e2 == e1.(cursor := to)
            && e3 == e2.(dragging := false) && Apply(e3, MouseMove(at)) == e3
  {}

  /** A copy changes nothing but the clipboard, which then holds the selection if there is one. */
  lemma CopyTakesSelection(e: State)
    requires Ok(e)
    ensures Apply(e, CopySelection) ==
            e.(clipboard := if e.anchor == e.cursor then e.clipboard else Some(e.text[Lo(e)..Hi(e)]))
    ensures e.anchor <= e.cursor ==> Lo(e) == e.anchor && Hi(e) == e.cursor
    ensures e.cursor <= e.anchor ==> Lo(e) == e.cursor && Hi(e) == e.anchor
  {}

  /**
    Setting the value leaves a bare cursor behind the new text and nothing composed; ending a composition
    leaves the rest alone.
  */
  lemma ValueIsSet(e: State, v: string)
    requires Ok(e)
    ensures Apply(e, SetValue(v)) == State(v, |v|, |v|, None, e.dragging, e.clipboard)
    ensures Apply(e, Unmark) == State(e.text, e.anchor, e.cursor, None, e.dragging, e.clipboard)
    ensures Apply(e, Paste(None)) == e
  {}

  function Utf16Span(text: string, i: nat, j: nat): Span
    requires i <= |text| && j <= |text|
  {
    Span(Offset(Utf16, text, i), Offset(Utf16, text, j))
  }

  lemma RangeIsTarget(e: State, i: nat, j: nat)
    requires Ok(e) && i <= j <= |e.text|
    ensures Target(e, Some(Utf16Span(e.text, i, j))) == Span(i, j)
  {
    IndexOfOffset(Utf16, e.text, i);
    IndexOfOffset(Utf16, e.text, j);
  }

  /**
    The text has `t` in place of its characters from `lo` to `hi`, the cursor stands bare behind it, and
    nothing is composed.
  */
  ghost predicate Replaced(e: State, e': State, lo: nat, hi: nat, t: string) {
    && lo <= hi <= |e.text|
    && e'.text == e.text[..lo] + t + e.text[hi..] && e'.anchor == e'.cursor == lo + |t| && e'.marked == None
    && e'.dragging == e.dragging && e'.clipboard == e.clipboard
  }

  /** The same, but `t` is being composed. */
  ghost predicate Composed(e: State, e': State, lo: nat, hi: nat, t: string) {
    && Replaced(e, e'.(marked := None), lo, hi, t)
    && e'.marked == if t == "" then None else Some(Span(lo, lo + |t|))
  }

  /** An edit of the characters from `i` to `j`, named by their UTF-16 offsets, puts the new text in their place. */
  lemma RangesAreReplaced(e: State, i: nat, j: nat, t: string)
    requires Ok(e) && i <= j <= |e.text|
    ensures Replaced(e, Apply(e, ReplaceText(Some(Utf16Span(e.text, i, j)), t)), i, j, t)
    ensures Composed(e, Apply(e, ReplaceAndMarkText(Some(Utf16Span(e.text, i, j)), t)), i, j, t)
  {
    RangeIsTarget(e, i, j);
  }

  /** Without a range, what is composed is edited, else the selection, by pasting, typing and composing alike. */
  lemma TargetsAreReplaced(e: State, t: string)
    requires Ok(e)
    ensures var at := match e.marked
              case Some(m) => m
              case None => if e.anchor <= e.cursor then Span(e.anchor, e.cursor) else Span(e.cursor, e.anchor);
            && Replaced(e, Apply(e, ReplaceText(None, t)), at.lo, at.hi, t)
            && Replaced(e, Apply(e, Paste(Some(t))), at.lo, at.hi, SpacesForNewlines(t))
            && Composed(e, Apply(e, ReplaceAndMarkText(None, t)), at.lo, at.hi, t)
  {}

  /** Whatever an input method shows while composing, only what it commits last remains. */
  lemma CompositionLeavesNoTrace(e: State, shown: string, committed: string)
    requires Ok(e)
    ensures Replace(ReplaceAndMark(e, None, shown), None, committed) == Replace(e, None, committed)
    ensures ReplaceAndMark(ReplaceAndMark(e, None, shown), None, committed) == ReplaceAndMark(e, None, committed)
  {
    var at, e1 := Target(e, None), ReplaceAndMark(e, None, shown);
    assert e1.text[..at.lo] == e.text[..at.lo];
    assert e1.text[at.lo + |shown|..] == e.text[at.hi..];
    assert Target(e1, None) == Span(at.lo, at.lo + |shown|);
  }

  /** The UTF-16 range of a middle part, found again in the whole. */
  lemma MiddleRange(before: string, t: string, after: string)
    ensures var whole, u := before + t + after, Length(Utf16, before);
            && Index(Utf16, whole, u) == |before|
            && Index(Utf16, whole, u + Length(Utf16, t)) == |before| + |t|
  {
    var whole := before + t + after;
    assert before + (t + after) == whole;
    OffsetInPrefix(Utf16, before, t + after, |before|);
    IndexOfOffset(Utf16, whole, |before|);
    LengthOfConcat(Utf16, before, t);
    OffsetInPrefix(Utf16, before + t, after, |before + t|);
    IndexOfOffset(Utf16, whole, |before| + |t|);
  }

  lemma OffsetIsLength(s: string, k: nat)
    requires k <= |s|
    ensures Offset(Utf16, s, k) == Length(Utf16, s[..k])
  {
    assert s[..k] + s[k..] == s;
    OffsetInPrefix(Utf16, s[..k], s[k..], k);
  }

  /** Deleting exactly what an insertion put in, named by its UTF-16 range, gives the old text back. */
  lemma InsertThenDeleteRestores(e: State, t: string)
    requires Ok(e) && e.marked.None? && e.anchor == e.cursor
    ensures var u := Offset(Utf16, e.text, e.cursor);
            Replace(Replace(e, None, t), Some(Span(u, u + Length(Utf16, t))), "") == e
  {
    var before, after := e.text[..e.cursor], e.text[e.cursor..];
    OffsetIsLength(e.text, e.cursor);
    MiddleRange(before, t, after);
    MiddleDropped(before, t, after);
    assert before + after == e.text;
  }

  lemma MiddleDropped(before: string, t: string, after: string)
    ensures var whole := before + t + after; whole[..|before|] + "" + whole[|before| + |t|..] == before + after
  {}

  lemma CutTakesTarget(e: State)
    requires Ok(e) && e.anchor != e.cursor
    ensures var at := Target(e, None);
            Apply(e, Cut) == MoveTo(e.(text := e.text[..at.lo] + e.text[at.hi..], marked := None,
                                       clipboard := Some(Selected(e))), at.lo)
  {
    var at := Target(e, None);
    assert e.text[..at.lo] + "" == e.text[..at.lo];
  }

  lemma CutEnds(s: string, lo: nat, hi: nat)
    requires lo <= hi <= |s|
    ensures var cut := s[..lo] + s[hi..]; cut[..lo] == s[..lo] && cut[lo..] == s[hi..]
  {}

  /**
    Cutting and pasting back puts the copied selection where the composed range was; with nothing composed,
    where it was itself.
  */
  lemma CutThenPaste(e: State)
    requires Ok(e) && e.anchor != e.cursor
    ensures var at, copied := Target(e, None), SpacesForNewlines(Selected(e));
            Apply(Apply(e, Cut), Paste(Apply(e, Cut).clipboard)) ==
            MoveTo(e.(text := e.text[..at.lo] + copied + e.text[at.hi..], marked := None,
                      clipboard := Some(Selected(e))), at.lo + |copied|)
  {
    var cut, at, copied := Apply(e, Cut), Target(e, None), SpacesForNewlines(Selected(e));
    CutTakesTarget(e);
    TargetsAreReplaced(cut, Selected(e));
    CutEnds(e.text, at.lo, at.hi);
    assert Replaced(cut, Apply(cut, Paste(cut.clipboard)), at.lo, at.lo, copied);
  }

  /** The text comes back exactly when what the cut took out reads as what it copied, its line breaks made spaces. */
  lemma CutThenPasteRestores(e: State)
    requires Ok(e) && e.anchor != e.cursor
    ensures var at := Target(e, None);
            Apply(Apply(e, Cut), Paste(Apply(e, Cut).clipboard)).text == e.text <==>
            e.text[at.lo..at.hi] == SpacesForNewlines(Selected(e))
  {
    CutThenPaste(e);
    var at := Target(e, None);
    MiddleReplaced(e.text, at.lo, at.hi, SpacesForNewlines(Selected(e)));
  }

  lemma MiddleReplaced(s: string, lo: nat, hi: nat, y: string)
    requires lo <= hi <= |s|
    ensures s[..lo] + y + s[hi..] == s <==> s[lo..hi] == y
  {
    var r := s[..lo] + y + s[hi..];
    assert s[..lo] + s[lo..hi] + s[hi..] == s;
    if r == s { assert |y| == hi - lo && r[lo..hi] == y; }
  }

  /** Cutting what is selected while something else is composed loses what was composed. */
  lemma CutLosesComposition()
    ensures var e := State("abX", 0, 2, Some(Span(2, 3)), false, None);
            Ok(e) && Apply(Apply(e, Cut), Paste(Apply(e, Cut).clipboard)).text == "abab"
  {
    CutThenPaste(State("abX", 0, 2, Some(Span(2, 3)), false, None));
  }
}
