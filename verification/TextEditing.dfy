/**
 The single-line text field: keyboard and input-method edits on a content limited in bytes, a selection
 that may run backwards, and a marked range.  Offsets are byte offsets.  Where graphemes break is a
 parameter: any list of character boundaries for each text.
 */
module TextEditing {
  import opened Options
  import opened Runs
  import opened TextOffsets

  datatype Range = Range(start: nat, end: nat)
  {
    /** `Range::is_empty`: also true of a range whose ends are out of order. */
    predicate Empty() { end <= start }
    predicate Ordered() { start <= end }
  }

  type Graphemes = string -> seq<nat>

  /** Graphemes break between characters. */
  ghost predicate AtBoundaries(graphemes: Graphemes) {
    forall text, i :: 0 <= i < |graphemes(text)| ==> Floor(text, graphemes(text)[i]) == graphemes(text)[i]
  }

  datatype State = State(content: string, selected: Range, reversed: bool, marked: Option<Range>)

  const EMPTY := State("", Range(0, 0), false, None)

  // ------------------------------------------------------------------ selection

  function Cursor(s: State): nat {
    if s.reversed then s.selected.start else s.selected.end
  }

  /** The end of the selection that stays where it is. */
  function Anchor(s: State): nat {
    if s.reversed then s.selected.end else s.selected.start
  }

  function MoveTo(s: State, offset: nat): State {
    s.(selected := Range(offset, offset), reversed := false)
  }

  function SelectTo(s: State, offset: nat): State {
    var selected := if s.reversed then s.selected.(start := offset) else s.selected.(end := offset);
    if selected.end < selected.start
    then s.(selected := Range(selected.end, selected.start), reversed := !s.reversed)
    else s.(selected := selected)
  }

  /** Extending a selection puts the cursor on the target and leaves the anchor, whichever way it runs. */
  lemma SelectToMovesTheCursor(s: State, offset: nat)
    ensures Cursor(SelectTo(s, offset)) == offset
    ensures Anchor(SelectTo(s, offset)) == Anchor(s)
    ensures SelectTo(s, offset).selected.Ordered()
    ensures SelectTo(s, offset).content == s.content && SelectTo(s, offset).marked == s.marked
  {
  }

  /** Through any number of reversals the anchor is the first one and the cursor the last target. */
  lemma {:induction false} SelectingKeepsTheAnchor(s: State, targets: seq<nat>)
    requires targets != []
    ensures var end := After((u: State, t: nat) => SelectTo(u, t), s, targets);
      && Anchor(end) == Anchor(s) && Cursor(end) == targets[|targets| - 1] && end.selected.Ordered()
  {
    var select := (u: State, t: nat) => SelectTo(u, t);
    var before := targets[..|targets| - 1];
    SelectToMovesTheCursor(After(select, s, before), targets[|targets| - 1]);
    if before != [] {
      SelectingKeepsTheAnchor(s, before);
    }
  }

  // ------------------------------------------------------------------ graphemes

  /** The last break before `offset`, or the start. */
  function Previous(breaks: seq<nat>, offset: nat): (r: nat)
    ensures r == 0 || r in breaks
    ensures r <= offset && (0 < offset ==> r < offset)
  {
    if breaks == [] then 0
    else if breaks[|breaks| - 1] < offset then breaks[|breaks| - 1]
    else Previous(breaks[..|breaks| - 1], offset)
  }

  /** The first break after `offset`, or the end. */
  function Following(breaks: seq<nat>, offset: nat, length: nat): (r: nat)
    ensures r == length || r in breaks
    ensures offset <= length ==> offset <= r && (offset < length ==> offset < r)
  {
    if breaks == [] then length
    else if offset < breaks[0] then breaks[0]
    else Following(breaks[1..], offset, length)
  }

  // -------------------------------------------------------------------- editing

  function Normalize(text: string, range: Range): Range {
    var start := Floor(text, range.start);
    Range(start, if Floor(text, range.end) < start then start else Floor(text, range.end))
  }

  lemma NormalizedIsSliceable(text: string, range: Range)
    ensures var r := Normalize(text, range);
      && r.start <= r.end <= Length(Utf8, text)
      && Floor(text, r.start) == r.start && Floor(text, r.end) == r.end
  {
    ConvertCompose(Utf8, Utf8, Utf8, text, range.start);
    ConvertCompose(Utf8, Utf8, Utf8, text, range.end);
    ConvertIsBoundary(Utf8, Utf8, text, range.start);
    ConvertIsBoundary(Utf8, Utf8, text, range.end);
  }

  function Minus(a: nat, b: nat): nat {
    if a < b then 0 else a - b
  }

  /** What is put in place of the range: as much of the text as the limit leaves room for. */
  function Fitting(content: string, range: Range, text: string, maximumBytes: nat): string {
    Truncate(text, Minus(maximumBytes, Minus(Length(Utf8, content), Minus(range.end, range.start))))
  }

  function Replace(s: State, range: Range, text: string, maximumBytes: nat): (State, Range) {
    var r := Normalize(s.content, range);
    NormalizedIsSliceable(s.content, range);
    var fitting := Fitting(s.content, r, text, maximumBytes);
    var cursor := r.start + Length(Utf8, fitting);
    (State(Before(s.content, r.start) + fitting + From(s.content, r.end), Range(cursor, cursor), false, None),
     Range(r.start, cursor))
  }

  function FromUtf16(content: string, range: Range): Range {
    Range(Convert(Utf16, Utf8, content, range.start), Convert(Utf16, Utf8, content, range.end))
  }

  function ToUtf16(content: string, range: Range): Range {
    Range(Convert(Utf8, Utf16, content, range.start), Convert(Utf8, Utf16, content, range.end))
  }

  /** The platform's range if it names one, else the marked range, else the selection. */
  function Target(s: State, range16: Option<Range>): Range {
    if range16.Some? then FromUtf16(s.content, range16.value)
    else if s.marked.Some? then s.marked.value
    else s.selected
  }

  function ReplaceTextInRange(s: State, range16: Option<Range>, text: string, maximumBytes: nat): State {
    Replace(s, Target(s, range16), text, maximumBytes).0
  }

  function MarkedSelection(start: nat, inserted: string, selection16: Range): Range {
    var inner := FromUtf16(inserted, selection16);
    Range(start + inner.start, start + inner.end)
  }

  function ReplaceAndMark(
      s: State, range16: Option<Range>, text: string, selection16: Option<Range>, maximumBytes: nat): State
  {
    var (replaced, inserted) := Replace(s, Target(s, range16), text, maximumBytes);
    var fitting := Fitting(s.content, Normalize(s.content, Target(s, range16)), text, maximumBytes);
    var marked := if inserted.Empty() then replaced else replaced.(marked := Some(inserted));
    if selection16.None? then marked
    else marked.(selected := MarkedSelection(inserted.start, fitting, selection16.value))
  }

  /** `\n` and `\r` become spaces. */
  function SingleLine(text: string): (r: string)
    ensures |r| == |text| && forall i :: 0 <= i < |r| ==> r[i] != '\n' && r[i] != '\r'
    ensures forall i :: 0 <= i < |r| ==> r[i] == text[i] || (r[i] == ' ' && text[i] in "\n\r")
  {
    seq(|text|, i requires 0 <= i < |text| => if text[i] in "\n\r" then ' ' else text[i])
  }

  // -------------------------------------------------------------------- actions

  datatype Action =
    | SetText(text: string)
    | Left | Right | SelectLeft | SelectRight | SelectAll | Home | End
    | Backspace | Delete | Cut | ClearOrDismiss
    | Paste(clipboard: string)
    | ReplaceText(range16: Option<Range>, newText: string)
    | ReplaceTextAndMark(markRange16: Option<Range>, markText: string, selection16: Option<Range>)
    | Unmark

  function PreviousBoundary(s: State, graphemes: Graphemes, offset: nat): nat {
    Previous(graphemes(s.content), offset)
  }

  function NextBoundary(s: State, graphemes: Graphemes, offset: nat): nat {
    Following(graphemes(s.content), offset, Length(Utf8, s.content))
  }

  function BackspaceAt(s: State, graphemes: Graphemes, maximumBytes: nat): State {
    var extended := if s.selected.Empty() then SelectTo(s, PreviousBoundary(s, graphemes, Cursor(s))) else s;
    ReplaceTextInRange(extended, None, "", maximumBytes)
  }

  function DeleteAt(s: State, graphemes: Graphemes, maximumBytes: nat): State {
    var extended := if s.selected.Empty() then SelectTo(s, NextBoundary(s, graphemes, Cursor(s))) else s;
    ReplaceTextInRange(extended, None, "", maximumBytes)
  }

  function SetTo(s: State, text: string, maximumBytes: nat): State {
    var content := Truncate(text, maximumBytes);
    s.(content := content, selected := Range(Length(Utf8, content), Length(Utf8, content)), marked := None)
  }

  function Step(s: State, action: Action, graphemes: Graphemes, maximumBytes: nat): State {
    match action
    case SetText(text) => SetTo(s, text, maximumBytes)
    case Left =>
      MoveTo(s, if s.selected.Empty() then PreviousBoundary(s, graphemes, Cursor(s)) else s.selected.start)
    case Right =>
      MoveTo(s, if s.selected.Empty() then NextBoundary(s, graphemes, s.selected.end) else s.selected.end)
    case SelectLeft => SelectTo(s, PreviousBoundary(s, graphemes, Cursor(s)))
    case SelectRight => SelectTo(s, NextBoundary(s, graphemes, Cursor(s)))
    case SelectAll => SelectTo(MoveTo(s, 0), Length(Utf8, s.content))
    case Home => MoveTo(s, 0)
    case End => MoveTo(s, Length(Utf8, s.content))
    case Backspace => BackspaceAt(s, graphemes, maximumBytes)
    case Delete => DeleteAt(s, graphemes, maximumBytes)
    case Cut => if s.selected.Empty() then s else ReplaceTextInRange(s, None, "", maximumBytes)
    case ClearOrDismiss => if s.content == "" then s else EMPTY
    case Paste(clipboard) => ReplaceTextInRange(s, None, SingleLine(clipboard), maximumBytes)
    case ReplaceText(range16, text) => ReplaceTextInRange(s, range16, text, maximumBytes)
    case ReplaceTextAndMark(range16, text, selection16) => ReplaceAndMark(s, range16, text, selection16, maximumBytes)
    case Unmark => s.(marked := None)
  }

  // ------------------------------------------------------------------ invariant

  predicate OnBoundaries(content: string, range: Range) {
    && Floor(content, range.start) == range.start && Floor(content, range.end) == range.end
    && range.start <= Length(Utf8, content) && range.end <= Length(Utf8, content)
  }

  predicate Invariant(s: State, maximumBytes: nat) {
    && Length(Utf8, s.content) <= maximumBytes
    && OnBoundaries(s.content, s.selected)
    && (s.marked.Some? ==> s.marked.value.Ordered() && OnBoundaries(s.content, s.marked.value))
  }

  lemma FloorWithin(content: string, offset: nat)
    requires Floor(content, offset) == offset
    ensures offset <= Length(Utf8, content)
  {
    ConvertIsBoundary(Utf8, Utf8, content, offset);
  }

  lemma EndIsBoundary(content: string)
    ensures Floor(content, 0) == 0 && Floor(content, Length(Utf8, content)) == Length(Utf8, content)
  {
  }

  lemma BreaksAreBoundaries(s: State, graphemes: Graphemes, offset: nat)
    requires AtBoundaries(graphemes)
    ensures Floor(s.content, PreviousBoundary(s, graphemes, offset)) == PreviousBoundary(s, graphemes, offset)
    ensures Floor(s.content, NextBoundary(s, graphemes, offset)) == NextBoundary(s, graphemes, offset)
  {
    EndIsBoundary(s.content);
  }

  /** The parts of the content before and after a replaced range, and what came between them. */
  lemma ReplaceIsInPlace(s: State, range: Range, text: string, maximumBytes: nat)
    requires Length(Utf8, s.content) <= maximumBytes
    ensures var r := Normalize(s.content, range);
      var (replaced, inserted) := Replace(s, range, text, maximumBytes);
      var fitting := Fitting(s.content, r, text, maximumBytes);
      && Floor(s.content, r.start) == r.start && Floor(s.content, r.end) == r.end
      && replaced.content == Before(s.content, r.start) + fitting + From(s.content, r.end)
      && inserted == Range(r.start, r.start + Length(Utf8, fitting))
      && Length(Utf8, replaced.content) == Length(Utf8, s.content) - (r.end - r.start) + Length(Utf8, fitting)
      && Length(Utf8, replaced.content) <= maximumBytes
  {
    var r := Normalize(s.content, range);
    NormalizedIsSliceable(s.content, range);
    var fitting := Fitting(s.content, r, text, maximumBytes);
    SliceLengths(s.content, r.start);
    SliceLengths(s.content, r.end);
    LengthConcat(Utf8, Before(s.content, r.start), fitting);
    LengthConcat(Utf8, Before(s.content, r.start) + fitting, From(s.content, r.end));
    TruncateIsLongest(text, maximumBytes - (Length(Utf8, s.content) - (r.end - r.start)));
  }

  /** Offsets counted from the insertion point through a prefix of the inserted text are boundaries. */
  lemma BoundariesInside(before: string, inserted: string, after: string, k: nat)
    requires k <= |inserted|
    ensures var offset := Length(Utf8, before) + Length(Utf8, inserted[..k]);
      Floor(before + inserted + after, offset) == offset
  {
    assert before + inserted + after == (before + inserted[..k]) + (inserted[k..] + after);
    LengthConcat(Utf8, before, inserted[..k]);
    CutAfter(before + inserted[..k], inserted[k..] + after);
  }

  lemma ReplaceKeepsInvariant(s: State, range: Range, text: string, maximumBytes: nat)
    requires Invariant(s, maximumBytes)
    ensures var (replaced, inserted) := Replace(s, range, text, maximumBytes);
      && Invariant(replaced, maximumBytes)
      && inserted.Ordered() && OnBoundaries(replaced.content, inserted)
  {
    hide TextOffsets.Convert, TextOffsets.Before, TextOffsets.From, Fitting, Normalize;
    var r := Normalize(s.content, range);
    var fitting := Fitting(s.content, r, text, maximumBytes);
    ReplaceIsInPlace(s, range, text, maximumBytes);
    SliceLengths(s.content, r.start);
    assert fitting[..|fitting|] == fitting && fitting[..0] == "";
    BoundariesInside(Before(s.content, r.start), fitting, From(s.content, r.end), 0);
    BoundariesInside(Before(s.content, r.start), fitting, From(s.content, r.end), |fitting|);
    var replaced := Replace(s, range, text, maximumBytes).0;
    FloorWithin(replaced.content, r.start);
    FloorWithin(replaced.content, r.start + Length(Utf8, fitting));
  }

  lemma MarkedOffsetIsBoundary(before: string, inserted: string, after: string, offset16: nat)
    ensures var offset := Length(Utf8, before) + Convert(Utf16, Utf8, inserted, offset16);
      && Floor(before + inserted + after, offset) == offset
      && offset <= Length(Utf8, before + inserted + after)
  {
    hide TextOffsets.Convert, TextOffsets.Length, TextOffsets.CharsWithin;
    ConvertIsLength(Utf16, Utf8, inserted, offset16);
    BoundariesInside(before, inserted, after, CharsWithin(Utf16, inserted, offset16));
    FloorWithin(before + inserted + after, Length(Utf8, before) + Convert(Utf16, Utf8, inserted, offset16));
  }

  lemma ReplaceAndMarkKeepsInvariant(
      s: State, range16: Option<Range>, text: string, selection16: Option<Range>, maximumBytes: nat)
    requires Invariant(s, maximumBytes)
    ensures Invariant(ReplaceAndMark(s, range16, text, selection16, maximumBytes), maximumBytes)
  {
    hide TextOffsets.Convert, TextOffsets.Length, TextOffsets.Before, TextOffsets.From, Fitting, Normalize;
    var range := Target(s, range16);
    var r := Normalize(s.content, range);
    ReplaceKeepsInvariant(s, range, text, maximumBytes);
    ReplaceIsInPlace(s, range, text, maximumBytes);
    if selection16.Some? {
      SliceLengths(s.content, r.start);
      var before, after := Before(s.content, r.start), From(s.content, r.end);
      var fitting := Fitting(s.content, r, text, maximumBytes);
      MarkedOffsetIsBoundary(before, fitting, after, selection16.value.start);
      MarkedOffsetIsBoundary(before, fitting, after, selection16.value.end);
    }
  }

  lemma SetToKeepsInvariant(s: State, text: string, maximumBytes: nat)
    ensures Invariant(SetTo(s, text, maximumBytes), maximumBytes)
  {
    TruncateIsLongest(text, maximumBytes);
    EndIsBoundary(Truncate(text, maximumBytes));
  }

  /** Keys that move the cursor or extend the selection. */
  predicate Moves(action: Action) {
    action in {Left, Right, SelectLeft, SelectRight, SelectAll, Home, End}
  }

  lemma MovingKeepsInvariant(s: State, action: Action, graphemes: Graphemes, maximumBytes: nat)
    requires Invariant(s, maximumBytes) && AtBoundaries(graphemes) && Moves(action)
    ensures Invariant(Step(s, action, graphemes, maximumBytes), maximumBytes)
  {
    hide TextOffsets.Convert, TextOffsets.Length, PreviousBoundary, NextBoundary;
    BreaksAreBoundaries(s, graphemes, Cursor(s));
    BreaksAreBoundaries(s, graphemes, s.selected.end);
    EndIsBoundary(s.content);
    FloorWithin(s.content, PreviousBoundary(s, graphemes, Cursor(s)));
    FloorWithin(s.content, NextBoundary(s, graphemes, Cursor(s)));
    FloorWithin(s.content, NextBoundary(s, graphemes, s.selected.end));
  }

  /** Every edit keeps the content within its bytes and all ranges on character boundaries inside it. */
  lemma StepKeepsInvariant(s: State, action: Action, graphemes: Graphemes, maximumBytes: nat)
    requires Invariant(s, maximumBytes) && AtBoundaries(graphemes)
    ensures Invariant(Step(s, action, graphemes, maximumBytes), maximumBytes)
  {
    hide Invariant, Replace, ReplaceAndMark, SetTo, PreviousBoundary, NextBoundary, SelectTo;
    match action
    case SetText(text) => SetToKeepsInvariant(s, text, maximumBytes);
    case Backspace =>
      BackspaceKeepsInvariant(s, graphemes, maximumBytes);
    case Delete =>
      DeleteKeepsInvariant(s, graphemes, maximumBytes);
    case Cut => ReplaceKeepsInvariant(s, Target(s, None), "", maximumBytes);
    case Paste(clipboard) => ReplaceKeepsInvariant(s, Target(s, None), SingleLine(clipboard), maximumBytes);
    case ReplaceText(range16, text) => ReplaceKeepsInvariant(s, Target(s, range16), text, maximumBytes);
    case ReplaceTextAndMark(range16, text, selection16) =>
      ReplaceAndMarkKeepsInvariant(s, range16, text, selection16, maximumBytes);
    case ClearOrDismiss => EmptyHasInvariant(maximumBytes);
    case Unmark => UnmarkKeepsInvariant(s, maximumBytes);
    case _ => MovingKeepsInvariant(s, action, graphemes, maximumBytes);
  }

  lemma EmptyHasInvariant(maximumBytes: nat)
    ensures Invariant(EMPTY, maximumBytes)
  {
  }

  lemma UnmarkKeepsInvariant(s: State, maximumBytes: nat)
    requires Invariant(s, maximumBytes)
    ensures Invariant(s.(marked := None), maximumBytes)
  {
  }

  lemma BackspaceKeepsInvariant(s: State, graphemes: Graphemes, maximumBytes: nat)
    requires Invariant(s, maximumBytes) && AtBoundaries(graphemes)
    ensures Invariant(BackspaceAt(s, graphemes, maximumBytes), maximumBytes)
  {
    hide Invariant, Replace, PreviousBoundary;
    MovingKeepsInvariant(s, SelectLeft, graphemes, maximumBytes);
    var extended := if s.selected.Empty() then SelectTo(s, PreviousBoundary(s, graphemes, Cursor(s))) else s;
    ReplaceKeepsInvariant(extended, Target(extended, None), "", maximumBytes);
  }

  lemma DeleteKeepsInvariant(s: State, graphemes: Graphemes, maximumBytes: nat)
    requires Invariant(s, maximumBytes) && AtBoundaries(graphemes)
    ensures Invariant(DeleteAt(s, graphemes, maximumBytes), maximumBytes)
  {
    hide Invariant, Replace, NextBoundary;
    MovingKeepsInvariant(s, SelectRight, graphemes, maximumBytes);
    var extended := if s.selected.Empty() then SelectTo(s, NextBoundary(s, graphemes, Cursor(s))) else s;
    ReplaceKeepsInvariant(extended, Target(extended, None), "", maximumBytes);
  }

  lemma {:induction false} EveryRunKeepsInvariant(actions: seq<Action>, graphemes: Graphemes, maximumBytes: nat)
    requires AtBoundaries(graphemes)
    ensures Invariant(After((s: State, a: Action) => Step(s, a, graphemes, maximumBytes), EMPTY, actions), maximumBytes)
  {
    if actions != [] {
      var before := actions[..|actions| - 1];
      EveryRunKeepsInvariant(before, graphemes, maximumBytes);
      StepKeepsInvariant(
        After((s: State, a: Action) => Step(s, a, graphemes, maximumBytes), EMPTY, before),
        actions[|actions| - 1], graphemes, maximumBytes);
    } else {
      EmptyHasInvariant(maximumBytes);
    }
  }

  // ------------------------------------------------------------- ordered selections

  /**
   The platform's selection runs forwards, or backwards only within one character of the text that is put
   in: no character of that text ends between its two ends.
   */
  ghost predicate SelectsForwards(inserted: string, selection16: Range) {
    selection16.start <= selection16.end || !BoundaryBetween(Utf16, inserted, selection16.end, selection16.start)
  }

  /** What a step must be given to leave the selection's ends in order. */
  ghost predicate LeavesOrdered(s: State, action: Action, maximumBytes: nat) {
    match action
    case Unmark => s.selected.Ordered()
    case Cut => !s.selected.Empty() || s.selected.Ordered()
    case ClearOrDismiss => s.content != "" || s.selected.Ordered()
    case ReplaceTextAndMark(range16, text, selection16) =>
      selection16.Some? ==>
        SelectsForwards(
          Fitting(s.content, Normalize(s.content, Target(s, range16)), text, maximumBytes), selection16.value)
    case _ => true
  }

  /**
   The selection's ends are in order after a step exactly when the platform's own selection was forwards:
   only an input method that marks text and names ends that run backwards over the end of a character of
   that text puts them out of order, and only steps that leave the selection alone keep them so.
   */
  lemma OrderedIff(s: State, action: Action, graphemes: Graphemes, maximumBytes: nat)
    ensures Step(s, action, graphemes, maximumBytes).selected.Ordered() <==> LeavesOrdered(s, action, maximumBytes)
  {
    hide Fitting, Normalize, PreviousBoundary, NextBoundary, TextOffsets.Convert, TextOffsets.BoundaryBetween;
    if action.ReplaceTextAndMark? && action.selection16.Some? {
      var fitting := Fitting(
        s.content, Normalize(s.content, Target(s, action.markRange16)), action.markText, maximumBytes);
      ConvertKeepsOrderIff(Utf16, Utf8, fitting, action.selection16.value.start, action.selection16.value.end);
    }
  }

  lemma TwoLettersFit()
    ensures Fitting("", Range(0, 0), "ab", 8) == "ab" && Normalize("", Range(0, 0)) == Range(0, 0)
    ensures Before("", 0) == From("", 0) == ""
    ensures FromUtf16("ab", Range(2, 1)) == Range(2, 1)
  {
  }

  /** One that runs backwards is not: marking "ab" with the selection 2..1 selects 2..1. */
  lemma BackwardSelectionIsKeptBackward(graphemes: Graphemes)
    ensures var s := Step(EMPTY, ReplaceTextAndMark(None, "ab", Some(Range(2, 1))), graphemes, 8);
      s.content == "ab" && s.selected == Range(2, 1)
  {
    hide Fitting, Normalize, FromUtf16, TextOffsets.Before, TextOffsets.From;
    TwoLettersFit();
    assert "" + "ab" + "" == "ab";
  }

  /** Forwards is all it takes: if every selection the platform names runs forwards, all stay in order. */
  lemma {:induction false} ForwardRunsStayOrdered(actions: seq<Action>, graphemes: Graphemes, maximumBytes: nat)
    requires forall a :: a in actions && a.ReplaceTextAndMark? && a.selection16.Some? ==> a.selection16.value.Ordered()
    ensures After((s: State, a: Action) => Step(s, a, graphemes, maximumBytes), EMPTY, actions).selected.Ordered()
  {
    hide Fitting, Normalize;
    if actions != [] {
      var before, last := actions[..|actions| - 1], actions[|actions| - 1];
      assert last in actions && forall a :: a in before ==> a in actions;
      ForwardRunsStayOrdered(before, graphemes, maximumBytes);
      var s := After((s: State, a: Action) => Step(s, a, graphemes, maximumBytes), EMPTY, before);
      OrderedIff(s, last, graphemes, maximumBytes);
    }
  }

  // ------------------------------------------------------------------ what edits do

  /** The text inside a range. */
  function Between(text: string, range: Range): string {
    var i, j := CharsWithin(Utf8, text, range.start), CharsWithin(Utf8, text, range.end);
    if i <= j then text[i..j] else ""
  }

  lemma ContentInThree(text: string, r: Range)
    requires Floor(text, r.start) == r.start && Floor(text, r.end) == r.end && r.Ordered()
    ensures text == Before(text, r.start) + Between(text, r) + From(text, r.end)
    ensures Length(Utf8, Between(text, r)) == r.end - r.start
  {
    hide TextOffsets.Convert, TextOffsets.CharsWithin;
    var i, j := CharsWithin(Utf8, text, r.start), CharsWithin(Utf8, text, r.end);
    ConvertIsLength(Utf8, Utf8, text, r.start);
    ConvertIsLength(Utf8, Utf8, text, r.end);
    if j < i { PrefixGrows(Utf8, text, j, i); }
    assert text[..j] == text[..i] + text[i..j];
    LengthConcat(Utf8, text[..i], text[i..j]);
  }

  /** A text made of three parts is cut around the middle one. */
  lemma CutAround(before: string, middle: string, after: string)
    ensures var text, r := before + middle + after,
        Range(Length(Utf8, before), Length(Utf8, before) + Length(Utf8, middle));
      && Floor(text, r.start) == r.start && Floor(text, r.end) == r.end && Normalize(text, r) == r
      && Before(text, r.start) == before && From(text, r.end) == after
  {
    hide TextOffsets.Convert, TextOffsets.CharsWithin, TextOffsets.Length, TextOffsets.Before, TextOffsets.From;
    JoinAssociates(before, middle, after);
    LengthConcat(Utf8, before, middle);
    CutAfter(before, middle + after);
    CutAfter(before + middle, after);
  }

  lemma JoinAssociates(a: string, b: string, c: string)
    ensures a + b + c == a + (b + c)
  {
  }

  /** What the platform is told of a selection or a marked range reads back as that range. */
  lemma ReportedRangesReadBack(content: string, range: Range)
    requires OnBoundaries(content, range)
    ensures FromUtf16(content, ToUtf16(content, range)) == range
  {
    ConvertCompose(Utf8, Utf16, Utf8, content, range.start);
    ConvertCompose(Utf8, Utf16, Utf8, content, range.end);
  }

  /** The range a replacement reports holds exactly the text that was put in. */
  lemma InsertedTextIsFitting(s: State, range: Range, text: string, maximumBytes: nat)
    ensures var (replaced, inserted) := Replace(s, range, text, maximumBytes);
      Between(replaced.content, inserted) == Fitting(s.content, Normalize(s.content, range), text, maximumBytes)
  {
    hide TextOffsets.Convert, TextOffsets.CharsWithin, TextOffsets.Before, TextOffsets.From, Normalize, Fitting,
      Between, TextOffsets.Length;
    var r := Normalize(s.content, range);
    NormalizedIsSliceable(s.content, range);
    var before, after := Before(s.content, r.start), From(s.content, r.end);
    var middle := Fitting(s.content, r, text, maximumBytes);
    SliceLengths(s.content, r.start);
    CutAround(before, middle, after);
    ContentInThree(before + middle + after, Range(Length(Utf8, before), Length(Utf8, before) + Length(Utf8, middle)));
    MiddleIsUnique(before, middle, Between(before + middle + after, Replace(s, range, text, maximumBytes).1), after);
  }

  lemma MiddleIsUnique(before: string, a: string, b: string, after: string)
    requires before + a + after == before + b + after
    ensures a == b
  {
    assert |a| == |b|;
    assert a == (before + a + after)[|before|..|before| + |a|];
    assert b == (before + b + after)[|before|..|before| + |b|];
  }

  /** Putting the replaced text back where its replacement is restores the content. */
  lemma ReplaceIsUndoneByReplace(s: State, range: Range, text: string, maximumBytes: nat)
    requires Length(Utf8, s.content) <= maximumBytes
    ensures var (replaced, inserted) := Replace(s, range, text, maximumBytes);
      Replace(replaced, inserted, Between(s.content, Normalize(s.content, range)), maximumBytes).0.content == s.content
  {
    hide TextOffsets.Convert, TextOffsets.CharsWithin, Fitting, TextOffsets.Before, TextOffsets.From, Normalize,
      Between, TextOffsets.Length;
    var r := Normalize(s.content, range);
    NormalizedIsSliceable(s.content, range);
    ReplaceIsInPlace(s, range, text, maximumBytes);
    var (replaced, inserted) := Replace(s, range, text, maximumBytes);
    ContentInThree(s.content, r);
    SliceLengths(s.content, r.start);
    CutAround(Before(s.content, r.start), Fitting(s.content, r, text, maximumBytes), From(s.content, r.end));
    RemovedTextFits(s, r, Between(s.content, r), replaced, inserted, maximumBytes);
  }

  lemma RemovedTextFits(
      s: State, r: Range, removed: string, replaced: State, inserted: Range, maximumBytes: nat)
    requires Length(Utf8, s.content) <= maximumBytes && r.start <= r.end && inserted.start <= inserted.end
    requires Length(Utf8, removed) == r.end - r.start <= Length(Utf8, s.content)
    requires Length(Utf8, replaced.content) - (inserted.end - inserted.start) == Length(Utf8, s.content) - (r.end - r.start)
    ensures Fitting(replaced.content, inserted, removed, maximumBytes) == removed
  {
    TruncateIsLongest(removed, maximumBytes - (Length(Utf8, s.content) - (r.end - r.start)));
  }

  /** Replacing what was just put in is the same as having put in the new text at once. */
  lemma ReplacingTheInserted(s: State, range: Range, first: string, second: string, maximumBytes: nat)
    ensures var r := Normalize(s.content, range);
      var (replaced, inserted) := Replace(s, range, first, maximumBytes);
      && Normalize(replaced.content, inserted) == inserted
      && Fitting(replaced.content, inserted, second, maximumBytes) == Fitting(s.content, r, second, maximumBytes)
      && Replace(replaced, inserted, second, maximumBytes) == Replace(s, range, second, maximumBytes)
  {
    hide TextOffsets.Convert, TextOffsets.CharsWithin, TextOffsets.Before, TextOffsets.From, Normalize,
      TextOffsets.Length, TextOffsets.Truncate;
    var r := Normalize(s.content, range);
    NormalizedIsSliceable(s.content, range);
    var before, after := Before(s.content, r.start), From(s.content, r.end);
    var fitting := Fitting(s.content, r, first, maximumBytes);
    SliceLengths(s.content, r.start);
    SliceLengths(s.content, r.end);
    CutAround(before, fitting, after);
    LengthConcat(Utf8, before, fitting);
    LengthConcat(Utf8, before + fitting, after);
  }

  /**
   Composing with an input method: marking a second text over a first one leaves exactly what marking the
   second alone would have left.
   */
  lemma ComposingAgainReplacesTheComposition(
      s: State, range16: Option<Range>, first: string, firstSelection: Option<Range>,
      second: string, secondSelection: Option<Range>, maximumBytes: nat)
    ensures var composing := ReplaceAndMark(s, range16, first, firstSelection, maximumBytes);
      composing.marked.Some? ==>
        ReplaceAndMark(composing, None, second, secondSelection, maximumBytes)
          == ReplaceAndMark(s, range16, second, secondSelection, maximumBytes)
  {
    hide Replace, Fitting, Normalize, MarkedSelection;
    var target := Target(s, range16);
    var (replaced, inserted) := Replace(s, target, first, maximumBytes);
    ReplacingTheInserted(s, target, first, second, maximumBytes);
    var composing := ReplaceAndMark(s, range16, first, firstSelection, maximumBytes);
    ReplaceReadsContentOnly(replaced, composing, inserted, second, maximumBytes);
    ReplaceUnmarks(s, target, first, maximumBytes);
  }

  lemma ReplaceReadsContentOnly(a: State, b: State, range: Range, text: string, maximumBytes: nat)
    requires a.content == b.content
    ensures Replace(a, range, text, maximumBytes) == Replace(b, range, text, maximumBytes)
  {
  }

  lemma ReplaceUnmarks(s: State, range: Range, text: string, maximumBytes: nat)
    ensures Replace(s, range, text, maximumBytes).0.marked.None?
  {
  }

  /** Replacing by nothing takes the range out and leaves the rest. */
  lemma ReplaceByNothing(s: State, range: Range, maximumBytes: nat)
    ensures var r := Normalize(s.content, range);
      && Floor(s.content, r.start) == r.start && Floor(s.content, r.end) == r.end
      && Replace(s, range, "", maximumBytes).0
        == State(Before(s.content, r.start) + From(s.content, r.end), Range(r.start, r.start), false, None)
  {
    var r := Normalize(s.content, range);
    NormalizedIsSliceable(s.content, range);
    assert Fitting(s.content, r, "", maximumBytes) == "";
    assert Before(s.content, r.start) + "" == Before(s.content, r.start);
  }

  /** Backspace without a selection takes out the grapheme before the cursor; delete the one after it. */
  lemma BackspaceAndDeleteTakeOneGrapheme(s: State, graphemes: Graphemes, maximumBytes: nat)
    requires Invariant(s, maximumBytes) && AtBoundaries(graphemes)
    requires s.marked.None? && s.selected.start == s.selected.end
    ensures var cursor := s.selected.start;
      var previous, next := PreviousBoundary(s, graphemes, cursor), NextBoundary(s, graphemes, cursor);
      && Floor(s.content, cursor) == cursor && Floor(s.content, previous) == previous && Floor(s.content, next) == next
      && previous <= cursor <= next
      && BackspaceAt(s, graphemes, maximumBytes)
        == State(Before(s.content, previous) + From(s.content, cursor), Range(previous, previous), false, None)
      && DeleteAt(s, graphemes, maximumBytes)
        == State(Before(s.content, cursor) + From(s.content, next), Range(cursor, cursor), false, None)
  {
    hide TextOffsets.Convert, Replace, TextOffsets.Before, TextOffsets.From;
    var cursor := s.selected.start;
    BreaksAreBoundaries(s, graphemes, cursor);
    ReplaceByNothing(SelectTo(s, PreviousBoundary(s, graphemes, cursor)),
                     Range(PreviousBoundary(s, graphemes, cursor), cursor), maximumBytes);
    ReplaceByNothing(SelectTo(s, NextBoundary(s, graphemes, cursor)),
                     Range(cursor, NextBoundary(s, graphemes, cursor)), maximumBytes);
  }

  // ------------------------------------------------------------------ arrow keys

  /** Breaks come in order, the first at the start of the text and none at its end. */
  predicate AreBreaks(breaks: seq<nat>, length: nat) {
    && (forall i, j :: 0 <= i < j < |breaks| ==> breaks[i] < breaks[j])
    && (length != 0 ==> breaks != [] && breaks[0] == 0)
    && (forall i :: 0 <= i < |breaks| ==> breaks[i] < length)
  }

  lemma {:induction false} PreviousIsGreatest(breaks: seq<nat>, offset: nat)
    requires forall i, j :: 0 <= i < j < |breaks| ==> breaks[i] < breaks[j]
    ensures forall b :: b in breaks && b < offset ==> b <= Previous(breaks, offset)
  {
    if breaks != [] {
      var front, last := breaks[..|breaks| - 1], breaks[|breaks| - 1];
      assert breaks == front + [last];
      PreviousIsGreatest(front, offset);
    }
  }

  lemma {:induction false} FollowingIsLeast(breaks: seq<nat>, offset: nat, length: nat)
    requires forall i, j :: 0 <= i < j < |breaks| ==> breaks[i] < breaks[j]
    requires forall i :: 0 <= i < |breaks| ==> breaks[i] < length
    ensures forall b :: b in breaks && offset < b ==> Following(breaks, offset, length) <= b
    ensures Following(breaks, offset, length) <= length
    ensures Following(breaks, offset, length) < length ==> offset < Following(breaks, offset, length)
  {
    if breaks != [] {
      assert breaks == [breaks[0]] + breaks[1..];
      FollowingIsLeast(breaks[1..], offset, length);
    }
  }

  /** The arrow keys undo each other at every cursor where a grapheme starts or, going left, the text ends. */
  lemma ArrowKeysUndoEachOther(s: State, graphemes: Graphemes, maximumBytes: nat)
    requires s.selected.start == s.selected.end
    requires AreBreaks(graphemes(s.content), Length(Utf8, s.content))
    ensures var cursor := s.selected.start;
      var rightLeft := Step(Step(s, Right, graphemes, maximumBytes), Left, graphemes, maximumBytes);
      var leftRight := Step(Step(s, Left, graphemes, maximumBytes), Right, graphemes, maximumBytes);
      && (cursor in graphemes(s.content) ==> rightLeft == MoveTo(s, cursor))
      && (0 < cursor && (cursor in graphemes(s.content) || cursor == Length(Utf8, s.content)) ==>
        leftRight == MoveTo(s, cursor))
  {
    hide Previous, Following;
    FollowingAndPreviousMeet(graphemes(s.content), s.selected.start, Length(Utf8, s.content));
  }

  lemma FollowingAndPreviousMeet(breaks: seq<nat>, cursor: nat, length: nat)
    requires AreBreaks(breaks, length)
    ensures cursor in breaks ==> Previous(breaks, Following(breaks, cursor, length)) == cursor
    ensures 0 < cursor && (cursor in breaks || cursor == length) ==>
      Following(breaks, Previous(breaks, cursor), length) == cursor
  {
    hide Previous, Following;
    var next, previous := Following(breaks, cursor, length), Previous(breaks, cursor);
    FollowingIsLeast(breaks, cursor, length);
    PreviousIsGreatest(breaks, next);
    PreviousIsGreatest(breaks, cursor);
    FollowingIsLeast(breaks, previous, length);
  }
}
