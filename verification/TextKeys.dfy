/** What a user sees of every key and of every call of the input method. */
module TextKeys {
  import opened Options
  import opened TextEditing
  import opened TextOffsets

  // ---------------------------------------------------------------- moving

  /** `p` is the last break before the offset, or the start. */
  ghost predicate IsPrevious(breaks: seq<nat>, offset: nat, p: nat) {
    && (p == 0 || p in breaks) && p <= offset && (0 < offset ==> p < offset)
    && forall b :: b in breaks && b < offset ==> b <= p
  }

  /** `n` is the first break after the offset, or the end. */
  ghost predicate IsNext(breaks: seq<nat>, length: nat, offset: nat, n: nat) {
    && (n == length || n in breaks) && n <= length && (offset < length ==> offset < n)
    && forall b :: b in breaks && offset < b ==> n <= b
  }

  /** Only the selection differs. */
  predicate OnlyMoved(after: State, before: State) {
    after.content == before.content && after.marked == before.marked
  }

  predicate CursorAlone(s: State, offset: nat) {
    s.selected == Range(offset, offset) && !s.reversed
  }

  /** The arrow keys collapse a selection to its end on that side, and otherwise go one grapheme on. */
  lemma ArrowsMoveTheCursor(s: State, graphemes: Graphemes, maximumBytes: nat)
    requires AreBreaks(graphemes(s.content), Length(Utf8, s.content))
    ensures var left := Step(s, Left, graphemes, maximumBytes);
      && OnlyMoved(left, s) && CursorAlone(left, Cursor(left))
      && (s.selected.start < s.selected.end ==> Cursor(left) == s.selected.start)
      && (s.selected.end <= s.selected.start ==> IsPrevious(graphemes(s.content), Cursor(s), Cursor(left)))
    ensures var right := Step(s, Right, graphemes, maximumBytes);
      && OnlyMoved(right, s) && CursorAlone(right, Cursor(right))
      && (s.selected.start < s.selected.end ==> Cursor(right) == s.selected.end)
      && (s.selected.end <= s.selected.start ==>
            IsNext(graphemes(s.content), Length(Utf8, s.content), s.selected.end, Cursor(right)))
  {
    PreviousIsGreatest(graphemes(s.content), Cursor(s));
    FollowingIsLeast(graphemes(s.content), s.selected.end, Length(Utf8, s.content));
  }

  /** With shift they move the cursor alone, and the other end of the selection stays. */
  lemma ShiftedArrowsMoveOneEnd(s: State, graphemes: Graphemes, maximumBytes: nat)
    requires AreBreaks(graphemes(s.content), Length(Utf8, s.content))
    ensures var left := Step(s, SelectLeft, graphemes, maximumBytes);
      && OnlyMoved(left, s) && Anchor(left) == Anchor(s)
      && IsPrevious(graphemes(s.content), Cursor(s), Cursor(left))
    ensures var right := Step(s, SelectRight, graphemes, maximumBytes);
      && OnlyMoved(right, s) && Anchor(right) == Anchor(s)
      && IsNext(graphemes(s.content), Length(Utf8, s.content), Cursor(s), Cursor(right))
  {
    hide SelectTo, Previous, Following, TextOffsets.Length;
    PreviousIsGreatest(graphemes(s.content), Cursor(s));
    FollowingIsLeast(graphemes(s.content), Cursor(s), Length(Utf8, s.content));
    SelectToMovesTheCursor(s, PreviousBoundary(s, graphemes, Cursor(s)));
    SelectToMovesTheCursor(s, NextBoundary(s, graphemes, Cursor(s)));
  }

  lemma HomeEndAndSelectAll(s: State, graphemes: Graphemes, maximumBytes: nat)
    ensures OnlyMoved(Step(s, Home, graphemes, maximumBytes), s) && CursorAlone(Step(s, Home, graphemes, maximumBytes), 0)
    ensures OnlyMoved(Step(s, End, graphemes, maximumBytes), s)
    ensures CursorAlone(Step(s, End, graphemes, maximumBytes), Length(Utf8, s.content))
    ensures var all := Step(s, SelectAll, graphemes, maximumBytes);
      OnlyMoved(all, s) && all.selected == Range(0, Length(Utf8, s.content)) && !all.reversed
  {
  }

  // ---------------------------------------------------------------- editing

  /** As much of `text` as the bytes left over allow: all of it, or up to the first character that does not fit. */
  ghost predicate FitsAsMuch(fitting: string, text: string, room: int) {
    && fitting <= text && Length(Utf8, fitting) <= room
    && (|fitting| < |text| ==> room < Length(Utf8, text[..|fitting| + 1]))
  }

  /** `after` has `put` where `before` had the range, and the cursor behind it. */
  ghost predicate PutsInPlace(after: State, before: State, range: Range, put: string) {
    && Floor(before.content, range.start) == range.start && Floor(before.content, range.end) == range.end
    && after.content == Before(before.content, range.start) + put + From(before.content, range.end)
    && CursorAlone(after, range.start + Length(Utf8, put)) && after.marked.None?
  }

  /** What of the text is put in place of the range. */
  ghost predicate IsPut(after: State, before: State, range: Range, text: string, maximumBytes: nat, put: string) {
    && PutsInPlace(after, before, range, put)
    && FitsAsMuch(put, text, maximumBytes - (Length(Utf8, before.content) - (range.end - range.start)))
  }

  lemma ReplacingPutsInPlace(s: State, range: Range, text: string, maximumBytes: nat)
    requires Length(Utf8, s.content) <= maximumBytes && OnBoundaries(s.content, range) && range.Ordered()
    ensures Normalize(s.content, range) == range
    ensures var (after, inserted) := Replace(s, range, text, maximumBytes);
      var put := Fitting(s.content, range, text, maximumBytes);
      IsPut(after, s, range, text, maximumBytes, put) && inserted == Range(range.start, range.start + Length(Utf8, put))
  {
    hide TextOffsets.Convert, TextOffsets.Before, TextOffsets.From, TextOffsets.Length, TextOffsets.CharsWithin;
    CharsWithinIsGreatest(Utf8, text, maximumBytes - (Length(Utf8, s.content) - (range.end - range.start)));
  }

  /** Where an edit goes that the platform names no range for. */
  predicate EditsAt(s: State, range: Range) {
    range == if s.marked.Some? then s.marked.value else s.selected
  }

  /** Typing puts what fits in place of the marked text or the selection. */
  lemma TypingReplacesTheSelection(
      s: State, text: string, range: Range, graphemes: Graphemes, maximumBytes: nat)
    requires Invariant(s, maximumBytes) && EditsAt(s, range) && range.Ordered()
    ensures var r := Step(s, ReplaceText(None, text), graphemes, maximumBytes);
      exists put :: IsPut(r, s, range, text, maximumBytes, put)
  {
    ReplacingPutsInPlace(s, range, text, maximumBytes);
    var r, put := Step(s, ReplaceText(None, text), graphemes, maximumBytes), Fitting(s.content, range, text, maximumBytes);
    assert IsPut(r, s, range, text, maximumBytes, put);
  }

  /** The same text, but blanks for line breaks. */
  predicate OnOneLine(line: string, text: string) {
    |line| == |text| && forall i :: 0 <= i < |text| ==>
      if text[i] == '\n' || text[i] == '\r' then line[i] == ' ' else line[i] == text[i]
  }

  /** Pasting types the text on one line. */
  lemma PastingTypesOneLine(s: State, clipboard: string, line: string, graphemes: Graphemes, maximumBytes: nat)
    requires OnOneLine(line, clipboard)
    ensures Step(s, Paste(clipboard), graphemes, maximumBytes)
      == Step(s, ReplaceText(None, line), graphemes, maximumBytes)
  {
    assert line == SingleLine(clipboard);
  }

  /** A range named by the platform, in UTF-16 units, is the one that is replaced. */
  lemma PlatformRangesAreReplaced(
      s: State, units: Range, range: Range, text: string, graphemes: Graphemes, maximumBytes: nat)
    requires Invariant(s, maximumBytes) && range.Ordered() && OnBoundaries(s.content, range)
    requires units.start == |Encode16(Before(s.content, range.start))|
    requires units.end == |Encode16(Before(s.content, range.end))|
    ensures var r := Step(s, ReplaceText(Some(units), text), graphemes, maximumBytes);
      exists put :: IsPut(r, s, range, text, maximumBytes, put)
  {
    UnitsBeforeReadBack(s.content, range.start);
    UnitsBeforeReadBack(s.content, range.end);
    ReplacingPutsInPlace(s, range, text, maximumBytes);
    var put := Fitting(s.content, range, text, maximumBytes);
    assert IsPut(Step(s, ReplaceText(Some(units), text), graphemes, maximumBytes), s, range, text, maximumBytes, put);
  }

  lemma UnitsBeforeReadBack(text: string, offset: nat)
    requires Floor(text, offset) == offset
    ensures Convert(Utf16, Utf8, text, |Encode16(Before(text, offset))|) == offset
  {
    var k := CharsWithin(Utf8, text, offset);
    ConvertExactAt(Utf16, Utf8, text, k);
    ConvertIsLength(Utf8, Utf8, text, offset);
  }

  /** Cutting takes the selection out; without one it does nothing. */
  lemma CuttingTakesTheSelection(s: State, graphemes: Graphemes, maximumBytes: nat)
    requires Invariant(s, maximumBytes) && s.marked.None? && s.selected.Ordered()
    ensures var r := Step(s, TextEditing.Cut, graphemes, maximumBytes);
      if s.selected.start == s.selected.end then r == s else PutsInPlace(r, s, s.selected, "")
  {
    if s.selected.start != s.selected.end {
      ReplacingPutsInPlace(s, s.selected, "", maximumBytes);
    }
  }

  /** Setting the text cuts it to the limit and goes to its end; clearing empties the field. */
  lemma SettingAndClearing(s: State, text: string, graphemes: Graphemes, maximumBytes: nat)
    ensures var set_ := Step(s, SetText(text), graphemes, maximumBytes);
      && FitsAsMuch(set_.content, text, maximumBytes)
      && set_.selected == Range(Length(Utf8, set_.content), Length(Utf8, set_.content)) && set_.marked.None?
    ensures var cleared := Step(s, ClearOrDismiss, graphemes, maximumBytes);
      cleared.content == "" && (s.content != "" ==> cleared == State("", Range(0, 0), false, None))
    ensures s.content == "" ==> Step(s, ClearOrDismiss, graphemes, maximumBytes) == s
  {
    CharsWithinIsGreatest(Utf8, text, maximumBytes);
  }

  /**
   Composing: what fits goes in place of the marked text or the selection and is marked, unless nothing
   fits; the cursor is behind it, or selects what the platform names within it.
   */
  lemma ComposingMarksWhatItPuts(
      s: State, text: string, selection16: Option<Range>, range: Range, graphemes: Graphemes, maximumBytes: nat)
    requires Invariant(s, maximumBytes) && EditsAt(s, range) && range.Ordered()
    ensures var r := Step(s, ReplaceTextAndMark(None, text, selection16), graphemes, maximumBytes);
      exists put :: IsComposed(r, s, range, text, selection16, maximumBytes, put)
  {
    hide TextOffsets.Convert, Fitting, Normalize, IsPut;
    ReplacingPutsInPlace(s, range, text, maximumBytes);
    var put := Fitting(s.content, range, text, maximumBytes);
    var r := Step(s, ReplaceTextAndMark(None, text, selection16), graphemes, maximumBytes);
    LengthIsZeroIff(put);
    assert IsComposed(r, s, range, text, selection16, maximumBytes, put);
  }

  lemma LengthIsZeroIff(text: string)
    ensures Length(Utf8, text) == 0 <==> text == ""
  {
  }

  /** The text is put in and marked, and the selection is behind it or where the platform names it within it. */
  ghost predicate IsComposed(
    after: State, before: State, range: Range, text: string, selection16: Option<Range>, maximumBytes: nat, put: string)
  {
    var end := range.start + Length(Utf8, put);
    && IsPut(State(after.content, Range(end, end), after.reversed, None), before, range, text, maximumBytes, put)
    && after.marked == (if put == "" then None else Some(Range(range.start, end)))
    && (selection16.None? ==> CursorAlone(after, end))
    && (selection16.Some? ==>
          && after.selected.start == range.start + Convert(Utf16, Utf8, put, selection16.value.start)
          && after.selected.end == range.start + Convert(Utf16, Utf8, put, selection16.value.end))
  }
}
