/** The text field itself, updating its content, selection and marked range in place. */
module TextInput {
  import opened Options
  import opened TextOffsets
  import Editing = TextEditing

  type Range = Editing.Range

  /** `normalize_range`. */
  method NormalizeRange(value: string, range: Range) returns (r: Range)
    ensures r == Editing.Normalize(value, range)
  {
    var start := FloorCharBoundary(value, range.start);
    var end := FloorCharBoundary(value, range.end);
    r := Editing.Range(start, if end < start then start else end);
  }

  /** `marked_selection`. */
  method MarkedSelection(insertedStart: nat, insertedText: string, selection16: Range) returns (r: Range)
    ensures r == Editing.MarkedSelection(insertedStart, insertedText, selection16)
  {
    var start := OffsetFromUtf16(insertedText, selection16.start);
    var end := OffsetFromUtf16(insertedText, selection16.end);
    r := Editing.Range(insertedStart + start, insertedStart + end);
  }

  class TextInput {
    var content: string
    var selected: Range
    var reversed: bool
    var marked: Option<Range>
    const maximumBytes: nat
    const graphemes: Editing.Graphemes

    function View(): Editing.State
      reads this
    {
      Editing.State(content, selected, reversed, marked)
    }

    constructor (maximumBytes: nat, graphemes: Editing.Graphemes)
      ensures View() == Editing.EMPTY
      ensures this.maximumBytes == maximumBytes && this.graphemes == graphemes
    {
      this.maximumBytes := maximumBytes;
      this.graphemes := graphemes;
      content := "";
      selected := Editing.Range(0, 0);
      reversed := false;
      marked := None;
    }

    method SetText(value: string)
      modifies this
      ensures View() == Editing.Step(old(View()), Editing.SetText(value), graphemes, maximumBytes)
    {
      content := TruncateBoundary(value, maximumBytes);
      selected := Editing.Range(Length(Utf8, content), Length(Utf8, content));
      marked := None;
    }

    // ---------------------------------------------------------------- moving

    method MoveTo(offset: nat)
      modifies this
      ensures View() == Editing.MoveTo(old(View()), offset)
    {
      selected := Editing.Range(offset, offset);
      reversed := false;
    }

    method SelectTo(offset: nat)
      modifies this
      ensures View() == Editing.SelectTo(old(View()), offset)
    {
      if reversed {
        selected := selected.(start := offset);
      } else {
        selected := selected.(end := offset);
      }
      if selected.end < selected.start {
        reversed := !reversed;
        selected := Editing.Range(selected.end, selected.start);
      }
    }

    method CursorOffset() returns (offset: nat)
      ensures offset == Editing.Cursor(View())
    {
      offset := if reversed then selected.start else selected.end;
    }

    /** Searches the breaks from the last to the first. */
    method PreviousBoundary(offset: nat) returns (r: nat)
      ensures r == Editing.PreviousBoundary(View(), graphemes, offset)
    {
      var breaks := graphemes(content);
      var i := |breaks|;
      assert breaks[..i] == breaks;
      while 0 < i
        invariant 0 <= i <= |breaks|
        invariant Editing.Previous(breaks[..i], offset) == Editing.Previous(breaks, offset)
      {
        if breaks[i - 1] < offset {
          return breaks[i - 1];
        }
        assert breaks[..i][..i - 1] == breaks[..i - 1];
        i := i - 1;
      }
      r := 0;
    }

    method NextBoundary(offset: nat) returns (r: nat)
      ensures r == Editing.NextBoundary(View(), graphemes, offset)
    {
      var breaks := graphemes(content);
      assert breaks[0..] == breaks;
      for i := 0 to |breaks|
        invariant Editing.Following(breaks[i..], offset, Length(Utf8, content))
          == Editing.Following(breaks, offset, Length(Utf8, content))
      {
        if offset < breaks[i] {
          return breaks[i];
        }
        assert breaks[i..][1..] == breaks[i + 1..];
      }
      r := Length(Utf8, content);
    }

    method Left()
      modifies this
      ensures View() == Editing.Step(old(View()), Editing.Left, graphemes, maximumBytes)
    {
      if selected.Empty() {
        var cursor := CursorOffset();
        var target := PreviousBoundary(cursor);
        MoveTo(target);
      } else {
        MoveTo(selected.start);
      }
    }

    method Right()
      modifies this
      ensures View() == Editing.Step(old(View()), Editing.Right, graphemes, maximumBytes)
    {
      if selected.Empty() {
        var target := NextBoundary(selected.end);
        MoveTo(target);
      } else {
        MoveTo(selected.end);
      }
    }

    method SelectLeft()
      modifies this
      ensures View() == Editing.Step(old(View()), Editing.SelectLeft, graphemes, maximumBytes)
    {
      var cursor := CursorOffset();
      var target := PreviousBoundary(cursor);
      SelectTo(target);
    }

    method SelectRight()
      modifies this
      ensures View() == Editing.Step(old(View()), Editing.SelectRight, graphemes, maximumBytes)
    {
      var cursor := CursorOffset();
      var target := NextBoundary(cursor);
      SelectTo(target);
    }

    method SelectAll()
      modifies this
      ensures View() == Editing.Step(old(View()), Editing.SelectAll, graphemes, maximumBytes)
    {
      MoveTo(0);
      SelectTo(Length(Utf8, content));
    }

    method Home()
      modifies this
      ensures View() == Editing.Step(old(View()), Editing.Home, graphemes, maximumBytes)
    {
      MoveTo(0);
    }

    method End()
      modifies this
      ensures View() == Editing.Step(old(View()), Editing.End, graphemes, maximumBytes)
    {
      MoveTo(Length(Utf8, content));
    }

    // --------------------------------------------------------------- editing

    method Replace(target: Range, newText: string) returns (inserted: Range)
      modifies this
      ensures (View(), inserted) == Editing.Replace(old(View()), target, newText, maximumBytes)
    {
      hide TextOffsets.Truncate, TextOffsets.Before, TextOffsets.From, TextOffsets.Convert;
      var range := NormalizeRange(content, target);
      Editing.NormalizedIsSliceable(content, target);
      var available := Editing.Minus(maximumBytes, Editing.Minus(Length(Utf8, content), range.end - range.start));
      var text := TruncateBoundary(newText, available);
      var cursor := range.start + Length(Utf8, text);
      content := Before(content, range.start) + text + From(content, range.end);
      selected := Editing.Range(cursor, cursor);
      reversed := false;
      marked := None;
      inserted := Editing.Range(range.start, cursor);
    }

    method TargetRange(range16: Option<Range>) returns (target: Range)
      ensures target == Editing.Target(View(), range16)
    {
      if range16.Some? {
        var start := OffsetFromUtf16(content, range16.value.start);
        var end := OffsetFromUtf16(content, range16.value.end);
        target := Editing.Range(start, end);
      } else if marked.Some? {
        target := marked.value;
      } else {
        target := selected;
      }
    }

    method ReplaceTextInRange(range16: Option<Range>, newText: string)
      modifies this
      ensures View() == Editing.Step(old(View()), Editing.ReplaceText(range16, newText), graphemes, maximumBytes)
    {
      var target := TargetRange(range16);
      var _ := Replace(target, newText);
    }

    method ReplaceAndMarkTextInRange(range16: Option<Range>, newText: string, selection16: Option<Range>)
      modifies this
      ensures View() == Editing.Step(
        old(View()), Editing.ReplaceTextAndMark(range16, newText, selection16), graphemes, maximumBytes)
    {
      hide Editing.Fitting, Editing.Normalize, Editing.Between, TextOffsets.Before, TextOffsets.From, TextOffsets.Convert;
      var target := TargetRange(range16);
      Editing.InsertedTextIsFitting(View(), target, newText, maximumBytes);
      var inserted := Replace(target, newText);
      if !inserted.Empty() {
        marked := Some(inserted);
      }
      if selection16.Some? {
        var insertedText := Editing.Between(content, inserted);
        selected := MarkedSelection(inserted.start, insertedText, selection16.value);
      }
    }

    method Unmark()
      modifies this
      ensures View() == Editing.Step(old(View()), Editing.Unmark, graphemes, maximumBytes)
    {
      marked := None;
    }

    method Backspace()
      modifies this
      ensures View() == Editing.Step(old(View()), Editing.Backspace, graphemes, maximumBytes)
    {
      if selected.Empty() {
        var cursor := CursorOffset();
        var target := PreviousBoundary(cursor);
        SelectTo(target);
      }
      ReplaceTextInRange(None, "");
    }

    method Delete()
      modifies this
      ensures View() == Editing.Step(old(View()), Editing.Delete, graphemes, maximumBytes)
    {
      if selected.Empty() {
        var cursor := CursorOffset();
        var target := NextBoundary(cursor);
        SelectTo(target);
      }
      ReplaceTextInRange(None, "");
    }

    method Paste(clipboard: string)
      modifies this
      ensures View() == Editing.Step(old(View()), Editing.Paste(clipboard), graphemes, maximumBytes)
    {
      ReplaceTextInRange(None, Editing.SingleLine(clipboard));
    }

    /** What the selection puts on the clipboard; its ends must be where the content can be cut. */
    method Copy() returns (clipboard: Option<string>)
      requires Editing.OnBoundaries(content, selected)
      ensures clipboard.None? <==> selected.Empty()
      ensures clipboard.Some? ==>
        content == Before(content, selected.start) + clipboard.value + From(content, selected.end)
    {
      if selected.Empty() {
        return None;
      }
      Editing.ContentInThree(content, selected);
      clipboard := Some(Editing.Between(content, selected));
    }

    method Cut() returns (clipboard: Option<string>)
      requires Editing.OnBoundaries(content, selected)
      modifies this
      ensures View() == Editing.Step(old(View()), Editing.Cut, graphemes, maximumBytes)
      ensures clipboard.None? <==> old(selected).Empty()
      ensures clipboard.Some? ==>
        old(content) == Before(old(content), old(selected).start) + clipboard.value
                        + From(old(content), old(selected).end)
    {
      clipboard := Copy();
      if !selected.Empty() {
        ReplaceTextInRange(None, "");
      }
    }

    method ClearOrDismiss()
      modifies this
      ensures View() == Editing.Step(old(View()), Editing.ClearOrDismiss, graphemes, maximumBytes)
    {
      if content != "" {
        content := "";
        selected := Editing.Range(0, 0);
        reversed := false;
        marked := None;
      }
    }
  }
}
