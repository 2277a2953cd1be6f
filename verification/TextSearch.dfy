/** Searching, splitting and trimming text, as `str::find`, `str::split_once` and `str::trim` do. */
module TextSearch {
  import opened Options

  predicate OccursAt(text: string, pattern: string, at: int) {
    0 <= at && at + |pattern| <= |text| && text[at..at + |pattern|] == pattern
  }

  ghost predicate Contains(text: string, pattern: string) {
    exists at :: OccursAt(text, pattern, at)
  }

  lemma OccursInTail(text: string, pattern: string)
    requires text != ""
    ensures forall j {:trigger OccursAt(text, pattern, j)} ::
      1 <= j ==> (OccursAt(text, pattern, j) <==> OccursAt(text[1..], pattern, j - 1))
  {
  }

  /** The first occurrence of `pattern` in `text`. */
  function Find(text: string, pattern: string): (at: Option<nat>)
    ensures at.Some? ==>
      OccursAt(text, pattern, at.value) && forall j :: 0 <= j < at.value ==> !OccursAt(text, pattern, j)
    ensures at.None? ==> !Contains(text, pattern)
  {
    if pattern <= text then Some(0)
    else if text == "" then None
    else
      OccursInTail(text, pattern);
      match Find(text[1..], pattern)
      case None => None
      case Some(i) => Some(i + 1)
  }

  /** No proper suffix of the pattern starts as the pattern does: two occurrences never overlap. */
  predicate Simple(pattern: string) {
    pattern != "" && forall i :: 0 < i < |pattern| ==> pattern[i] != pattern[0]
  }

  /** Text up to the first occurrence of a pattern, and text after it. */
  datatype Split = Whole | Split(before: string, after: string)

  function SplitOnce(text: string, pattern: string): Split {
    match Find(text, pattern)
    case None => Whole
    case Some(at) => Split(text[..at], text[at + |pattern|..])
  }

  /** An occurrence within either of two joined texts is an occurrence in that text. */
  lemma OccursInPart(a: string, b: string, pattern: string, at: int)
    requires at + |pattern| <= |a| || |a| <= at
    ensures OccursAt(a + b, pattern, at)
      <==> if at + |pattern| <= |a| then OccursAt(a, pattern, at) else OccursAt(b, pattern, at - |a|)
  {
  }

  /** Joining undoes splitting, and the first part is free of the pattern. */
  lemma SplitThenJoin(text: string, pattern: string)
    requires Simple(pattern)
    ensures match SplitOnce(text, pattern)
      case Whole => !Contains(text, pattern)
      case Split(before, after) => text == before + pattern + after && !Contains(before, pattern)
  {
    var s := SplitOnce(text, pattern);
    if s.Split? {
      assert text == s.before + (pattern + s.after);
      forall j ensures OccursAt(s.before, pattern, j) ==> OccursAt(text, pattern, j) {
        if j + |pattern| <= |s.before| { OccursInPart(s.before, pattern + s.after, pattern, j); }
      }
    }
  }

  /** A text is left whole exactly when it is free of the pattern. */
  lemma WholeIffFree(text: string, pattern: string)
    requires Simple(pattern)
    ensures SplitOnce(text, pattern).Whole? <==> !Contains(text, pattern)
  {
  }

  /** Splitting undoes joining with a pattern that the first part is free of. */
  lemma JoinThenSplit(before: string, pattern: string, after: string)
    requires Simple(pattern) && !Contains(before, pattern)
    ensures SplitOnce(before + pattern + after, pattern) == Split(before, after)
  {
    var text := before + pattern + after;
    assert text == before + (pattern + after);
    OccursInPart(before, pattern + after, pattern, |before|);
    forall j | 0 <= j < |before| ensures !OccursAt(text, pattern, j) {
      if j + |pattern| <= |before| {
        OccursInPart(before, pattern + after, pattern, j);
      } else {
        assert text[|before|] == pattern[0] != pattern[|before| - j];
        assert j + |pattern| <= |text| ==> text[j..j + |pattern|][|before| - j] == text[|before|];
      }
    }
    assert Find(text, pattern) == Some(|before|);
  }

  /** An occurrence cannot straddle a place where the pattern's first character, or the text, begins anew. */
  lemma ContainsConcat(a: string, b: string, pattern: string)
    requires Simple(pattern) && (b == "" || b[0] == pattern[0])
    ensures Contains(a + b, pattern) <==> Contains(a, pattern) || Contains(b, pattern)
  {
    var text := a + b;
    forall at ensures OccursAt(text, pattern, at) ==> at + |pattern| <= |a| || |a| <= at {
      if 0 <= at < |a| < at + |pattern| <= |text| {
        assert text[at..at + |pattern|][|a| - at] == b[0];
      }
    }
    forall at | OccursAt(text, pattern, at) ensures OccursAt(a, pattern, at) || OccursAt(b, pattern, at - |a|) {
      OccursInPart(a, b, pattern, at);
    }
    forall at | OccursAt(a, pattern, at) ensures OccursAt(text, pattern, at) {
      OccursInPart(a, b, pattern, at);
    }
    forall at | OccursAt(b, pattern, at) ensures OccursAt(text, pattern, at + |a|) {
      OccursInPart(a, b, pattern, at + |a|);
    }
  }

  // ------------------------------------------------------------------ trimming

  /** The `White_Space` property of Unicode, which `char::is_whitespace` tests. */
  predicate IsWhite(c: char) {
    || '\U{9}' <= c <= '\U{D}' || c == ' ' || c == '\U{85}' || c == '\U{A0}' || c == '\U{1680}'
    || '\U{2000}' <= c <= '\U{200A}' || c == '\U{2028}' || c == '\U{2029}' || c == '\U{202F}'
    || c == '\U{205F}' || c == '\U{3000}'
  }

  predicate AllWhite(text: string) {
    forall i :: 0 <= i < |text| ==> IsWhite(text[i])
  }

  predicate Trimmed(text: string) {
    text != "" ==> !IsWhite(text[0]) && !IsWhite(text[|text| - 1])
  }

  function TrimStart(text: string): string {
    if text != "" && IsWhite(text[0]) then TrimStart(text[1..]) else text
  }

  function TrimEnd(text: string): string {
    if text != "" && IsWhite(text[|text| - 1]) then TrimEnd(text[..|text| - 1]) else text
  }

  function Trim(text: string): string {
    TrimEnd(TrimStart(text))
  }

  lemma {:induction false} TrimStartSkips(lead: string, rest: string)
    requires AllWhite(lead) && (rest == "" || !IsWhite(rest[0]))
    ensures TrimStart(lead + rest) == rest
  {
    if lead == "" {
      assert lead + rest == rest;
    } else {
      assert (lead + rest)[1..] == lead[1..] + rest;
      TrimStartSkips(lead[1..], rest);
    }
  }

  lemma {:induction false} TrimEndSkips(rest: string, trail: string)
    requires AllWhite(trail) && (rest == "" || !IsWhite(rest[|rest| - 1]))
    ensures TrimEnd(rest + trail) == rest
  {
    if trail == "" {
      assert rest + trail == rest;
    } else {
      assert (rest + trail)[..|rest + trail| - 1] == rest + trail[..|trail| - 1];
      TrimEndSkips(rest, trail[..|trail| - 1]);
    }
  }

  /** Trimming takes off exactly the white space around a text. */
  lemma TrimUndoesPadding(lead: string, text: string, trail: string)
    requires AllWhite(lead) && AllWhite(trail) && Trimmed(text)
    ensures Trim(lead + text + trail) == text
  {
    if text == "" {
      assert lead + text + trail == (lead + trail) + "";
      TrimStartSkips(lead + trail, "");
    } else {
      assert lead + text + trail == lead + (text + trail);
      TrimStartSkips(lead, text + trail);
      TrimEndSkips(text, trail);
    }
  }

  lemma {:induction false} TrimStartDrops(text: string) returns (lead: string)
    ensures AllWhite(lead) && text == lead + TrimStart(text)
    ensures TrimStart(text) == "" || !IsWhite(TrimStart(text)[0])
  {
    if text != "" && IsWhite(text[0]) {
      var rest := TrimStartDrops(text[1..]);
      lead := [text[0]] + rest;
    } else {
      lead := "";
    }
  }

  lemma {:induction false} TrimEndDrops(text: string) returns (trail: string)
    ensures AllWhite(trail) && text == TrimEnd(text) + trail
    ensures TrimEnd(text) == "" || !IsWhite(TrimEnd(text)[|TrimEnd(text)| - 1])
  {
    if text != "" && IsWhite(text[|text| - 1]) {
      var rest := TrimEndDrops(text[..|text| - 1]);
      trail := rest + [text[|text| - 1]];
    } else {
      trail := "";
    }
  }

  /** Every text is its trimmed form between two runs of white space. */
  lemma TrimOnlyTakesPadding(text: string) returns (lead: string, trail: string)
    ensures AllWhite(lead) && AllWhite(trail) && Trimmed(Trim(text))
    ensures text == lead + Trim(text) + trail
  {
    lead := TrimStartDrops(text);
    trail := TrimEndDrops(TrimStart(text));
    if Trim(text) != "" {
      assert TrimStart(text)[0] == Trim(text)[0];
    }
  }
}
