/**
 The tool-call parser: `<function=name>`, then `<parameter=name>value</parameter>` blocks, then an
 optional `</function>`.  Texts are sequences of characters; every delimiter is ASCII, so cutting at
 characters is cutting at the same places as at the byte offsets.
 */
module ToolCall {
  import opened Options
  import opened TextSearch

  const FUNCTION: string := "<function="
  const END_FUNCTION: string := "</function>"
  const PARAMETER: string := "<parameter="
  const END_PARAMETER: string := "</parameter>"

  datatype Parameter = Parameter(name: string, value: string)
  datatype Call = Call(name: string, parameters: seq<Parameter>)

  // ------------------------------------------------------------------- parsing

  /** One parameter, after its opening tag, and the text that follows it. */
  function ParseParameter(tagged: string): (read: Option<(Parameter, string)>)
    ensures read.Some? ==> |read.value.1| < |tagged|
  {
    match SplitOnce(tagged, ">")
    case Whole => None
    case Split(name, rest) =>
      match SplitOnce(rest, END_PARAMETER)
      case Whole => None
      case Split(value, remaining) => Some((Parameter(Trim(name), Trim(value)), remaining))
  }

  /** The parameters of a block; a parameter that is not completed makes the whole call unreadable. */
  function ParseParameters(block: string): Option<seq<Parameter>>
    decreases |block|
  {
    match SplitOnce(block, PARAMETER)
    case Whole => Some([])
    case Split(_, tagged) =>
      match ParseParameter(tagged)
      case None => None
      case Some((parameter, remaining)) => Prepend([parameter], ParseParameters(remaining))
  }

  function Prepend(parameters: seq<Parameter>, rest: Option<seq<Parameter>>): Option<seq<Parameter>> {
    if rest.None? then None else Some(parameters + rest.value)
  }

  /** The block ends at the closing tag, or with the text when there is none. */
  function Block(body: string): string {
    match SplitOnce(body, END_FUNCTION)
    case Whole => body
    case Split(block, _) => block
  }

  /** A call after its opening tag. */
  function ParseCall(tagged: string): Option<Call> {
    match SplitOnce(tagged, ">")
    case Whole => None
    case Split(name, body) =>
      if Trim(name) == "" then None
      else
        var parameters := ParseParameters(Block(body));
        if parameters.None? then None else Some(Call(Trim(name), parameters.value))
  }

  function Parse(content: string): Option<Call> {
    match SplitOnce(content, FUNCTION)
    case Whole => None
    case Split(_, tagged) => ParseCall(tagged)
  }

  /** One parameter whose name starts at `start`, and the place after it. */
  method ReadParameterAt(block: string, start: nat) returns (read: Option<(Parameter, nat)>)
    requires start <= |block|
    ensures read.None? <==> ParseParameter(block[start..]).None?
    ensures read.Some? ==> start < read.value.1 <= |block|
    ensures read.Some? ==> ParseParameter(block[start..]) == Some((read.value.0, block[read.value.1..]))
  {
    hide TextSearch.Find, TextSearch.Trim;
    var nameLength := Find(block[start..], ">");
    if nameLength.None? { return None; }
    var nameEnd := start + nameLength.value;
    var valueStart := nameEnd + 1;
    SliceTwice(block, start, nameLength.value + 1);
    var valueLength := Find(block[valueStart..], END_PARAMETER);
    if valueLength.None? { return None; }
    var valueEnd := valueStart + valueLength.value;
    SliceTwice(block, valueStart, valueLength.value + |END_PARAMETER|);
    SliceWithin(block, start, nameLength.value);
    SliceWithin(block, valueStart, valueLength.value);
    var parameter := Parameter(Trim(block[start..nameEnd]), Trim(block[valueStart..valueEnd]));
    read := Some((parameter, valueEnd + |END_PARAMETER|));
  }

  /** The loop over a cursor into the block. */
  method ParseParametersAt(block: string) returns (result: Option<seq<Parameter>>)
    ensures result == ParseParameters(block)
  {
    hide TextSearch.Find, ParseParameter;
    var parameters: seq<Parameter> := [];
    var cursor := 0;
    assert block[0..] == block;
    PrependNothing(ParseParameters(block));
    while true
      invariant 0 <= cursor <= |block|
      invariant Prepend(parameters, ParseParameters(block[cursor..])) == ParseParameters(block)
      decreases |block| - cursor
    {
      var relativeStart := Find(block[cursor..], PARAMETER);
      if relativeStart.None? {
        assert parameters + [] == parameters;
        return Some(parameters);
      }
      var start := cursor + relativeStart.value + |PARAMETER|;
      SliceTwice(block, cursor, relativeStart.value + |PARAMETER|);
      var read := ReadParameterAt(block, start);
      if read.None? { return None; }
      PrependTwice(parameters, [read.value.0], ParseParameters(block[read.value.1..]));
      parameters := parameters + [read.value.0];
      cursor := read.value.1;
    }
  }

  lemma SliceTwice(text: string, i: nat, j: nat)
    requires i + j <= |text|
    ensures text[i..][j..] == text[i + j..]
  {
  }

  lemma SliceWithin(text: string, i: nat, j: nat)
    requires i + j <= |text|
    ensures text[i..][..j] == text[i..i + j]
  {
  }

  lemma PrependNothing(rest: Option<seq<Parameter>>)
    ensures Prepend([], rest) == rest
  {
    if rest.Some? { assert [] + rest.value == rest.value; }
  }

  lemma PrependTwice(a: seq<Parameter>, b: seq<Parameter>, rest: Option<seq<Parameter>>)
    ensures Prepend(a, Prepend(b, rest)) == Prepend(a + b, rest)
  {
    if rest.Some? { assert a + (b + rest.value) == (a + b) + rest.value; }
  }

  /** `parse_tool_call`. */
  method ParseToolCall(content: string) returns (result: Option<Call>)
    ensures result == Parse(content)
  {
    hide TextSearch.Find, TextSearch.Trim, ParseParameters;
    var opening := Find(content, FUNCTION);
    if opening.None? { return None; }
    var functionStart := opening.value + |FUNCTION|;
    var nameLength := Find(content[functionStart..], ">");
    if nameLength.None? { return None; }
    var functionEnd := functionStart + nameLength.value;
    assert content[functionStart..functionEnd] == content[functionStart..][..nameLength.value];
    var name := Trim(content[functionStart..functionEnd]);
    if name == "" { return None; }
    var body := content[functionEnd + 1..];
    assert body == content[functionStart..][nameLength.value + 1..];
    var closing := Find(body, END_FUNCTION);
    var blockEnd := match closing { case Some(offset) => functionEnd + 1 + offset case None => |content| };
    var block := content[functionEnd + 1..blockEnd];
    assert block == Block(body);
    var parameters := ParseParametersAt(block);
    if parameters.None? { return None; }
    result := Some(Call(name, parameters.value));
  }

  // ------------------------------------------------------------------- writing

  /** A parameter as it stands in a message, after some text that is skipped. */
  datatype Written = Written(gap: string, name: string, value: string)

  /** A message with a call in it; `closing` is what follows `</function>`, if that tag is there. */
  datatype Message = Message(
    prefix: string, name: string, parameters: seq<Written>, tail: string, closing: Option<string>)

  /** A written parameter from its name on, and the text after it. */
  function Tagged(w: Written, rest: string): string {
    w.name + ">" + w.value + END_PARAMETER + rest
  }

  function BlockText(parameters: seq<Written>, tail: string): string {
    if parameters == [] then tail
    else parameters[0].gap + PARAMETER + Tagged(parameters[0], BlockText(parameters[1..], tail))
  }

  function Body(m: Message): string {
    if m.closing.None? then BlockText(m.parameters, m.tail)
    else BlockText(m.parameters, m.tail) + END_FUNCTION + m.closing.value
  }

  /** The call from its name on. */
  function CallText(m: Message): string {
    m.name + ">" + Body(m)
  }

  function Content(m: Message): string {
    m.prefix + FUNCTION + CallText(m)
  }

  function CallOf(m: Message): Call {
    Call(Trim(m.name), ParametersOf(m.parameters))
  }

  function ParametersOf(parameters: seq<Written>): (read: seq<Parameter>)
    ensures |read| == |parameters|
    ensures forall i :: 0 <= i < |read| ==> read[i] == ParameterOf(parameters[i])
  {
    seq(|parameters|, i requires 0 <= i < |parameters| => ParameterOf(parameters[i]))
  }

  function ParameterOf(w: Written): Parameter {
    Parameter(Trim(w.name), Trim(w.value))
  }

  ghost predicate WellWritten(w: Written) {
    !Contains(w.gap, PARAMETER) && !Contains(w.name, ">") && !Contains(w.value, END_PARAMETER)
  }

  ghost predicate WellFormed(m: Message) {
    && !Contains(m.prefix, FUNCTION) && !Contains(m.name, ">") && Trim(m.name) != ""
    && (forall w :: w in m.parameters ==> WellWritten(w)) && !Contains(m.tail, PARAMETER)
    && !Contains(BlockText(m.parameters, m.tail), END_FUNCTION)
  }

  lemma DelimitersAreSimple()
    ensures Simple(FUNCTION) && Simple(END_FUNCTION) && Simple(PARAMETER) && Simple(END_PARAMETER) && Simple(">")
  {
  }

  lemma Regroup(a: string, b: string, c: string, d: string, e: string)
    ensures a + b + c + d + e == a + b + (c + d + e)
  {
  }

  lemma ParameterIsRead(w: Written, rest: string)
    requires WellWritten(w)
    ensures ParseParameter(Tagged(w, rest)) == Some((ParameterOf(w), rest))
  {
    hide TextSearch.Simple, TextSearch.SplitOnce;
    DelimitersAreSimple();
    Regroup(w.name, ">", w.value, END_PARAMETER, rest);
    JoinThenSplit(w.name, ">", w.value + END_PARAMETER + rest);
    JoinThenSplit(w.value, END_PARAMETER, rest);
  }

  lemma {:induction false} ParametersAreRead(parameters: seq<Written>, tail: string)
    requires forall w :: w in parameters ==> WellWritten(w)
    requires !Contains(tail, PARAMETER)
    ensures ParseParameters(BlockText(parameters, tail)) == Some(ParametersOf(parameters))
  {
    hide Tagged, ParseParameter, TextSearch.SplitOnce, TextSearch.Simple, TextSearch.Contains;
    DelimitersAreSimple();
    if parameters == [] {
      WholeIffFree(tail, PARAMETER);
    } else {
      var w, rest := parameters[0], BlockText(parameters[1..], tail);
      assert w in parameters && forall v :: v in parameters[1..] ==> v in parameters;
      JoinThenSplit(w.gap, PARAMETER, Tagged(w, rest));
      ParameterIsRead(w, rest);
      ParametersAreRead(parameters[1..], tail);
      assert BlockText(parameters, tail) == w.gap + PARAMETER + Tagged(w, rest);
      assert ParametersOf(parameters) == [ParameterOf(w)] + ParametersOf(parameters[1..]);
    }
  }

  lemma BlockIsFound(m: Message)
    requires !Contains(BlockText(m.parameters, m.tail), END_FUNCTION)
    ensures Block(Body(m)) == BlockText(m.parameters, m.tail)
  {
    hide TextSearch.SplitOnce, TextSearch.Simple, TextSearch.Contains, BlockText;
    DelimitersAreSimple();
    var block := BlockText(m.parameters, m.tail);
    if m.closing.Some? {
      JoinThenSplit(block, END_FUNCTION, m.closing.value);
    } else {
      WholeIffFree(block, END_FUNCTION);
    }
  }

  /** Reading undoes writing. */
  lemma WellFormedMessagesAreRead(m: Message)
    requires WellFormed(m)
    ensures Parse(Content(m)) == Some(CallOf(m))
  {
    hide TextSearch.SplitOnce, TextSearch.Simple, TextSearch.Contains, BlockText, Body, Block;
    DelimitersAreSimple();
    JoinThenSplit(m.prefix, FUNCTION, CallText(m));
    JoinThenSplit(m.name, ">", Body(m));
    BlockIsFound(m);
    ParametersAreRead(m.parameters, m.tail);
    assert CallOf(m).parameters == ParseParameters(BlockText(m.parameters, m.tail)).value;
  }

  // How a text that is read was written.

  function WrittenIn(gap: string, tagged: string): Written
    requires ParseParameter(tagged).Some?
  {
    var named := SplitOnce(tagged, ">");
    Written(gap, named.before, SplitOnce(named.after, END_PARAMETER).before)
  }

  datatype BlockParts = BlockParts(parameters: seq<Written>, tail: string)

  function PartsOf(block: string): BlockParts
    requires ParseParameters(block).Some?
    decreases |block|
  {
    match SplitOnce(block, PARAMETER)
    case Whole => BlockParts([], block)
    case Split(gap, tagged) =>
      var rest := PartsOf(ParseParameter(tagged).value.1);
      BlockParts([WrittenIn(gap, tagged)] + rest.parameters, rest.tail)
  }

  function MessageIn(content: string): Message
    requires Parse(content).Some?
  {
    var leading := SplitOnce(content, FUNCTION);
    var named := SplitOnce(leading.after, ">");
    var parts, closed := PartsOf(Block(named.after)), SplitOnce(named.after, END_FUNCTION);
    Message(
      leading.before, named.before, parts.parameters, parts.tail, if closed.Split? then Some(closed.after) else None)
  }

  lemma ReadParameterWasWritten(gap: string, tagged: string)
    requires ParseParameter(tagged).Some? && !Contains(gap, PARAMETER)
    ensures var w := WrittenIn(gap, tagged);
      && WellWritten(w) && w.gap == gap && ParameterOf(w) == ParseParameter(tagged).value.0
      && tagged == Tagged(w, ParseParameter(tagged).value.1)
  {
    hide TextSearch.Simple, TextSearch.SplitOnce, TextSearch.Contains;
    DelimitersAreSimple();
    var named := SplitOnce(tagged, ">");
    var valued := SplitOnce(named.after, END_PARAMETER);
    SplitThenJoin(tagged, ">");
    SplitThenJoin(named.after, END_PARAMETER);
    Regroup(named.before, ">", valued.before, END_PARAMETER, valued.after);
  }

  lemma {:induction false} ReadParametersWereWritten(block: string)
    requires ParseParameters(block).Some?
    ensures var parts := PartsOf(block);
      && block == BlockText(parts.parameters, parts.tail) && !Contains(parts.tail, PARAMETER)
      && forall w :: w in parts.parameters ==> WellWritten(w)
    decreases |block|
  {
    hide Tagged, ParseParameter, WrittenIn, TextSearch.SplitOnce, TextSearch.Simple, TextSearch.Contains;
    DelimitersAreSimple();
    SplitThenJoin(block, PARAMETER);
    match SplitOnce(block, PARAMETER)
    case Whole =>
    case Split(gap, tagged) =>
      ReadParameterWasWritten(gap, tagged);
      var rest := ParseParameter(tagged).value.1;
      ReadParametersWereWritten(rest);
      assert PartsOf(block).parameters[1..] == PartsOf(rest).parameters;
  }

  lemma ReadBodyWasWritten(m: Message, body: string)
    requires ParseParameters(Block(body)).Some?
    requires PartsOf(Block(body)) == BlockParts(m.parameters, m.tail)
    requires m.closing == match SplitOnce(body, END_FUNCTION) case Whole => None case Split(_, after) => Some(after)
    ensures Body(m) == body
    ensures !Contains(BlockText(m.parameters, m.tail), END_FUNCTION) && !Contains(m.tail, PARAMETER)
    ensures forall w :: w in m.parameters ==> WellWritten(w)
  {
    hide TextSearch.SplitOnce, TextSearch.Simple, TextSearch.Contains, BlockText, ParseParameters, PartsOf;
    DelimitersAreSimple();
    SplitThenJoin(body, END_FUNCTION);
    ReadParametersWereWritten(Block(body));
  }

  /** What is read was written: every readable text is the content of a well-formed message of that call. */
  lemma ReadMessagesAreWellFormed(content: string)
    requires Parse(content).Some?
    ensures var m := MessageIn(content);
      WellFormed(m) && Content(m) == content && Some(CallOf(m)) == Parse(content)
  {
    hide TextSearch.SplitOnce, TextSearch.Simple, TextSearch.Contains, BlockText, ParseParameters, Block, Body, PartsOf;
    DelimitersAreSimple();
    var leading := SplitOnce(content, FUNCTION);
    var named := SplitOnce(leading.after, ">");
    SplitThenJoin(content, FUNCTION);
    SplitThenJoin(leading.after, ">");
    ReadBodyWasWritten(MessageIn(content), named.after);
    WellFormedMessagesAreRead(MessageIn(content));
  }

  /** A text is read as a call exactly when it is a well-formed message of that call. */
  lemma ReadIffWritten(content: string, call: Call)
    ensures Parse(content) == Some(call)
      <==> exists m :: WellFormed(m) && Content(m) == content && CallOf(m) == call
  {
    if Parse(content) == Some(call) {
      ReadMessagesAreWellFormed(content);
    }
    forall m | WellFormed(m) && Content(m) == content && CallOf(m) == call ensures Parse(content) == Some(call) {
      WellFormedMessagesAreRead(m);
    }
  }

  // ------------------------------------------------- where the closing tag may stand

  /** A tag that differs from `</function>` neither contains it nor joins up with what follows to form it. */
  lemma TagHidesNoClosing(tag: string, rest: string)
    requires tag == PARAMETER || tag == END_PARAMETER
    ensures Contains(tag + rest, END_FUNCTION) <==> Contains(rest, END_FUNCTION)
  {
    var text := tag + rest;
    assert forall i :: 0 < i < |tag| ==> tag[i] != END_FUNCTION[0];
    forall at ensures OccursAt(text, END_FUNCTION, at) ==> |tag| <= at {
      if 0 <= at < |tag| && at + |END_FUNCTION| <= |text| {
        assert text[at..at + |END_FUNCTION|][0] == tag[at];
        assert text[0..0 + |END_FUNCTION|][2] == tag[2];
        assert text[0..0 + |END_FUNCTION|][1] == tag[1];
      }
    }
    forall at | OccursAt(text, END_FUNCTION, at) ensures OccursAt(rest, END_FUNCTION, at - |tag|) {
      OccursInPart(tag, rest, END_FUNCTION, at);
    }
    forall at | OccursAt(rest, END_FUNCTION, at) ensures OccursAt(text, END_FUNCTION, at + |tag|) {
      OccursInPart(tag, rest, END_FUNCTION, at + |tag|);
    }
  }

  ghost predicate FreeOfClosing(w: Written) {
    !Contains(w.gap, END_FUNCTION) && !Contains(w.name + ">" + w.value, END_FUNCTION)
  }

  lemma ClosingTagInTagged(w: Written, rest: string)
    ensures Contains(w.gap + PARAMETER + Tagged(w, rest), END_FUNCTION)
      <==> !FreeOfClosing(w) || Contains(rest, END_FUNCTION)
  {
    hide TextSearch.Simple, TextSearch.Contains;
    DelimitersAreSimple();
    var inner := w.name + ">" + w.value;
    assert Tagged(w, rest) == inner + (END_PARAMETER + rest);
    TagHidesNoClosing(END_PARAMETER, rest);
    ContainsConcat(inner, END_PARAMETER + rest, END_FUNCTION);
    TagHidesNoClosing(PARAMETER, Tagged(w, rest));
    ContainsConcat(w.gap, PARAMETER + Tagged(w, rest), END_FUNCTION);
    assert w.gap + PARAMETER + Tagged(w, rest) == w.gap + (PARAMETER + Tagged(w, rest));
  }

  /** The block is free of `</function>` exactly when its parts are. */
  lemma {:induction false} ClosingTagStandsInAPart(parameters: seq<Written>, tail: string)
    ensures Contains(BlockText(parameters, tail), END_FUNCTION)
      <==> Contains(tail, END_FUNCTION) || exists w :: w in parameters && !FreeOfClosing(w)
  {
    hide TextSearch.Contains, FreeOfClosing, Tagged;
    if parameters != [] {
      ClosingTagStandsInAPart(parameters[1..], tail);
      ClosingTagInTagged(parameters[0], BlockText(parameters[1..], tail));
      assert forall v :: v in parameters <==> v == parameters[0] || v in parameters[1..];
    }
  }

  // ------------------------------------------------------------------ rendering

  /**
   A call whose texts a rendering keeps: trimmed, free of the delimiters that would end them early, and
   without a closing tag in a value or completed by the `>` after a name.
   */
  ghost predicate Renderable(call: Call) {
    && call.name != "" && Trimmed(call.name) && !Contains(call.name, ">")
    && forall p :: p in call.parameters ==>
      && Trimmed(p.name) && !Contains(p.name, ">")
      && Trimmed(p.value) && !Contains(p.value, END_PARAMETER)
      && !Contains(p.name + ">" + p.value, END_FUNCTION)
  }

  function MessageOf(prefix: string, call: Call, suffix: string): Message {
    Message(
      prefix, call.name,
      seq(|call.parameters|, i requires 0 <= i < |call.parameters| =>
        Written("", call.parameters[i].name, call.parameters[i].value)),
      "", Some(suffix))
  }

  lemma TrimmedIsTrim(text: string)
    requires Trimmed(text)
    ensures Trim(text) == text
  {
    assert "" + text + "" == text;
    TrimUndoesPadding("", text, "");
  }

  /** A rendered call is read back exactly, in order, after any text without an opening tag and before any text. */
  lemma RenderedCallsAreRead(prefix: string, call: Call, suffix: string)
    requires Renderable(call) && !Contains(prefix, FUNCTION)
    ensures Parse(Content(MessageOf(prefix, call, suffix))) == Some(call)
  {
    var m := MessageOf(prefix, call, suffix);
    TrimmedIsTrim(call.name);
    forall i | 0 <= i < |call.parameters|
      ensures WellWritten(m.parameters[i]) && FreeOfClosing(m.parameters[i])
      ensures ParameterOf(m.parameters[i]) == call.parameters[i]
    {
      var p := call.parameters[i];
      TrimmedIsTrim(p.name);
      TrimmedIsTrim(p.value);
    }
    ClosingTagStandsInAPart(m.parameters, m.tail);
    WellFormedMessagesAreRead(m);
    assert CallOf(m).parameters == call.parameters;
  }

  lemma TrimmingAddsNothing(text: string, pattern: string)
    ensures Trimmed(Trim(text)) && |Trim(text)| <= |text|
    ensures !Contains(text, pattern) ==> !Contains(Trim(text), pattern)
  {
    hide TextSearch.Trim, TextSearch.Trimmed;
    var lead, trail := TrimOnlyTakesPadding(text);
    var trimmed := Trim(text);
    assert text == lead + (trimmed + trail);
    forall at | OccursAt(trimmed, pattern, at) ensures OccursAt(text, pattern, |lead| + at) {
      OccursInPart(trimmed, trail, pattern, at);
      OccursInPart(lead, trimmed + trail, pattern, |lead| + at);
    }
  }

  /** Reading only ever takes text away, so a block is at least as long as the rendering of what it is read as. */
  lemma {:induction false} BlockIsNotShorter(read: seq<Written>, tail: string, rendered: seq<Written>)
    requires |read| == |rendered|
    requires forall i :: 0 <= i < |read| ==>
      rendered[i].gap == "" && ParameterOf(read[i]) == Parameter(rendered[i].name, rendered[i].value)
    ensures |BlockText(rendered, "")| <= |BlockText(read, tail)|
  {
    hide TextSearch.Trim, TextSearch.Trimmed, TextSearch.Contains;
    if read != [] {
      TrimmingAddsNothing(read[0].name, "");
      TrimmingAddsNothing(read[0].value, "");
      BlockIsNotShorter(read[1..], tail, rendered[1..]);
    }
  }

  lemma BlockEndsAtTheFirstClosing(block: string, after: string)
    requires Contains(block, END_FUNCTION)
    ensures |Block(block + END_FUNCTION + after)| < |block|
  {
    var text := block + END_FUNCTION + after;
    assert text == block + (END_FUNCTION + after);
    var at :| OccursAt(block, END_FUNCTION, at);
    OccursInPart(block, END_FUNCTION + after, END_FUNCTION, at);
  }

  /** The body of a message is what follows its two opening delimiters. */
  lemma BodiesAgree(m: Message, r: Message)
    requires Content(m) == Content(r) && m.name == Trim(r.name)
    requires !Contains(m.prefix, FUNCTION) && !Contains(r.prefix, FUNCTION)
    requires !Contains(m.name, ">") && !Contains(r.name, ">")
    ensures Body(m) == Body(r)
  {
    hide TextSearch.Simple, TextSearch.SplitOnce, TextSearch.Contains, TextSearch.Trim, Body;
    DelimitersAreSimple();
    JoinThenSplit(m.prefix, FUNCTION, CallText(m));
    JoinThenSplit(r.prefix, FUNCTION, CallText(r));
    JoinThenSplit(m.name, ">", Body(m));
    JoinThenSplit(r.name, ">", Body(r));
  }

  lemma ReadBackPartsAreRenderable(r: Message)
    requires WellFormed(r)
    ensures var call := CallOf(r);
      && call.name != "" && Trimmed(call.name) && !Contains(call.name, ">")
      && forall p :: p in call.parameters ==>
        && Trimmed(p.name) && !Contains(p.name, ">") && Trimmed(p.value) && !Contains(p.value, END_PARAMETER)
  {
    hide TextSearch.Trim, TextSearch.Trimmed, TextSearch.Contains, BlockText;
    TrimmingAddsNothing(r.name, ">");
    forall i | 0 <= i < |r.parameters|
      ensures var p := ParameterOf(r.parameters[i]);
        && Trimmed(p.name) && !Contains(p.name, ">") && Trimmed(p.value) && !Contains(p.value, END_PARAMETER)
    {
      assert WellWritten(r.parameters[i]);
      TrimmingAddsNothing(r.parameters[i].name, ">");
      TrimmingAddsNothing(r.parameters[i].value, END_PARAMETER);
    }
  }

  /** A call that is read back from its rendering was fit to be rendered: the condition is exact. */
  lemma RenderedCallsAreReadIff(prefix: string, call: Call, suffix: string)
    requires !Contains(prefix, FUNCTION)
    ensures Parse(Content(MessageOf(prefix, call, suffix))) == Some(call) <==> Renderable(call)
  {
    hide TextSearch.Trim, TextSearch.Trimmed, TextSearch.Contains, BlockText, Block, Content, Parse;
    var m := MessageOf(prefix, call, suffix);
    if Parse(Content(m)) == Some(call) {
      ReadMessagesAreWellFormed(Content(m));
      var r := MessageIn(Content(m));
      ReadBackPartsAreRenderable(r);
      BodiesAgree(m, r);
      BlockIsFound(r);
      forall i | 0 <= i < |call.parameters| ensures call.parameters[i] == ParameterOf(r.parameters[i]) {
        assert CallOf(r).parameters[i] == ParameterOf(r.parameters[i]);
      }
      BlockIsNotShorter(r.parameters, r.tail, m.parameters);
      if Contains(BlockText(m.parameters, m.tail), END_FUNCTION) {
        BlockEndsAtTheFirstClosing(BlockText(m.parameters, m.tail), suffix);
        assert false;
      }
      ClosingTagStandsInAPart(m.parameters, m.tail);
      forall i | 0 <= i < |call.parameters| ensures FreeOfClosing(m.parameters[i]) {
        assert m.parameters[i] in m.parameters;
      }
    } else if Renderable(call) {
      RenderedCallsAreRead(prefix, call, suffix);
    }
  }

  // ------------------------------------------------------------- planner output

  /** `planner_output`: the text before the call, unless there is none. */
  function PlannerOutput(content: string): string {
    match SplitOnce(content, FUNCTION)
    case Whole => content
    case Split(before, _) => if Trim(before) == "" then content else Trim(before)
  }

  /** The planner's output and the call are two disjoint parts of a message. */
  lemma PlannerOutputIsThePrefix(m: Message)
    requires WellFormed(m)
    ensures PlannerOutput(Content(m)) == if Trim(m.prefix) == "" then Content(m) else Trim(m.prefix)
  {
    DelimitersAreSimple();
    JoinThenSplit(m.prefix, FUNCTION, CallText(m));
  }
}
