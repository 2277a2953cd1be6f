/**
 OTLP trace requests and the receiver's normaliser: attribute values become JSON, identities become
 hexadecimal, spans without a usable identity or with too many attributes are counted as rejected, and
 the batch is cut at its limit.
 */
module Otlp {
  import opened Json
  import opened MachineWords
  import opened Options
  import opened Strings
  import opened TextSearch

  const I64_MIN: int := -0x8000_0000_0000_0000
  const I64_MAX: int := 0x7FFF_FFFF_FFFF_FFFF

  /** A 64-bit float: only finite values have a JSON number. */
  datatype Double = Finite(real_: real) | NotFinite

  datatype AnyValue = AnyValue(value: Option<Kind>)

  datatype Kind =
    | StringValue(text: string)
    | BoolValue(bool_: bool)
    | IntValue(int_: int)
    | DoubleValue(double: Double)
    | BytesValue(bytes: seq<byte>)
    | ArrayValue(values: seq<AnyValue>)
    | KvlistValue(entries: seq<KeyValue>)
    | StringValueStrindex(index: int)

  datatype KeyValue = KeyValue(key: string, value: Option<AnyValue>)

  datatype Event = Event(
    timeUnixNano: nat, name: string, attributes: seq<KeyValue>, droppedAttributesCount: nat)
  datatype Link = Link(
    traceId: seq<byte>, spanId: seq<byte>, traceState: string, attributes: seq<KeyValue>,
    droppedAttributesCount: nat, flags: nat)
  datatype Status = Status(message: string, code: int)
  datatype Span = Span(
    traceId: seq<byte>, spanId: seq<byte>, parentSpanId: seq<byte>, traceState: string, flags: nat, name: string,
    kind: int, startTimeUnixNano: nat, endTimeUnixNano: nat, status: Option<Status>,
    attributes: seq<KeyValue>, droppedAttributesCount: nat,
    events: seq<Event>, droppedEventsCount: nat, links: seq<Link>, droppedLinksCount: nat)
  datatype Scope = Scope(name: string, version: string, attributes: seq<KeyValue>, droppedAttributesCount: nat)
  datatype ScopeSpans = ScopeSpans(scope: Option<Scope>, schemaUrl: string, spans: seq<Span>)
  datatype ResourceSpans = ResourceSpans(resource: Option<seq<KeyValue>>, scopeSpans: seq<ScopeSpans>)
  datatype Request = Request(resourceSpans: seq<ResourceSpans>)

  /** The receiver's settings, and the digest of the logical identities (SHA-256). */
  datatype Config = Config(
    sourceId: string, maxSpansPerRequest: nat, maxAttributesPerSpan: nat, digest: string -> seq<byte>)

  datatype EventUpsert = EventUpsert(
    name: string, timestampUnixNano: nat, attributes: map<string, Value>, droppedAttributesCount: nat)
  datatype LinkUpsert = LinkUpsert(
    traceId: string, spanId: string, traceState: string, attributes: map<string, Value>,
    droppedAttributesCount: nat, flags: nat)
  datatype SpanUpsert = SpanUpsert(
    sourceId: string, traceId: string, spanId: string, parentSpanId: Option<string>, logicalTraceId: string,
    name: string, category: string, kind: int, startTimeUnixNano: nat, endTimeUnixNano: nat,
    statusCode: int, statusMessage: string, traceState: string, flags: nat,
    droppedAttributesCount: nat, droppedEventsCount: nat, droppedLinksCount: nat,
    resource: map<string, Value>, scope: map<string, Value>, attributes: map<string, Value>,
    events: seq<EventUpsert>, links: seq<LinkUpsert>)
  datatype Batch = Batch(sourceId: string, spans: seq<SpanUpsert>, rejectedSpans: nat)

  // ------------------------------------------------------------------ values

  const HEX: string := "0123456789abcdef"

  function HexEncode(bytes: seq<byte>): (r: string)
    ensures |r| == 2 * |bytes|
  {
    if bytes == [] then ""
    else [HEX[bytes[0] as int / 16], HEX[bytes[0] as int % 16]] + HexEncode(bytes[1..])
  }

  /** The number a hexadecimal digit stands for. */
  function DigitValue(c: char): int {
    if '0' <= c <= '9' then c as int - '0' as int
    else if 'a' <= c <= 'f' then c as int - 'a' as int + 10
    else -1
  }

  /** Two lower-case digits for each byte, the higher first. */
  lemma {:induction false} HexReadsBack(bytes: seq<byte>, i: nat)
    requires i < |bytes|
    ensures var high, low := DigitValue(HexEncode(bytes)[2 * i]), DigitValue(HexEncode(bytes)[2 * i + 1]);
      0 <= high < 16 && 0 <= low < 16 && 16 * high + low == bytes[i] as int
  {
    if 0 < i {
      HexReadsBack(bytes[1..], i - 1);
      assert HexEncode(bytes)[2..] == HexEncode(bytes[1..]);
    } else {
      DigitsStandForThemselves(bytes[0] as int / 16);
      DigitsStandForThemselves(bytes[0] as int % 16);
    }
  }

  lemma DigitsStandForThemselves(n: nat)
    requires n < 16
    ensures DigitValue(HEX[n]) == n
  {
  }

  /** Identities survive: two byte strings with the same hexadecimal form are the same. */
  lemma {:induction false} HexEncodeInjective(a: seq<byte>, b: seq<byte>)
    requires HexEncode(a) == HexEncode(b)
    ensures a == b
  {
    assert |a| == |b|;
    if a != [] {
      var x, y := HexEncode(a), HexEncode(b);
      HexDigitsDistinct(a[0] as int / 16, b[0] as int / 16);
      HexDigitsDistinct(a[0] as int % 16, b[0] as int % 16);
      assert x[0] == y[0] && x[1] == y[1];
      assert a[0] == b[0];
      assert x[2..] == HexEncode(a[1..]) && y[2..] == HexEncode(b[1..]);
      HexEncodeInjective(a[1..], b[1..]);
      assert a == [a[0]] + a[1..] && b == [b[0]] + b[1..];
    }
  }

  lemma HexDigitsDistinct(i: int, j: int)
    requires 0 <= i < 16 && 0 <= j < 16
    ensures HEX[i] == HEX[j] ==> i == j
  {}

  /** The receiver's `any_value`: a missing value is null. */
  function ToJson(value: Option<AnyValue>): Value {
    match value
    case None => Null
    case Some(v) => ValueToJson(v)
  }

  function ValueToJson(value: AnyValue): Value {
    match value.value
    case None => Null
    case Some(StringValue(text)) => Str(text)
    case Some(BoolValue(b)) => Bool(b)
    case Some(IntValue(n)) => Number(Integer(n))
    case Some(DoubleValue(d)) => if d.Finite? then Number(Float(d.real_)) else Null
    case Some(BytesValue(bytes)) => Str(HexEncode(bytes))
    case Some(ArrayValue(values)) => Array(seq(|values|, i requires 0 <= i < |values| => ValueToJson(values[i])))
    case Some(KvlistValue(entries)) => Object(Collect(Pairs(entries)))
    case Some(StringValueStrindex(n)) => Number(Integer(n))
  }

  function Pairs(entries: seq<KeyValue>): (pairs: seq<(string, Value)>)
    ensures |pairs| == |entries|
  {
    seq(|entries|, i requires 0 <= i < |entries| => (entries[i].key, ToJson(entries[i].value)))
  }

  /** The receiver's `key_values`: a later attribute replaces an earlier one with the same key. */
  function KeyValues(entries: seq<KeyValue>): map<string, Value> {
    Collect(Pairs(entries))
  }

  // -------------------------------------------------------------- normalising

  predicate Acceptable(config: Config, span: Span) {
    |span.traceId| == 16 && |span.spanId| == 8 && |span.attributes| <= config.maxAttributesPerSpan
  }

  function ScopeFacts(scope: ScopeSpans): map<string, Value> {
    var base := map["schema_url" := Str(scope.schemaUrl)];
    match scope.scope
    case None => base
    case Some(s) =>
      base["name" := Str(s.name)]["version" := Str(s.version)]
          ["attributes" := Object(KeyValues(s.attributes))]
          ["dropped_attributes_count" := Number(Integer(s.droppedAttributesCount))]
  }

  /** What is stored of a scope: where its schema is, and, if it is named, its name, version and attributes. */
  lemma ScopeFactsTell(scope: ScopeSpans)
    ensures var facts := ScopeFacts(scope);
      && "schema_url" in facts && facts["schema_url"] == Str(scope.schemaUrl)
      && (scope.scope.None? ==> facts.Keys == {"schema_url"})
      && (scope.scope.Some? ==>
            var s := scope.scope.value;
            && facts.Keys == {"schema_url", "name", "version", "attributes", "dropped_attributes_count"}
            && facts["name"] == Str(s.name) && facts["version"] == Str(s.version)
            && facts["attributes"] == Object(KeyValues(s.attributes))
            && facts["dropped_attributes_count"] == Number(Integer(s.droppedAttributesCount)))
  {
  }

  function ResourceFacts(resource: ResourceSpans): map<string, Value> {
    match resource.resource
    case None => map[]
    case Some(attributes) => KeyValues(attributes)
  }

  function TextOf(attributes: map<string, Value>, key: string): Option<string> {
    if key in attributes && attributes[key].Str? then Some(attributes[key].text) else None
  }

  predicate HasText(attributes: map<string, Value>, keys: seq<string>) {
    exists key :: key in keys && TextOf(attributes, key).Some? && Trim(TextOf(attributes, key).value) != ""
  }

  /** The kind an instrumentation names comes first, then the operation, then what the span is labelled with. */
  function Category(attributes: map<string, Value>): string {
    match TextOf(attributes, "openinference.span.kind")
    case Some(text) =>
      var kind := AsciiLower(text);
      if kind == "agent" || kind == "chain" then "agent"
      else if kind == "llm" || kind == "prompt" then "llm"
      else if kind == "tool" then "tool"
      else if kind == "retriever" || kind == "reranker" || kind == "embedding" then "retrieval"
      else "other"
    case None =>
      var operation := TextOf(attributes, "gen_ai.operation.name");
      if operation in {Some("chat"), Some("text_completion"), Some("generate_content")} then "llm"
      else if operation in {Some("execute_tool"), Some("tool")} then "tool"
      else if operation in {Some("invoke_agent"), Some("agent")} then "agent"
      else if HasText(attributes, ["gen_ai.tool.name", "tool.name", "tool_name"]) then "tool"
      else if HasText(attributes, ["gen_ai.agent.id", "agent.id", "agent.role"]) then "agent"
      else "other"
  }

  /** The same letters, in either case. */
  predicate SameLetters(a: string, b: string) {
    |a| == |b| && forall i :: 0 <= i < |a| ==>
      a[i] == b[i] || ('A' <= a[i] <= 'Z' && 'a' <= b[i] <= 'z' && a[i] - 'A' == b[i] - 'a')
  }

  predicate IsLower(text: string) {
    forall i :: 0 <= i < |text| ==> !('A' <= text[i] <= 'Z')
  }

  lemma LowerIff(text: string, word: string)
    requires IsLower(word)
    ensures AsciiLower(text) == word <==> SameLetters(text, word)
  {
    if AsciiLower(text) == word {
      assert forall i :: 0 <= i < |text| ==> AsciiLower(text)[i] == word[i];
    }
  }

  /** A kind that an instrumentation names decides the category, whatever the case of its letters. */
  lemma NamedKindDecides(attributes: map<string, Value>, kind: string)
    requires TextOf(attributes, "openinference.span.kind") == Some(kind)
    ensures Category(attributes) == "agent" <==> SameLetters(kind, "agent") || SameLetters(kind, "chain")
    ensures Category(attributes) == "llm" <==> SameLetters(kind, "llm") || SameLetters(kind, "prompt")
    ensures Category(attributes) == "tool" <==> SameLetters(kind, "tool")
    ensures Category(attributes) == "retrieval" <==>
      SameLetters(kind, "retriever") || SameLetters(kind, "reranker") || SameLetters(kind, "embedding")
    ensures Category(attributes) in {"agent", "llm", "tool", "retrieval", "other"}
  {
    hide Strings.AsciiLower, SameLetters;
    LowerIff(kind, "agent");
    LowerIff(kind, "chain");
    LowerIff(kind, "llm");
    LowerIff(kind, "prompt");
    LowerIff(kind, "tool");
    LowerIff(kind, "retriever");
    LowerIff(kind, "reranker");
    LowerIff(kind, "embedding");
  }

  /** Otherwise a known operation decides, and failing that what the span is labelled with, tools before agents. */
  lemma OperationDecides(attributes: map<string, Value>, operation: string)
    requires TextOf(attributes, "openinference.span.kind").None?
    requires operation == match TextOf(attributes, "gen_ai.operation.name") case Some(text) => text case None => ""
    ensures var calls, tools, agents := operation in ["chat", "text_completion", "generate_content"],
        operation in ["execute_tool", "tool"], operation in ["invoke_agent", "agent"];
      var unknown := !calls && !tools && !agents;
      var onTool := HasText(attributes, ["gen_ai.tool.name", "tool.name", "tool_name"]);
      var onAgent := HasText(attributes, ["gen_ai.agent.id", "agent.id", "agent.role"]);
      && (Category(attributes) == "llm" <==> calls)
      && (Category(attributes) == "tool" <==> tools || (unknown && onTool))
      && (Category(attributes) == "agent" <==> agents || (unknown && !onTool && onAgent))
      && Category(attributes) in {"llm", "tool", "agent", "other"}
  {
  }

  /** What the digest of a trace's logical identity is taken of. */
  function LogicalIdentity(sourceId: string, traceId: seq<byte>): string {
    sourceId + ":" + HexEncode(traceId)
  }

  /** Traces have the same logical identity exactly when they are the same trace of the same source. */
  lemma LogicalTracesAreDistinct(
    digest: string -> seq<byte>, sourceA: string, traceA: seq<byte>, sourceB: string, traceB: seq<byte>)
    requires forall s, t :: digest(s) == digest(t) ==> s == t
    requires |traceA| == |traceB| == 16
    ensures HexEncode(digest(LogicalIdentity(sourceA, traceA))) == HexEncode(digest(LogicalIdentity(sourceB, traceB)))
      <==> sourceA == sourceB && traceA == traceB
  {
    var a, b := LogicalIdentity(sourceA, traceA), LogicalIdentity(sourceB, traceB);
    if HexEncode(digest(a)) == HexEncode(digest(b)) {
      HexEncodeInjective(digest(a), digest(b));
      assert a[..|a| - 33] == sourceA && b[..|b| - 33] == sourceB;
      assert a[|a| - 32..] == HexEncode(traceA) && b[|b| - 32..] == HexEncode(traceB);
      HexEncodeInjective(traceA, traceB);
    }
  }

  function NormalizedEvent(event: Event): EventUpsert {
    EventUpsert(event.name, event.timeUnixNano, KeyValues(event.attributes), event.droppedAttributesCount)
  }

  function NormalizedLink(link: Link): LinkUpsert {
    LinkUpsert(
      HexEncode(link.traceId), HexEncode(link.spanId), link.traceState, KeyValues(link.attributes),
      link.droppedAttributesCount, link.flags)
  }

  function NormalizedSpan(config: Config, span: Span, resource: map<string, Value>, scope: map<string, Value>): SpanUpsert {
    var status := if span.status.Some? then span.status.value else Status("", 0);
    SpanUpsert(
      config.sourceId, HexEncode(span.traceId), HexEncode(span.spanId),
      if span.parentSpanId == [] then None else Some(HexEncode(span.parentSpanId)),
      HexEncode(config.digest(LogicalIdentity(config.sourceId, span.traceId))),
      span.name, Category(KeyValues(span.attributes)), span.kind, span.startTimeUnixNano, span.endTimeUnixNano,
      status.code, status.message, span.traceState, span.flags,
      span.droppedAttributesCount, span.droppedEventsCount, span.droppedLinksCount,
      resource, scope, KeyValues(span.attributes),
      seq(|span.events|, i requires 0 <= i < |span.events| => NormalizedEvent(span.events[i])),
      seq(|span.links|, i requires 0 <= i < |span.links| => NormalizedLink(span.links[i])))
  }

  /** What the stored span says is what the received one said, field by field. */
  ghost predicate Tells(upsert: SpanUpsert, span: Span) {
    && upsert.traceId == HexEncode(span.traceId) && upsert.spanId == HexEncode(span.spanId)
    && (upsert.parentSpanId.None? <==> span.parentSpanId == [])
    && (upsert.parentSpanId.Some? ==> upsert.parentSpanId.value == HexEncode(span.parentSpanId))
    && upsert.name == span.name && upsert.kind == span.kind
    && upsert.startTimeUnixNano == span.startTimeUnixNano && upsert.endTimeUnixNano == span.endTimeUnixNano
    && (span.status.Some? ==>
          upsert.statusCode == span.status.value.code && upsert.statusMessage == span.status.value.message)
    && (span.status.None? ==> upsert.statusCode == 0 && upsert.statusMessage == "")
    && upsert.traceState == span.traceState && upsert.flags == span.flags
    && upsert.droppedAttributesCount == span.droppedAttributesCount
    && upsert.droppedEventsCount == span.droppedEventsCount && upsert.droppedLinksCount == span.droppedLinksCount
    && upsert.attributes == KeyValues(span.attributes)
    && |upsert.events| == |span.events| && |upsert.links| == |span.links|
    && (forall i :: 0 <= i < |span.events| ==> TellsEvent(upsert.events[i], span.events[i]))
    && (forall i :: 0 <= i < |span.links| ==> TellsLink(upsert.links[i], span.links[i]))
  }

  predicate TellsEvent(upsert: EventUpsert, event: Event) {
    && upsert.name == event.name && upsert.timestampUnixNano == event.timeUnixNano
    && upsert.attributes == KeyValues(event.attributes)
    && upsert.droppedAttributesCount == event.droppedAttributesCount
  }

  predicate TellsLink(upsert: LinkUpsert, link: Link) {
    && upsert.traceId == HexEncode(link.traceId) && upsert.spanId == HexEncode(link.spanId)
    && upsert.traceState == link.traceState && upsert.attributes == KeyValues(link.attributes)
    && upsert.droppedAttributesCount == link.droppedAttributesCount && upsert.flags == link.flags
  }

  lemma NormalizedSpanTells(config: Config, span: Span, resource: map<string, Value>, scope: map<string, Value>)
    ensures Tells(NormalizedSpan(config, span, resource, scope), span)
  {
    hide HexEncode, Category, KeyValues;
    var upsert := NormalizedSpan(config, span, resource, scope);
    assert forall i :: 0 <= i < |span.events| ==> upsert.events[i] == NormalizedEvent(span.events[i]);
    assert forall i :: 0 <= i < |span.links| ==> upsert.links[i] == NormalizedLink(span.links[i]);
  }

  /** Where one span of a request stands: its resource group, its scope group and its place there. */
  datatype Position = Position(resource: nat, scope: nat, span: nat)

  predicate Holds(request: Request, p: Position) {
    && p.resource < |request.resourceSpans|
    && p.scope < |request.resourceSpans[p.resource].scopeSpans|
    && p.span < |request.resourceSpans[p.resource].scopeSpans[p.scope].spans|
  }

  function SpanAt(request: Request, p: Position): Span
    requires Holds(request, p)
  {
    request.resourceSpans[p.resource].scopeSpans[p.scope].spans[p.span]
  }

  function NormalizedAt(config: Config, request: Request, p: Position): SpanUpsert
    requires Holds(request, p)
  {
    var resource := request.resourceSpans[p.resource];
    NormalizedSpan(config, SpanAt(request, p), ResourceFacts(resource), ScopeFacts(resource.scopeSpans[p.scope]))
  }

  /** The order in which the request lists its spans. */
  predicate Before(p: Position, q: Position) {
    || p.resource < q.resource
    || (p.resource == q.resource && p.scope < q.scope)
    || (p.resource == q.resource && p.scope == q.scope && p.span < q.span)
  }

  function SpansInScopes(scopes: seq<ScopeSpans>): nat {
    if scopes == [] then 0 else SpansInScopes(scopes[..|scopes| - 1]) + |scopes[|scopes| - 1].spans|
  }

  function SpansInResources(resources: seq<ResourceSpans>): nat {
    if resources == [] then 0
    else SpansInResources(resources[..|resources| - 1]) + SpansInScopes(resources[|resources| - 1].scopeSpans)
  }

  /** The positions of the spans that were kept: in request order, acceptable, and each normalised as it stands. */
  ghost predicate Keeps(config: Config, request: Request, output: seq<SpanUpsert>, kept: seq<Position>) {
    && |kept| == |output|
    && (forall k :: 0 <= k < |kept| ==>
          Holds(request, kept[k]) && Acceptable(config, SpanAt(request, kept[k]))
          && output[k] == NormalizedAt(config, request, kept[k]))
    && (forall k, l :: 0 <= k < l < |kept| ==> Before(kept[k], kept[l]))
  }

  /** Every acceptable span before `limit` has been kept. */
  ghost predicate KeepsAllBefore(config: Config, request: Request, kept: seq<Position>, limit: Position) {
    && (forall p :: Holds(request, p) && Before(p, limit) && Acceptable(config, SpanAt(request, p)) ==> p in kept)
    && (forall k :: 0 <= k < |kept| ==> Before(kept[k], limit))
  }

  /** Whether any span before `limit` was turned away. */
  ghost predicate AllAcceptableBefore(config: Config, request: Request, limit: Position) {
    forall p :: Holds(request, p) && Before(p, limit) ==> Acceptable(config, SpanAt(request, p))
  }

  method NormalizeEvents(events: seq<Event>) returns (upserts: seq<EventUpsert>)
    ensures |upserts| == |events|
    ensures forall i :: 0 <= i < |events| ==> upserts[i] == NormalizedEvent(events[i])
  {
    upserts := [];
    for i := 0 to |events|
      invariant |upserts| == i
      invariant forall j :: 0 <= j < i ==> upserts[j] == NormalizedEvent(events[j])
    {
      upserts := upserts + [NormalizedEvent(events[i])];
    }
  }

  method NormalizeLinks(links: seq<Link>) returns (upserts: seq<LinkUpsert>)
    ensures |upserts| == |links|
    ensures forall i :: 0 <= i < |links| ==> upserts[i] == NormalizedLink(links[i])
  {
    upserts := [];
    for i := 0 to |links|
      invariant |upserts| == i
      invariant forall j :: 0 <= j < i ==> upserts[j] == NormalizedLink(links[j])
    {
      upserts := upserts + [NormalizedLink(links[i])];
    }
  }

  /** One span: kept or counted as rejected. */
  method NormalizeSpan(config: Config, span: Span, resource: map<string, Value>, scope: map<string, Value>)
    returns (result: Option<SpanUpsert>)
    ensures result == if Acceptable(config, span) then Some(NormalizedSpan(config, span, resource, scope)) else None
    ensures result.None? <==>
      |span.traceId| != 16 || |span.spanId| != 8 || |span.attributes| > config.maxAttributesPerSpan
    ensures result.Some? ==> Tells(result.value, span) && result.value.sourceId == config.sourceId
    ensures result.Some? ==> result.value.resource == resource && result.value.scope == scope
  {
    if |span.traceId| != 16 || |span.spanId| != 8 || |span.attributes| > config.maxAttributesPerSpan {
      return None;
    }
    hide HexEncode, Category, KeyValues, NormalizedEvent, NormalizedLink, Tells, LogicalIdentity;
    NormalizedSpanTells(config, span, resource, scope);
    var traceId := HexEncode(span.traceId);
    var parentId := if span.parentSpanId == [] then None else Some(HexEncode(span.parentSpanId));
    var attributes := KeyValues(span.attributes);
    var status := if span.status.Some? then span.status.value else Status("", 0);
    var logicalTraceId := HexEncode(config.digest(LogicalIdentity(config.sourceId, span.traceId)));
    var events := NormalizeEvents(span.events);
    var links := NormalizeLinks(span.links);
    var upsert := SpanUpsert(
      config.sourceId, traceId, HexEncode(span.spanId), parentId, logicalTraceId,
      span.name, Category(attributes), span.kind, span.startTimeUnixNano, span.endTimeUnixNano,
      status.code, status.message, span.traceState, span.flags,
      span.droppedAttributesCount, span.droppedEventsCount, span.droppedLinksCount,
      resource, scope, attributes, events, links);
    assert events == NormalizedSpan(config, span, resource, scope).events;
    assert links == NormalizedSpan(config, span, resource, scope).links;
    result := Some(upsert);
  }

  lemma PassedOneMore(config: Config, request: Request, kept: seq<Position>, p: Position)
    requires KeepsAllBefore(config, request, kept, p) && Holds(request, p)
    ensures var next := Position(p.resource, p.scope, p.span + 1);
      if Acceptable(config, SpanAt(request, p)) then KeepsAllBefore(config, request, kept + [p], next)
      else KeepsAllBefore(config, request, kept, next)
    ensures AllAcceptableBefore(config, request, Position(p.resource, p.scope, p.span + 1))
        <==> AllAcceptableBefore(config, request, p) && Acceptable(config, SpanAt(request, p))
  {
  }

  lemma KeptOneMore(config: Config, request: Request, output: seq<SpanUpsert>, kept: seq<Position>, p: Position)
    requires Keeps(config, request, output, kept) && KeepsAllBefore(config, request, kept, p)
    requires Holds(request, p) && Acceptable(config, SpanAt(request, p))
    ensures Keeps(config, request, output + [NormalizedAt(config, request, p)], kept + [p])
  {
    hide NormalizedSpan, ResourceFacts, ScopeFacts;
    assert forall k :: 0 <= k < |kept| ==> Before((kept + [p])[k], p);
  }

  lemma KeptToNextScope(config: Config, request: Request, kept: seq<Position>, p: Position)
    requires KeepsAllBefore(config, request, kept, p)
    requires p.resource < |request.resourceSpans| && p.scope < |request.resourceSpans[p.resource].scopeSpans|
    requires p.span == |request.resourceSpans[p.resource].scopeSpans[p.scope].spans|
    ensures KeepsAllBefore(config, request, kept, Position(p.resource, p.scope + 1, 0))
    ensures AllAcceptableBefore(config, request, Position(p.resource, p.scope + 1, 0))
        <==> AllAcceptableBefore(config, request, p)
  {}

  lemma KeptToNextResource(config: Config, request: Request, kept: seq<Position>, p: Position)
    requires KeepsAllBefore(config, request, kept, p)
    requires p.resource < |request.resourceSpans|
    requires p.scope == |request.resourceSpans[p.resource].scopeSpans| && p.span == 0
    ensures KeepsAllBefore(config, request, kept, Position(p.resource + 1, 0, 0))
    ensures AllAcceptableBefore(config, request, Position(p.resource + 1, 0, 0))
        <==> AllAcceptableBefore(config, request, p)
  {}

  /** One resource group: its acceptable spans are appended in order, the others are counted. */
  method NormalizeResourceSpans(config: Config, request: Request, r: nat, output: seq<SpanUpsert>, rejected: nat,
                                ghost kept: seq<Position>)
    returns (output': seq<SpanUpsert>, rejected': nat, ghost kept': seq<Position>)
    requires r < |request.resourceSpans|
    requires Keeps(config, request, output, kept)
    requires KeepsAllBefore(config, request, kept, Position(r, 0, 0))
    requires rejected == 0 <==> AllAcceptableBefore(config, request, Position(r, 0, 0))
    ensures Keeps(config, request, output', kept')
    ensures KeepsAllBefore(config, request, kept', Position(r + 1, 0, 0))
    ensures |output'| + rejected' == |output| + rejected + SpansInScopes(request.resourceSpans[r].scopeSpans)
    ensures rejected' == 0 <==> AllAcceptableBefore(config, request, Position(r + 1, 0, 0))
  {
    hide Keeps, KeepsAllBefore, AllAcceptableBefore, NormalizedSpan, ResourceFacts, ScopeFacts;
    var group := request.resourceSpans[r];
    var resource := ResourceFacts(group);
    output', rejected', kept' := output, rejected, kept;
    for s := 0 to |group.scopeSpans|
      invariant Keeps(config, request, output', kept')
      invariant KeepsAllBefore(config, request, kept', Position(r, s, 0))
      invariant |output'| + rejected' == |output| + rejected + SpansInScopes(group.scopeSpans[..s])
      invariant rejected' == 0 <==> AllAcceptableBefore(config, request, Position(r, s, 0))
    {
      var scopeSpans := group.scopeSpans[s];
      var scope := ScopeFacts(scopeSpans);
      for i := 0 to |scopeSpans.spans|
        invariant Keeps(config, request, output', kept')
        invariant KeepsAllBefore(config, request, kept', Position(r, s, i))
        invariant |output'| + rejected' == |output| + rejected + SpansInScopes(group.scopeSpans[..s]) + i
        invariant rejected' == 0 <==> AllAcceptableBefore(config, request, Position(r, s, i))
      {
        ghost var p := Position(r, s, i);
        PassedOneMore(config, request, kept', p);
        var normalized := NormalizeSpan(config, scopeSpans.spans[i], resource, scope);
        if normalized.Some? {
          KeptOneMore(config, request, output', kept', p);
          output' := output' + [normalized.value];
          kept' := kept' + [p];
        } else {
          rejected' := rejected' + 1;
        }
      }
      KeptToNextScope(config, request, kept', Position(r, s, |scopeSpans.spans|));
      assert group.scopeSpans[..s + 1][..s] == group.scopeSpans[..s];
    }
    assert group.scopeSpans[..|group.scopeSpans|] == group.scopeSpans;
    KeptToNextResource(config, request, kept', Position(r, |group.scopeSpans|, 0));
  }

  /** The acceptable spans of a request, as positions in request order. */
  ghost predicate IsSelection(config: Config, request: Request, kept: seq<Position>) {
    && (forall k, l :: 0 <= k < l < |kept| ==> Before(kept[k], kept[l]))
    && (forall p :: p in kept <==> Holds(request, p) && Acceptable(config, SpanAt(request, p)))
  }

  /** The batch holds the first acceptable spans, in order and up to the limit, and counts all the others. */
  ghost predicate IsBatchOf(config: Config, request: Request, kept: seq<Position>, batch: Batch) {
    && IsSelection(config, request, kept)
    && |batch.spans| == (if |kept| > config.maxSpansPerRequest then config.maxSpansPerRequest else |kept|)
    && (forall k :: 0 <= k < |batch.spans| ==>
          Holds(request, kept[k]) && batch.spans[k] == NormalizedAt(config, request, kept[k]))
    && |batch.spans| + batch.rejectedSpans == SpansInResources(request.resourceSpans)
    && (batch.rejectedSpans == 0 <==>
          |kept| <= config.maxSpansPerRequest
          && forall p :: Holds(request, p) ==> Acceptable(config, SpanAt(request, p)))
  }

  /** `normalize_request`: no span is lost, each is either in the batch or counted as rejected. */
  method NormalizeRequest(config: Config, request: Request) returns (batch: Batch, ghost kept: seq<Position>)
    ensures IsBatchOf(config, request, kept, batch) && batch.sourceId == config.sourceId
  {
    hide NormalizedSpan, NormalizedAt, ResourceFacts, ScopeFacts, Acceptable;
    var spans: seq<SpanUpsert> := [];
    var rejected: nat := 0;
    kept := [];
    for r := 0 to |request.resourceSpans|
      invariant Keeps(config, request, spans, kept)
      invariant KeepsAllBefore(config, request, kept, Position(r, 0, 0))
      invariant |spans| + rejected == SpansInResources(request.resourceSpans[..r])
      invariant rejected == 0 <==> AllAcceptableBefore(config, request, Position(r, 0, 0))
    {
      spans, rejected, kept := NormalizeResourceSpans(config, request, r, spans, rejected, kept);
      assert request.resourceSpans[..r + 1][..r] == request.resourceSpans[..r];
    }
    assert request.resourceSpans[..|request.resourceSpans|] == request.resourceSpans;
    if |spans| > config.maxSpansPerRequest {
      rejected := rejected + (|spans| - config.maxSpansPerRequest);
      spans := spans[..config.maxSpansPerRequest];
    }
    batch := Batch(config.sourceId, spans, rejected);
  }
}
