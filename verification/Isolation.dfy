/**
 The benchmark isolation audit: the raw OTLP requests and the normalised batches made from them must
 not carry a held-out label.  The audit has its own converter from attribute values to JSON; what it
 finds must agree with what the receiver stored.
 */
module Isolation {
  import opened Json
  import opened Options
  import opened Guard
  import opened Otlp

  /** The audit's own `any_value_json`. */
  function AnyValueJson(value: AnyValue): Value {
    match value.value
    case Some(StringValue(text)) => Str(text)
    case Some(BoolValue(b)) => Bool(b)
    case Some(IntValue(n)) => Number(Integer(n))
    case Some(DoubleValue(Finite(x))) => Number(Float(x))
    case Some(DoubleValue(NotFinite)) => Null
    case Some(BytesValue(bytes)) => Str(HexEncode(bytes))
    case Some(ArrayValue(values)) => Array(Converted(values))
    case Some(KvlistValue(entries)) => Object(CollectFromFront(ConvertedEntries(entries)))
    case Some(StringValueStrindex(n)) => Number(Integer(n))
    case None => Null
  }

  function Converted(values: seq<AnyValue>): seq<Value> {
    if values == [] then [] else [AnyValueJson(values[0])] + Converted(values[1..])
  }

  function ConvertedEntries(entries: seq<KeyValue>): seq<(string, Value)> {
    if entries == [] then []
    else
      var first := entries[0];
      [(first.key, if first.value.Some? then AnyValueJson(first.value.value) else Null)]
      + ConvertedEntries(entries[1..])
  }

  /** The attribute map that `inspect_otlp_attributes` hands to the guard. */
  function AuditFacts(attributes: seq<KeyValue>): map<string, Value> {
    CollectFromFront(ConvertedEntries(attributes))
  }

  /** The two independent converters agree on every value. */
  lemma {:induction false} ConvertersAgree(value: AnyValue)
    ensures AnyValueJson(value) == ValueToJson(value)
    decreases value, 1
  {
    match value.value
    case Some(ArrayValue(values)) => ArraysAgree(values);
    case Some(KvlistValue(entries)) =>
      EntriesAgree(entries);
      CollectEitherWay(Pairs(entries));
    case _ =>
  }

  lemma {:induction false} ArraysAgree(values: seq<AnyValue>)
    ensures |Converted(values)| == |values|
    ensures forall i :: 0 <= i < |values| ==> Converted(values)[i] == ValueToJson(values[i])
    decreases values, 0
  {
    if values != [] {
      ConvertersAgree(values[0]);
      ArraysAgree(values[1..]);
    }
  }

  lemma {:induction false} EntriesAgree(entries: seq<KeyValue>)
    ensures ConvertedEntries(entries) == Pairs(entries)
    decreases entries, 0
  {
    if entries != [] {
      if entries[0].value.Some? { ConvertersAgree(entries[0].value.value); }
      EntriesAgree(entries[1..]);
      assert Pairs(entries) == [Pairs(entries)[0]] + Pairs(entries[1..]);
    }
  }

  /** So the audit inspects exactly the attribute map the receiver stores, duplicate keys included. */
  lemma FactsAgree(attributes: seq<KeyValue>)
    ensures AuditFacts(attributes) == KeyValues(attributes)
  {
    EntriesAgree(attributes);
    CollectEitherWay(Pairs(attributes));
  }

  // -------------------------------------------------------------- the two audits

  predicate AttributesClean(attributes: seq<KeyValue>) {
    MapClean(KeyValues(attributes))
  }

  predicate SpanClean(span: Span) {
    && AttributesClean(span.attributes)
    && (forall i :: 0 <= i < |span.events| ==> AttributesClean(span.events[i].attributes))
    && (forall i :: 0 <= i < |span.links| ==> AttributesClean(span.links[i].attributes))
  }

  predicate ScopeClean(scope: ScopeSpans) {
    && (scope.scope.Some? ==> AttributesClean(scope.scope.value.attributes))
    && (forall i :: 0 <= i < |scope.spans| ==> SpanClean(scope.spans[i]))
  }

  predicate ResourceClean(resource: ResourceSpans) {
    && (resource.resource.Some? ==> AttributesClean(resource.resource.value))
    && (forall i :: 0 <= i < |resource.scopeSpans| ==> ScopeClean(resource.scopeSpans[i]))
  }

  predicate RequestClean(request: Request) {
    forall i :: 0 <= i < |request.resourceSpans| ==> ResourceClean(request.resourceSpans[i])
  }

  predicate UpsertClean(span: SpanUpsert) {
    && MapClean(span.resource) && MapClean(span.scope) && MapClean(span.attributes)
    && (forall i :: 0 <= i < |span.events| ==> MapClean(span.events[i].attributes))
    && (forall i :: 0 <= i < |span.links| ==> MapClean(span.links[i].attributes))
  }

  predicate BatchClean(batch: Batch) {
    forall i :: 0 <= i < |batch.spans| ==> UpsertClean(batch.spans[i])
  }

  method InspectOtlpAttributes(attributes: seq<KeyValue>, summary: GuardSummary) returns (ok: bool)
    modifies summary`inspectedFacts
    ensures ok <==> AttributesClean(attributes)
  {
    FactsAgree(attributes);
    ok := InspectFactMap(AuditFacts(attributes), summary);
  }

  method InspectSpan(span: Span, summary: GuardSummary) returns (ok: bool)
    modifies summary`inspectedFacts
    ensures ok <==> SpanClean(span)
  {
    ok := InspectOtlpAttributes(span.attributes, summary);
    if !ok { return; }
    for i := 0 to |span.events|
      invariant forall j :: 0 <= j < i ==> AttributesClean(span.events[j].attributes)
    {
      ok := InspectOtlpAttributes(span.events[i].attributes, summary);
      if !ok { return; }
    }
    for i := 0 to |span.links|
      invariant forall j :: 0 <= j < i ==> AttributesClean(span.links[j].attributes)
    {
      ok := InspectOtlpAttributes(span.links[i].attributes, summary);
      if !ok { return; }
    }
    ok := true;
  }

  method InspectScope(scope: ScopeSpans, summary: GuardSummary) returns (ok: bool)
    modifies summary`inspectedFacts
    ensures ok <==> ScopeClean(scope)
  {
    if scope.scope.Some? {
      ok := InspectOtlpAttributes(scope.scope.value.attributes, summary);
      if !ok { return; }
    }
    for i := 0 to |scope.spans|
      invariant forall j :: 0 <= j < i ==> SpanClean(scope.spans[j])
    {
      ok := InspectSpan(scope.spans[i], summary);
      if !ok { return; }
    }
    ok := true;
  }

  /** The raw audit accepts exactly the requests whose every attribute list is clean. */
  method InspectOtlpRequest(request: Request, summary: GuardSummary) returns (ok: bool)
    modifies summary`inspectedFacts
    ensures ok <==> RequestClean(request)
  {
    for i := 0 to |request.resourceSpans|
      invariant forall j :: 0 <= j < i ==> ResourceClean(request.resourceSpans[j])
    {
      var group := request.resourceSpans[i];
      if group.resource.Some? {
        ok := InspectOtlpAttributes(group.resource.value, summary);
        if !ok { return; }
      }
      for s := 0 to |group.scopeSpans|
        invariant forall j :: 0 <= j < s ==> ScopeClean(group.scopeSpans[j])
      {
        ok := InspectScope(group.scopeSpans[s], summary);
        if !ok { return; }
      }
    }
    ok := true;
  }

  method InspectUpsert(span: SpanUpsert, summary: GuardSummary) returns (ok: bool)
    modifies summary`inspectedFacts
    ensures ok <==> UpsertClean(span)
  {
    ok := InspectFactMap(span.resource, summary);
    if !ok { return; }
    ok := InspectFactMap(span.scope, summary);
    if !ok { return; }
    ok := InspectFactMap(span.attributes, summary);
    if !ok { return; }
    for i := 0 to |span.events|
      invariant forall j :: 0 <= j < i ==> MapClean(span.events[j].attributes)
    {
      ok := InspectFactMap(span.events[i].attributes, summary);
      if !ok { return; }
    }
    for i := 0 to |span.links|
      invariant forall j :: 0 <= j < i ==> MapClean(span.links[j].attributes)
    {
      ok := InspectFactMap(span.links[i].attributes, summary);
      if !ok { return; }
    }
    ok := true;
  }

  /** The normalised audit accepts exactly the batches whose every span is clean, and then counts the spans. */
  method InspectNormalizedBatch(batch: Batch, summary: GuardSummary) returns (ok: bool)
    modifies summary
    ensures ok <==> BatchClean(batch)
    ensures summary.spans == old(summary.spans) + (if ok then |batch.spans| else 0)
  {
    for i := 0 to |batch.spans|
      invariant forall j :: 0 <= j < i ==> UpsertClean(batch.spans[j])
      invariant summary.spans == old(summary.spans)
    {
      ok := InspectUpsert(batch.spans[i], summary);
      if !ok { return; }
    }
    summary.spans := summary.spans + |batch.spans|;
    ok := true;
  }

  // -------------------------------------------------------------- the audits agree

  /** No forbidden word has the length of this key. */
  lemma LengthAllows(key: string)
    requires '.' !in key && |key| !in {5, 6, 8, 11, 12, 13}
    ensures !ForbiddenKey(key)
  {
    UndottedKey(key);
  }

  /** The keys the normaliser itself adds to a scope are never forbidden. */
  lemma ScopeKeysAllowed()
    ensures !ForbiddenKey("schema_url") && !ForbiddenKey("name") && !ForbiddenKey("version")
    ensures !ForbiddenKey("attributes") && !ForbiddenKey("dropped_attributes_count")
  {
    LengthAllows("schema_url");
    LengthAllows("name");
    LengthAllows("version");
    LengthAllows("attributes");
    LengthAllows("dropped_attributes_count");
  }

  lemma ScopeFactsClean(scope: ScopeSpans)
    ensures MapClean(ScopeFacts(scope)) <==> (scope.scope.Some? ==> AttributesClean(scope.scope.value.attributes))
  {
    ScopeKeysAllowed();
    var facts := ScopeFacts(scope);
    assert FactClean("schema_url", facts["schema_url"]);
    if scope.scope.Some? {
      var attributes := Object(KeyValues(scope.scope.value.attributes));
      assert facts["attributes"] == attributes;
      assert FactClean("attributes", attributes) <==> MapClean(attributes.fields);
      assert FactClean("name", facts["name"]) && FactClean("version", facts["version"]);
      assert FactClean("dropped_attributes_count", facts["dropped_attributes_count"]);
    }
  }

  lemma NormalizedSpanClean(config: Config, span: Span, resource: map<string, Value>, scope: map<string, Value>)
    ensures UpsertClean(NormalizedSpan(config, span, resource, scope))
        <==> MapClean(resource) && MapClean(scope) && SpanClean(span)
  {
    var u := NormalizedSpan(config, span, resource, scope);
    assert forall i :: 0 <= i < |span.events| ==> u.events[i].attributes == KeyValues(span.events[i].attributes);
    assert forall i :: 0 <= i < |span.links| ==> u.links[i].attributes == KeyValues(span.links[i].attributes);
  }

  /** A normalised span is clean exactly when its resource, its scope and the span itself were. */
  lemma NormalizedAtClean(config: Config, request: Request, p: Position)
    requires Holds(request, p)
    ensures var resource := request.resourceSpans[p.resource];
      var scope := resource.scopeSpans[p.scope];
      UpsertClean(NormalizedAt(config, request, p)) <==>
        && (resource.resource.Some? ==> AttributesClean(resource.resource.value))
        && (scope.scope.Some? ==> AttributesClean(scope.scope.value.attributes))
        && SpanClean(SpanAt(request, p))
  {
    var resource := request.resourceSpans[p.resource];
    ScopeFactsClean(resource.scopeSpans[p.scope]);
    NormalizedSpanClean(config, SpanAt(request, p), ResourceFacts(resource), ScopeFacts(resource.scopeSpans[p.scope]));
  }

  /** Whatever the raw audit accepts, the normalised audit accepts after normalisation. */
  lemma AcceptedRequestsNormalizeClean(config: Config, request: Request, kept: seq<Position>, batch: Batch)
    requires IsBatchOf(config, request, kept, batch) && RequestClean(request)
    ensures BatchClean(batch)
  {
    forall k | 0 <= k < |batch.spans| ensures UpsertClean(batch.spans[k]) {
      var p := kept[k];
      NormalizedAtClean(config, request, p);
      assert ResourceClean(request.resourceSpans[p.resource]);
      assert ScopeClean(request.resourceSpans[p.resource].scopeSpans[p.scope]);
    }
  }

  // ------------------------------------------------------- what normalisation drops

  ghost predicate KeptFromResource(kept: seq<Position>, r: nat) {
    exists k :: 0 <= k < |kept| && kept[k].resource == r
  }

  ghost predicate KeptFromScope(kept: seq<Position>, r: nat, s: nat) {
    exists k :: 0 <= k < |kept| && kept[k].resource == r && kept[k].scope == s
  }

  predicate ResourceFactsClean(resource: ResourceSpans) {
    resource.resource.Some? ==> AttributesClean(resource.resource.value)
  }

  predicate ScopeAttributesClean(scope: ScopeSpans) {
    scope.scope.Some? ==> AttributesClean(scope.scope.value.attributes)
  }

  /**
   What the batch does not show is clean: the spans that were not kept, and the attributes of resource and
   scope groups from which no span was kept.
   */
  ghost predicate DroppedClean(request: Request, kept: seq<Position>) {
    && (forall p :: Holds(request, p) && p !in kept ==> SpanClean(SpanAt(request, p)))
    && (forall r: nat :: r < |request.resourceSpans| ==>
          KeptFromResource(kept, r) || ResourceFactsClean(request.resourceSpans[r]))
    && (forall r: nat, s: nat :: r < |request.resourceSpans| && s < |request.resourceSpans[r].scopeSpans| ==>
          KeptFromScope(kept, r, s) || ScopeAttributesClean(request.resourceSpans[r].scopeSpans[s]))
  }

  /** A clean batch shows that every position it keeps is clean, with its resource and its scope. */
  lemma CleanBatchCleansWhatItKeeps(config: Config, request: Request, kept: seq<Position>, batch: Batch, k: nat)
    requires IsBatchOf(config, request, kept, batch) && BatchClean(batch) && k < |batch.spans|
    ensures Holds(request, kept[k]) && SpanClean(SpanAt(request, kept[k]))
    ensures ResourceFactsClean(request.resourceSpans[kept[k].resource])
    ensures ScopeAttributesClean(request.resourceSpans[kept[k].resource].scopeSpans[kept[k].scope])
  {
    assert UpsertClean(batch.spans[k]);
    NormalizedAtClean(config, request, kept[k]);
  }

  lemma CleanBatchAndDropsCleanScope(
      config: Config, request: Request, kept: seq<Position>, batch: Batch, r: nat, s: nat)
    requires IsBatchOf(config, request, kept, batch) && BatchClean(batch)
    requires DroppedClean(request, kept[..|batch.spans|])
    requires r < |request.resourceSpans| && s < |request.resourceSpans[r].scopeSpans|
    ensures ScopeClean(request.resourceSpans[r].scopeSpans[s])
  {
    hide AttributesClean, SpanClean, NormalizedAt, UpsertClean;
    var shown := kept[..|batch.spans|];
    var scope := request.resourceSpans[r].scopeSpans[s];
    forall i | 0 <= i < |scope.spans| ensures SpanClean(scope.spans[i]) {
      var p := Position(r, s, i);
      assert Holds(request, p) && SpanAt(request, p) == scope.spans[i];
      if p in shown {
        var k :| 0 <= k < |shown| && shown[k] == p;
        CleanBatchCleansWhatItKeeps(config, request, kept, batch, k);
      }
    }
    if KeptFromScope(shown, r, s) {
      var k :| 0 <= k < |shown| && shown[k].resource == r && shown[k].scope == s;
      CleanBatchCleansWhatItKeeps(config, request, kept, batch, k);
    }
    assert ScopeAttributesClean(scope);
  }

  lemma CleanBatchAndDropsCleanResource(config: Config, request: Request, kept: seq<Position>, batch: Batch, r: nat)
    requires IsBatchOf(config, request, kept, batch) && BatchClean(batch)
    requires DroppedClean(request, kept[..|batch.spans|]) && r < |request.resourceSpans|
    ensures ResourceFactsClean(request.resourceSpans[r])
  {
    var shown := kept[..|batch.spans|];
    if KeptFromResource(shown, r) {
      var k :| 0 <= k < |shown| && shown[k].resource == r;
      CleanBatchCleansWhatItKeeps(config, request, kept, batch, k);
    }
  }

  lemma CleanRequestDropsClean(request: Request, kept: seq<Position>)
    requires RequestClean(request)
    ensures DroppedClean(request, kept)
  {
    forall r: nat | r < |request.resourceSpans|
      ensures ResourceFactsClean(request.resourceSpans[r])
      ensures forall s :: 0 <= s < |request.resourceSpans[r].scopeSpans| ==>
        ScopeClean(request.resourceSpans[r].scopeSpans[s])
    {
      assert ResourceClean(request.resourceSpans[r]);
    }
  }

  /** A request is clean exactly when the batch made of it is, and what the batch does not show is. */
  lemma RequestCleanIff(config: Config, request: Request, kept: seq<Position>, batch: Batch)
    requires IsBatchOf(config, request, kept, batch)
    ensures RequestClean(request) <==> BatchClean(batch) && DroppedClean(request, kept[..|batch.spans|])
  {
    hide BatchClean, DroppedClean, ScopeClean, AttributesClean, Otlp.IsSelection;
    var shown := kept[..|batch.spans|];
    if RequestClean(request) {
      AcceptedRequestsNormalizeClean(config, request, kept, batch);
      CleanRequestDropsClean(request, shown);
    }
    if BatchClean(batch) && DroppedClean(request, shown) {
      forall r | 0 <= r < |request.resourceSpans| ensures ResourceClean(request.resourceSpans[r]) {
        CleanBatchAndDropsCleanResource(config, request, kept, batch, r);
        forall s | 0 <= s < |request.resourceSpans[r].scopeSpans|
          ensures ScopeClean(request.resourceSpans[r].scopeSpans[s])
        {
          CleanBatchAndDropsCleanScope(config, request, kept, batch, r, s);
        }
      }
    }
  }

  /** The two audits give the same verdict exactly when the batch shows a leak or what it does not show is clean. */
  lemma AuditsAgreeIff(config: Config, request: Request, kept: seq<Position>, batch: Batch)
    requires IsBatchOf(config, request, kept, batch)
    ensures (RequestClean(request) <==> BatchClean(batch))
      <==> (!BatchClean(batch) || DroppedClean(request, kept[..|batch.spans|]))
  {
    hide IsBatchOf, BatchClean, RequestClean, DroppedClean;
    RequestCleanIff(config, request, kept, batch);
  }

  /** Every resource and scope group that can carry attributes has a span. */
  ghost predicate NoEmptyGroups(request: Request) {
    forall r :: 0 <= r < |request.resourceSpans| ==>
      var group := request.resourceSpans[r];
      && (group.resource.Some? ==> group.scopeSpans != [])
      && (forall s :: 0 <= s < |group.scopeSpans| ==> group.scopeSpans[s].spans != [])
  }

  lemma FirstSpanIsKept(config: Config, request: Request, kept: seq<Position>, batch: Batch, r: nat, s: nat)
    requires IsBatchOf(config, request, kept, batch)
    requires batch.rejectedSpans == 0 && NoEmptyGroups(request)
    requires r < |request.resourceSpans| && s < |request.resourceSpans[r].scopeSpans|
    ensures KeptFromScope(kept, r, s) && KeptFromResource(kept, r)
  {
    var p := Position(r, s, 0);
    assert Holds(request, p);
    var k :| 0 <= k < |kept| && kept[k] == p;
  }

  lemma NothingIsDropped(config: Config, request: Request, kept: seq<Position>, batch: Batch)
    requires IsBatchOf(config, request, kept, batch)
    requires batch.rejectedSpans == 0 && NoEmptyGroups(request)
    ensures DroppedClean(request, kept[..|batch.spans|])
  {
    hide KeptFromScope, KeptFromResource, AttributesClean, SpanClean;
    assert kept[..|batch.spans|] == kept;
    assert forall p :: Holds(request, p) ==> p in kept;
    forall r: nat, s: nat | r < |request.resourceSpans| && s < |request.resourceSpans[r].scopeSpans|
      ensures KeptFromScope(kept, r, s) && KeptFromResource(kept, r)
    {
      FirstSpanIsKept(config, request, kept, batch, r, s);
    }
    forall r: nat | r < |request.resourceSpans|
      ensures KeptFromResource(kept, r) || ResourceFactsClean(request.resourceSpans[r])
    {
      if request.resourceSpans[r].scopeSpans != [] {
        FirstSpanIsKept(config, request, kept, batch, r, 0);
      }
    }
  }

  /** In particular they agree whenever nothing was rejected and no group is empty. */
  lemma AuditsAgreeOnCompleteBatches(config: Config, request: Request, kept: seq<Position>, batch: Batch)
    requires IsBatchOf(config, request, kept, batch)
    requires batch.rejectedSpans == 0 && NoEmptyGroups(request)
    ensures RequestClean(request) <==> BatchClean(batch)
  {
    hide IsBatchOf, BatchClean, RequestClean, DroppedClean, NoEmptyGroups;
    NothingIsDropped(config, request, kept, batch);
    AuditsAgreeIff(config, request, kept, batch);
  }

  /** A label on a resource without spans is seen by the raw audit alone. */
  lemma LabelOnEmptyResourceIsSeenOnlyRaw(config: Config, kept: seq<Position>, batch: Batch)
    requires IsBatchOf(config, LabelOnEmptyResource(), kept, batch)
    ensures !RequestClean(LabelOnEmptyResource()) && BatchClean(batch)
  {
    hide Otlp.NormalizedSpan, Otlp.ScopeFacts, Otlp.Acceptable;
    var attributes := [KeyValue("label", None)];
    UndottedKey("label");
    assert SameKey("label", FORBIDDEN[1]);
    assert attributes[..0] == [] && Pairs(attributes)[..0] == [];
    assert "label" in KeyValues(attributes);
    assert !ResourceClean(LabelOnEmptyResource().resourceSpans[0]);
  }

  function LabelOnEmptyResource(): Request {
    Request([ResourceSpans(Some([KeyValue("label", None)]), [])])
  }
}
