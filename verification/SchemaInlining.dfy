/**
 Inlining of local schema references: every `$ref` to a definition of the same document is replaced by
 that definition, itself inlined, while a stack of the names being resolved stops recursive definitions.
 */
module SchemaInlining {
  import opened Json
  import opened Lists
  import opened Options

  const PREFIX: string := "#/$defs/"

  type Definitions = map<string, Value>

  /** The local name a node refers to, if it is a reference at all. */
  function RefName(v: Value): Option<string> {
    if v.Object? && "$ref" in v.fields && v.fields["$ref"].Str?
       && PREFIX <= v.fields["$ref"].text
    then Some(v.fields["$ref"].text[|PREFIX|..])
    else None
  }

  /** A node that refers to an existing definition. */
  predicate IsRef(v: Value, defs: Definitions) {
    RefName(v).Some? && RefName(v).value in defs
  }

  /** The inlined definition, with the reference's other keys laid over it when both are objects. */
  function Merge(replacement: Value, original: Value): Value {
    if replacement.Object? && original.Object?
    then Object(replacement.fields + (original.fields - {"$ref"}))
    else replacement
  }

  function Unresolved(defs: Definitions, resolving: seq<string>): set<string> {
    defs.Keys - set n | n in resolving
  }

  lemma PushShrinks(defs: Definitions, resolving: seq<string>, name: string)
    requires name in defs && name !in resolving
    ensures Unresolved(defs, resolving + [name]) == Unresolved(defs, resolving) - {name}
    ensures |Unresolved(defs, resolving + [name])| < |Unresolved(defs, resolving)|
  {
  }

  /**
   `inline_schema_node`.  It ends on every schema, recursive definitions included: a followed reference
   leaves one name fewer to resolve, and every other step goes to a smaller node.
   */
  function Inline(v: Value, defs: Definitions, resolving: seq<string>): Value
    decreases |Unresolved(defs, resolving)|, v
  {
    if IsRef(v, defs) && RefName(v).value !in resolving then
      var name := RefName(v).value;
      PushShrinks(defs, resolving, name);
      Merge(Inline(defs[name], defs, resolving + [name]), v)
    else
      match v
      case Array(items) =>
        Array(seq(|items|, i requires 0 <= i < |items| => Inline(items[i], defs, resolving)))
      case Object(fields) => Object(map k | k in fields :: Inline(fields[k], defs, resolving))
      case _ => v
  }

  function WithoutDefs(v: Value): Value {
    if v.Object? then Object(v.fields - {"$defs"}) else v
  }

  function DefinitionsOf(v: Value): Definitions {
    if v.Object? && "$defs" in v.fields && v.fields["$defs"].Object? then v.fields["$defs"].fields else map[]
  }

  /** `inline_local_schema_refs`. */
  function InlineLocal(v: Value): Value {
    WithoutDefs(Inline(v, DefinitionsOf(v), []))
  }

  class ResolvingStack {
    var names: seq<string>

    constructor ()
      ensures names == []
    {
      names := [];
    }
  }

  /** The walk as it is written, on a shared stack that every call leaves as it found it. */
  method InlineSchemaNode(v: Value, defs: Definitions, resolving: ResolvingStack) returns (result: Value)
    modifies resolving
    ensures result == Inline(v, defs, old(resolving.names))
    ensures resolving.names == old(resolving.names)
    decreases |Unresolved(defs, resolving.names)|, v, 1
  {
    var reference := RefName(v);
    if reference.Some? && reference.value !in resolving.names && reference.value in defs {
      PushShrinks(defs, resolving.names, reference.value);
      resolving.names := resolving.names + [reference.value];
      var replacement := InlineSchemaNode(defs[reference.value], defs, resolving);
      resolving.names := resolving.names[..|resolving.names| - 1];
      return Merge(replacement, v);
    }
    match v {
      case Array(items) =>
        var inlined := InlineItems(v, defs, resolving);
        result := Array(inlined);
        assert inlined == Inline(v, defs, old(resolving.names)).items;
      case Object(fields) =>
        var inlined := InlineFields(v, defs, resolving);
        result := Object(inlined);
        assert inlined == Inline(v, defs, old(resolving.names)).fields;
      case _ => result := v;
    }
  }

  method InlineItems(v: Value, defs: Definitions, resolving: ResolvingStack) returns (inlined: seq<Value>)
    requires v.Array?
    modifies resolving
    ensures resolving.names == old(resolving.names)
    ensures |inlined| == |v.items|
    ensures forall i :: 0 <= i < |v.items| ==> inlined[i] == Inline(v.items[i], defs, old(resolving.names))
    decreases |Unresolved(defs, resolving.names)|, v, 0
  {
    inlined := [];
    for i := 0 to |v.items|
      invariant resolving.names == old(resolving.names)
      invariant |inlined| == i
      invariant forall j :: 0 <= j < i ==> inlined[j] == Inline(v.items[j], defs, old(resolving.names))
    {
      var item := InlineSchemaNode(v.items[i], defs, resolving);
      inlined := inlined + [item];
    }
  }

  method InlineFields(v: Value, defs: Definitions, resolving: ResolvingStack) returns (inlined: map<string, Value>)
    requires v.Object?
    modifies resolving
    ensures resolving.names == old(resolving.names)
    ensures inlined.Keys == v.fields.Keys
    ensures forall k :: k in v.fields ==> inlined[k] == Inline(v.fields[k], defs, old(resolving.names))
    decreases |Unresolved(defs, resolving.names)|, v, 0
  {
    inlined := map[];
    var left := v.fields.Keys;
    while left != {}
      invariant resolving.names == old(resolving.names)
      invariant left <= v.fields.Keys && inlined.Keys == v.fields.Keys - left
      invariant forall k :: k in inlined ==> inlined[k] == Inline(v.fields[k], defs, old(resolving.names))
      decreases left
    {
      var k :| k in left;
      var field := InlineSchemaNode(v.fields[k], defs, resolving);
      inlined := inlined[k := field];
      left := left - {k};
    }
  }

  method InlineLocalSchemaRefs(v: Value) returns (result: Value)
    ensures result == InlineLocal(v)
  {
    var resolving := new ResolvingStack();
    var inlined := InlineSchemaNode(v, DefinitionsOf(v), resolving);
    result := WithoutDefs(inlined);
  }

  // ------------------------------------------------------------- no reference left

  /** No node inside `v` refers to a definition. */
  predicate RefFree(v: Value, defs: Definitions) {
    && !IsRef(v, defs)
    && match v
       case Array(items) => forall i :: 0 <= i < |items| ==> RefFree(items[i], defs)
       case Object(fields) => forall k :: k in fields ==> RefFree(fields[k], defs)
       case _ => true
  }

  /** Wherever `v` refers to a definition, the reference's other keys hold no references. */
  predicate SiblingsRefFree(v: Value, defs: Definitions) {
    if IsRef(v, defs) then forall k :: k in v.fields && k != "$ref" ==> RefFree(v.fields[k], defs)
    else
      match v
      case Array(items) => forall i :: 0 <= i < |items| ==> SiblingsRefFree(items[i], defs)
      case Object(fields) => forall k :: k in fields ==> SiblingsRefFree(fields[k], defs)
      case _ => true
  }

  /** References stand alone. */
  predicate Bare(v: Value, defs: Definitions) {
    if IsRef(v, defs) then v.fields.Keys == {"$ref"}
    else
      match v
      case Array(items) => forall i :: 0 <= i < |items| ==> Bare(items[i], defs)
      case Object(fields) => forall k :: k in fields ==> Bare(fields[k], defs)
      case _ => true
  }

  /** Definitions are schemas: objects or booleans. */
  predicate AreSchemas(defs: Definitions) {
    forall name :: name in defs ==> defs[name].Object? || defs[name].Bool?
  }

  /** Following references from `v` never comes back to a name that is being resolved. */
  predicate Safe(v: Value, defs: Definitions, resolving: seq<string>)
    decreases |Unresolved(defs, resolving)|, v
  {
    if IsRef(v, defs) then
      var name := RefName(v).value;
      if name in resolving then false
      else
        PushShrinks(defs, resolving, name);
        Safe(defs[name], defs, resolving + [name])
    else
      match v
      case Array(items) => forall i :: 0 <= i < |items| ==> Safe(items[i], defs, resolving)
      case Object(fields) => forall k :: k in fields ==> Safe(fields[k], defs, resolving)
      case _ => true
  }

  lemma {:induction false} InlineKeepsSchemas(v: Value, defs: Definitions, resolving: seq<string>)
    requires AreSchemas(defs)
    ensures v.Object? || v.Bool? ==> Inline(v, defs, resolving).Object? || Inline(v, defs, resolving).Bool?
    ensures !v.Object? && !v.Array? ==> Inline(v, defs, resolving) == v
    ensures !v.Str? ==> !Inline(v, defs, resolving).Str?
    decreases |Unresolved(defs, resolving)|, v
  {
    if IsRef(v, defs) && RefName(v).value !in resolving {
      var name := RefName(v).value;
      PushShrinks(defs, resolving, name);
      InlineKeepsSchemas(defs[name], defs, resolving + [name]);
    }
  }

  /** Where nothing cyclic is reached and siblings hold no references, no reference to a definition is left. */
  lemma {:induction false} SafeInlinesFully(v: Value, defs: Definitions, resolving: seq<string>)
    requires AreSchemas(defs) && SiblingsRefFree(v, defs)
    requires forall name :: name in defs ==> SiblingsRefFree(defs[name], defs)
    requires Safe(v, defs, resolving)
    ensures RefFree(Inline(v, defs, resolving), defs)
    decreases |Unresolved(defs, resolving)|, v
  {
    if IsRef(v, defs) {
      var name := RefName(v).value;
      PushShrinks(defs, resolving, name);
      SafeInlinesFully(defs[name], defs, resolving + [name]);
      MergeRefFree(Inline(defs[name], defs, resolving + [name]), v, defs);
    } else {
      match v
      case Array(items) =>
        forall i | 0 <= i < |items| ensures RefFree(Inline(items[i], defs, resolving), defs) {
          SafeInlinesFully(items[i], defs, resolving);
        }
      case Object(fields) =>
        forall k | k in fields ensures RefFree(Inline(fields[k], defs, resolving), defs) {
          SafeInlinesFully(fields[k], defs, resolving);
        }
        if "$ref" in fields {
          InlineKeepsSchemas(fields["$ref"], defs, resolving);
        }
        assert RefName(Inline(v, defs, resolving)) == RefName(v);
      case _ =>
    }
  }

  lemma MergeRefFree(replacement: Value, original: Value, defs: Definitions)
    requires RefFree(replacement, defs) && original.Object?
    requires forall k :: k in original.fields && k != "$ref" ==> RefFree(original.fields[k], defs)
    ensures RefFree(Merge(replacement, original), defs)
  {
  }

  /** A reference to a name that is being resolved is still there afterwards. */
  lemma StackedRefStays(v: Value, defs: Definitions, resolving: seq<string>)
    requires IsRef(v, defs)
    ensures RefName(v).value in resolving ==> RefName(Inline(v, defs, resolving)) == RefName(v)
  {
  }

  lemma PartsAreRefFree(v: Value, defs: Definitions, resolving: seq<string>)
    requires !IsRef(v, defs) && RefFree(Inline(v, defs, resolving), defs)
    ensures v.Array? ==> forall i :: 0 <= i < |v.items| ==> RefFree(Inline(v.items[i], defs, resolving), defs)
    ensures v.Object? ==> forall k :: k in v.fields ==> RefFree(Inline(v.fields[k], defs, resolving), defs)
  {
    var out := Inline(v, defs, resolving);
    match v
    case Array(items) => assert forall i :: 0 <= i < |items| ==> out.items[i] == Inline(items[i], defs, resolving);
    case Object(fields) => assert forall k :: k in fields ==> out.fields[k] == Inline(fields[k], defs, resolving);
    case _ =>
  }

  lemma BareRefIsItsDefinition(v: Value, defs: Definitions, resolving: seq<string>)
    requires IsRef(v, defs) && RefName(v).value !in resolving && Bare(v, defs)
    ensures var name := RefName(v).value;
      Inline(v, defs, resolving) == Inline(defs[name], defs, resolving + [name])
  {
    var name := RefName(v).value;
    assert v.fields - {"$ref"} == map[];
    assert Merge(Inline(defs[name], defs, resolving + [name]), v) == Inline(defs[name], defs, resolving + [name]);
  }

  /** For references that stand alone the converse holds too: what is fully inlined reached nothing cyclic. */
  lemma {:induction false} FullyInlinedIsSafe(v: Value, defs: Definitions, resolving: seq<string>)
    requires Bare(v, defs) && forall name :: name in defs ==> Bare(defs[name], defs)
    requires RefFree(Inline(v, defs, resolving), defs)
    ensures Safe(v, defs, resolving)
    decreases |Unresolved(defs, resolving)|, v
  {
    if IsRef(v, defs) {
      var name := RefName(v).value;
      StackedRefStays(v, defs, resolving);
      PushShrinks(defs, resolving, name);
      BareRefIsItsDefinition(v, defs, resolving);
      FullyInlinedIsSafe(defs[name], defs, resolving + [name]);
    } else {
      PartsAreRefFree(v, defs, resolving);
      match v
      case Array(items) =>
        forall i | 0 <= i < |items| ensures Safe(items[i], defs, resolving) {
          FullyInlinedIsSafe(items[i], defs, resolving);
        }
      case Object(fields) =>
        forall k | k in fields ensures Safe(fields[k], defs, resolving) {
          FullyInlinedIsSafe(fields[k], defs, resolving);
        }
      case _ =>
    }
  }

  // ---------------------------------------------------------------------- cycles

  /** Some node inside `v`, not below another reference, refers to the definition `name`. */
  predicate Mentions(v: Value, defs: Definitions, name: string) {
    if IsRef(v, defs) then RefName(v).value == name
    else
      match v
      case Array(items) => exists i :: 0 <= i < |items| && Mentions(items[i], defs, name)
      case Object(fields) => exists k :: k in fields && Mentions(fields[k], defs, name)
      case _ => false
  }

  /** `v` mentions the first name, and each named definition mentions the next. */
  predicate Chain(v: Value, defs: Definitions, names: seq<string>)
    decreases |names|
  {
    names == [] || (names[0] in defs && Mentions(v, defs, names[0]) && Chain(defs[names[0]], defs, names[1..]))
  }

  ghost predicate Fresh(names: seq<string>, resolving: seq<string>) {
    Distinct(names) && forall i :: 0 <= i < |names| ==> names[i] !in resolving
  }

  /** No chain of definitions from `v` ever repeats a name. */
  ghost predicate Acyclic(v: Value, defs: Definitions) {
    forall names :: Chain(v, defs, names) ==> Distinct(names)
  }

  lemma FreshCons(first: string, rest: seq<string>, resolving: seq<string>)
    ensures Fresh([first] + rest, resolving) <==> first !in resolving && Fresh(rest, resolving + [first])
  {
    var names := [first] + rest;
    assert forall i :: 0 <= i < |rest| ==> names[i + 1] == rest[i];
    if Fresh(names, resolving) {
      assert names[0] == first;
    }
    if first !in resolving && Fresh(rest, resolving + [first]) {
      forall i, j | 0 <= i < j < |names| ensures names[i] != names[j] {
        if i == 0 { assert rest[j - 1] !in resolving + [first]; }
      }
      assert forall i :: 1 <= i < |names| ==> names[i] == rest[i - 1];
    }
  }

  lemma {:induction false} SafeMention(v: Value, defs: Definitions, resolving: seq<string>, name: string)
    requires Safe(v, defs, resolving) && Mentions(v, defs, name) && name in defs
    ensures name !in resolving && Safe(defs[name], defs, resolving + [name])
    decreases v
  {
    if !IsRef(v, defs) {
      match v
      case Array(items) =>
        var i :| 0 <= i < |items| && Mentions(items[i], defs, name);
        SafeMention(items[i], defs, resolving, name);
      case Object(fields) =>
        var k :| k in fields && Mentions(fields[k], defs, name);
        SafeMention(fields[k], defs, resolving, name);
    }
  }

  lemma {:induction false} SafeChainsAreFresh(v: Value, defs: Definitions, resolving: seq<string>, names: seq<string>)
    requires Safe(v, defs, resolving) && Chain(v, defs, names)
    ensures Fresh(names, resolving)
    decreases |names|
  {
    if names != [] {
      SafeMention(v, defs, resolving, names[0]);
      SafeChainsAreFresh(defs[names[0]], defs, resolving + [names[0]], names[1..]);
      FreshCons(names[0], names[1..], resolving);
      assert names == [names[0]] + names[1..];
    }
  }

  lemma {:induction false} FreshChainsAreSafe(v: Value, defs: Definitions, resolving: seq<string>)
    requires forall names :: Chain(v, defs, names) ==> Fresh(names, resolving)
    ensures Safe(v, defs, resolving)
    decreases |Unresolved(defs, resolving)|, v
  {
    if IsRef(v, defs) {
      var name := RefName(v).value;
      assert Chain(v, defs, [name]);
      assert [name][0] !in resolving;
      PushShrinks(defs, resolving, name);
      forall rest | Chain(defs[name], defs, rest) ensures Fresh(rest, resolving + [name]) {
        assert ([name] + rest)[1..] == rest;
        assert Chain(v, defs, [name] + rest);
        FreshCons(name, rest, resolving);
      }
      FreshChainsAreSafe(defs[name], defs, resolving + [name]);
    } else {
      match v
      case Array(items) =>
        forall i | 0 <= i < |items| ensures Safe(items[i], defs, resolving) {
          forall names | Chain(items[i], defs, names) ensures Fresh(names, resolving) {
            assert Chain(v, defs, names);
          }
          FreshChainsAreSafe(items[i], defs, resolving);
        }
      case Object(fields) =>
        forall k | k in fields ensures Safe(fields[k], defs, resolving) {
          forall names | Chain(fields[k], defs, names) ensures Fresh(names, resolving) {
            assert Chain(v, defs, names);
          }
          FreshChainsAreSafe(fields[k], defs, resolving);
        }
      case _ =>
    }
  }

  /** The walk reaches no name twice exactly when no chain of definitions repeats one. */
  lemma SafeIffAcyclic(v: Value, defs: Definitions)
    ensures Safe(v, defs, []) <==> Acyclic(v, defs)
  {
    if Safe(v, defs, []) {
      forall names | Chain(v, defs, names) ensures Distinct(names) {
        SafeChainsAreFresh(v, defs, [], names);
      }
    }
    if Acyclic(v, defs) {
      FreshChainsAreSafe(v, defs, []);
    }
  }

  // ----------------------------------------------------------------- substitution

  /** On a safe node the stack has no influence on the result. */
  lemma {:induction false} StackIsIrrelevant(v: Value, defs: Definitions, a: seq<string>, b: seq<string>)
    requires Safe(v, defs, a) && Safe(v, defs, b)
    ensures Inline(v, defs, a) == Inline(v, defs, b)
    decreases |Unresolved(defs, a)|, v
  {
    if IsRef(v, defs) {
      var name := RefName(v).value;
      PushShrinks(defs, a, name);
      StackIsIrrelevant(defs[name], defs, a + [name], b + [name]);
    } else {
      match v
      case Array(items) =>
        forall i | 0 <= i < |items| ensures Inline(items[i], defs, a) == Inline(items[i], defs, b) {
          StackIsIrrelevant(items[i], defs, a, b);
        }
        assert Inline(v, defs, a).items == Inline(v, defs, b).items;
      case Object(fields) =>
        forall k | k in fields ensures Inline(fields[k], defs, a) == Inline(fields[k], defs, b) {
          StackIsIrrelevant(fields[k], defs, a, b);
        }
        assert Inline(v, defs, a).fields == Inline(v, defs, b).fields;
      case _ =>
    }
  }

  /**
   For acyclic definitions the result is the full substitution: it obeys the stack-free equations that
   replace each reference by its substituted definition, overlaid with its siblings, and go through
   every other node unchanged.
   */
  lemma FullSubstitution(v: Value, defs: Definitions)
    requires Acyclic(v, defs)
    ensures var full := (u: Value) => Inline(u, defs, []);
      if IsRef(v, defs) then
        full(v) == Merge(full(defs[RefName(v).value]), v)
      else match v
        case Array(items) => full(v) == Array(seq(|items|, i requires 0 <= i < |items| => full(items[i])))
        case Object(fields) => full(v) == Object(map k | k in fields :: full(fields[k]))
        case _ => full(v) == v
  {
    SafeIffAcyclic(v, defs);
    if IsRef(v, defs) {
      var name := RefName(v).value;
      assert [] + [name] == [name];
      forall names | Chain(defs[name], defs, names) ensures Fresh(names, []) {
        SafeChainsAreFresh(defs[name], defs, [name], names);
      }
      FreshChainsAreSafe(defs[name], defs, []);
      StackIsIrrelevant(defs[name], defs, [name], []);
    }
  }

  // -------------------------------------------------------------------- documents

  predicate Carries(v: Value, defs: Definitions) {
    v.Object? && "$defs" in v.fields && v.fields["$defs"] == Object(defs)
  }

  /** Apart from the definitions it carries, a document is inlined as if they were not part of it. */
  lemma DocumentIsInlinedWithoutItsDefinitions(v: Value, defs: Definitions)
    requires Carries(v, defs)
    ensures InlineLocal(v) == WithoutDefs(Inline(Object(v.fields - {"$defs"}), defs, []))
  {
  }

  /**
   A document whose references carry only reference-free siblings, and whose body reaches no definition
   twice along any chain, has no reference to a definition left.
   */
  lemma AcyclicDocumentsInlineFully(v: Value, defs: Definitions)
    requires Carries(v, defs)
    requires var body := Object(v.fields - {"$defs"});
      && AreSchemas(defs) && SiblingsRefFree(body, defs)
      && (forall name :: name in defs ==> SiblingsRefFree(defs[name], defs))
      && Acyclic(body, defs)
    ensures RefFree(InlineLocal(v), defs)
  {
    var body := Object(v.fields - {"$defs"});
    DocumentIsInlinedWithoutItsDefinitions(v, defs);
    SafeIffAcyclic(body, defs);
    SafeInlinesFully(body, defs, []);
    var inlined := Inline(body, defs, []);
    if inlined.Object? {
      assert RefName(WithoutDefs(inlined)) == RefName(inlined);
    }
  }

  /** For references that stand alone this is exact. */
  lemma BareDocumentsInlineFullyIffAcyclic(v: Value, defs: Definitions)
    requires AreSchemas(defs) && Bare(v, defs) && forall name :: name in defs ==> Bare(defs[name], defs)
    ensures RefFree(Inline(v, defs, []), defs) <==> Acyclic(v, defs)
  {
    SafeIffAcyclic(v, defs);
    if Acyclic(v, defs) {
      BareHasNoSiblings(v, defs);
      forall name | name in defs ensures SiblingsRefFree(defs[name], defs) {
        BareHasNoSiblings(defs[name], defs);
      }
      SafeInlinesFully(v, defs, []);
    }
    if RefFree(Inline(v, defs, []), defs) {
      FullyInlinedIsSafe(v, defs, []);
    }
  }

  lemma {:induction false} BareHasNoSiblings(v: Value, defs: Definitions)
    requires Bare(v, defs)
    ensures SiblingsRefFree(v, defs)
  {
    if IsRef(v, defs) {
      assert forall k :: k in v.fields ==> k in v.fields.Keys;
    } else {
      match v
      case Array(items) =>
        forall i | 0 <= i < |items| ensures SiblingsRefFree(items[i], defs) { BareHasNoSiblings(items[i], defs); }
      case Object(fields) =>
        forall k | k in fields ensures SiblingsRefFree(fields[k], defs) { BareHasNoSiblings(fields[k], defs); }
      case _ =>
    }
  }

  // -------------------------------------------------------- exactly what survives

  /** Where a chain of references ends. */
  function EndOf(v: Value, defs: Definitions, resolving: seq<string>): Value
    decreases |Unresolved(defs, resolving)|
  {
    if IsRef(v, defs) && RefName(v).value !in resolving then
      PushShrinks(defs, resolving, RefName(v).value);
      EndOf(defs[RefName(v).value], defs, resolving + [RefName(v).value])
    else v
  }

  /** An object whose `$ref` is no reference itself, but ends in the text of one. */
  predicate BecomesRef(fields: map<string, Value>, defs: Definitions, resolving: seq<string>) {
    "$ref" in fields && IsRef(Object(map["$ref" := EndOf(fields["$ref"], defs, resolving)]), defs)
  }

  /** The keys of a reference that are laid over its definition. */
  function Siblings(v: Value): set<string> {
    if v.Object? then v.fields.Keys - {"$ref"} else {}
  }

  /**
   A reference to a definition is left of `v`, apart from the keys in `hidden`, which keys further out
   overlay.  It is one that is stacked already, one beside a reference that ends in an object and not
   overlaid itself, one that is left of a definition behind the overlay, or one that comes about.
   */
  predicate Survives(v: Value, defs: Definitions, resolving: seq<string>, hidden: set<string>)
    decreases |Unresolved(defs, resolving)|, v
  {
    if IsRef(v, defs) then
      var name := RefName(v).value;
      if name in resolving then true
      else
        PushShrinks(defs, resolving, name);
        || (EndOf(defs[name], defs, resolving + [name]).Object?
            && exists k :: k in v.fields && k != "$ref" && k !in hidden && !RefFree(v.fields[k], defs))
        || Survives(defs[name], defs, resolving + [name], hidden + Siblings(v))
    else
      match v
      case Array(items) => exists i :: 0 <= i < |items| && Survives(items[i], defs, resolving, {})
      case Object(fields) =>
        || BecomesRef(fields, defs, resolving)
        || exists k :: k in fields && k !in hidden && Survives(fields[k], defs, resolving, {})
      case _ => false
  }

  /** Free of references, apart from what the hidden keys hold. */
  predicate FreeOutside(v: Value, defs: Definitions, hidden: set<string>) {
    && !IsRef(v, defs)
    && match v
       case Array(items) => forall i :: 0 <= i < |items| ==> RefFree(items[i], defs)
       case Object(fields) => forall k :: k in fields && k !in hidden ==> RefFree(fields[k], defs)
       case _ => true
  }

  lemma {:induction false} InlineEndsAsEnd(v: Value, defs: Definitions, resolving: seq<string>)
    ensures Inline(v, defs, resolving).Object? <==> EndOf(v, defs, resolving).Object?
    ensures Inline(v, defs, resolving).Str? <==> EndOf(v, defs, resolving).Str?
    ensures EndOf(v, defs, resolving).Str? ==> Inline(v, defs, resolving) == EndOf(v, defs, resolving)
    decreases |Unresolved(defs, resolving)|
  {
    if IsRef(v, defs) && RefName(v).value !in resolving {
      PushShrinks(defs, resolving, RefName(v).value);
      InlineEndsAsEnd(defs[RefName(v).value], defs, resolving + [RefName(v).value]);
    }
  }

  lemma InlinedObjectIsRefIff(v: Value, defs: Definitions, resolving: seq<string>)
    requires v.Object? && !IsRef(v, defs)
    ensures IsRef(Inline(v, defs, resolving), defs) <==> BecomesRef(v.fields, defs, resolving)
  {
    if "$ref" in v.fields {
      InlineEndsAsEnd(v.fields["$ref"], defs, resolving);
    }
  }

  lemma MergeFreeOutside(replacement: Value, v: Value, defs: Definitions, hidden: set<string>)
    requires v.Object? && "$ref" !in hidden
    ensures FreeOutside(Merge(replacement, v), defs, hidden) <==>
      && (replacement.Object? ==>
        forall k :: k in v.fields && k != "$ref" && k !in hidden ==> RefFree(v.fields[k], defs))
      && FreeOutside(replacement, defs, hidden + Siblings(v))
  {
    if replacement.Object? {
      var merged := Merge(replacement, v);
      assert RefName(merged) == RefName(replacement);
      assert forall k :: k in Siblings(v) ==> k in merged.fields && merged.fields[k] == v.fields[k];
      assert forall k :: k in replacement.fields && k !in Siblings(v) ==>
        k in merged.fields && merged.fields[k] == replacement.fields[k];
      assert forall k :: k in merged.fields ==> k in Siblings(v) || k in replacement.fields;
    }
  }

  lemma FreeOutsideNothing(v: Value, defs: Definitions)
    ensures FreeOutside(v, defs, {}) <==> RefFree(v, defs)
  {
  }

  /** What is inlined is free of references, apart from the hidden keys, exactly when nothing survives. */
  lemma {:induction false} FreeIffNothingSurvives(
      v: Value, defs: Definitions, resolving: seq<string>, hidden: set<string>)
    requires "$ref" !in hidden
    ensures FreeOutside(Inline(v, defs, resolving), defs, hidden) <==> !Survives(v, defs, resolving, hidden)
    decreases |Unresolved(defs, resolving)|, v
  {
    if IsRef(v, defs) {
      var name := RefName(v).value;
      if name in resolving {
        StackedRefStays(v, defs, resolving);
      } else {
        var target := defs[name];
        PushShrinks(defs, resolving, name);
        FreeIffNothingSurvives(target, defs, resolving + [name], hidden + Siblings(v));
        InlineEndsAsEnd(target, defs, resolving + [name]);
        MergeFreeOutside(Inline(target, defs, resolving + [name]), v, defs, hidden);
      }
    } else {
      PartsFreeIff(v, defs, resolving, hidden);
      match v
      case Array(items) =>
        forall i | 0 <= i < |items|
          ensures RefFree(Inline(items[i], defs, resolving), defs) <==> !Survives(items[i], defs, resolving, {})
        {
          FreeIffNothingSurvives(items[i], defs, resolving, {});
          FreeOutsideNothing(Inline(items[i], defs, resolving), defs);
        }
      case Object(fields) =>
        forall k | k in fields
          ensures RefFree(Inline(fields[k], defs, resolving), defs) <==> !Survives(fields[k], defs, resolving, {})
        {
          FreeIffNothingSurvives(fields[k], defs, resolving, {});
          FreeOutsideNothing(Inline(fields[k], defs, resolving), defs);
        }
      case _ =>
    }
  }

  lemma PartsFreeIff(v: Value, defs: Definitions, resolving: seq<string>, hidden: set<string>)
    requires !IsRef(v, defs)
    ensures FreeOutside(Inline(v, defs, resolving), defs, hidden) <==>
      match v
      case Array(items) => forall i :: 0 <= i < |items| ==> RefFree(Inline(items[i], defs, resolving), defs)
      case Object(fields) =>
        && !BecomesRef(fields, defs, resolving)
        && forall k :: k in fields && k !in hidden ==> RefFree(Inline(fields[k], defs, resolving), defs)
      case _ => true
  {
    var out := Inline(v, defs, resolving);
    match v
    case Array(items) => assert forall i :: 0 <= i < |items| ==> out.items[i] == Inline(items[i], defs, resolving);
    case Object(fields) =>
      InlinedObjectIsRefIff(v, defs, resolving);
      assert forall k :: k in fields ==> out.fields[k] == Inline(fields[k], defs, resolving);
    case _ =>
  }

  /**
   For every schema and every definitions, recursive ones and ones that are no schemas included: no
   reference to a definition is left of the document exactly when none survives.
   */
  lemma DocumentInlinesFullyIff(v: Value, defs: Definitions)
    requires Carries(v, defs)
    ensures RefFree(InlineLocal(v), defs) <==> !Survives(Object(v.fields - {"$defs"}), defs, [], {"$defs"})
  {
    var body := Object(v.fields - {"$defs"});
    DocumentIsInlinedWithoutItsDefinitions(v, defs);
    FreeIffNothingSurvives(body, defs, [], {"$defs"});
    FreeWithoutDefs(Inline(body, defs, []), defs);
  }

  lemma FreeWithoutDefs(v: Value, defs: Definitions)
    ensures RefFree(WithoutDefs(v), defs) <==> FreeOutside(v, defs, {"$defs"})
  {
    if v.Object? {
      assert RefName(WithoutDefs(v)) == RefName(v);
      var rest := WithoutDefs(v).fields;
      assert forall k :: k in rest <==> k in v.fields && k != "$defs";
      assert forall k :: k in rest ==> rest[k] == v.fields[k];
    }
  }

  // ------------------------------------------------------------ where things come out

  /** A reference, in the words of the format. */
  predicate RefersTo(v: Value, name: string) {
    v.Object? && "$ref" in v.fields && v.fields["$ref"] == Str("#/$defs/" + name)
  }

  lemma RefNameIff(v: Value, name: string)
    ensures RefName(v) == Some(name) <==> RefersTo(v, name)
  {
    if RefersTo(v, name) {
      assert v.fields["$ref"].text[|PREFIX|..] == name;
    }
    if RefName(v) == Some(name) {
      assert v.fields["$ref"].text == PREFIX + name;
    }
  }

  /** What has no reference in it comes out unchanged. */
  lemma {:induction false} RefFreeStays(v: Value, defs: Definitions, resolving: seq<string>)
    requires RefFree(v, defs)
    ensures Inline(v, defs, resolving) == v
    decreases v
  {
    match v
    case Array(items) =>
      forall i | 0 <= i < |items| ensures Inline(items[i], defs, resolving) == items[i] {
        RefFreeStays(items[i], defs, resolving);
      }
      assert Inline(v, defs, resolving).items == items;
    case Object(fields) =>
      forall k | k in fields ensures Inline(fields[k], defs, resolving) == fields[k] {
        RefFreeStays(fields[k], defs, resolving);
      }
      assert Inline(v, defs, resolving).fields == fields;
    case _ =>
  }

  lemma {:induction false} NothingRefersToNothing(v: Value)
    ensures RefFree(v, map[])
  {
    match v
    case Array(items) => forall i | 0 <= i < |items| ensures RefFree(items[i], map[]) { NothingRefersToNothing(items[i]); }
    case Object(fields) => forall k | k in fields ensures RefFree(fields[k], map[]) { NothingRefersToNothing(fields[k]); }
    case _ =>
  }

  /** A document that carries no object of definitions only loses what stands in their place. */
  lemma DocumentWithoutDefinitionsStays(v: Value)
    requires forall defs :: !Carries(v, defs)
    ensures InlineLocal(v) == if v.Object? then Object(v.fields - {"$defs"}) else v
    ensures v.Object? && "$defs" !in v.fields ==> InlineLocal(v) == v
  {
    if v.Object? && "$defs" in v.fields && v.fields["$defs"].Object? {
      assert Carries(v, v.fields["$defs"].fields);
    }
    NothingRefersToNothing(v);
    RefFreeStays(v, map[], []);
    if v.Object? && "$defs" !in v.fields {
      assert v.fields - {"$defs"} == v.fields;
    }
  }

  /** No reference to a definition stands above the end of the path. */
  ghost predicate OpenTo(v: Value, defs: Definitions, path: seq<Step>)
    decreases |path|
  {
    path != [] ==>
      && (forall name :: name in defs ==> !RefersTo(v, name))
      && Enter(v, path[0]).Some? && OpenTo(Enter(v, path[0]).value, defs, path[1..])
  }

  /** Parts stay in their places: what a path leads to comes out inlined at the end of that path. */
  lemma {:induction false} PartsStayInPlace(v: Value, defs: Definitions, resolving: seq<string>, path: seq<Step>)
    requires OpenTo(v, defs, path)
    ensures At(v, path).Some?
    ensures At(Inline(v, defs, resolving), path) == Some(Inline(At(v, path).value, defs, resolving))
    decreases |path|
  {
    if path != [] {
      if IsRef(v, defs) { RefNameIff(v, RefName(v).value); }
      PartsStayInPlace(Enter(v, path[0]).value, defs, resolving, path[1..]);
    }
  }

  /** `out` is the replacement with the reference's other keys laid over it; one that is no object takes none. */
  ghost predicate Overlays(out: Value, replacement: Value, reference: Value)
    requires reference.Object?
  {
    if !replacement.Object? then out == replacement
    else
      && out.Object?
      && out.fields.Keys == replacement.fields.Keys + (reference.fields.Keys - {"$ref"})
      && (forall k :: k in reference.fields && k != "$ref" ==> out.fields[k] == reference.fields[k])
      && (forall k :: k in replacement.fields && (k in reference.fields ==> k == "$ref") ==>
            out.fields[k] == replacement.fields[k])
  }

  lemma ReferenceIsOverlaid(v: Value, defs: Definitions, resolving: seq<string>, name: string)
    requires RefersTo(v, name) && name in defs && name !in resolving
    ensures Overlays(Inline(v, defs, resolving), Inline(defs[name], defs, resolving + [name]), v)
  {
    RefNameIff(v, name);
    assert Inline(v, defs, resolving) == Merge(Inline(defs[name], defs, resolving + [name]), v);
  }

  /**
   Wherever the body of a document refers to a definition it carries, that definition comes out inlined in
   the same place, overlaid with the reference's other keys.
   */
  lemma ReferencesComeOutInlined(v: Value, defs: Definitions, path: seq<Step>, name: string)
    requires Carries(v, defs) && OpenTo(v, defs, path) && path != [] && path[0] != Field("$defs")
    requires At(v, path).Some? && RefersTo(At(v, path).value, name) && name in defs
    ensures At(InlineLocal(v), path).Some?
    ensures Overlays(At(InlineLocal(v), path).value, Inline(defs[name], defs, [name]), At(v, path).value)
    ensures At(v, path).value.fields.Keys == {"$ref"} && RefFree(defs[name], defs) ==>
      At(InlineLocal(v), path) == Some(defs[name])
  {
    assert [] + [name] == [name];
    var out, part := Inline(v, defs, []), At(v, path).value;
    PartsStayInPlace(v, defs, [], path);
    if IsRef(v, defs) { RefNameIff(v, RefName(v).value); }
    assert Enter(WithoutDefs(out), path[0]) == Enter(out, path[0]);
    assert At(InlineLocal(v), path) == Some(Inline(part, defs, []));
    ReferenceIsOverlaid(part, defs, [], name);
    if part.fields.Keys == {"$ref"} && RefFree(defs[name], defs) {
      RefFreeStays(defs[name], defs, [name]);
      if defs[name].Object? {
        assert Inline(part, defs, []).fields == defs[name].fields;
      }
    }
  }

  /** A document that is nothing but a reference comes out as that definition. */
  lemma RootReferenceComesOutInlined(v: Value, defs: Definitions, name: string)
    requires Carries(v, defs) && RefersTo(v, name) && name in defs && v.fields.Keys == {"$ref", "$defs"}
    ensures InlineLocal(v) ==
      var definition := Inline(defs[name], defs, [name]);
      if definition.Object? then Object(definition.fields - {"$defs"}) else definition
  {
    assert [] + [name] == [name];
    ReferenceIsOverlaid(v, defs, [], name);
    var definition, out := Inline(defs[name], defs, [name]), Inline(v, defs, []);
    if definition.Object? {
      assert out.fields - {"$defs"} == definition.fields - {"$defs"};
    }
  }

  // -------------------------------------------------- why the conditions are there

  /** Keys beside a reference are laid over the definition as they are: a reference among them survives. */
  lemma ReferenceBesideAReferenceSurvives(v: Value, defs: Definitions, key: string)
    requires IsRef(v, defs) && Inline(defs[RefName(v).value], defs, [RefName(v).value]).Object?
    requires key in v.fields && key != "$ref" && !RefFree(v.fields[key], defs)
    ensures !RefFree(Inline(v, defs, []), defs)
  {
    var name := RefName(v).value;
    assert [] + [name] == [name];
    assert Inline(v, defs, []) == Merge(Inline(defs[name], defs, [name]), v);
    assert Inline(v, defs, []).fields[key] == v.fields[key];
  }

  function Alias(name: string): (v: Value)
    ensures RefersTo(v, name)
    ensures RefName(v) == Some(name)
  {
    Object(map["$ref" := Str(PREFIX + name)])
  }

  /** A definition that is a string can turn up as the target of a reference that was not there before. */
  lemma StringDefinitionMakesAReference(name: string)
    ensures var v := Object(map["$ref" := Alias(name)]);
      var defs := map[name := Str(PREFIX + name)];
      && Bare(v, defs) && Acyclic(v, defs)
      && !RefFree(Inline(v, defs, []), defs)
  {
    var v := Object(map["$ref" := Alias(name)]);
    var defs := map[name := Str(PREFIX + name)];
    assert [] + [name] == [name];
    StringsInlineToThemselves(defs, name);
    SafeIffAcyclic(v, defs);
    assert Inline(v, defs, []) == Alias(name);
  }

  lemma StringsInlineToThemselves(defs: Definitions, name: string)
    requires name in defs && defs[name].Str?
    ensures Inline(Alias(name), defs, []) == defs[name]
    ensures Safe(Alias(name), defs, [])
  {
  }
}
