/** The dialect walker of source/accepted_observation.go: no schema resource reachable from the document root
    may select a dialect other than JSON Schema Draft 2020-12. */
module SchemaDialect {
  import opened Wrappers
  import opened Json

  predicate AllowedDialect(name: string) {
    || name == "https://json-schema.org/draft/2020-12/schema"
    || name == "http://json-schema.org/draft/2020-12/schema"
  }

  predicate HasResourceId(v: Value) {
    v.VObject? && "$id" in v.fields && v.fields["$id"].VString? && v.fields["$id"].text != ""
  }

  /** `$schema` is present and is not one of the two allowed URLs. */
  predicate DeclaresForeignDialect(v: Value) {
    v.VObject? && "$schema" in v.fields
    && !(v.fields["$schema"].VString? && AllowedDialect(v.fields["$schema"].text))
  }

  // ---------- the walker ----------

  /** requireAdmissionDraft202012Value */
  predicate Accepts(v: Value, resourceRoot: bool)
    decreases v, 1
  {
    v.VObject? ==>
      && (resourceRoot ==> !DeclaresForeignDialect(v))
      && forall keyword | keyword in v.fields :: AcceptsKeyword(keyword, v.fields[keyword])
  }

  predicate AcceptsKeyword(keyword: string, nested: Value)
    decreases nested, 4
  {
    if keyword in {"not", "additionalProperties", "additionalItems", "propertyNames", "contains", "if", "then", "else",
                   "unevaluatedProperties", "unevaluatedItems", "contentSchema"} then AcceptsSubschema(nested)
    else if keyword in {"definitions", "properties", "patternProperties", "dependencies", "$defs", "dependentSchemas"}
    then AcceptsMap(nested)
    else if keyword in {"allOf", "anyOf", "oneOf", "prefixItems"} then AcceptsArray(nested)
    else keyword == "items" ==> AcceptsSubschema(nested) && AcceptsArray(nested)
  }

  predicate AcceptsSubschema(v: Value)
    decreases v, 2
  {
    Accepts(v, HasResourceId(v))
  }

  predicate AcceptsMap(v: Value)
    decreases v, 3
  {
    v.VObject? ==> forall name | name in v.fields :: AcceptsSubschema(v.fields[name])
  }

  predicate AcceptsArray(v: Value)
    decreases v, 3
  {
    v.VArray? ==> forall i | 0 <= i < |v.items| :: AcceptsSubschema(v.items[i])
  }

  // ---------- what it decides: violations by path ----------

  /** Keywords whose value is one subschema. */
  const SINGLE := {"not", "additionalProperties", "additionalItems", "propertyNames", "contains", "if", "then",
                   "else", "unevaluatedProperties", "unevaluatedItems", "contentSchema"}

  /** Keywords whose value maps names to subschemas. */
  const MAPPED := {"definitions", "properties", "patternProperties", "dependencies", "$defs", "dependentSchemas"}

  /** Keywords whose value is a list of subschemas. */
  const LISTED := {"allOf", "anyOf", "oneOf", "prefixItems"}

  /** The values that select Draft 2020-12. */
  const DRAFT_2020_12 := {VString("https://json-schema.org/draft/2020-12/schema"), VString("http://json-schema.org/draft/2020-12/schema")}

  /** One move from a schema to a subschema. */
  datatype Hop = Direct(keyword: string) | Named(keyword: string, name: string) | Indexed(keyword: string, index: nat)

  function Step(v: Value, hop: Hop): Option<Value> {
    if !v.VObject? || hop.keyword !in v.fields then None else
    var nested := v.fields[hop.keyword];
    match hop
    case Direct(keyword) => if keyword in SINGLE + {"items"} then Some(nested) else None
    case Named(keyword, name) =>
      if keyword in MAPPED && nested.VObject? && name in nested.fields then Some(nested.fields[name]) else None
    case Indexed(keyword, index) =>
      if keyword in LISTED + {"items"} && nested.VArray? && index < |nested.items| then Some(nested.items[index]) else None
  }

  function Follow(v: Value, path: seq<Hop>): Option<Value> {
    if path == [] then Some(v) else
    var next := Step(v, path[0]);
    if next.None? then None else Follow(next.value, path[1..])
  }

  /** The path leads to a resource root, that is the start when `root`, or a subschema with a non-empty `$id`, and the
      `$schema` there selects another dialect. */
  predicate Violates(v: Value, root: bool, path: seq<Hop>) {
    var target := Follow(v, path);
    && target.Some? && target.value.VObject?
    && (var fields := target.value.fields;
        && "$schema" in fields && fields["$schema"] !in DRAFT_2020_12
        && if path == [] then root else "$id" in fields && fields["$id"].VString? && |fields["$id"].text| > 0)
  }

  lemma ForeignIff(v: Value)
    ensures DeclaresForeignDialect(v) <==> v.VObject? && "$schema" in v.fields && v.fields["$schema"] !in DRAFT_2020_12
  {}

  /** The walker treats a keyword by the kind of its value. */
  lemma KeywordKinds(keyword: string, nested: Value)
    ensures AcceptsKeyword(keyword, nested) ==
            if keyword in SINGLE then AcceptsSubschema(nested)
            else if keyword in MAPPED then AcceptsMap(nested)
            else if keyword in LISTED then AcceptsArray(nested)
            else keyword == "items" ==> AcceptsSubschema(nested) && AcceptsArray(nested)
  {}

  lemma StepRejects(v: Value, root: bool, hop: Hop)
    requires Step(v, hop).Some? && !AcceptsSubschema(Step(v, hop).value)
    ensures !Accepts(v, root)
  {
    var nested := v.fields[hop.keyword];
    assert !AcceptsKeyword(hop.keyword, nested) by {
      if hop.Named? { assert !AcceptsMap(nested); }
      if hop.Indexed? { assert !AcceptsArray(nested); }
    }
  }

  lemma {:induction false} ViolationRejected(v: Value, root: bool, path: seq<Hop>)
    requires Violates(v, root, path)
    ensures !Accepts(v, root)
    decreases |path|
  {
    ForeignIff(v);
    if path != [] {
      var next := Step(v, path[0]).value;
      ViolationRejected(next, HasResourceId(next), path[1..]);
      StepRejects(v, root, path[0]);
    }
  }

  lemma {:induction false} RejectionViolates(v: Value, root: bool) returns (path: seq<Hop>)
    requires !Accepts(v, root)
    ensures Violates(v, root, path)
    decreases v, 1
  {
    ForeignIff(v);
    if root && DeclaresForeignDialect(v) {
      return [];
    }
    var keyword :| keyword in v.fields && !AcceptsKeyword(keyword, v.fields[keyword]);
    var hop := RejectedHop(v, keyword);
    var next := Step(v, hop).value;
    var rest := RejectionViolates(next, HasResourceId(next));
    path := [hop] + rest;
    assert path[1..] == rest;
  }

  lemma RejectedHop(v: Value, keyword: string) returns (hop: Hop)
    requires v.VObject? && keyword in v.fields && !AcceptsKeyword(keyword, v.fields[keyword])
    ensures Step(v, hop).Some? && !AcceptsSubschema(Step(v, hop).value) && (v decreases to Step(v, hop).value)
  {
    var nested := v.fields[keyword];
    if keyword in SINGLE || (keyword == "items" && !AcceptsSubschema(nested)) {
      return Direct(keyword);
    } else if keyword in MAPPED {
      var name :| name in nested.fields && !AcceptsSubschema(nested.fields[name]);
      return Named(keyword, name);
    } else {
      var i :| 0 <= i < |nested.items| && !AcceptsSubschema(nested.items[i]);
      return Indexed(keyword, i);
    }
  }

  /** requireAdmissionDraft202012 accepts a document exactly when no schema-bearing path from its root reaches
      a resource root that declares a foreign dialect. */
  lemma WalkerIsExact(v: Value)
    ensures Accepts(v, true) <==> !exists path :: Violates(v, true, path)
  {
    if !Accepts(v, true) {
      var path := RejectionViolates(v, true);
    }
    if path :| Violates(v, true, path) {
      ViolationRejected(v, true, path);
    }
  }

  // ---------- annotations are never inspected ----------

  const KEPT := {"$schema", "$id"}

  /** The document with everything outside schema positions removed. */
  function Prune(v: Value): Value
    decreases v, 1
  {
    if !v.VObject? then VNull
    else VObject(map keyword | keyword in v.fields && (keyword in KEPT || IsSchemaKeyword(keyword)) ::
                   PruneKeyword(keyword, v.fields[keyword]))
  }

  predicate IsSchemaKeyword(keyword: string) {
    keyword in SINGLE || keyword in MAPPED || keyword in LISTED || keyword == "items"
  }

  function PruneKeyword(keyword: string, nested: Value): Value
    decreases nested, 2
  {
    if keyword in KEPT then nested
    else if keyword in SINGLE then Prune(nested)
    else if keyword in MAPPED then
      if nested.VObject? then VObject(map name | name in nested.fields :: Prune(nested.fields[name])) else VNull
    else if nested.VArray? then VArray(seq(|nested.items|, i requires 0 <= i < |nested.items| => Prune(nested.items[i])))
    else if keyword in LISTED then VNull else Prune(nested)
  }

  lemma PruneKeeps(v: Value)
    ensures HasResourceId(Prune(v)) == HasResourceId(v)
    ensures DeclaresForeignDialect(Prune(v)) == DeclaresForeignDialect(v)
  {}

  /** Only schema positions, `$schema` and `$id` decide the outcome. */
  lemma {:induction false} AnnotationsIgnored(v: Value, root: bool)
    ensures Accepts(Prune(v), root) == Accepts(v, root)
    decreases v, 0
  {
    PruneKeeps(v);
    if v.VObject? {
      var p := Prune(v);
      forall keyword | keyword in v.fields && IsSchemaKeyword(keyword)
        ensures AcceptsKeyword(keyword, p.fields[keyword]) == AcceptsKeyword(keyword, v.fields[keyword])
      {
        KeywordAnnotationsIgnored(keyword, v.fields[keyword]);
      }
      assert forall keyword | keyword in v.fields && !IsSchemaKeyword(keyword) :: AcceptsKeyword(keyword, v.fields[keyword]);
      assert forall keyword | keyword in p.fields && !IsSchemaKeyword(keyword) :: AcceptsKeyword(keyword, p.fields[keyword]);
    }
  }

  lemma {:induction false} KeywordAnnotationsIgnored(keyword: string, nested: Value)
    requires IsSchemaKeyword(keyword)
    ensures AcceptsKeyword(keyword, PruneKeyword(keyword, nested)) == AcceptsKeyword(keyword, nested)
    decreases nested, 2
  {
    var p := PruneKeyword(keyword, nested);
    KeywordKinds(keyword, nested);
    KeywordKinds(keyword, p);
    if keyword in KEPT {
    } else if keyword in SINGLE || (!nested.VArray? && keyword !in MAPPED) {
      SubschemaAnnotationsIgnored(nested);
    } else if keyword !in MAPPED {
      assert AcceptsSubschema(p) && AcceptsSubschema(nested);
      forall i | 0 <= i < |nested.items|
        ensures AcceptsSubschema(p.items[i]) == AcceptsSubschema(nested.items[i])
      {
        SubschemaAnnotationsIgnored(nested.items[i]);
      }
      assert AcceptsArray(p) == AcceptsArray(nested);
    } else if nested.VObject? {
      forall name | name in nested.fields
        ensures AcceptsSubschema(p.fields[name]) == AcceptsSubschema(nested.fields[name])
      {
        SubschemaAnnotationsIgnored(nested.fields[name]);
      }
      assert AcceptsMap(p) == AcceptsMap(nested);
    }
  }

  lemma {:induction false} SubschemaAnnotationsIgnored(v: Value)
    ensures AcceptsSubschema(Prune(v)) == AcceptsSubschema(v)
    decreases v, 1
  {
    PruneKeeps(v);
    AnnotationsIgnored(v, HasResourceId(v));
  }
}
