/** Admission of worker observations against a registered manifest (source/accepted_observation.go). */
module Admission {
  import opened Wrappers
  import opened Text
  import opened Json
  import opened SourceModel
  import opened Collections
  import Manifest
  import Observation
  import SchemaDialect
  import StrictParsing

  type DefinitionManifest = Manifest.DefinitionManifest
  type SourceObservation = Observation.SourceObservation

  /** The libraries admission relies on: content digests, schema compilation, schema validation, and the
      comparison of a schema with the standard text-evidence declaration. */
  datatype Library = Library(
    digest: Manifest.Digest,
    compiles: Json -> bool,
    conforms: (Json, Json) -> bool,
    standardText: Json -> bool)

  const TEXT_EVIDENCE := ProjectionKey("powercontext.text-evidence", "1")

  /** ValidateTextEvidence */
  predicate ValidTextEvidence(value: Json, ref: Ref) {
    && ValidRef(ref) && Valid(value) && value.Object?
    && Lookup(value.members, "source_type") == Some(String(ref.sourceType))
    && Lookup(value.members, "source_id") == Some(String(ref.sourceID))
    && Observation.StringOf(Lookup(value.members, "content")).Some?
    && var metadata := Lookup(value.members, "metadata");
       metadata.Some? ==> metadata.value.Object?
  }

  /** compileAdmissionDraft202012 succeeds. */
  predicate Compilable(lib: Library, schema: Json) {
    Valid(schema) && SchemaDialect.Accepts(Meaning(schema), true) && lib.compiles(schema)
  }

  predicate CompilableProjection(lib: Library, p: Manifest.ProjectionManifest) {
    (p.key == TEXT_EVIDENCE ==> lib.standardText(p.schema)) && Compilable(lib, p.schema)
  }

  /** compileAdmissionManifest succeeds. */
  predicate CompilableManifest(lib: Library, m: DefinitionManifest) {
    && Manifest.ValidManifest(lib.digest, m)
    && Compilable(lib, m.sourceSchema)
    && forall i | 0 <= i < |m.projections| :: CompilableProjection(lib, m.projections[i])
  }

  datatype Compiled = Compiled(source: Json, projections: map<ProjectionKey, Json>)

  ghost function DeclaredKeys(ps: seq<Manifest.ProjectionManifest>): set<ProjectionKey> {
    set i | 0 <= i < |ps| :: ps[i].key
  }

  ghost function SuppliedKeys(ps: seq<Observation.ProjectionValue>): set<ProjectionKey> {
    set i | 0 <= i < |ps| :: ps[i].key
  }

  /** The compiled table holds each declared projection's schema under its key, and nothing else. */
  ghost predicate Tabulates(table: map<ProjectionKey, Json>, ps: seq<Manifest.ProjectionManifest>) {
    && table.Keys == DeclaredKeys(ps)
    && forall i | 0 <= i < |ps| :: ps[i].key in table && table[ps[i].key] == ps[i].schema
  }

  method CompileProjections(lib: Library, ps: seq<Manifest.ProjectionManifest>) returns (r: Option<map<ProjectionKey, Json>>)
    requires Manifest.UniqueKeys(ps)
    ensures r.Some? <==> forall i | 0 <= i < |ps| :: CompilableProjection(lib, ps[i])
    ensures r.Some? ==> Tabulates(r.value, ps)
  {
    var table: map<ProjectionKey, Json> := map[];
    for n := 0 to |ps|
      invariant forall i | 0 <= i < n :: CompilableProjection(lib, ps[i])
      invariant forall i | 0 <= i < n :: ps[i].key in table && table[ps[i].key] == ps[i].schema
      invariant table.Keys == set i | 0 <= i < n :: ps[i].key
    {
      if ps[n].key == TEXT_EVIDENCE && !lib.standardText(ps[n].schema) {
        return None;
      }
      var compiled := Compilable(lib, ps[n].schema);
      assert compiled == CompilableProjection(lib, ps[n]);
      if !compiled {
        return None;
      }
      table := table[ps[n].key := ps[n].schema];
    }
    return Some(table);
  }

  method CompileAdmissionManifest(lib: Library, m: DefinitionManifest) returns (r: Option<Compiled>)
    ensures r.Some? <==> CompilableManifest(lib, m)
    ensures r.Some? ==> r.value.source == m.sourceSchema && Tabulates(r.value.projections, m.projections)
  {
    if !Manifest.ValidManifest(lib.digest, m) || !Compilable(lib, m.sourceSchema) {
      return None;
    }
    var table := CompileProjections(lib, m.projections);
    return if table.None? then None else Some(Compiled(m.sourceSchema, table.value));
  }

  /** A supplied projection fits the schema declared for its key. */
  predicate Fits(lib: Library, schema: Json, p: Observation.ProjectionValue, ref: Ref) {
    lib.conforms(schema, p.value) && (p.key == TEXT_EVIDENCE ==> ValidTextEvidence(p.value, ref))
  }

  /** The supplied keys are exactly the declared ones and every value fits the schema of its key. */
  ghost predicate Matches(lib: Library, declared: seq<Manifest.ProjectionManifest>,
                          supplied: seq<Observation.ProjectionValue>, ref: Ref) {
    && SuppliedKeys(supplied) == DeclaredKeys(declared)
    && forall i, j | 0 <= i < |supplied| && 0 <= j < |declared| && supplied[i].key == declared[j].key ::
         Fits(lib, declared[j].schema, supplied[i], ref)
  }

  /** What admission promises: a valid observation of exactly this definition, with exactly its projections. */
  ghost predicate Admissible(lib: Library, m: DefinitionManifest, o: SourceObservation) {
    && Observation.ValidObservation(o)
    && o.ref.sourceType == m.identity.name && o.definitionVersion == m.identity.version
    && o.definitionFingerprint == m.fingerprint
    && lib.conforms(m.sourceSchema, o.payload)
    && Matches(lib, m.projections, o.projections, o.ref)
  }

  lemma SuppliedCount(ps: seq<Observation.ProjectionValue>)
    requires Observation.UniqueKeys(ps)
    ensures |SuppliedKeys(ps)| == |ps|
  {
    var key := (p: Observation.ProjectionValue) => p.key;
    DistinctCount(ps, key);
    assert SuppliedKeys(ps) == Keys(ps, key);
  }

  /** The counting loop of validateAdmissionObservation decides whether the projections match. */
  method MatchProjections(lib: Library, ghost declared: seq<Manifest.ProjectionManifest>, table: map<ProjectionKey, Json>,
                          ps: seq<Observation.ProjectionValue>, ref: Ref) returns (ok: bool)
    requires Tabulates(table, declared) && Observation.UniqueKeys(ps)
    ensures ok <==> Matches(lib, declared, ps, ref)
  {
    SuppliedCount(ps);
    if |table| != |ps| {
      assert |table| == |table.Keys|;
      return false;
    }
    for n := 0 to |ps|
      invariant forall i | 0 <= i < n :: ps[i].key in table && Fits(lib, table[ps[i].key], ps[i], ref)
    {
      if ps[n].key !in table {
        assert ps[n].key in SuppliedKeys(ps);
        return false;
      }
      var fits := lib.conforms(table[ps[n].key], ps[n].value) && (ps[n].key == TEXT_EVIDENCE ==> ValidTextEvidence(ps[n].value, ref));
      assert fits == Fits(lib, table[ps[n].key], ps[n], ref);
      if !fits {
        DeclaredSomewhere(declared, ps[n].key);
        return false;
      }
    }
    assert |table| == |table.Keys|;
    EqualSizedSubset(SuppliedKeys(ps), table.Keys);
    return true;
  }

  lemma DeclaredSomewhere(ps: seq<Manifest.ProjectionManifest>, key: ProjectionKey)
    requires key in DeclaredKeys(ps)
    ensures exists j | 0 <= j < |ps| :: ps[j].key == key
  {}

  /** validateAdmissionObservation accepts exactly the admissible observations. */
  method ValidateAdmissionObservation(lib: Library, m: DefinitionManifest, compiled: Compiled, o: SourceObservation)
    returns (ok: bool)
    requires compiled.source == m.sourceSchema && Tabulates(compiled.projections, m.projections)
    ensures ok <==> Admissible(lib, m, o)
  {
    if !Observation.ValidObservation(o) {
      return false;
    }
    if o.ref.sourceType != m.identity.name || o.definitionVersion != m.identity.version {
      return false;
    }
    if o.definitionFingerprint != m.fingerprint || !lib.conforms(compiled.source, o.payload) {
      return false;
    }
    ok := MatchProjections(lib, m.projections, compiled.projections, o.projections, o.ref);
  }

  /** AdmitObservation */
  method AdmitObservation(lib: Library, m: DefinitionManifest, o: SourceObservation) returns (admitted: bool)
    ensures admitted <==> CompilableManifest(lib, m) && Admissible(lib, m, o)
    ensures admitted <==> VettedManifest(lib, m) && Vetted(lib, m, o)
  {
    VettedManifestIff(lib, m);
    if Manifest.ValidManifest(lib.digest, m) {
      VettedIff(lib, m, o);
    }
    var compiled := CompileAdmissionManifest(lib, m);
    if compiled.None? {
      return false;
    }
    admitted := ValidateAdmissionObservation(lib, m, compiled.value, o);
  }

  /** Matching pairs supplied and declared projections one to one: as many of each, and for every declared
      key exactly one supplied value, which fits. */
  lemma MatchesPairOff(lib: Library, declared: seq<Manifest.ProjectionManifest>,
                       supplied: seq<Observation.ProjectionValue>, ref: Ref, j: nat)
    requires Manifest.UniqueKeys(declared)
    requires Observation.UniqueKeys(supplied) && Matches(lib, declared, supplied, ref) && j < |declared|
    ensures |supplied| == |declared|
    ensures exists i | 0 <= i < |supplied| ::
              && supplied[i].key == declared[j].key && Fits(lib, declared[j].schema, supplied[i], ref)
              && forall k | 0 <= k < |supplied| && supplied[k].key == declared[j].key :: k == i
  {
    KeyCounts(declared, supplied);
    assert declared[j].key in SuppliedKeys(supplied);
    var i :| 0 <= i < |supplied| && supplied[i].key == declared[j].key;
    assert Fits(lib, declared[j].schema, supplied[i], ref);
  }

  // ---------- admission in full ----------

  /** The schema compiles, and no schema resource in it selects another dialect. */
  ghost predicate Usable(lib: Library, schema: Json) {
    Valid(schema) && lib.compiles(schema) && !exists path :: SchemaDialect.Violates(Meaning(schema), true, path)
  }

  ghost predicate IsTextEvidence(key: ProjectionKey) { key.name == "powercontext.text-evidence" && key.version == "1" }

  ghost predicate VettedManifest(lib: Library, m: DefinitionManifest) {
    && Manifest.ValidManifest(lib.digest, m) && Usable(lib, m.sourceSchema)
    && forall i | 0 <= i < |m.projections| ::
         && Usable(lib, m.projections[i].schema)
         && (IsTextEvidence(m.projections[i].key) ==> lib.standardText(m.projections[i].schema))
  }

  lemma UsableIff(lib: Library, schema: Json)
    ensures Compilable(lib, schema) <==> Usable(lib, schema)
  {
    if Valid(schema) {
      SchemaDialect.WalkerIsExact(Meaning(schema));
    }
  }

  lemma VettedManifestIff(lib: Library, m: DefinitionManifest)
    ensures CompilableManifest(lib, m) <==> VettedManifest(lib, m)
  {
    UsableIff(lib, m.sourceSchema);
    forall i | 0 <= i < |m.projections|
      ensures CompilableProjection(lib, m.projections[i]) <==>
                && Usable(lib, m.projections[i].schema)
                && (IsTextEvidence(m.projections[i].key) ==> lib.standardText(m.projections[i].schema))
    {
      UsableIff(lib, m.projections[i].schema);
    }
  }

  /** The evidence names the observation it belongs to and carries text. */
  ghost predicate NamesItsSource(value: Json, ref: Ref) {
    && Valid(value) && value.Object?
    && (var fields := Meaning(value).fields;
        && "source_type" in fields && fields["source_type"] == VString(ref.sourceType)
        && "source_id" in fields && fields["source_id"] == VString(ref.sourceID)
        && "content" in fields && fields["content"].VString?
        && ("metadata" in fields ==> fields["metadata"].VObject?))
  }

  lemma TextEvidenceIff(value: Json, ref: Ref)
    requires ValidRef(ref)
    ensures ValidTextEvidence(value, ref) <==> NamesItsSource(value, ref)
  {
    if Valid(value) && value.Object? {
      StrictParsing.FieldsRead(value.members, "source_type");
      StrictParsing.FieldsRead(value.members, "source_id");
      StrictParsing.FieldsRead(value.members, "content");
      StrictParsing.FieldsRead(value.members, "metadata");
    }
  }

  /** The supplied projection answers the declared one. */
  ghost predicate Answers(lib: Library, declared: Manifest.ProjectionManifest, supplied: Observation.ProjectionValue, ref: Ref) {
    && supplied.key == declared.key && lib.conforms(declared.schema, supplied.value)
    && (IsTextEvidence(declared.key) ==> NamesItsSource(supplied.value, ref))
  }

  /** What admission promises, in full: an observation of exactly this definition whose payload repeats its envelope and
      conforms, and whose projections answer the declared ones, one each. */
  ghost predicate Vetted(lib: Library, m: DefinitionManifest, o: SourceObservation) {
    && ValidRef(o.ref) && o.ref.sourceType == m.identity.name && o.definitionVersion == m.identity.version
    && o.definitionFingerprint == m.fingerprint
    && StrictParsing.Envelope(o) && lib.conforms(m.sourceSchema, o.payload)
    && Observation.ValidProjections(o.projections) && |o.projections| == |m.projections|
    && forall j | 0 <= j < |m.projections| :: HasAnswer(lib, m.projections[j], o)
  }

  ghost predicate HasAnswer(lib: Library, declared: Manifest.ProjectionManifest, o: SourceObservation) {
    exists i | 0 <= i < |o.projections| :: Answers(lib, declared, o.projections[i], o.ref)
  }

  lemma FitsIff(lib: Library, declared: Manifest.ProjectionManifest, supplied: Observation.ProjectionValue, ref: Ref)
    requires ValidRef(ref) && supplied.key == declared.key
    ensures Fits(lib, declared.schema, supplied, ref) <==> Answers(lib, declared, supplied, ref)
  {
    TextEvidenceIff(supplied.value, ref);
  }

  lemma MatchesAnswers(lib: Library, declared: seq<Manifest.ProjectionManifest>, o: SourceObservation)
    requires ValidRef(o.ref) && Manifest.UniqueKeys(declared) && Observation.UniqueKeys(o.projections)
    requires Matches(lib, declared, o.projections, o.ref)
    ensures |o.projections| == |declared| && forall j | 0 <= j < |declared| :: HasAnswer(lib, declared[j], o)
  {
    KeyCounts(declared, o.projections);
    forall j | 0 <= j < |declared| ensures HasAnswer(lib, declared[j], o) {
      MatchesPairOff(lib, declared, o.projections, o.ref, j);
      var i :| 0 <= i < |o.projections| && o.projections[i].key == declared[j].key;
      FitsIff(lib, declared[j], o.projections[i], o.ref);
    }
  }

  lemma KeyCounts(declared: seq<Manifest.ProjectionManifest>, supplied: seq<Observation.ProjectionValue>)
    requires Manifest.UniqueKeys(declared) && Observation.UniqueKeys(supplied)
    ensures |DeclaredKeys(declared)| == |declared| && |SuppliedKeys(supplied)| == |supplied|
  {
    SuppliedCount(supplied);
    var key := (p: Manifest.ProjectionManifest) => p.key;
    DistinctCount(declared, key);
    assert DeclaredKeys(declared) == Keys(declared, key);
  }

  lemma AnswersMatch(lib: Library, declared: seq<Manifest.ProjectionManifest>, o: SourceObservation)
    requires ValidRef(o.ref) && Manifest.UniqueKeys(declared) && Observation.UniqueKeys(o.projections)
    requires |o.projections| == |declared| && forall j | 0 <= j < |declared| :: HasAnswer(lib, declared[j], o)
    ensures Matches(lib, declared, o.projections, o.ref)
  {
    KeyCounts(declared, o.projections);
    forall key | key in DeclaredKeys(declared) ensures key in SuppliedKeys(o.projections) {
      var j :| 0 <= j < |declared| && declared[j].key == key;
      assert HasAnswer(lib, declared[j], o);
    }
    EqualSizedSubset(DeclaredKeys(declared), SuppliedKeys(o.projections));
    forall i, j | 0 <= i < |o.projections| && 0 <= j < |declared| && o.projections[i].key == declared[j].key
      ensures Fits(lib, declared[j].schema, o.projections[i], o.ref)
    {
      assert HasAnswer(lib, declared[j], o);
      var k :| 0 <= k < |o.projections| && Answers(lib, declared[j], o.projections[k], o.ref);
      assert k == i;
      FitsIff(lib, declared[j], o.projections[i], o.ref);
    }
  }

  lemma VettedIff(lib: Library, m: DefinitionManifest, o: SourceObservation)
    requires Manifest.ValidManifest(lib.digest, m)
    ensures Admissible(lib, m, o) <==> Vetted(lib, m, o)
  {
    StrictParsing.PayloadIsEnvelope(o);
    if Admissible(lib, m, o) {
      MatchesAnswers(lib, m.projections, o);
    }
    if Vetted(lib, m, o) {
      AnswersMatch(lib, m.projections, o);
      VersionIsBounded(lib.digest, m);
    }
  }

  lemma VersionIsBounded(digest: Manifest.Digest, m: DefinitionManifest)
    requires Manifest.ValidManifest(digest, m)
    ensures ValidText(m.identity.version, MAX_ID_LENGTH)
  {}
}
