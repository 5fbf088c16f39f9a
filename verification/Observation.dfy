/** Captured worker observations: validation, printing and strict parsing (source/observation.go). */
module Observation {
  import opened Wrappers
  import opened Text
  import opened Json
  import opened SourceModel
  import opened Collections

  datatype ProjectionValue = ProjectionValue(key: ProjectionKey, value: Json)

  datatype SourceObservation = SourceObservation(
    ref: Ref,
    definitionVersion: string,
    definitionFingerprint: string,
    description: Option<string>,
    payload: Json,
    projections: seq<ProjectionValue>)

  // ---------- validation ----------

  predicate ValidProjection(p: ProjectionValue) { ValidKey(p.key) && Valid(p.value) }

  predicate UniqueKeys(projections: seq<ProjectionValue>) {
    forall i, j | 0 <= i < j < |projections| :: projections[i].key != projections[j].key
  }

  predicate ValidProjections(projections: seq<ProjectionValue>) {
    UniqueKeys(projections) && forall i | 0 <= i < |projections| :: ValidProjection(projections[i])
  }

  /** sourceDataString on an optional member */
  function StringOf(raw: Option<Json>): Option<string> {
    if raw.Some? && raw.value.String? then Some(raw.value.text) else None
  }

  /** validatePayload: the payload repeats the envelope's identity. */
  predicate ValidPayload(o: SourceObservation) {
    && o.payload.Object? && Valid(o.payload)
    && StringOf(Lookup(o.payload.members, "name")) == Some(o.ref.sourceID)
    && StringOf(Lookup(o.payload.members, "definition_version")) == Some(o.definitionVersion)
    && StringOf(Lookup(o.payload.members, "materialization")) == Some("captured")
    && var described := Lookup(o.payload.members, "description");
       if o.description.None? then described.None? || described.value.Null?
       else StringOf(described) == o.description
  }

  /** SourceObservation.Validate */
  predicate ValidObservation(o: SourceObservation) {
    && ValidRef(o.ref)
    && ValidText(o.definitionVersion, MAX_ID_LENGTH)
    && ValidPayload(o)
    && ValidProjections(o.projections)
  }

  /** The projection loop of Validate, with its set of seen keys. */
  method CheckProjections(projections: seq<ProjectionValue>) returns (ok: bool)
    ensures ok == ValidProjections(projections)
  {
    ok := CheckDistinct(projections, ValidProjection, (p: ProjectionValue) => p.key);
  }

  /** NewSourceObservation: an empty version selects "1". */
  function NewSourceObservation(ref: Ref, version: string, fingerprint: string, description: Option<string>,
                                payload: Json, projections: seq<ProjectionValue>): Option<SourceObservation> {
    var o := SourceObservation(ref, if version == "" then "1" else version, fingerprint, description, payload, projections);
    if ValidObservation(o) then Some(o) else None
  }

  // ---------- printing ----------

  function PrintProjection(p: ProjectionValue): Json {
    Object([Member("key", PrintKey(p.key)), Member("value", p.value)])
  }

  function PrintMembers(o: SourceObservation): seq<Member> {
    [ Member("name", String(o.ref.sourceID)),
      Member("definition_version", String(o.definitionVersion)),
      Member("materialization", String("captured")),
      Member("description", if o.description.Some? then String(o.description.value) else Null),
      Member("source_type", String(o.ref.sourceType)),
      Member("definition_fingerprint", String(o.definitionFingerprint)),
      Member("payload", o.payload),
      Member("projections", Array(EncodeAll(PrintProjection, o.projections))) ]
  }

  /** SourceObservation.MarshalJSON refuses an invalid observation. */
  function Marshal(o: SourceObservation): Option<Json> {
    if ValidObservation(o) then Some(Object(PrintMembers(o))) else None
  }

  // ---------- parsing ----------

  predicate OnlyMembers(members: seq<Member>, allowed: set<string>) {
    forall i | 0 <= i < |members| :: members[i].name in allowed
  }

  /** A string field of a Go struct: absent and null leave it empty, anything but a string is an error. */
  function StringField(raw: Option<Json>): Option<string> {
    if raw.None? || raw.value.Null? then Some("") else StringOf(raw)
  }

  function ParseKey(raw: Option<Json>): Option<ProjectionKey> {
    if raw.None? || !raw.value.Object? || !OnlyMembers(raw.value.members, {"name", "version"}) then None else
    var name := StringField(Lookup(raw.value.members, "name"));
    var version := StringField(Lookup(raw.value.members, "version"));
    if name.None? || version.None? then None else
    var key := ProjectionKey(name.value, version.value);
    if ValidKey(key) then Some(key) else None
  }

  /** ParseSourceProjectionValue */
  function ParseProjection(j: Json): Option<ProjectionValue> {
    if !Valid(j) || !j.Object? || !OnlyMembers(j.members, {"key", "value"}) then None else
    var key := ParseKey(Lookup(j.members, "key"));
    var value := Lookup(j.members, "value");
    if key.None? || value.None? then None
    else Some(ProjectionValue(key.value, value.value))
  }

  const OBSERVATION_FIELDS := {"name", "definition_version", "materialization", "description", "source_type",
                               "definition_fingerprint", "payload", "projections"}

  /** The raw fields of a transported observation; None where the field is omitted. */
  datatype Wire = Wire(
    name: Option<Json>, definitionVersion: Option<Json>, materialization: Option<Json>, description: Option<Json>,
    sourceType: Option<Json>, definitionFingerprint: Option<Json>, payload: Option<Json>, projections: Option<Json>)

  function ReadWire(j: Json): Option<Wire> {
    if !Valid(j) || !j.Object? || !OnlyMembers(j.members, OBSERVATION_FIELDS) then None
    else Some(Wire(Lookup(j.members, "name"), Lookup(j.members, "definition_version"),
                   Lookup(j.members, "materialization"), Lookup(j.members, "description"),
                   Lookup(j.members, "source_type"), Lookup(j.members, "definition_fingerprint"),
                   Lookup(j.members, "payload"), Lookup(j.members, "projections")))
  }

  /** The decoded fields, before the observation as a whole is validated. */
  function Decode(w: Wire): Option<SourceObservation> {
    var name, sourceType, fingerprint := StringOf(w.name), StringOf(w.sourceType), StringOf(w.definitionFingerprint);
    if name.None? || sourceType.None? || fingerprint.None? then None else
    var ref := Ref(sourceType.value, name.value);
    if !ValidRef(ref) then None else
    var version := if w.definitionVersion.None? then Some("1") else StringOf(w.definitionVersion);
    if version.None? || version.value == "" then None else
    if w.materialization.Some? && StringOf(w.materialization) != Some("captured") then None else
    if w.description.Some? && !w.description.value.Null? && !w.description.value.String? then None else
    if w.projections.Some? && !w.projections.value.Array? then None else
    var projections := if w.projections.None? then Some([]) else DecodeAll(ParseProjection, w.projections.value.items);
    if projections.None? || w.payload.None? then None
    else Some(SourceObservation(ref, version.value, fingerprint.value, StringOf(w.description), w.payload.value, projections.value))
  }

  /** ParseSourceObservation: defaults apply to omitted fields only. */
  function Parse(j: Json): Option<SourceObservation> {
    var wire := ReadWire(j);
    if wire.None? then None else
    var decoded := Decode(wire.value);
    if decoded.None? then None else
    var o := decoded.value;
    NewSourceObservation(o.ref, o.definitionVersion, o.definitionFingerprint, o.description, o.payload, o.projections)
  }

  // ---------- round trip ----------

  lemma ParsePrintedProjection(p: ProjectionValue)
    requires ValidProjection(p)
    ensures Valid(PrintProjection(p)) && ParseProjection(PrintProjection(p)) == Some(p)
  {
    var k := PrintKey(p.key).members;
    LookupFinds(k, 0);
    LookupFinds(k, 1);
    var m := PrintProjection(p).members;
    LookupFinds(m, 0);
    LookupFinds(m, 1);
  }

  lemma ParsePrintedProjections(ps: seq<ProjectionValue>)
    requires forall i | 0 <= i < |ps| :: ValidProjection(ps[i])
    ensures DecodeAll(ParseProjection, EncodeAll(PrintProjection, ps)) == Some(ps)
    ensures Valid(Array(EncodeAll(PrintProjection, ps)))
  {
    forall i | 0 <= i < |ps|
      ensures ParseProjection(PrintProjection(ps[i])) == Some(ps[i]) && Valid(PrintProjection(ps[i]))
    {
      ParsePrintedProjection(ps[i]);
    }
    DecodeEncoded(PrintProjection, ParseProjection, ps);
  }

  lemma DistinctFields(o: SourceObservation)
    ensures UniqueNames(PrintMembers(o)) && OnlyMembers(PrintMembers(o), OBSERVATION_FIELDS)
  {
    assert "description"[0] == 'd' && "source_type"[0] == 's' && "projections"[0] == 'p';
  }

  lemma PrintedValid(o: SourceObservation)
    requires ValidObservation(o)
    ensures Valid(Object(PrintMembers(o)))
  {
    DistinctFields(o);
    ParsePrintedProjections(o.projections);
    MembersValid(o);
  }

  lemma MembersValid(o: SourceObservation)
    requires UniqueNames(PrintMembers(o)) && Valid(o.payload) && Valid(Array(EncodeAll(PrintProjection, o.projections)))
    ensures Valid(Object(PrintMembers(o)))
  {
    var m := PrintMembers(o);
    assert forall i | 0 <= i < 6 :: m[i].value.String? || m[i].value.Null?;
  }

  function WireOf(o: SourceObservation): Wire {
    Wire(Some(String(o.ref.sourceID)), Some(String(o.definitionVersion)), Some(String("captured")),
         Some(if o.description.Some? then String(o.description.value) else Null),
         Some(String(o.ref.sourceType)), Some(String(o.definitionFingerprint)),
         Some(o.payload), Some(Array(EncodeAll(PrintProjection, o.projections))))
  }

  lemma ReadPrinted(o: SourceObservation)
    requires ValidObservation(o)
    ensures ReadWire(Object(PrintMembers(o))) == Some(WireOf(o))
  {
    var m := PrintMembers(o);
    DistinctFields(o);
    PrintedValid(o);
    LookupFinds(m, 0); LookupFinds(m, 1); LookupFinds(m, 2); LookupFinds(m, 3);
    LookupFinds(m, 4); LookupFinds(m, 5); LookupFinds(m, 6); LookupFinds(m, 7);
  }

  lemma DecodePrinted(o: SourceObservation)
    requires ValidRef(o.ref) && o.definitionVersion != ""
    requires DecodeAll(ParseProjection, EncodeAll(PrintProjection, o.projections)) == Some(o.projections)
    ensures Decode(WireOf(o)) == Some(o)
  {}

  /** Parsing what a valid observation prints gives it back unchanged: an absent description, null projection
      values, number tokens and projection order all survive. */
  lemma RoundTrip(o: SourceObservation)
    requires ValidObservation(o)
    ensures Marshal(o).Some? && Parse(Marshal(o).value) == Some(o)
  {
    ReadPrinted(o);
    ParsePrintedProjections(o.projections);
    DecodePrinted(o);
  }

  /** Whatever parses is a valid observation, so it prints again. */
  lemma ParsedIsValid(j: Json)
    ensures Parse(j).Some? ==> ValidObservation(Parse(j).value)
  {}
}
