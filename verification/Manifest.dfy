/** Source Definition manifests: freezing schemas, content addressing, printing and strict parsing
    (source/definition_manifest.go). The digest of a canonicalised declaration is a parameter. */
module Manifest {
  import opened Wrappers
  import opened Text
  import opened JsonNumber
  import opened Json
  import opened SourceModel
  import opened Collections

  const MAX_SAFE_INTEGER: int := 9007199254740991
  const MAX_PROJECTIONS: nat := 16

  // ---------- interoperable numbers ----------

  /** An integer spelling must be within the IEEE-754 safe range; a fraction or exponent exempts a token. */
  predicate SafeToken(t: Token) {
    WellFormed(t) && (t.fraction.None? && t.exponent.None? ==> Natural(t.whole) <= MAX_SAFE_INTEGER)
  }

  /** Every number in the text, at whatever depth, is `ok`. */
  predicate EveryNumber(ok: Token -> bool, j: Json) {
    match j
    case Number(token) => ok(token)
    case Array(items) => forall i | 0 <= i < |items| :: EveryNumber(ok, items[i])
    case Object(members) => forall i | 0 <= i < |members| :: EveryNumber(ok, members[i].value)
    case _ => true
  }

  predicate SafeNumbers(j: Json) { EveryNumber(SafeToken, j) }

  /** 2^1024 - 2^970, the least magnitude that rounds to infinity as an IEEE-754 double. */
  const FLOAT64_OVERFLOW: real := 179769313486231580793728971405303415079934132710037826936173778980444968292764750946649017977587207096330286416692887910946555547851940402630657488671505820681908902000708383676273854845817711531764475730270069855571366959622842914819860834936475292719074168444365510704342711559699508093042880177904174497792.0

  /** Decoding into float64 refuses a number beyond the range of a double. */
  predicate FitsFloat64(t: Token) {
    WellFormed(t) && -FLOAT64_OVERFLOW < Denote(t) < FLOAT64_OVERFLOW
  }

  predicate Decodable(j: Json) { EveryNumber(FitsFloat64, j) }

  function Decimal(n: nat): (s: string)
    ensures s != "" && AllDigits(s) && (s[0] == '0' ==> n == 0 && |s| == 1)
    ensures Natural(s) == n
  {
    if n < 10 then
      var s := [('0' as int + n) as char];
      assert s[..0] == "";
      s
    else
      NaturalSnoc(Decimal(n / 10), ('0' as int + n % 10) as char);
      Decimal(n / 10) + [('0' as int + n % 10) as char]
  }

  /** Bytes taken as JSON: one complete text, or something else, of which the decoder yields some tokens (None for one
      that is not a number) before it either reports an error or sees nothing more to read. */
  datatype JsonText = Tree(json: Json) | Broken(tokens: seq<Option<Token>>, readError: bool)

  // ---------- schemas given as Go values ----------

  /** The dynamic types normalizeGoJSONValue distinguishes. A float carries its shortest 'g' spelling, or None
      for NaN and the infinities; a map lists its entries in the order they are encoded. */
  datatype GoValue =
    | GoNil
    | GoBool(flag: bool)
    | GoString(text: string)
    | GoFloat(spelling: Option<Token>)
    | GoNarrowInt(small: int)
    | GoWideInt(large: int)
    | GoNumber(raw: JsonText)
    | GoRaw(raw: JsonText)
    | GoSlice(items: seq<GoValue>)
    | GoMap(entries: seq<GoEntry>)
    | GoOther

  datatype GoEntry = GoEntry(name: string, value: GoValue)

  /** What the Go type system already guarantees: integers of at most 32 bits are small, map keys are unique
      and strconv spells finite floats as JSON numbers. */
  predicate Typed(v: GoValue) {
    match v
    case GoFloat(spelling) => spelling.Some? ==> WellFormed(spelling.value)
    case GoNarrowInt(n) => -0x8000_0000 <= n <= 0xFFFF_FFFF
    case GoSlice(items) => forall i | 0 <= i < |items| :: Typed(items[i])
    case GoMap(entries) =>
      && (forall i, j | 0 <= i < j < |entries| :: entries[i].name != entries[j].name)
      && (forall i | 0 <= i < |entries| :: Typed(entries[i].value))
    case _ => true
  }

  function IntegerToken(n: int): Token {
    Token(n < 0, Decimal(if n < 0 then -n else n), None, None)
  }

  /** normalizeGoFloat keeps the spelling of a float distinct from that of an integer. */
  function FloatToken(t: Token): Token {
    if t.fraction.None? && t.exponent.None? then t.(fraction := Some("0")) else t
  }

  /** Raw JSON must scan as interoperable and then encode, or decode, as one text. */
  function NormalizeText(text: JsonText): Option<Json> {
    if text.Tree? && Valid(text.json) && SafeNumbers(text.json) then Some(text.json) else None
  }

  /** normalizeGoJSONValue followed by encoding. */
  function Normalize(v: GoValue): Option<Json> {
    match v
    case GoNil => Some(Null)
    case GoBool(flag) => Some(Bool(flag))
    case GoString(text) => Some(String(text))
    case GoFloat(spelling) => if spelling.None? then None else Some(Number(FloatToken(spelling.value)))
    case GoNarrowInt(n) => Some(Number(IntegerToken(n)))
    case GoWideInt(n) => if -MAX_SAFE_INTEGER <= n <= MAX_SAFE_INTEGER then Some(Number(IntegerToken(n))) else None
    case GoNumber(text) => NormalizeText(text)
    case GoRaw(text) => NormalizeText(text)
    case GoSlice(items) =>
      var r := NormalizeItems(items);
      if r.None? then None else Some(Array(r.value))
    case GoMap(entries) =>
      var r := NormalizeEntries(entries);
      if r.None? then None else Some(Object(r.value))
    case GoOther => None
  }

  function NormalizeItems(items: seq<GoValue>): Option<seq<Json>> {
    if items == [] then Some([]) else
    var head, tail := Normalize(items[0]), NormalizeItems(items[1..]);
    if head.None? || tail.None? then None else Some([head.value] + tail.value)
  }

  function NormalizeEntries(entries: seq<GoEntry>): Option<seq<Member>> {
    if entries == [] then Some([]) else
    var head, tail := Normalize(entries[0].value), NormalizeEntries(entries[1..]);
    if head.None? || tail.None? then None else Some([Member(entries[0].name, head.value)] + tail.value)
  }

  /** A schema frozen from a Go value always passes the check applied to raw schemas. */
  lemma {:induction false} NormalizedIsSafe(v: GoValue)
    requires Typed(v) && Normalize(v).Some?
    ensures Valid(Normalize(v).value) && SafeNumbers(Normalize(v).value)
    decreases v, 0
  {
    match v
    case GoSlice(items) => ItemsAreSafe(items);
    case GoMap(entries) => EntriesAreSafe(entries);
    case _ =>
  }

  lemma {:induction false} ItemsAreSafe(items: seq<GoValue>)
    requires (forall i | 0 <= i < |items| :: Typed(items[i])) && NormalizeItems(items).Some?
    ensures var r := NormalizeItems(items).value; forall i | 0 <= i < |r| :: Valid(r[i]) && SafeNumbers(r[i])
    decreases items
  {
    if items != [] {
      NormalizedIsSafe(items[0]);
      ItemsAreSafe(items[1..]);
    }
  }

  lemma {:induction false} EntriesAreSafe(entries: seq<GoEntry>)
    requires forall i, j | 0 <= i < j < |entries| :: entries[i].name != entries[j].name
    requires (forall i | 0 <= i < |entries| :: Typed(entries[i].value)) && NormalizeEntries(entries).Some?
    ensures var r := NormalizeEntries(entries).value;
            && |r| == |entries| && (forall i | 0 <= i < |r| :: r[i].name == entries[i].name)
            && UniqueNames(r) && forall i | 0 <= i < |r| :: Valid(r[i].value) && SafeNumbers(r[i].value)
    decreases entries
  {
    if entries != [] {
      NormalizedIsSafe(entries[0].value);
      EntriesAreSafe(entries[1..]);
    }
  }

  // ---------- the number scan ----------

  /** The decoder's token stream, with None for every token that is not a number. */
  function Stream(j: Json): seq<Option<Token>> {
    match j
    case Number(token) => [Some(token)]
    case Array(items) => [None] + StreamItems(items) + [None]
    case Object(members) => [None] + StreamMembers(members) + [None]
    case _ => [None]
  }

  function StreamItems(items: seq<Json>): seq<Option<Token>> {
    if items == [] then [] else Stream(items[0]) + StreamItems(items[1..])
  }

  function StreamMembers(members: seq<Member>): seq<Option<Token>> {
    if members == [] then [] else [None] + Stream(members[0].value) + StreamMembers(members[1..])
  }

  predicate AllSafe(stream: seq<Option<Token>>) {
    forall i | 0 <= i < |stream| :: stream[i].Some? ==> SafeToken(stream[i].value)
  }

  lemma AllSafeConcat(a: seq<Option<Token>>, b: seq<Option<Token>>)
    ensures AllSafe(a + b) <==> AllSafe(a) && AllSafe(b)
  {
    if AllSafe(a + b) {
      assert forall i | 0 <= i < |a| :: a[i] == (a + b)[i];
      assert forall i | 0 <= i < |b| :: b[i] == (a + b)[|a| + i];
    }
  }

  /** Scanning the tokens of a text visits every number at every depth. */
  lemma {:induction false} StreamIsSafe(j: Json)
    ensures AllSafe(Stream(j)) <==> SafeNumbers(j)
    decreases j, 0
  {
    match j
    case Array(items) =>
      StreamItemsSafe(items);
      AllSafeConcat([None], StreamItems(items));
      AllSafeConcat([None] + StreamItems(items), [None]);
    case Object(members) =>
      StreamMembersSafe(members);
      AllSafeConcat([None], StreamMembers(members));
      AllSafeConcat([None] + StreamMembers(members), [None]);
    case Number(token) =>
      assert Stream(j)[0] == Some(token);
    case _ =>
  }

  lemma {:induction false} StreamItemsSafe(items: seq<Json>)
    ensures AllSafe(StreamItems(items)) <==> forall i | 0 <= i < |items| :: SafeNumbers(items[i])
    decreases items
  {
    if items != [] {
      StreamIsSafe(items[0]);
      StreamItemsSafe(items[1..]);
      AllSafeConcat(Stream(items[0]), StreamItems(items[1..]));
      assert forall i | 1 <= i < |items| :: items[i] == items[1..][i - 1];
    }
  }

  lemma {:induction false} StreamMembersSafe(members: seq<Member>)
    ensures AllSafe(StreamMembers(members)) <==> forall i | 0 <= i < |members| :: SafeNumbers(members[i].value)
    decreases members
  {
    if members != [] {
      StreamIsSafe(members[0].value);
      StreamMembersSafe(members[1..]);
      AllSafeConcat([None], Stream(members[0].value));
      AllSafeConcat([None] + Stream(members[0].value), StreamMembers(members[1..]));
      assert forall i | 1 <= i < |members| :: members[i] == members[1..][i - 1];
    }
  }

  /** validateJSONNumbers: the loop over the decoder accepts a complete text exactly when every number in it is safe and
      no member name is repeated. Of anything else it judges the tokens it gets to see. */
  method ValidateJsonNumbers(payload: JsonText) returns (ok: bool)
    ensures payload.Tree? ==> ok == (Valid(payload.json) && SafeNumbers(payload.json))
    ensures payload.Broken? ==> ok == (AllSafe(payload.tokens) && !payload.readError)
  {
    var tokens, readError := DecoderRun(payload);
    for n := 0 to |tokens|
      invariant forall i | 0 <= i < n :: tokens[i].Some? ==> SafeToken(tokens[i].value)
    {
      if tokens[n].Some? && !SafeToken(tokens[n].value) {
        return false;
      }
    }
    return !readError;
  }

  /** What the decoder yields: a repeated member name stops it with an error. */
  method DecoderRun(payload: JsonText) returns (tokens: seq<Option<Token>>, readError: bool)
    ensures payload.Tree? ==> readError == !Valid(payload.json)
    ensures payload.Tree? && Valid(payload.json) ==> (AllSafe(tokens) <==> SafeNumbers(payload.json))
    ensures payload.Broken? ==> tokens == payload.tokens && readError == payload.readError
  {
    match payload
    case Broken(seen, failed) => return seen, failed;
    case Tree(json) =>
      StreamIsSafe(json);
      return Stream(json), !Valid(json);
  }

  // ---------- schemas ----------

  /** hasRemoteSchemaReference: a string reference anywhere that does not start with '#'. */
  predicate HasRemoteReference(j: Json) {
    match j
    case Array(items) => exists i | 0 <= i < |items| :: HasRemoteReference(items[i])
    case Object(members) => exists i | 0 <= i < |members| ::
        || (members[i].name in {"$ref", "$dynamicRef"} && IsRemote(members[i].value))
        || HasRemoteReference(members[i].value)
    case _ => false
  }

  predicate IsRemote(j: Json) { j.String? && !("#" <= j.text) }

  datatype SchemaInput = RawSchema(text: JsonText) | GoSchema(value: GoValue)

  /** immutableSchema */
  function ImmutableSchema(input: SchemaInput): Option<Json> {
    var encoded := match input
      case RawSchema(text) => NormalizeText(text)
      case GoSchema(value) => Normalize(value);
    if encoded.None? || !encoded.value.Object? || !Decodable(encoded.value) || HasRemoteReference(encoded.value) then None
    else encoded
  }

  /** A frozen schema is unchanged by freezing it again as raw JSON. */
  lemma FrozenAgain(input: SchemaInput)
    requires input.GoSchema? ==> Typed(input.value)
    ensures ImmutableSchema(input).Some? ==>
              ImmutableSchema(RawSchema(Tree(ImmutableSchema(input).value))) == ImmutableSchema(input)
  {
    if input.GoSchema? && Normalize(input.value).Some? {
      NormalizedIsSafe(input.value);
    }
  }

  // ---------- manifests ----------

  datatype Identity = Identity(name: string, version: string)

  datatype ProjectionManifest = ProjectionManifest(key: ProjectionKey, schema: Json)

  datatype DefinitionManifest = DefinitionManifest(
    identity: Identity, fingerprint: string, sourceSchema: Json, projections: seq<ProjectionManifest>)

  predicate ValidIdentity(i: Identity) {
    ValidText(i.name, MAX_TYPE_LENGTH) && ValidText(i.version, MAX_TYPE_LENGTH)
  }

  predicate ValidSchema(schema: Json) { ImmutableSchema(RawSchema(Tree(schema))) == Some(schema) }

  predicate ValidProjectionManifest(p: ProjectionManifest) { ValidKey(p.key) && ValidSchema(p.schema) }

  predicate UniqueKeys(ps: seq<ProjectionManifest>) {
    forall i, j | 0 <= i < j < |ps| :: ps[i].key != ps[j].key
  }

  predicate ValidProjectionManifests(ps: seq<ProjectionManifest>) {
    UniqueKeys(ps) && forall i | 0 <= i < |ps| :: ValidProjectionManifest(ps[i])
  }

  /** The loop shared by NewDefinitionManifest and Validate, with its set of seen keys. */
  method CheckProjectionManifests(ps: seq<ProjectionManifest>) returns (ok: bool)
    ensures ok == ValidProjectionManifests(ps)
  {
    ok := CheckDistinct(ps, ValidProjectionManifest, (p: ProjectionManifest) => p.key);
  }

  /** "sha256:" followed by 64 lowercase hexadecimal digits. */
  predicate ValidFingerprint(s: string) {
    && |s| == 71 && "sha256:" <= s
    && forall i | 7 <= i < |s| :: '0' <= s[i] <= '9' || 'a' <= s[i] <= 'f'
  }

  /** The digest of a declaration's canonical form; None where RFC 8785 refuses it. */
  type Digest = Json -> Option<string>

  ghost predicate FormatsFingerprints(digest: Digest) {
    forall j :: digest(j).Some? ==> ValidFingerprint(digest(j).value)
  }

  // ---------- printing ----------

  function PrintProjection(p: ProjectionManifest): Json {
    Object([Member("key", PrintKey(p.key)), Member("schema", p.schema)])
  }

  /** definitionWire without the fingerprint, the text that is digested. */
  function Declaration(identity: Identity, schema: Json, ps: seq<ProjectionManifest>): Json {
    Object([ Member("name", String(identity.name)),
             Member("version", String(identity.version)),
             Member("source_schema", schema),
             Member("projections", Array(EncodeAll(PrintProjection, ps))) ])
  }

  function PrintMembers(m: DefinitionManifest): seq<Member> {
    [ Member("name", String(m.identity.name)),
      Member("version", String(m.identity.version)),
      Member("fingerprint", String(m.fingerprint)),
      Member("source_schema", m.sourceSchema),
      Member("projections", Array(EncodeAll(PrintProjection, m.projections))) ]
  }

  // ---------- construction and validation ----------

  /** NewDefinitionManifest */
  function NewManifest(digest: Digest, identity: Identity, schema: SchemaInput, ps: seq<ProjectionManifest>): Option<DefinitionManifest> {
    if !ValidIdentity(identity) || |ps| > MAX_PROJECTIONS || !ValidProjectionManifests(ps) then None else
    var frozen := ImmutableSchema(schema);
    if frozen.None? then None else
    var fingerprint := digest(Declaration(identity, frozen.value, ps));
    if fingerprint.None? then None
    else Some(DefinitionManifest(identity, fingerprint.value, frozen.value, ps))
  }

  /** DefinitionManifest.Validate */
  predicate ValidManifest(digest: Digest, m: DefinitionManifest) {
    && ValidIdentity(m.identity)
    && ValidFingerprint(m.fingerprint)
    && |m.projections| <= MAX_PROJECTIONS && ValidProjectionManifests(m.projections)
    && ValidSchema(m.sourceSchema)
    && digest(Declaration(m.identity, m.sourceSchema, m.projections)) == Some(m.fingerprint)
  }

  function Marshal(digest: Digest, m: DefinitionManifest): Option<Json> {
    if ValidManifest(digest, m) then Some(Object(PrintMembers(m))) else None
  }

  /** Whatever the constructor builds, from raw or Go schemas, passes its own validation. */
  lemma BuiltIsValid(digest: Digest, identity: Identity, schema: SchemaInput, ps: seq<ProjectionManifest>)
    requires FormatsFingerprints(digest) && (schema.GoSchema? ==> Typed(schema.value))
    ensures var built := NewManifest(digest, identity, schema, ps);
            built.Some? ==> ValidManifest(digest, built.value)
  {
    FrozenAgain(schema);
  }

  // ---------- parsing ----------

  /** exactObject: the members are exactly the two required ones. */
  function ExactPair(j: Json, first: string, second: string): Option<(Json, Json)> {
    if !Valid(j) || !j.Object? || |j.members| != 2 then None else
    var a, b := Lookup(j.members, first), Lookup(j.members, second);
    if a.None? || b.None? then None else Some((a.value, b.value))
  }

  function ParseKey(j: Json): Option<ProjectionKey> {
    var pair := ExactPair(j, "name", "version");
    if pair.None? || !pair.value.0.String? || !pair.value.1.String? then None else
    var key := ProjectionKey(pair.value.0.text, pair.value.1.text);
    if ValidKey(key) then Some(key) else None
  }

  function ParseProjection(j: Json): Option<ProjectionManifest> {
    var pair := ExactPair(j, "key", "schema");
    if pair.None? then None else
    var key, schema := ParseKey(pair.value.0), ImmutableSchema(RawSchema(Tree(pair.value.1)));
    if key.None? || schema.None? then None else Some(ProjectionManifest(key.value, schema.value))
  }

  const REQUIRED_FIELDS := {"name", "version", "fingerprint", "source_schema"}

  datatype Wire = Wire(name: Json, version: Json, fingerprint: Json, sourceSchema: Json, projections: Option<Json>)

  /** definitionManifestObject: every required member, nothing unknown, projections optional. */
  function ReadWire(j: Json): Option<Wire> {
    if !Valid(j) || !j.Object? then None else
    var name, version, fingerprint, schema :=
      Lookup(j.members, "name"), Lookup(j.members, "version"),
      Lookup(j.members, "fingerprint"), Lookup(j.members, "source_schema");
    if name.None? || version.None? || fingerprint.None? || schema.None? then None else
    if exists i | 0 <= i < |j.members| :: j.members[i].name !in REQUIRED_FIELDS + {"projections"} then None
    else Some(Wire(name.value, version.value, fingerprint.value, schema.value, Lookup(j.members, "projections")))
  }

  /** ParseDefinitionManifest after the members are read. */
  function FromWire(digest: Digest, w: Wire): Option<DefinitionManifest> {
    if !w.name.String? || !w.version.String? || !w.fingerprint.String? || !ValidFingerprint(w.fingerprint.text) then None else
    var identity := Identity(w.name.text, w.version.text);
    if !ValidIdentity(identity) then None else
    if w.projections.Some? && !w.projections.value.Array? then None else
    var projections := if w.projections.None? then Some([]) else DecodeAll(ParseProjection, w.projections.value.items);
    if projections.None? then None else
    var m := NewManifest(digest, identity, RawSchema(Tree(w.sourceSchema)), projections.value);
    if m.Some? && m.value.fingerprint == w.fingerprint.text then m else None
  }

  function Parse(digest: Digest, j: Json): Option<DefinitionManifest> {
    var wire := ReadWire(j);
    if wire.None? then None else FromWire(digest, wire.value)
  }

  // ---------- round trip ----------

  lemma ParsePrintedKey(k: ProjectionKey)
    requires ValidKey(k)
    ensures Valid(PrintKey(k)) && ParseKey(PrintKey(k)) == Some(k)
  {
    var m := PrintKey(k).members;
    LookupFinds(m, 0);
    LookupFinds(m, 1);
  }

  lemma ParsePrintedProjection(p: ProjectionManifest)
    requires ValidProjectionManifest(p)
    ensures Valid(PrintProjection(p)) && ParseProjection(PrintProjection(p)) == Some(p)
  {
    ParsePrintedKey(p.key);
    var m := PrintProjection(p).members;
    LookupFinds(m, 0);
    LookupFinds(m, 1);
  }

  lemma ParsePrintedProjections(ps: seq<ProjectionManifest>)
    requires forall i | 0 <= i < |ps| :: ValidProjectionManifest(ps[i])
    ensures DecodeAll(ParseProjection, EncodeAll(PrintProjection, ps)) == Some(ps)
    ensures Valid(Array(EncodeAll(PrintProjection, ps)))
  {
    forall i | 0 <= i < |ps|
      ensures ParseProjection(PrintProjection(ps[i])) == Some(ps[i]) && Valid(PrintProjection(ps[i]))
    {
      ParsePrintedProjection(ps[i]);
    }
    DecodeEncoded(PrintProjection, ParseProjection, ps);
  }

  lemma PrintedMembers(m: DefinitionManifest)
    requires Valid(m.sourceSchema) && Valid(Array(EncodeAll(PrintProjection, m.projections)))
    ensures Valid(Object(PrintMembers(m)))
    ensures ReadWire(Object(PrintMembers(m))) == Some(
              Wire(String(m.identity.name), String(m.identity.version), String(m.fingerprint), m.sourceSchema,
                   Some(Array(EncodeAll(PrintProjection, m.projections)))))
  {
    var members := PrintMembers(m);
    assert "fingerprint"[0] == 'f' && "projections"[0] == 'p';
    LookupFinds(members, 0); LookupFinds(members, 1); LookupFinds(members, 2);
    LookupFinds(members, 3); LookupFinds(members, 4);
  }

  lemma FromPrinted(digest: Digest, m: DefinitionManifest)
    requires ValidManifest(digest, m)
    requires DecodeAll(ParseProjection, EncodeAll(PrintProjection, m.projections)) == Some(m.projections)
    ensures FromWire(digest,
              Wire(String(m.identity.name), String(m.identity.version), String(m.fingerprint), m.sourceSchema,
                   Some(Array(EncodeAll(PrintProjection, m.projections))))) == Some(m)
  {
    assert m.identity == Identity(m.identity.name, m.identity.version);
    assert NewManifest(digest, m.identity, RawSchema(Tree(m.sourceSchema)), m.projections) == Some(m);
  }

  /** Parsing what a manifest prints gives back the same manifest, fingerprint included. */
  lemma RoundTrip(digest: Digest, m: DefinitionManifest)
    requires ValidManifest(digest, m)
    ensures Marshal(digest, m).Some? && Parse(digest, Marshal(digest, m).value) == Some(m)
  {
    ParsePrintedProjections(m.projections);
    PrintedMembers(m);
    FromPrinted(digest, m);
  }

  /** The round trip covers every manifest the constructor builds. */
  lemma BuiltRoundTrips(digest: Digest, identity: Identity, schema: SchemaInput, ps: seq<ProjectionManifest>)
    requires FormatsFingerprints(digest) && (schema.GoSchema? ==> Typed(schema.value))
    requires NewManifest(digest, identity, schema, ps).Some?
    ensures var m := NewManifest(digest, identity, schema, ps).value;
            Marshal(digest, m).Some? && Parse(digest, Marshal(digest, m).value) == Some(m)
  {
    BuiltIsValid(digest, identity, schema, ps);
    RoundTrip(digest, NewManifest(digest, identity, schema, ps).value);
  }

  /** A tampered declaration does not parse: the fingerprint must be the digest of what it accompanies. */
  lemma ParsedIsValid(digest: Digest, j: Json)
    ensures Parse(digest, j).Some? ==> ValidManifest(digest, Parse(digest, j).value)
  {}
}
