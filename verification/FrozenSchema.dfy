/** What freezing a schema preserves and refuses (source/definition_manifest.go): a schema given as a Go value keeps its
    meaning, and a remote reference is found at whatever depth it stands. */
module FrozenSchema {
  import opened Wrappers
  import opened Json
  import opened JsonNumber
  import opened Manifest
  import opened SourceModel
  import opened Text

  // ---------- Go values keep their meaning ----------

  /** The JSON value a Go value stands for; VNull where there is none. */
  ghost function GoMeaning(v: GoValue): Value
    requires Typed(v)
  {
    match v
    case GoNil => VNull
    case GoBool(flag) => VBool(flag)
    case GoString(text) => VString(text)
    case GoFloat(spelling) => if spelling.Some? then VNumber(Denote(spelling.value)) else VNull
    case GoNarrowInt(n) => VNumber(n as real)
    case GoWideInt(n) => VNumber(n as real)
    case GoNumber(text) => TextMeaning(text)
    case GoRaw(text) => TextMeaning(text)
    case GoSlice(items) => VArray(seq(|items|, i requires 0 <= i < |items| => GoMeaning(items[i])))
    case GoMap(entries) => VObject(GoFields(entries))
    case GoOther => VNull
  }

  ghost function TextMeaning(text: JsonText): Value {
    if text.Tree? && Valid(text.json) then Meaning(text.json) else VNull
  }

  ghost function GoFields(entries: seq<GoEntry>): map<string, Value>
    requires forall i | 0 <= i < |entries| :: Typed(entries[i].value)
  {
    if entries == [] then map[]
    else
      var last := entries[|entries| - 1];
      GoFields(entries[..|entries| - 1])[last.name := GoMeaning(last.value)]
  }

  lemma IntegerTokenDenotes(n: int)
    ensures WellFormed(IntegerToken(n)) && Denote(IntegerToken(n)) == n as real
  {
    var t := IntegerToken(n);
    assert Power10(0) == 1.0 && FractionValue("") == 0.0;
    assert Magnitude(t) == Natural(t.whole) as real;
  }

  /** Spelling an integral float with a fraction leaves the number as it is. */
  lemma FloatTokenDenotes(t: Token)
    requires WellFormed(t)
    ensures WellFormed(FloatToken(t)) && Denote(FloatToken(t)) == Denote(t)
    ensures FloatToken(t).fraction.Some? || FloatToken(t).exponent.Some?
  {
    assert FractionValue("") == 0.0;
    assert FractionValue("0") == 0.0 by { assert "0"[1..] == ""; }
  }

  /** A schema frozen from a Go value means what the Go value stands for: integers and floats keep their exact number,
      maps their members, slices their order. */
  lemma {:induction false} NormalizeKeepsMeaning(v: GoValue)
    requires Typed(v) && Normalize(v).Some?
    ensures Valid(Normalize(v).value) && Meaning(Normalize(v).value) == GoMeaning(v)
    decreases v, 0
  {
    NormalizedIsSafe(v);
    match v
    case GoFloat(spelling) => FloatTokenDenotes(spelling.value);
    case GoNarrowInt(n) => IntegerTokenDenotes(n);
    case GoWideInt(n) => IntegerTokenDenotes(n);
    case GoSlice(items) => ItemsKeepMeaning(items);
    case GoMap(entries) => MapKeepsMeaning(entries);
    case _ =>
  }

  lemma {:induction false} ItemsKeepMeaning(items: seq<GoValue>)
    requires (forall i | 0 <= i < |items| :: Typed(items[i])) && NormalizeItems(items).Some?
    ensures var r := NormalizeItems(items).value;
            |r| == |items| && forall i | 0 <= i < |r| :: Valid(r[i]) && Meaning(r[i]) == GoMeaning(items[i])
    decreases items, 0
  {
    if items != [] {
      NormalizeKeepsMeaning(items[0]);
      ItemsKeepMeaning(items[1..]);
    }
  }

  lemma {:induction false} EntriesKeepMeaning(entries: seq<GoEntry>)
    requires (forall i | 0 <= i < |entries| :: Typed(entries[i].value)) && NormalizeEntries(entries).Some?
    ensures var r := NormalizeEntries(entries).value;
            && |r| == |entries|
            && forall i | 0 <= i < |r| ::
                 r[i].name == entries[i].name && Valid(r[i].value) && Meaning(r[i].value) == GoMeaning(entries[i].value)
    decreases entries, 0
  {
    if entries != [] {
      NormalizeKeepsMeaning(entries[0].value);
      EntriesKeepMeaning(entries[1..]);
    }
  }

  lemma {:induction false} MapKeepsMeaning(entries: seq<GoEntry>)
    requires Typed(GoMap(entries)) && NormalizeEntries(entries).Some?
    ensures var r := NormalizeEntries(entries).value;
            Valid(Object(r)) && Meaning(Object(r)) == GoMeaning(GoMap(entries))
    decreases entries, 1
  {
    EntriesKeepMeaning(entries);
    EntriesAreSafe(entries);
    FieldsAgree(NormalizeEntries(entries).value, entries);
  }

  lemma {:induction false} FieldsAgree(members: seq<Member>, entries: seq<GoEntry>)
    requires UniqueNames(members) && |members| == |entries|
    requires forall i | 0 <= i < |members| :: Valid(members[i].value) && Typed(entries[i].value)
    requires forall i | 0 <= i < |members| ::
               members[i].name == entries[i].name && Meaning(members[i].value) == GoMeaning(entries[i].value)
    ensures Fields(members) == GoFields(entries)
  {
    if members != [] {
      FieldsAgree(members[..|members| - 1], entries[..|entries| - 1]);
    }
  }

  // ---------- remote references ----------

  /** Descends into item or member number `path[0]`, and so on. */
  function Descend(j: Json, path: seq<nat>): Option<Json> {
    if path == [] then Some(j)
    else match j
      case Array(items) => if path[0] < |items| then Descend(items[path[0]], path[1..]) else None
      case Object(members) => if path[0] < |members| then Descend(members[path[0]].value, path[1..]) else None
      case _ => None
  }

  /** The object has a string reference that is empty or does not start with '#'. */
  predicate RefersRemotely(j: Json) {
    j.Object? && exists i | 0 <= i < |j.members| ::
      && (j.members[i].name == "$ref" || j.members[i].name == "$dynamicRef")
      && j.members[i].value.String? && (j.members[i].value.text == "" || j.members[i].value.text[0] != '#')
  }

  lemma IsRemoteIff(j: Json)
    ensures IsRemote(j) <==> j.String? && (j.text == "" || j.text[0] != '#')
  {}

  /** The object at this path refers remotely. */
  predicate RemoteAt(j: Json, path: seq<nat>) {
    var target := Descend(j, path);
    target.Some? && RefersRemotely(target.value)
  }

  /** hasRemoteSchemaReference finds exactly the remote references that stand in some object, at any depth. */
  lemma RemoteReferenceExact(j: Json)
    ensures HasRemoteReference(j) <==> exists path :: RemoteAt(j, path)
  {
    if HasRemoteReference(j) {
      var path := RemotePath(j);
    }
    if path :| RemoteAt(j, path) {
      RemoteFound(j, path);
    }
  }

  lemma {:induction false} RemoteFound(j: Json, path: seq<nat>)
    requires RemoteAt(j, path)
    ensures HasRemoteReference(j)
  {
    if path == [] {
      var i :| 0 <= i < |j.members| && (j.members[i].name == "$ref" || j.members[i].name == "$dynamicRef")
               && j.members[i].value.String? && (j.members[i].value.text == "" || j.members[i].value.text[0] != '#');
      IsRemoteIff(j.members[i].value);
    } else {
      match j
      case Array(items) => RemoteFound(items[path[0]], path[1..]);
      case Object(members) => RemoteFound(members[path[0]].value, path[1..]);
    }
  }

  lemma {:induction false} RemotePath(j: Json) returns (path: seq<nat>)
    requires HasRemoteReference(j)
    ensures RemoteAt(j, path)
    decreases j
  {
    if RefersRemotely(j) {
      return [];
    }
    if j.Object? {
      forall i | 0 <= i < |j.members| ensures j.members[i].name in {"$ref", "$dynamicRef"} ==> !IsRemote(j.members[i].value) {
        IsRemoteIff(j.members[i].value);
      }
    }
    var first: nat, rest: seq<nat> := 0, [];
    match j {
    case Array(items) =>
      first :| 0 <= first < |items| && HasRemoteReference(items[first]);
      rest := RemotePath(items[first]);
    case Object(members) =>
      first :| 0 <= first < |members| && HasRemoteReference(members[first].value);
      rest := RemotePath(members[first].value);
    }
    path := [first] + rest;
    assert path[1..] == rest;
  }

  // ---------- numbers ----------

  /** The number at this path is `ok`, if there is one. */
  ghost predicate NumberOkAt(ok: Token -> bool, j: Json, path: seq<nat>) {
    var target := Descend(j, path);
    target.Some? && target.value.Number? ==> ok(target.value.token)
  }

  lemma {:induction false} NumberFound(ok: Token -> bool, j: Json, path: seq<nat>)
    requires EveryNumber(ok, j)
    ensures NumberOkAt(ok, j, path)
    decreases |path|
  {
    if path != [] {
      match j
      case Array(items) => if path[0] < |items| { NumberFound(ok, items[path[0]], path[1..]); }
      case Object(members) => if path[0] < |members| { NumberFound(ok, members[path[0]].value, path[1..]); }
      case _ =>
    }
  }

  lemma {:induction false} NumberPath(ok: Token -> bool, j: Json) returns (path: seq<nat>)
    requires !EveryNumber(ok, j)
    ensures !NumberOkAt(ok, j, path)
    decreases j
  {
    var first: nat, rest: seq<nat> := 0, [];
    match j {
    case Number(_) => return [];
    case Array(items) =>
      first :| 0 <= first < |items| && !EveryNumber(ok, items[first]);
      rest := NumberPath(ok, items[first]);
    case Object(members) =>
      first :| 0 <= first < |members| && !EveryNumber(ok, members[first].value);
      rest := NumberPath(ok, members[first].value);
    }
    path := [first] + rest;
    assert path[1..] == rest;
  }

  lemma EveryNumberExact(ok: Token -> bool, j: Json)
    ensures EveryNumber(ok, j) <==> forall path :: NumberOkAt(ok, j, path)
  {
    if EveryNumber(ok, j) {
      forall path ensures NumberOkAt(ok, j, path) { NumberFound(ok, j, path); }
    } else {
      var path := NumberPath(ok, j);
    }
  }

  /** A number any reader takes alike: spelled with a fraction or exponent, or an integer of magnitude below 2^53. */
  predicate Interoperable(t: Token) {
    WellFormed(t) && (t.fraction.Some? || t.exponent.Some? || -9007199254740991.0 <= Denote(t) <= 9007199254740991.0)
  }

  lemma SafeIsInteroperable(t: Token)
    ensures SafeToken(t) <==> Interoperable(t)
  {
    if WellFormed(t) && t.fraction.None? && t.exponent.None? {
      assert Power10(0) == 1.0 && FractionValue("") == 0.0;
      assert Magnitude(t) == Natural(t.whole) as real;
    }
  }

  /** What a schema text must be: one object with unique names, whose numbers are interoperable and fit a double, without
      remote references, all at any depth. */
  ghost predicate AcceptedSchema(j: Json) {
    && Valid(j) && j.Object?
    && (forall path :: NumberOkAt(Interoperable, j, path))
    && (forall path :: NumberOkAt(FitsFloat64, j, path))
    && !exists path :: RemoteAt(j, path)
  }

  lemma {:induction false} SameEveryNumber(p: Token -> bool, q: Token -> bool, j: Json)
    requires forall t :: p(t) <==> q(t)
    ensures EveryNumber(p, j) <==> EveryNumber(q, j)
  {
    match j
    case Array(items) => forall i | 0 <= i < |items| ensures EveryNumber(p, items[i]) <==> EveryNumber(q, items[i]) { SameEveryNumber(p, q, items[i]); }
    case Object(members) =>
      forall i | 0 <= i < |members| ensures EveryNumber(p, members[i].value) <==> EveryNumber(q, members[i].value) {
        SameEveryNumber(p, q, members[i].value);
      }
    case _ =>
  }

  /** Freezing raw JSON keeps an acceptable schema as it is and refuses everything else. */
  lemma SchemaAcceptedIff(j: Json)
    ensures ImmutableSchema(RawSchema(Tree(j))) == if AcceptedSchema(j) then Some(j) else None
  {
    forall t ensures SafeToken(t) <==> Interoperable(t) { SafeIsInteroperable(t); }
    SameEveryNumber(SafeToken, Interoperable, j);
    EveryNumberExact(Interoperable, j);
    EveryNumberExact(FitsFloat64, j);
    RemoteReferenceExact(j);
  }

  /** The constructor accepts exactly a bounded name and version, at most sixteen projections with distinct bounded keys,
      and acceptable schemas whose declaration has a digest. */
  lemma BuiltIff(digest: Digest, identity: Identity, j: Json, ps: seq<ProjectionManifest>)
    ensures NewManifest(digest, identity, RawSchema(Tree(j)), ps).Some? <==>
              && ValidText(identity.name, 128) && ValidText(identity.version, 128)
              && |ps| <= 16 && (forall i, k | 0 <= i < k < |ps| :: ps[i].key != ps[k].key)
              && (forall i | 0 <= i < |ps| ::
                    ValidText(ps[i].key.name, 256) && ValidText(ps[i].key.version, 256) && AcceptedSchema(ps[i].schema))
              && AcceptedSchema(j) && digest(Declaration(identity, j, ps)).Some?
  {
    SchemaAcceptedIff(j);
    forall i | 0 <= i < |ps| ensures ValidSchema(ps[i].schema) <==> AcceptedSchema(ps[i].schema) {
      SchemaAcceptedIff(ps[i].schema);
    }
  }

  // ---------- which Go values normalise ----------

  /** Descends into slices and maps. */
  function GoDescend(v: GoValue, path: seq<nat>): Option<GoValue> {
    if path == [] then Some(v)
    else match v
      case GoSlice(items) => if path[0] < |items| then GoDescend(items[path[0]], path[1..]) else None
      case GoMap(entries) => if path[0] < |entries| then GoDescend(entries[path[0]].value, path[1..]) else None
      case _ => None
  }

  /** A float must be finite, an integer of 64 bits within the safe range, raw JSON one text with interoperable numbers,
      and no value of another type. */
  ghost predicate Representable(v: GoValue) {
    match v
    case GoFloat(spelling) => spelling.Some?
    case GoWideInt(n) => -9007199254740991 <= n <= 9007199254740991
    case GoNumber(raw) => RawRepresentable(raw)
    case GoRaw(raw) => RawRepresentable(raw)
    case GoOther => false
    case _ => true
  }

  ghost predicate RawRepresentable(raw: JsonText) {
    raw.Tree? && Valid(raw.json) && forall path :: NumberOkAt(Interoperable, raw.json, path)
  }

  ghost predicate RepresentableAt(v: GoValue, path: seq<nat>) {
    var target := GoDescend(v, path);
    target.Some? ==> Representable(target.value)
  }

  lemma NormalizeTextIff(raw: JsonText)
    ensures NormalizeText(raw).Some? <==> RawRepresentable(raw)
  {
    if raw.Tree? {
      forall t ensures SafeToken(t) <==> Interoperable(t) { SafeIsInteroperable(t); }
      SameEveryNumber(SafeToken, Interoperable, raw.json);
      EveryNumberExact(Interoperable, raw.json);
    }
  }

  lemma {:induction false} ItemsNormalizeIff(items: seq<GoValue>)
    ensures NormalizeItems(items).Some? <==> forall i | 0 <= i < |items| :: Normalize(items[i]).Some?
  {
    if items != [] {
      ItemsNormalizeIff(items[1..]);
      assert forall i | 1 <= i < |items| :: items[i] == items[1..][i - 1];
    }
  }

  lemma {:induction false} EntriesNormalizeIff(entries: seq<GoEntry>)
    ensures NormalizeEntries(entries).Some? <==> forall i | 0 <= i < |entries| :: Normalize(entries[i].value).Some?
  {
    if entries != [] {
      EntriesNormalizeIff(entries[1..]);
      assert forall i | 1 <= i < |entries| :: entries[i] == entries[1..][i - 1];
    }
  }

  lemma {:induction false} NormalizedAt(v: GoValue, path: seq<nat>)
    requires Normalize(v).Some?
    ensures RepresentableAt(v, path)
    decreases |path|
  {
    match v
    case GoSlice(items) =>
      ItemsNormalizeIff(items);
      if path != [] && path[0] < |items| { NormalizedAt(items[path[0]], path[1..]); }
    case GoMap(entries) =>
      EntriesNormalizeIff(entries);
      if path != [] && path[0] < |entries| { NormalizedAt(entries[path[0]].value, path[1..]); }
    case GoNumber(raw) => NormalizeTextIff(raw);
    case GoRaw(raw) => NormalizeTextIff(raw);
    case _ =>
  }

  lemma {:induction false} UnrepresentablePath(v: GoValue) returns (path: seq<nat>)
    requires Normalize(v).None?
    ensures !RepresentableAt(v, path)
    decreases v
  {
    var first: nat, rest: seq<nat> := 0, [];
    match v {
    case GoSlice(items) =>
      ItemsNormalizeIff(items);
      first :| 0 <= first < |items| && Normalize(items[first]).None?;
      rest := UnrepresentablePath(items[first]);
    case GoMap(entries) =>
      EntriesNormalizeIff(entries);
      first :| 0 <= first < |entries| && Normalize(entries[first].value).None?;
      rest := UnrepresentablePath(entries[first].value);
    case GoNumber(raw) =>
      NormalizeTextIff(raw);
      return [];
    case GoRaw(raw) =>
      NormalizeTextIff(raw);
      return [];
    case _ => return [];
    }
    path := [first] + rest;
    assert path[1..] == rest;
  }

  /** A Go value normalises exactly when every value in it, at any depth, is representable. */
  lemma NormalizesIff(v: GoValue)
    ensures Normalize(v).Some? <==> forall path :: RepresentableAt(v, path)
  {
    if Normalize(v).Some? {
      forall path ensures RepresentableAt(v, path) { NormalizedAt(v, path); }
    } else {
      var path := UnrepresentablePath(v);
    }
  }

  // ---------- validity is being rebuilt ----------

  /** A manifest is valid exactly when building it again from its own parts gives it back. */
  lemma ValidIffRebuilt(digest: Digest, m: DefinitionManifest)
    requires FormatsFingerprints(digest)
    ensures ValidManifest(digest, m) <==> NewManifest(digest, m.identity, RawSchema(Tree(m.sourceSchema)), m.projections) == Some(m)
  {
    BuiltIsValid(digest, m.identity, RawSchema(Tree(m.sourceSchema)), m.projections);
  }
}
