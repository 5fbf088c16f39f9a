/** Strict parsing loses nothing: a text that parses means what the parsed value prints, up to the members whose omission
    stands for a default (source/definition_manifest.go, source/observation.go). */
module StrictParsing {
  import opened Wrappers
  import opened Json
  import opened SourceModel
  import opened Text
  import Manifest
  import Observation

  // ---------- comparing objects by lookup ----------

  /** The member of that name is there and means what `value` means. */
  ghost predicate Reads(members: seq<Member>, name: string, value: Json) {
    var found := Lookup(members, name);
    found.Some? && Valid(found.value) && Valid(value) && Meaning(found.value) == Meaning(value)
  }

  /** `a` has no name that `b` has not. */
  ghost predicate NamesWithin(a: seq<Member>, b: seq<Member>) {
    forall i | 0 <= i < |a| :: Lookup(b, a[i].name).Some?
  }

  lemma FieldsRead(members: seq<Member>, name: string)
    requires Valid(Object(members))
    ensures name in Fields(members) <==> Lookup(members, name).Some?
    ensures name in Fields(members) ==> Valid(Lookup(members, name).value) && Fields(members)[name] == Meaning(Lookup(members, name).value)
  {
    LookupMember(members, name);
    if name in Fields(members) {
      FieldsOnly(members, name);
    }
    if Lookup(members, name).Some? {
      var i :| 0 <= i < |members| && members[i] == Member(name, Lookup(members, name).value);
      FieldsHold(members, i);
    }
  }

  /** An object that reads like every member of `b`, and has no other names, means what `b` means. */
  lemma MeaningByLookup(a: seq<Member>, b: seq<Member>)
    requires Valid(Object(a)) && Valid(Object(b)) && NamesWithin(a, b)
    requires forall i | 0 <= i < |b| :: Reads(a, b[i].name, b[i].value)
    ensures Meaning(Object(a)) == Meaning(Object(b))
  {
    forall name: string
      ensures name in Fields(a) <==> name in Fields(b)
      ensures name in Fields(a) && name in Fields(b) ==> Fields(a)[name] == Fields(b)[name]
    {
      FieldsRead(a, name);
      FieldsRead(b, name);
      LookupMember(a, name);
      LookupMember(b, name);
    }
    assert Fields(a) == Fields(b);
  }

  lemma PairMeaning(a: seq<Member>, first: string, x: Json, second: string, y: Json)
    requires Valid(Object(a)) && first != second && forall i | 0 <= i < |a| :: a[i].name == first || a[i].name == second
    requires Reads(a, first, x) && Reads(a, second, y)
    ensures Valid(Object([Member(first, x), Member(second, y)]))
    ensures Meaning(Object(a)) == Meaning(Object([Member(first, x), Member(second, y)]))
  {
    var b := [Member(first, x), Member(second, y)];
    LookupFinds(b, 0);
    LookupFinds(b, 1);
    MeaningByLookup(a, b);
  }

  // ---------- defaults ----------

  /** The members, followed by those defaults whose names are missing. */
  function Filled(members: seq<Member>, defaults: seq<Member>): seq<Member>
    decreases |defaults|
  {
    if defaults == [] then members
    else if Lookup(members, defaults[0].name).Some? then Filled(members, defaults[1..])
    else Filled(members + [defaults[0]], defaults[1..])
  }

  function Or(found: Option<Json>, default: Json): Json { if found.Some? then found.value else default }

  lemma {:induction false} LookupConcat(a: seq<Member>, b: seq<Member>, name: string)
    ensures Lookup(a + b, name) == if Lookup(a, name).Some? then Lookup(a, name) else Lookup(b, name)
  {
    if a == [] {
      assert a + b == b;
    } else if a[0].name != name {
      LookupConcat(a[1..], b, name);
      assert (a + b)[1..] == a[1..] + b;
    }
  }

  lemma LookupOne(members: seq<Member>, m: Member, name: string)
    requires Lookup(members, m.name).None?
    ensures Lookup(members + [m], name) == if name == m.name then Some(m.value) else Lookup(members, name)
  {
    LookupConcat(members, [m], name);
    assert [m][1..] == [];
  }

  lemma AppendValid(members: seq<Member>, m: Member)
    requires Valid(Object(members)) && Valid(m.value) && Lookup(members, m.name).None?
    ensures Valid(Object(members + [m]))
  {
    LookupMember(members, m.name);
  }

  lemma {:induction false} FilledReads(members: seq<Member>, defaults: seq<Member>, name: string)
    requires Valid(Object(members)) && forall i | 0 <= i < |defaults| :: Valid(defaults[i].value)
    ensures Valid(Object(Filled(members, defaults)))
    ensures Lookup(Filled(members, defaults), name) ==
            if Lookup(members, name).Some? then Lookup(members, name) else Lookup(defaults, name)
    decreases |defaults|
  {
    if defaults != [] {
      if Lookup(members, defaults[0].name).Some? {
        FilledReads(members, defaults[1..], name);
      } else {
        AppendValid(members, defaults[0]);
        LookupOne(members, defaults[0], name);
        FilledReads(members + [defaults[0]], defaults[1..], name);
      }
    }
  }

  lemma {:induction false} FilledNames(members: seq<Member>, defaults: seq<Member>, names: set<string>)
    requires forall i | 0 <= i < |members| :: members[i].name in names
    requires forall i | 0 <= i < |defaults| :: defaults[i].name in names
    ensures forall i | 0 <= i < |Filled(members, defaults)| :: Filled(members, defaults)[i].name in names
    decreases |defaults|
  {
    if defaults != [] {
      if Lookup(members, defaults[0].name).Some? {
        FilledNames(members, defaults[1..], names);
      } else {
        FilledNames(members + [defaults[0]], defaults[1..], names);
      }
    }
  }

  /** A member that is there, or has a default, is found. */
  lemma FilledFinds(members: seq<Member>, defaults: seq<Member>, i: nat)
    requires Valid(Object(members)) && UniqueNames(defaults) && i < |defaults|
    requires forall k | 0 <= k < |defaults| :: Valid(defaults[k].value)
    ensures Lookup(Filled(members, defaults), defaults[i].name) == Some(Or(Lookup(members, defaults[i].name), defaults[i].value))
  {
    FilledReads(members, defaults, defaults[i].name);
    LookupFinds(defaults, i);
  }

  // ---------- lists ----------

  lemma {:induction false} DecodedEach<T>(decode: Json -> Option<T>, entries: seq<Json>)
    requires DecodeAll(decode, entries).Some?
    ensures var r := DecodeAll(decode, entries).value;
            |r| == |entries| && forall i | 0 <= i < |r| :: decode(entries[i]) == Some(r[i])
  {
    if entries != [] {
      DecodedEach(decode, entries[..|entries| - 1]);
    }
  }

  lemma ArrayMeaning(a: seq<Json>, b: seq<Json>)
    requires |a| == |b| && forall i | 0 <= i < |a| :: Valid(a[i]) && Valid(b[i]) && Meaning(a[i]) == Meaning(b[i])
    ensures Meaning(Array(a)) == Meaning(Array(b))
  {
    assert Meaning(Array(a)).items == Meaning(Array(b)).items;
  }

  // ---------- manifests ----------

  /** Exactly two members, both of them found. */
  lemma ExactNames(members: seq<Member>, first: string, second: string)
    requires UniqueNames(members) && |members| == 2 && first != second
    requires Lookup(members, first).Some? && Lookup(members, second).Some?
    ensures forall i | 0 <= i < |members| :: members[i].name == first || members[i].name == second
  {
    LookupMember(members, first);
    LookupMember(members, second);
  }

  lemma LookedUpValid(members: seq<Member>, name: string)
    requires Valid(Object(members)) && Lookup(members, name).Some?
    ensures Valid(Lookup(members, name).value)
  {
    LookupMember(members, name);
  }

  lemma ManifestKey(j: Json)
    requires Manifest.ParseKey(j).Some?
    ensures Valid(j) && Valid(PrintKey(Manifest.ParseKey(j).value))
    ensures Meaning(j) == Meaning(PrintKey(Manifest.ParseKey(j).value))
  {
    var key := Manifest.ParseKey(j).value;
    ExactNames(j.members, "name", "version");
    PairMeaning(j.members, "name", String(key.name), "version", String(key.version));
  }

  lemma ManifestProjection(j: Json)
    requires Manifest.ParseProjection(j).Some?
    ensures Valid(j) && Valid(Manifest.PrintProjection(Manifest.ParseProjection(j).value))
    ensures Meaning(j) == Meaning(Manifest.PrintProjection(Manifest.ParseProjection(j).value))
  {
    var p := Manifest.ParseProjection(j).value;
    ExactNames(j.members, "key", "schema");
    LookedUpValid(j.members, "key");
    LookedUpValid(j.members, "schema");
    ManifestKey(Lookup(j.members, "key").value);
    PairMeaning(j.members, "key", PrintKey(p.key), "schema", p.schema);
  }

  lemma ManifestProjections(entries: seq<Json>)
    requires DecodeAll(Manifest.ParseProjection, entries).Some?
    ensures var ps := DecodeAll(Manifest.ParseProjection, entries).value;
            var printed := EncodeAll(Manifest.PrintProjection, ps);
            && Valid(Array(entries)) && Valid(Array(printed)) && Meaning(Array(entries)) == Meaning(Array(printed))
  {
    var ps := DecodeAll(Manifest.ParseProjection, entries).value;
    DecodedEach(Manifest.ParseProjection, entries);
    forall i | 0 <= i < |entries|
      ensures Valid(entries[i]) && Valid(Manifest.PrintProjection(ps[i]))
      ensures Meaning(entries[i]) == Meaning(Manifest.PrintProjection(ps[i]))
    {
      ManifestProjection(entries[i]);
    }
    ArrayMeaning(entries, EncodeAll(Manifest.PrintProjection, ps));
  }

  const MANIFEST_DEFAULTS := [Member("projections", Array([]))]

  lemma PrintedManifestNames(m: Manifest.DefinitionManifest, name: string)
    requires name in Manifest.REQUIRED_FIELDS + {"projections"} && UniqueNames(Manifest.PrintMembers(m))
    ensures Lookup(Manifest.PrintMembers(m), name).Some?
  {
    var b := Manifest.PrintMembers(m);
    LookupFinds(b, 0); LookupFinds(b, 1); LookupFinds(b, 2); LookupFinds(b, 3); LookupFinds(b, 4);
  }

  /** What a manifest's wire form holds, once its omitted list is filled in. */
  lemma ManifestWire(digest: Manifest.Digest, w: Manifest.Wire)
    requires Manifest.FromWire(digest, w).Some?
    ensures var m := Manifest.FromWire(digest, w).value;
            && w.name == String(m.identity.name) && w.version == String(m.identity.version)
            && w.fingerprint == String(m.fingerprint) && w.sourceSchema == m.sourceSchema
            && Or(w.projections, Array([])).Array?
            && DecodeAll(Manifest.ParseProjection, Or(w.projections, Array([])).items) == Some(m.projections)
  {}

  /** A text that parses as a manifest means what that manifest prints, a missing list of projections standing for an
      empty one. */
  lemma ManifestLosesNothing(digest: Manifest.Digest, j: Json)
    requires Manifest.Parse(digest, j).Some?
    ensures var printed := Manifest.Marshal(digest, Manifest.Parse(digest, j).value);
            var filled := Object(Filled(j.members, MANIFEST_DEFAULTS));
            printed.Some? && Valid(printed.value) && Valid(filled) && Meaning(filled) == Meaning(printed.value)
  {
    var m, w := Manifest.Parse(digest, j).value, Manifest.ReadWire(j).value;
    Manifest.ParsedIsValid(digest, j);
    ManifestWire(digest, w);
    ManifestProjections(Or(w.projections, Array([])).items);
    Manifest.PrintedMembers(m);
    FilledManifestReads(j, m);
  }

  lemma FilledManifestReads(j: Json, m: Manifest.DefinitionManifest)
    requires Manifest.ReadWire(j).Some? && Valid(Object(Manifest.PrintMembers(m)))
    requires var w := Manifest.ReadWire(j).value;
             var list, printed := Or(w.projections, Array([])), Array(EncodeAll(Manifest.PrintProjection, m.projections));
             && w.name == String(m.identity.name) && w.version == String(m.identity.version)
             && w.fingerprint == String(m.fingerprint) && w.sourceSchema == m.sourceSchema && Valid(m.sourceSchema)
             && Valid(list) && Valid(printed) && Meaning(list) == Meaning(printed)
    ensures Valid(Object(Filled(j.members, MANIFEST_DEFAULTS)))
    ensures Meaning(Object(Filled(j.members, MANIFEST_DEFAULTS))) == Meaning(Object(Manifest.PrintMembers(m)))
  {
    var a, b := Filled(j.members, MANIFEST_DEFAULTS), Manifest.PrintMembers(m);
    FilledFinds(j.members, MANIFEST_DEFAULTS, 0);
    forall i | 0 <= i < |b| ensures Reads(a, b[i].name, b[i].value) {
      FilledReads(j.members, MANIFEST_DEFAULTS, b[i].name);
    }
    FilledNames(j.members, MANIFEST_DEFAULTS, Manifest.REQUIRED_FIELDS + {"projections"});
    forall i | 0 <= i < |a| ensures Lookup(b, a[i].name).Some? {
      PrintedManifestNames(m, a[i].name);
    }
    FilledReads(j.members, MANIFEST_DEFAULTS, "name");
    MeaningByLookup(a, b);
  }

  // ---------- observations ----------

  lemma ObservationKey(j: Json)
    requires Valid(j) && Observation.ParseKey(Some(j)).Some?
    ensures Valid(PrintKey(Observation.ParseKey(Some(j)).value))
    ensures Meaning(j) == Meaning(PrintKey(Observation.ParseKey(Some(j)).value))
  {
    var key := Observation.ParseKey(Some(j)).value;
    PairMeaning(j.members, "name", String(key.name), "version", String(key.version));
  }

  lemma ObservationProjection(j: Json)
    requires Observation.ParseProjection(j).Some?
    ensures Valid(j) && Valid(Observation.PrintProjection(Observation.ParseProjection(j).value))
    ensures Meaning(j) == Meaning(Observation.PrintProjection(Observation.ParseProjection(j).value))
  {
    var p := Observation.ParseProjection(j).value;
    LookedUpValid(j.members, "key");
    LookedUpValid(j.members, "value");
    ObservationKey(Lookup(j.members, "key").value);
    PairMeaning(j.members, "key", PrintKey(p.key), "value", p.value);
  }

  lemma ObservationProjections(entries: seq<Json>)
    requires DecodeAll(Observation.ParseProjection, entries).Some?
    ensures var ps := DecodeAll(Observation.ParseProjection, entries).value;
            var printed := EncodeAll(Observation.PrintProjection, ps);
            && Valid(Array(entries)) && Valid(Array(printed)) && Meaning(Array(entries)) == Meaning(Array(printed))
  {
    var ps := DecodeAll(Observation.ParseProjection, entries).value;
    DecodedEach(Observation.ParseProjection, entries);
    forall i | 0 <= i < |entries|
      ensures Valid(entries[i]) && Valid(Observation.PrintProjection(ps[i]))
      ensures Meaning(entries[i]) == Meaning(Observation.PrintProjection(ps[i]))
    {
      ObservationProjection(entries[i]);
    }
    ArrayMeaning(entries, EncodeAll(Observation.PrintProjection, ps));
  }

  /** An omitted version, materialization, description or list of projections has a default. */
  const OBSERVATION_DEFAULTS := [ Member("definition_version", String("1")),
                                  Member("materialization", String("captured")),
                                  Member("description", Null),
                                  Member("projections", Array([])) ]

  /** What an observation's wire form holds, once its omitted fields are filled in. */
  ghost predicate Stands(w: Observation.Wire, o: Observation.SourceObservation) {
    && w.name == Some(String(o.ref.sourceID)) && w.sourceType == Some(String(o.ref.sourceType))
    && w.definitionFingerprint == Some(String(o.definitionFingerprint)) && w.payload == Some(o.payload)
    && Or(w.definitionVersion, String("1")) == String(o.definitionVersion)
    && Or(w.materialization, String("captured")) == String("captured")
    && Or(w.description, Null) == (if o.description.Some? then String(o.description.value) else Null)
    && Or(w.projections, Array([])).Array?
    && DecodeAll(Observation.ParseProjection, Or(w.projections, Array([])).items) == Some(o.projections)
  }

  lemma ObservationWire(w: Observation.Wire)
    requires Observation.Decode(w).Some?
    ensures Stands(w, Observation.Decode(w).value)
  {}

  lemma DefaultsAreDistinct()
    ensures UniqueNames(OBSERVATION_DEFAULTS) && forall i | 0 <= i < 4 :: Valid(OBSERVATION_DEFAULTS[i].value)
  {
    assert "definition_version"[1] == 'e' && "description"[2] == 's' && "definition_version"[2] == 'f';
  }

  /** A member that has a default reads as the value it stands for. */
  lemma DefaultedField(members: seq<Member>, i: nat, name: string, default: Json, value: Json)
    requires Valid(Object(members)) && i < 4 && OBSERVATION_DEFAULTS[i] == Member(name, default) && Valid(value)
    requires Valid(Or(Lookup(members, name), default)) && Meaning(Or(Lookup(members, name), default)) == Meaning(value)
    ensures Reads(Filled(members, OBSERVATION_DEFAULTS), name, value)
  {
    DefaultsAreDistinct();
    FilledFinds(members, OBSERVATION_DEFAULTS, i);
  }

  /** A member without a default reads as it stands. */
  lemma RequiredField(members: seq<Member>, name: string, value: Json)
    requires Valid(Object(members)) && Valid(value) && Lookup(members, name) == Some(value)
    ensures Reads(Filled(members, OBSERVATION_DEFAULTS), name, value)
  {
    DefaultsAreDistinct();
    FilledReads(members, OBSERVATION_DEFAULTS, name);
  }

  lemma PrintedObservationNames(o: Observation.SourceObservation, name: string)
    requires name in Observation.OBSERVATION_FIELDS && UniqueNames(Observation.PrintMembers(o))
    ensures Lookup(Observation.PrintMembers(o), name).Some?
  {
    var b := Observation.PrintMembers(o);
    LookupFinds(b, 0); LookupFinds(b, 1); LookupFinds(b, 2); LookupFinds(b, 3);
    LookupFinds(b, 4); LookupFinds(b, 5); LookupFinds(b, 6); LookupFinds(b, 7);
  }

  lemma FilledObservationNames(j: Json, o: Observation.SourceObservation)
    requires Observation.ReadWire(j).Some? && UniqueNames(Observation.PrintMembers(o))
    ensures NamesWithin(Filled(j.members, OBSERVATION_DEFAULTS), Observation.PrintMembers(o))
  {
    var a := Filled(j.members, OBSERVATION_DEFAULTS);
    FilledNames(j.members, OBSERVATION_DEFAULTS, Observation.OBSERVATION_FIELDS);
    forall i | 0 <= i < |a| ensures Lookup(Observation.PrintMembers(o), a[i].name).Some? {
      PrintedObservationNames(o, a[i].name);
    }
  }

  ghost predicate IsWire(members: seq<Member>, w: Observation.Wire) {
    && w.name == Lookup(members, "name") && w.definitionVersion == Lookup(members, "definition_version")
    && w.materialization == Lookup(members, "materialization") && w.description == Lookup(members, "description")
    && w.sourceType == Lookup(members, "source_type")
    && w.definitionFingerprint == Lookup(members, "definition_fingerprint")
    && w.payload == Lookup(members, "payload") && w.projections == Lookup(members, "projections")
  }

  lemma DefaultedTexts(members: seq<Member>, w: Observation.Wire, o: Observation.SourceObservation)
    requires Valid(Object(members)) && Stands(w, o) && IsWire(members, w)
    ensures var a := Filled(members, OBSERVATION_DEFAULTS);
            && Reads(a, "definition_version", String(o.definitionVersion))
            && Reads(a, "materialization", String("captured"))
            && Reads(a, "description", if o.description.Some? then String(o.description.value) else Null)
  {
    DefaultedField(members, 0, "definition_version", String("1"), String(o.definitionVersion));
    DefaultedField(members, 1, "materialization", String("captured"), String("captured"));
    DefaultedField(members, 2, "description", Null, if o.description.Some? then String(o.description.value) else Null);
  }

  lemma DefaultedList(members: seq<Member>, w: Observation.Wire, o: Observation.SourceObservation)
    requires Valid(Object(members)) && Stands(w, o) && IsWire(members, w)
    ensures Reads(Filled(members, OBSERVATION_DEFAULTS), "projections", Array(EncodeAll(Observation.PrintProjection, o.projections)))
  {
    ObservationProjections(Or(w.projections, Array([])).items);
    DefaultedField(members, 3, "projections", Array([]), Array(EncodeAll(Observation.PrintProjection, o.projections)));
  }

  lemma FilledObservationReads(members: seq<Member>, w: Observation.Wire, o: Observation.SourceObservation)
    requires Valid(Object(members)) && Stands(w, o) && Valid(o.payload) && IsWire(members, w)
    ensures var a, b := Filled(members, OBSERVATION_DEFAULTS), Observation.PrintMembers(o);
            forall i | 0 <= i < |b| :: Reads(a, b[i].name, b[i].value)
  {
    var a, b := Filled(members, OBSERVATION_DEFAULTS), Observation.PrintMembers(o);
    DefaultedTexts(members, w, o);
    DefaultedList(members, w, o);
    forall i | 0 <= i < |b| ensures Reads(a, b[i].name, b[i].value) {
      if i in {0, 4, 5, 6} {
        RequiredField(members, b[i].name, b[i].value);
      }
    }
  }

  /** A text that parses as an observation means what that observation prints, omitted members standing for their
      defaults. */
  lemma ObservationLosesNothing(j: Json)
    requires Observation.Parse(j).Some?
    ensures var printed := Observation.Marshal(Observation.Parse(j).value);
            var filled := Object(Filled(j.members, OBSERVATION_DEFAULTS));
            printed.Some? && Valid(printed.value) && Valid(filled) && Meaning(filled) == Meaning(printed.value)
  {
    var o, w := Observation.Parse(j).value, Observation.ReadWire(j).value;
    Observation.ParsedIsValid(j);
    Observation.PrintedValid(o);
    ParsedStands(j);
    FilledObservationReads(j.members, w, o);
    FilledObservationNames(j, o);
    DefaultsAreDistinct();
    FilledReads(j.members, OBSERVATION_DEFAULTS, "name");
    MeaningByLookup(Filled(j.members, OBSERVATION_DEFAULTS), Observation.PrintMembers(o));
  }

  lemma ParsedStands(j: Json)
    requires Observation.Parse(j).Some?
    ensures Observation.ReadWire(j).Some? && Stands(Observation.ReadWire(j).value, Observation.Parse(j).value)
  {
    ObservationWire(Observation.ReadWire(j).value);
  }

  // ---------- what does not matter to parsing ----------

  lemma PermutedValid(a: seq<Member>, b: seq<Member>)
    requires Valid(Object(a)) && multiset(a) == multiset(b)
    ensures Valid(Object(b))
  {
    PermutedUnique(a, b);
    forall i | 0 <= i < |b| ensures Valid(b[i].value) {
      assert b[i] in multiset(b);
      assert b[i] in a;
    }
  }

  /** Distinct names make distinct members, so no permutation repeats a name. */
  lemma PermutedUnique(a: seq<Member>, b: seq<Member>)
    requires UniqueNames(a) && multiset(a) == multiset(b)
    ensures UniqueNames(b)
  {
    forall i, j | 0 <= i < j < |b| ensures b[i].name != b[j].name {
      assert b[i] in multiset(b) && b[j] in multiset(b);
      assert b[i] in a && b[j] in a;
      OnceInSequence(a, b[i]);
      OnceMeansDistinct(b, i, j);
    }
  }

  lemma OnceMeansDistinct(s: seq<Member>, i: nat, j: nat)
    requires i < j < |s| && multiset(s)[s[i]] <= 1
    ensures s[i] != s[j]
  {
    assert s == s[..j] + [s[j]] + s[j + 1..];
    assert s[i] in s[..j];
    assert s[i] in multiset(s[..j]);
  }

  lemma {:induction false} OnceInSequence(s: seq<Member>, m: Member)
    requires UniqueNames(s)
    ensures multiset(s)[m] <= 1
  {
    if s != [] {
      var init, last := s[..|s| - 1], s[|s| - 1];
      OnceInSequence(init, m);
      assert s == init + [last];
      if m == last {
        assert m !in init;
        assert m !in multiset(init);
      }
    }
  }

  lemma LookupIncluded(a: seq<Member>, b: seq<Member>, name: string)
    requires UniqueNames(b) && multiset(a) == multiset(b)
    ensures Lookup(a, name).Some? ==> Lookup(b, name) == Lookup(a, name)
  {
    LookupMember(a, name);
    if Lookup(a, name).Some? {
      var i :| 0 <= i < |a| && a[i] == Member(name, Lookup(a, name).value);
      assert a[i] in multiset(a);
      assert a[i] in b;
      var k :| 0 <= k < |b| && b[k] == a[i];
      LookupFinds(b, k);
    }
  }

  lemma PermutedLookup(a: seq<Member>, b: seq<Member>, name: string)
    requires UniqueNames(a) && UniqueNames(b) && multiset(a) == multiset(b)
    ensures Lookup(a, name) == Lookup(b, name)
  {
    LookupIncluded(a, b, name);
    LookupIncluded(b, a, name);
  }

  lemma PermutedNames(a: seq<Member>, b: seq<Member>, names: set<string>)
    requires multiset(a) == multiset(b) && forall i | 0 <= i < |a| :: a[i].name in names
    ensures forall i | 0 <= i < |b| :: b[i].name in names
  {
    forall i | 0 <= i < |b| ensures b[i].name in names {
      assert b[i] in multiset(b);
      assert b[i] in a;
    }
  }

  /** The order of a manifest's members does not matter to parsing. */
  lemma ManifestOrderIrrelevant(digest: Manifest.Digest, a: seq<Member>, b: seq<Member>)
    requires Valid(Object(a)) && multiset(a) == multiset(b)
    ensures Valid(Object(b)) && Manifest.Parse(digest, Object(a)) == Manifest.Parse(digest, Object(b))
  {
    PermutedValid(a, b);
    PermutedLookup(a, b, "name");
    PermutedLookup(a, b, "version");
    PermutedLookup(a, b, "fingerprint");
    PermutedLookup(a, b, "source_schema");
    PermutedLookup(a, b, "projections");
    var names := Manifest.REQUIRED_FIELDS + {"projections"};
    if forall i | 0 <= i < |a| :: a[i].name in names {
      PermutedNames(a, b, names);
    }
    if forall i | 0 <= i < |b| :: b[i].name in names {
      PermutedNames(b, a, names);
    }
    assert Manifest.ReadWire(Object(a)) == Manifest.ReadWire(Object(b));
  }

  lemma ManifestFilledWire(members: seq<Member>)
    requires Valid(Object(members))
    ensures var w, filled := Manifest.ReadWire(Object(members)), Manifest.ReadWire(Object(Filled(members, MANIFEST_DEFAULTS)));
            filled == if w.None? then None else Some(w.value.(projections := Some(Or(w.value.projections, Array([])))))
  {
    var filled := Filled(members, MANIFEST_DEFAULTS);
    FilledReads(members, MANIFEST_DEFAULTS, "name");
    FilledReads(members, MANIFEST_DEFAULTS, "version");
    FilledReads(members, MANIFEST_DEFAULTS, "fingerprint");
    FilledReads(members, MANIFEST_DEFAULTS, "source_schema");
    FilledFinds(members, MANIFEST_DEFAULTS, 0);
    FilledExtends(members, MANIFEST_DEFAULTS);
    var names := Manifest.REQUIRED_FIELDS + {"projections"};
    if forall i | 0 <= i < |members| :: members[i].name in names {
      FilledNames(members, MANIFEST_DEFAULTS, names);
    }
  }

  /** Omitting the list of projections is the same as giving an empty one. */
  lemma ManifestDefaultIrrelevant(digest: Manifest.Digest, members: seq<Member>)
    requires Valid(Object(members))
    ensures Manifest.Parse(digest, Object(Filled(members, MANIFEST_DEFAULTS))) == Manifest.Parse(digest, Object(members))
  {
    ManifestFilledWire(members);
    var w := Manifest.ReadWire(Object(members));
    if w.Some? {
      ManifestFilledDecodes(digest, w.value);
    }
  }

  lemma ManifestFilledDecodes(digest: Manifest.Digest, w: Manifest.Wire)
    ensures Manifest.FromWire(digest, w.(projections := Some(Or(w.projections, Array([]))))) == Manifest.FromWire(digest, w)
  {}

  /** The order of an observation's members does not matter to parsing. */
  lemma ObservationOrderIrrelevant(a: seq<Member>, b: seq<Member>)
    requires Valid(Object(a)) && multiset(a) == multiset(b)
    ensures Valid(Object(b)) && Observation.Parse(Object(a)) == Observation.Parse(Object(b))
  {
    PermutedValid(a, b);
    PermutedLookup(a, b, "name"); PermutedLookup(a, b, "definition_version"); PermutedLookup(a, b, "materialization");
    PermutedLookup(a, b, "description"); PermutedLookup(a, b, "source_type"); PermutedLookup(a, b, "definition_fingerprint");
    PermutedLookup(a, b, "payload"); PermutedLookup(a, b, "projections");
    if forall i | 0 <= i < |a| :: a[i].name in Observation.OBSERVATION_FIELDS {
      PermutedNames(a, b, Observation.OBSERVATION_FIELDS);
    }
    if forall i | 0 <= i < |b| :: b[i].name in Observation.OBSERVATION_FIELDS {
      PermutedNames(b, a, Observation.OBSERVATION_FIELDS);
    }
    assert Observation.ReadWire(Object(a)) == Observation.ReadWire(Object(b));
  }

  /** The wire form with its omitted fields filled in. */
  function FilledWire(w: Observation.Wire): Observation.Wire {
    w.(definitionVersion := Some(Or(w.definitionVersion, String("1"))),
       materialization := Some(Or(w.materialization, String("captured"))),
       description := Some(Or(w.description, Null)),
       projections := Some(Or(w.projections, Array([]))))
  }

  lemma FilledDecodes(w: Observation.Wire)
    ensures Observation.Decode(FilledWire(w)) == Observation.Decode(w)
  {}

  lemma FilledWireReads(members: seq<Member>, w: Observation.Wire)
    requires Valid(Object(members)) && IsWire(members, w)
    ensures Valid(Object(Filled(members, OBSERVATION_DEFAULTS))) && FilledNow(members, w)
  {
    DefaultsAreDistinct();
    FilledFinds(members, OBSERVATION_DEFAULTS, 0); FilledFinds(members, OBSERVATION_DEFAULTS, 1);
    FilledFinds(members, OBSERVATION_DEFAULTS, 2); FilledFinds(members, OBSERVATION_DEFAULTS, 3);
    NoDefault(members, "name"); NoDefault(members, "source_type");
    NoDefault(members, "definition_fingerprint"); NoDefault(members, "payload");
  }

  ghost predicate FilledNow(members: seq<Member>, w: Observation.Wire) {
    IsWire(Filled(members, OBSERVATION_DEFAULTS), FilledWire(w))
  }

  lemma NoDefault(members: seq<Member>, name: string)
    requires Valid(Object(members)) && name in {"name", "source_type", "definition_fingerprint", "payload"}
    ensures Valid(Object(Filled(members, OBSERVATION_DEFAULTS)))
    ensures Lookup(Filled(members, OBSERVATION_DEFAULTS), name) == Lookup(members, name)
  {
    DefaultsAreDistinct();
    FilledReads(members, OBSERVATION_DEFAULTS, name);
    LookupMember(OBSERVATION_DEFAULTS, name);
  }

  lemma {:induction false} FilledExtends(members: seq<Member>, defaults: seq<Member>)
    ensures members <= Filled(members, defaults)
    decreases |defaults|
  {
    if defaults != [] {
      if Lookup(members, defaults[0].name).Some? {
        FilledExtends(members, defaults[1..]);
      } else {
        FilledExtends(members + [defaults[0]], defaults[1..]);
      }
    }
  }

  lemma FilledKnown(members: seq<Member>)
    ensures Observation.OnlyMembers(Filled(members, OBSERVATION_DEFAULTS), Observation.OBSERVATION_FIELDS) <==>
              Observation.OnlyMembers(members, Observation.OBSERVATION_FIELDS)
  {
    FilledExtends(members, OBSERVATION_DEFAULTS);
    if Observation.OnlyMembers(members, Observation.OBSERVATION_FIELDS) {
      FilledNames(members, OBSERVATION_DEFAULTS, Observation.OBSERVATION_FIELDS);
    }
  }

  /** Omitting a version, materialization, description or list of projections is the same as giving its default. */
  lemma ObservationDefaultIrrelevant(members: seq<Member>)
    requires Valid(Object(members))
    ensures Observation.Parse(Object(Filled(members, OBSERVATION_DEFAULTS))) == Observation.Parse(Object(members))
  {
    var filled := Filled(members, OBSERVATION_DEFAULTS);
    FilledKnown(members);
    if Observation.OnlyMembers(members, Observation.OBSERVATION_FIELDS) {
      var w := Observation.ReadWire(Object(members)).value;
      FilledWireReads(members, w);
      FilledDecodes(w);
      assert Observation.ReadWire(Object(filled)) == Some(FilledWire(w));
    } else {
      DefaultsAreDistinct();
      FilledReads(members, OBSERVATION_DEFAULTS, "name");
    }
  }

  // ---------- the envelope ----------

  /** The payload's meaning repeats the observation's identity. */
  ghost predicate Envelope(o: Observation.SourceObservation) {
    && Valid(o.payload) && o.payload.Object?
    && (var fields := Meaning(o.payload).fields;
        && "name" in fields && fields["name"] == VString(o.ref.sourceID)
        && "definition_version" in fields && fields["definition_version"] == VString(o.definitionVersion)
        && "materialization" in fields && fields["materialization"] == VString("captured")
        && match o.description
           case Some(text) => "description" in fields && fields["description"] == VString(text)
           case None => "description" in fields ==> fields["description"] == VNull)
  }

  lemma StringReads(members: seq<Member>, name: string, text: string)
    requires Valid(Object(members))
    ensures Observation.StringOf(Lookup(members, name)) == Some(text) <==>
              name in Fields(members) && Fields(members)[name] == VString(text)
  {
    FieldsRead(members, name);
  }

  /** validatePayload accepts exactly the payloads whose meaning repeats the envelope. */
  lemma PayloadIsEnvelope(o: Observation.SourceObservation)
    ensures Observation.ValidPayload(o) <==> Envelope(o)
  {
    if o.payload.Object? && Valid(o.payload) {
      var members := o.payload.members;
      StringReads(members, "name", o.ref.sourceID);
      StringReads(members, "definition_version", o.definitionVersion);
      StringReads(members, "materialization", "captured");
      FieldsRead(members, "description");
      if o.description.Some? {
        StringReads(members, "description", o.description.value);
      }
    }
  }

  /** NewSourceObservation accepts a bounded reference and version, an empty version standing for "1", a payload that
      repeats the envelope, and valid projections under distinct keys; it keeps what it is given. */
  lemma ObservationBuiltIff(ref: Ref, version: string, fingerprint: string, description: Option<string>, payload: Json,
                            projections: seq<Observation.ProjectionValue>)
    ensures var o := Observation.SourceObservation(ref, if version == "" then "1" else version, fingerprint, description, payload, projections);
            Observation.NewSourceObservation(ref, version, fingerprint, description, payload, projections) ==
            if && ValidText(ref.sourceType, 128) && ValidText(ref.sourceID, 256) && ValidText(o.definitionVersion, 256) && Envelope(o)
               && (forall i, j | 0 <= i < j < |projections| :: projections[i].key != projections[j].key)
               && (forall i | 0 <= i < |projections| ::
                     && ValidText(projections[i].key.name, 256) && ValidText(projections[i].key.version, 256)
                     && Valid(projections[i].value))
            then Some(o) else None
  {
    var o := Observation.SourceObservation(ref, if version == "" then "1" else version, fingerprint, description, payload, projections);
    PayloadIsEnvelope(o);
  }
}
