/** What the fingerprint of a manifest covers, and the wire shapes in full (source/definition_manifest.go,
    source/observation.go). */
module WireShapes {
  import opened Wrappers
  import opened Json
  import opened SourceModel
  import Manifest
  import Observation

  type DefinitionManifest = Manifest.DefinitionManifest

  lemma FieldsSnoc(members: seq<Member>, m: Member)
    requires Valid(Object(members + [m]))
    ensures Valid(Object(members)) && Valid(m.value)
    ensures Fields(members + [m]) == Fields(members)[m.name := Meaning(m.value)]
  {
    var all := members + [m];
    assert all[|members|] == m && all[..|members|] == members;
    assert forall i | 0 <= i < |members| :: members[i] == all[i];
  }

  /** The meaning of an object with two members. */
  lemma PairFields(a: Member, b: Member)
    requires Valid(Object([a, b]))
    ensures Valid(a.value) && Valid(b.value)
    ensures Fields([a, b]) == map[a.name := Meaning(a.value), b.name := Meaning(b.value)]
  {
    assert [a] + [b] == [a, b] && [] + [a] == [a];
    FieldsSnoc([a], b);
    FieldsSnoc([], a);
  }

  // ---------- what is declared ----------

  /** A projection key on the wire. */
  ghost function KeyValue(k: ProjectionKey): Value {
    VObject(map["name" := VString(k.name), "version" := VString(k.version)])
  }

  lemma KeyMeans(k: ProjectionKey)
    ensures Valid(PrintKey(k)) && Meaning(PrintKey(k)) == KeyValue(k)
  {
    PairFields(Member("name", String(k.name)), Member("version", String(k.version)));
  }

  /** A declared projection: its key and what its schema means. */
  datatype Declared = Declared(key: ProjectionKey, schema: Value)

  ghost function DeclaredValue(d: Declared): Value {
    VObject(map["key" := KeyValue(d.key), "schema" := d.schema])
  }

  ghost function ListValue(ds: seq<Declared>): Value {
    VArray(seq(|ds|, i requires 0 <= i < |ds| => DeclaredValue(ds[i])))
  }

  /** The declaration that is digested: name, version, source schema and projections in order. */
  ghost function DeclarationValue(name: string, version: string, schema: Value, ds: seq<Declared>): Value {
    VObject(map["name" := VString(name), "version" := VString(version), "source_schema" := schema, "projections" := ListValue(ds)])
  }

  ghost predicate ValidSchemas(ps: seq<Manifest.ProjectionManifest>) {
    forall i | 0 <= i < |ps| :: Valid(ps[i].schema)
  }

  ghost function DeclaredIn(ps: seq<Manifest.ProjectionManifest>): seq<Declared>
    requires ValidSchemas(ps)
  {
    seq(|ps|, i requires 0 <= i < |ps| => Declared(ps[i].key, Meaning(ps[i].schema)))
  }

  lemma ProjectionMeans(p: Manifest.ProjectionManifest)
    requires Valid(p.schema)
    ensures Valid(Manifest.PrintProjection(p))
    ensures Meaning(Manifest.PrintProjection(p)) == DeclaredValue(Declared(p.key, Meaning(p.schema)))
  {
    KeyMeans(p.key);
    PairFields(Member("key", PrintKey(p.key)), Member("schema", p.schema));
  }

  lemma ListMeans(ps: seq<Manifest.ProjectionManifest>)
    requires ValidSchemas(ps)
    ensures var list := Array(EncodeAll(Manifest.PrintProjection, ps)); Valid(list) && Meaning(list) == ListValue(DeclaredIn(ps))
  {
    var encoded := EncodeAll(Manifest.PrintProjection, ps);
    forall i | 0 <= i < |ps| ensures Valid(encoded[i]) && Meaning(encoded[i]) == DeclaredValue(DeclaredIn(ps)[i]) {
      ProjectionMeans(ps[i]);
    }
    assert Meaning(Array(encoded)).items == ListValue(DeclaredIn(ps)).items;
  }

  /** The digested declaration holds the name, the version, the source schema and every projection, and nothing else. */
  lemma DeclarationMeans(identity: Manifest.Identity, schema: Json, ps: seq<Manifest.ProjectionManifest>)
    requires Valid(schema) && ValidSchemas(ps)
    ensures var d := Manifest.Declaration(identity, schema, ps);
            Valid(d) && Meaning(d) == DeclarationValue(identity.name, identity.version, Meaning(schema), DeclaredIn(ps))
  {
    ListMeans(ps);
    var list := Array(EncodeAll(Manifest.PrintProjection, ps));
    var a, b := Member("name", String(identity.name)), Member("version", String(identity.version));
    var c, d := Member("source_schema", schema), Member("projections", list);
    assert [a, b] + [c] == [a, b, c] && [a, b, c] + [d] == [a, b, c, d];
    FieldsSnoc([a, b, c], d);
    FieldsSnoc([a, b], c);
    PairFields(a, b);
  }

  // ---------- what a digest tells apart ----------

  /** How a canonical form writes a number; section 3.2.2.3 of RFC 8785 writes the nearest double. */
  type Rounding = real -> real

  ghost function Rounded(round: Rounding, v: Value): Value {
    match v
    case VNumber(x) => VNumber(round(x))
    case VArray(items) => VArray(seq(|items|, i requires 0 <= i < |items| => Rounded(round, items[i])))
    case VObject(fields) => VObject(map name | name in fields :: Rounded(round, fields[name]))
    case _ => v
  }

  /** The digest of a text depends on its meaning up to rounding, and differs for different ones. */
  ghost predicate Separates(digest: Manifest.Digest, round: Rounding) {
    forall a, b | Valid(a) && Valid(b) && digest(a).Some? && digest(b).Some? ::
      digest(a) == digest(b) <==> Rounded(round, Meaning(a)) == Rounded(round, Meaning(b))
  }

  ghost function RoundedDeclared(round: Rounding, ds: seq<Declared>): seq<Declared> {
    seq(|ds|, i requires 0 <= i < |ds| => Declared(ds[i].key, Rounded(round, ds[i].schema)))
  }

  lemma RoundedKey(round: Rounding, k: ProjectionKey)
    ensures Rounded(round, KeyValue(k)) == KeyValue(k)
  {
    var v := KeyValue(k);
    assert Rounded(round, v).fields == v.fields;
  }

  lemma RoundedProjection(round: Rounding, d: Declared)
    ensures Rounded(round, DeclaredValue(d)) == DeclaredValue(Declared(d.key, Rounded(round, d.schema)))
  {
    RoundedKey(round, d.key);
    var v, r := DeclaredValue(d), DeclaredValue(Declared(d.key, Rounded(round, d.schema)));
    assert Rounded(round, v).fields == r.fields;
  }

  lemma RoundedList(round: Rounding, ds: seq<Declared>)
    ensures Rounded(round, ListValue(ds)) == ListValue(RoundedDeclared(round, ds))
  {
    forall i | 0 <= i < |ds|
      ensures Rounded(round, DeclaredValue(ds[i])) == DeclaredValue(RoundedDeclared(round, ds)[i])
    {
      RoundedProjection(round, ds[i]);
    }
    assert Rounded(round, ListValue(ds)).items == ListValue(RoundedDeclared(round, ds)).items;
  }

  lemma RoundedDeclaration(round: Rounding, name: string, version: string, schema: Value, ds: seq<Declared>)
    ensures Rounded(round, DeclarationValue(name, version, schema, ds)) ==
            DeclarationValue(name, version, Rounded(round, schema), RoundedDeclared(round, ds))
  {
    RoundedList(round, ds);
    var v := DeclarationValue(name, version, schema, ds);
    var r := DeclarationValue(name, version, Rounded(round, schema), RoundedDeclared(round, ds));
    assert Rounded(round, v).fields == r.fields;
  }

  lemma KeyInjective(k: ProjectionKey, l: ProjectionKey)
    requires KeyValue(k) == KeyValue(l)
    ensures k == l
  {
    assert KeyValue(k).fields["name"] == KeyValue(l).fields["name"];
    assert KeyValue(k).fields["version"] == KeyValue(l).fields["version"];
  }

  lemma ProjectionInjective(d: Declared, e: Declared)
    requires DeclaredValue(d) == DeclaredValue(e)
    ensures d == e
  {
    assert DeclaredValue(d).fields["key"] == DeclaredValue(e).fields["key"];
    assert DeclaredValue(d).fields["schema"] == DeclaredValue(e).fields["schema"];
    KeyInjective(d.key, e.key);
  }

  lemma ListInjective(ds: seq<Declared>, es: seq<Declared>)
    requires ListValue(ds) == ListValue(es)
    ensures ds == es
  {
    assert |ListValue(ds).items| == |ds| && |ListValue(es).items| == |es|;
    forall i | 0 <= i < |ds| ensures ds[i] == es[i] {
      assert ListValue(ds).items[i] == ListValue(es).items[i];
      ProjectionInjective(ds[i], es[i]);
    }
  }

  lemma DeclarationInjective(n: string, v: string, s: Value, ds: seq<Declared>, n': string, v': string, s': Value, ds': seq<Declared>)
    requires DeclarationValue(n, v, s, ds) == DeclarationValue(n', v', s', ds')
    ensures n == n' && v == v' && s == s' && ds == ds'
  {
    var a, b := DeclarationValue(n, v, s, ds).fields, DeclarationValue(n', v', s', ds').fields;
    assert a["name"] == b["name"] && a["version"] == b["version"];
    assert a["source_schema"] == b["source_schema"] && a["projections"] == b["projections"];
    ListInjective(ds, ds');
  }

  /** The manifests declare the same: equal names and versions, schemas that mean the same up to rounding, and equal
      projection keys in the same order with such schemas. */
  ghost predicate SameDeclaration(round: Rounding, m: DefinitionManifest, n: DefinitionManifest)
    requires Valid(m.sourceSchema) && Valid(n.sourceSchema) && ValidSchemas(m.projections) && ValidSchemas(n.projections)
  {
    && m.identity.name == n.identity.name && m.identity.version == n.identity.version
    && Rounded(round, Meaning(m.sourceSchema)) == Rounded(round, Meaning(n.sourceSchema))
    && |m.projections| == |n.projections|
    && forall i | 0 <= i < |m.projections| ::
         && m.projections[i].key == n.projections[i].key
         && Rounded(round, Meaning(m.projections[i].schema)) == Rounded(round, Meaning(n.projections[i].schema))
  }

  lemma ManifestSchemas(digest: Manifest.Digest, m: DefinitionManifest)
    requires Manifest.ValidManifest(digest, m)
    ensures Valid(m.sourceSchema) && ValidSchemas(m.projections)
  {}

  lemma SameDeclarationIff(round: Rounding, m: DefinitionManifest, n: DefinitionManifest)
    requires Valid(m.sourceSchema) && Valid(n.sourceSchema) && ValidSchemas(m.projections) && ValidSchemas(n.projections)
    ensures var d, e := Manifest.Declaration(m.identity, m.sourceSchema, m.projections),
                        Manifest.Declaration(n.identity, n.sourceSchema, n.projections);
            && Valid(d) && Valid(e)
            && (Rounded(round, Meaning(d)) == Rounded(round, Meaning(e)) <==> SameDeclaration(round, m, n))
  {
    DeclarationMeans(m.identity, m.sourceSchema, m.projections);
    DeclarationMeans(n.identity, n.sourceSchema, n.projections);
    var ds, es := DeclaredIn(m.projections), DeclaredIn(n.projections);
    var s, s' := Meaning(m.sourceSchema), Meaning(n.sourceSchema);
    RoundedDeclaration(round, m.identity.name, m.identity.version, s, ds);
    RoundedDeclaration(round, n.identity.name, n.identity.version, s', es);
    var a := DeclarationValue(m.identity.name, m.identity.version, Rounded(round, s), RoundedDeclared(round, ds));
    var b := DeclarationValue(n.identity.name, n.identity.version, Rounded(round, s'), RoundedDeclared(round, es));
    if a == b {
      DeclarationInjective(m.identity.name, m.identity.version, Rounded(round, s), RoundedDeclared(round, ds),
                           n.identity.name, n.identity.version, Rounded(round, s'), RoundedDeclared(round, es));
    }
    SameListIff(round, m.projections, n.projections);
  }

  lemma SameListIff(round: Rounding, ps: seq<Manifest.ProjectionManifest>, qs: seq<Manifest.ProjectionManifest>)
    requires ValidSchemas(ps) && ValidSchemas(qs)
    ensures RoundedDeclared(round, DeclaredIn(ps)) == RoundedDeclared(round, DeclaredIn(qs)) <==>
              && |ps| == |qs|
              && forall i | 0 <= i < |ps| ::
                   && ps[i].key == qs[i].key
                   && Rounded(round, Meaning(ps[i].schema)) == Rounded(round, Meaning(qs[i].schema))
  {
    var a, b := RoundedDeclared(round, DeclaredIn(ps)), RoundedDeclared(round, DeclaredIn(qs));
    assert |a| == |ps| && |b| == |qs|;
    assert forall i | 0 <= i < |ps| :: a[i] == Declared(ps[i].key, Rounded(round, Meaning(ps[i].schema)));
    assert forall i | 0 <= i < |qs| :: b[i] == Declared(qs[i].key, Rounded(round, Meaning(qs[i].schema)));
    if a == b {
      forall i | 0 <= i < |ps| ensures ps[i].key == qs[i].key
      ensures Rounded(round, Meaning(ps[i].schema)) == Rounded(round, Meaning(qs[i].schema)) {
        assert a[i] == b[i];
      }
    }
  }

  /** Valid manifests have the same fingerprint exactly when they declare the same. So changing the name, the version, a
      schema, a key or the order of projections makes the old fingerprint invalid. */
  lemma FingerprintIdentifies(digest: Manifest.Digest, round: Rounding, m: DefinitionManifest, n: DefinitionManifest)
    requires Separates(digest, round) && Manifest.ValidManifest(digest, m) && Manifest.ValidManifest(digest, n)
    ensures Valid(m.sourceSchema) && Valid(n.sourceSchema) && ValidSchemas(m.projections) && ValidSchemas(n.projections)
    ensures m.fingerprint == n.fingerprint <==> SameDeclaration(round, m, n)
  {
    ManifestSchemas(digest, m);
    ManifestSchemas(digest, n);
    SameDeclarationIff(round, m, n);
  }

  /** Two texts that parse under the same fingerprint declare the same: a tampered declaration is refused. */
  lemma TamperingIsDetected(digest: Manifest.Digest, round: Rounding, j: Json, k: Json)
    requires Separates(digest, round) && Manifest.Parse(digest, j).Some? && Manifest.Parse(digest, k).Some?
    requires Manifest.Parse(digest, j).value.fingerprint == Manifest.Parse(digest, k).value.fingerprint
    ensures var m, n := Manifest.Parse(digest, j).value, Manifest.Parse(digest, k).value;
            && Valid(m.sourceSchema) && Valid(n.sourceSchema) && ValidSchemas(m.projections) && ValidSchemas(n.projections)
            && SameDeclaration(round, m, n)
  {
    Manifest.ParsedIsValid(digest, j);
    Manifest.ParsedIsValid(digest, k);
    FingerprintIdentifies(digest, round, Manifest.Parse(digest, j).value, Manifest.Parse(digest, k).value);
  }

  // ---------- the wire shapes ----------

  /** A manifest on the wire is its declaration with the fingerprint. */
  lemma ManifestPrints(m: DefinitionManifest)
    requires Valid(m.sourceSchema) && ValidSchemas(m.projections)
    ensures var printed := Object(Manifest.PrintMembers(m));
            && Valid(printed)
            && Meaning(printed) == VObject(map[
                 "name" := VString(m.identity.name), "version" := VString(m.identity.version),
                 "fingerprint" := VString(m.fingerprint), "source_schema" := Meaning(m.sourceSchema),
                 "projections" := ListValue(DeclaredIn(m.projections))])
  {
    ListMeans(m.projections);
    Manifest.PrintedMembers(m);
    var list := Array(EncodeAll(Manifest.PrintProjection, m.projections));
    var a, b := Member("name", String(m.identity.name)), Member("version", String(m.identity.version));
    var c, d, e := Member("fingerprint", String(m.fingerprint)), Member("source_schema", m.sourceSchema), Member("projections", list);
    assert [a, b] + [c] == [a, b, c] && [a, b, c] + [d] == [a, b, c, d] && [a, b, c, d] + [e] == [a, b, c, d, e];
    FieldsSnoc([a, b, c, d], e);
    FieldsSnoc([a, b, c], d);
    FieldsSnoc([a, b], c);
    PairFields(a, b);
  }

  ghost function SuppliedValue(p: Observation.ProjectionValue): Value
    requires Valid(p.value)
  {
    VObject(map["key" := KeyValue(p.key), "value" := Meaning(p.value)])
  }

  ghost function SuppliedList(ps: seq<Observation.ProjectionValue>): Value
    requires forall i | 0 <= i < |ps| :: Valid(ps[i].value)
  {
    VArray(seq(|ps|, i requires 0 <= i < |ps| => SuppliedValue(ps[i])))
  }

  lemma SuppliedMeans(ps: seq<Observation.ProjectionValue>)
    requires forall i | 0 <= i < |ps| :: Valid(ps[i].value)
    ensures var list := Array(EncodeAll(Observation.PrintProjection, ps));
            Valid(list) && Meaning(list) == SuppliedList(ps)
  {
    var encoded := EncodeAll(Observation.PrintProjection, ps);
    forall i | 0 <= i < |ps| ensures Valid(encoded[i]) && Meaning(encoded[i]) == SuppliedValue(ps[i]) {
      KeyMeans(ps[i].key);
      PairFields(Member("key", PrintKey(ps[i].key)), Member("value", ps[i].value));
    }
    assert Meaning(Array(encoded)).items == SuppliedList(ps).items;
  }

  lemma FourFields(a: Member, b: Member, c: Member, d: Member)
    requires Valid(Object([a, b, c, d]))
    ensures Valid(a.value) && Valid(b.value) && Valid(c.value) && Valid(d.value)
    ensures Fields([a, b, c, d]) ==
            map[a.name := Meaning(a.value), b.name := Meaning(b.value), c.name := Meaning(c.value), d.name := Meaning(d.value)]
  {
    assert [a, b] + [c] == [a, b, c] && [a, b, c] + [d] == [a, b, c, d];
    FieldsSnoc([a, b, c], d);
    FieldsSnoc([a, b], c);
    PairFields(a, b);
  }

  lemma FieldsFour(first: seq<Member>, a: Member, b: Member, c: Member, d: Member)
    requires Valid(Object(first + [a, b, c, d]))
    ensures Valid(Object(first)) && Valid(a.value) && Valid(b.value) && Valid(c.value) && Valid(d.value)
    ensures Fields(first + [a, b, c, d]) ==
            Fields(first)[a.name := Meaning(a.value)][b.name := Meaning(b.value)][c.name := Meaning(c.value)][d.name := Meaning(d.value)]
  {
    assert first + [a, b, c, d] == first + [a] + [b] + [c] + [d];
    FieldsSnoc(first + [a] + [b] + [c], d);
    FieldsSnoc(first + [a] + [b], c);
    FieldsSnoc(first + [a], b);
    FieldsSnoc(first, a);
  }

  /** An observation on the wire. */
  lemma ObservationPrints(o: Observation.SourceObservation)
    requires Observation.ValidObservation(o)
    ensures forall i | 0 <= i < |o.projections| :: Valid(o.projections[i].value)
    ensures var printed := Object(Observation.PrintMembers(o));
            && Valid(printed)
            && Meaning(printed) == VObject(map[
                 "name" := VString(o.ref.sourceID), "definition_version" := VString(o.definitionVersion),
                 "materialization" := VString("captured"),
                 "description" := (if o.description.Some? then VString(o.description.value) else VNull),
                 "source_type" := VString(o.ref.sourceType), "definition_fingerprint" := VString(o.definitionFingerprint),
                 "payload" := Meaning(o.payload),
                 "projections" := SuppliedList(o.projections)])
  {
    Observation.PrintedValid(o);
    SuppliedMeans(o.projections);
    ObservationFields(o);
  }

  lemma ObservationFields(o: Observation.SourceObservation)
    requires Valid(Object(Observation.PrintMembers(o))) && Valid(o.payload) && Valid(Array(EncodeAll(Observation.PrintProjection, o.projections)))
    ensures Fields(Observation.PrintMembers(o)) == map[
              "name" := VString(o.ref.sourceID), "definition_version" := VString(o.definitionVersion),
              "materialization" := VString("captured"),
              "description" := (if o.description.Some? then VString(o.description.value) else VNull),
              "source_type" := VString(o.ref.sourceType), "definition_fingerprint" := VString(o.definitionFingerprint),
              "payload" := Meaning(o.payload),
              "projections" := Meaning(Array(EncodeAll(Observation.PrintProjection, o.projections)))]
  {
    var m := Observation.PrintMembers(o);
    assert m == [m[0], m[1], m[2], m[3]] + [m[4], m[5], m[6], m[7]];
    FieldsFour([m[0], m[1], m[2], m[3]], m[4], m[5], m[6], m[7]);
    FourFields(m[0], m[1], m[2], m[3]);
  }
}
