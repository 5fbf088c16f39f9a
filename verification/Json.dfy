/** JSON texts as trees, the values they mean, and the checkpoint comparison of
    source/connector_lifecycle.go. A tree keeps number tokens and member order; whitespace and string
    escapes are already decoded. */
module Json {
  import opened Wrappers
  import opened JsonNumber
  import opened Collections

  datatype Json =
    | Null
    | Bool(flag: bool)
    | Number(token: Token)
    | String(text: string)
    | Array(items: seq<Json>)
    | Object(members: seq<Member>)

  datatype Member = Member(name: string, value: Json)

  /** What a text means: exact numbers, unordered members. */
  datatype Value =
    | VNull
    | VBool(flag: bool)
    | VNumber(number: real)
    | VString(text: string)
    | VArray(items: seq<Value>)
    | VObject(fields: map<string, Value>)

  predicate UniqueNames(members: seq<Member>) {
    forall i, j | 0 <= i < j < |members| :: members[i].name != members[j].name
  }

  /** jsontext.Value.IsValid: well-formed numbers and, as section 4 of RFC 8259 advises, unique names. */
  predicate Valid(j: Json) {
    match j
    case Number(token) => WellFormed(token)
    case Array(items) => forall i | 0 <= i < |items| :: Valid(items[i])
    case Object(members) => UniqueNames(members) && forall i | 0 <= i < |members| :: Valid(members[i].value)
    case _ => true
  }

  function Meaning(j: Json): Value
    requires Valid(j)
  {
    match j
    case Null => VNull
    case Bool(flag) => VBool(flag)
    case Number(token) => VNumber(Denote(token))
    case String(text) => VString(text)
    case Array(items) => VArray(seq(|items|, i requires 0 <= i < |items| => Meaning(items[i])))
    case Object(members) => VObject(Fields(members))
  }

  function Fields(members: seq<Member>): map<string, Value>
    requires UniqueNames(members) && forall i | 0 <= i < |members| :: Valid(members[i].value)
  {
    if members == [] then map[]
    else
      var last := members[|members| - 1];
      Fields(members[..|members| - 1])[last.name := Meaning(last.value)]
  }

  /** jsontext.Value.Kind */
  function Kind(j: Json): char {
    match j
    case Null => 'n'
    case Bool(flag) => if flag then 't' else 'f'
    case Number(_) => '0'
    case String(_) => '"'
    case Array(_) => '['
    case Object(_) => '{'
  }

  /** The member of that name, if any. */
  function Lookup(members: seq<Member>, name: string): Option<Json> {
    if members == [] then None
    else if members[0].name == name then Some(members[0].value)
    else Lookup(members[1..], name)
  }

  lemma {:induction false} LookupFinds(members: seq<Member>, i: nat)
    requires UniqueNames(members) && i < |members|
    ensures Lookup(members, members[i].name) == Some(members[i].value)
  {
    if i > 0 {
      assert members[1..][i - 1] == members[i];
      LookupFinds(members[1..], i - 1);
    }
  }

  lemma {:induction false} LookupMember(members: seq<Member>, name: string)
    ensures Lookup(members, name).Some? ==> exists i | 0 <= i < |members| ::
              members[i] == Member(name, Lookup(members, name).value)
    ensures Lookup(members, name).None? ==> forall i | 0 <= i < |members| :: members[i].name != name
  {
    if members != [] && members[0].name != name {
      LookupMember(members[1..], name);
      if Lookup(members[1..], name).Some? {
        var i :| 0 <= i < |members[1..]| && members[1..][i] == Member(name, Lookup(members[1..], name).value);
        assert members[i + 1] == members[1..][i];
      } else {
        forall i | 0 <= i < |members| ensures members[i].name != name {
          if i > 0 { assert members[i] == members[1..][i - 1]; }
        }
      }
    }
  }

  lemma {:induction false} FieldsHold(members: seq<Member>, i: nat)
    requires UniqueNames(members) && forall k | 0 <= k < |members| :: Valid(members[k].value)
    requires i < |members|
    ensures members[i].name in Fields(members) && Fields(members)[members[i].name] == Meaning(members[i].value)
  {
    if i < |members| - 1 {
      FieldsHold(members[..|members| - 1], i);
    }
  }

  lemma {:induction false} FieldsOnly(members: seq<Member>, name: string)
    requires UniqueNames(members) && forall k | 0 <= k < |members| :: Valid(members[k].value)
    requires name in Fields(members)
    ensures Lookup(members, name).Some?
  {
    LookupMember(members, name);
    if members != [] && members[|members| - 1].name != name {
      var init := members[..|members| - 1];
      FieldsOnly(init, name);
      LookupMember(init, name);
    }
  }

  // ---------- encoding and decoding lists ----------

  function EncodeAll<T>(encode: T -> Json, values: seq<T>): seq<Json> {
    seq(|values|, i requires 0 <= i < |values| => encode(values[i]))
  }

  /** Decodes every entry, or nothing if one of them does not decode. */
  function DecodeAll<T>(decode: Json -> Option<T>, entries: seq<Json>): Option<seq<T>> {
    if entries == [] then Some([]) else
    var init := DecodeAll(decode, entries[..|entries| - 1]);
    var last := decode(entries[|entries| - 1]);
    if init.None? || last.None? then None else Some(init.value + [last.value])
  }

  lemma {:induction false} DecodeEncoded<T>(encode: T -> Json, decode: Json -> Option<T>, values: seq<T>)
    requires forall i | 0 <= i < |values| :: decode(encode(values[i])) == Some(values[i])
    ensures DecodeAll(decode, EncodeAll(encode, values)) == Some(values)
  {
    if values != [] {
      var n := |values| - 1;
      DecodeEncoded(encode, decode, values[..n]);
      assert EncodeAll(encode, values)[..n] == EncodeAll(encode, values[..n]);
      assert values == values[..n] + [values[n]];
    }
  }

  /** Reordering the members of an object does not change what it means. */
  lemma MemberOrderIrrelevant(a: seq<Member>, b: seq<Member>)
    requires Valid(Object(a)) && Valid(Object(b)) && multiset(a) == multiset(b)
    ensures Meaning(Object(a)) == Meaning(Object(b))
  {
    FieldsIncluded(a, b);
    FieldsIncluded(b, a);
    assert Fields(a).Keys == Fields(b).Keys;
  }

  lemma FieldsIncluded(a: seq<Member>, b: seq<Member>)
    requires Valid(Object(a)) && Valid(Object(b)) && multiset(a) == multiset(b)
    ensures forall name | name in Fields(a) :: name in Fields(b) && Fields(a)[name] == Fields(b)[name]
  {
    forall name | name in Fields(a) ensures name in Fields(b) && Fields(a)[name] == Fields(b)[name] {
      FieldsOnly(a, name);
      LookupMember(a, name);
      var i :| 0 <= i < |a| && a[i].name == name;
      assert a[i] in multiset(a);
      assert a[i] in b;
      var k :| 0 <= k < |b| && b[k] == a[i];
      FieldsHold(a, i);
      FieldsHold(b, k);
    }
  }

  // ---------- comparison ----------

  /** `table` holds exactly the members, each under its name. */
  ghost predicate Tabulates(table: map<string, Json>, members: seq<Member>) {
    && (forall i | 0 <= i < |members| :: members[i].name in table && table[members[i].name] == members[i].value)
    && (forall name | name in table :: Lookup(members, name) == Some(table[name]))
  }

  /** connectorObjectMembers: collects the members, refusing a repeated name. */
  method ConnectorObjectMembers(members: seq<Member>) returns (r: Result<map<string, Json>, string>)
    ensures r.Success? <==> UniqueNames(members)
    ensures r.Success? ==> Tabulates(r.value, members)
  {
    var table: map<string, Json> := map[];
    for n := 0 to |members|
      invariant UniqueNames(members[..n])
      invariant forall i | 0 <= i < n :: members[i].name in table && table[members[i].name] == members[i].value
      invariant forall name | name in table :: exists i | 0 <= i < n :: members[i].name == name
    {
      var member := members[n];
      if member.name in table {
        return Failure("must not contain duplicate object members");
      }
      table := table[member.name := member.value];
      assert members[n].name == member.name;
    }
    assert members[..|members|] == members;
    forall name | name in table ensures Lookup(members, name) == Some(table[name]) {
      var i :| 0 <= i < |members| && members[i].name == name;
      LookupFinds(members, i);
    }
    return Success(table);
  }

  lemma MeaningOfObject(j: Json, table: map<string, Json>)
    requires Valid(j) && j.Object? && Tabulates(table, j.members)
    ensures Meaning(j).VObject? && MeansTable(table, Meaning(j).fields)
  {
    forall name | name in table
      ensures name in Meaning(j).fields && Valid(table[name]) && Meaning(j).fields[name] == Meaning(table[name])
    {
      LookupMember(j.members, name);
      var i :| 0 <= i < |j.members| && j.members[i] == Member(name, table[name]);
      FieldsHold(j.members, i);
    }
    forall name | name in Fields(j.members) ensures name in table {
      FieldsOnly(j.members, name);
      LookupMember(j.members, name);
    }
  }

  lemma PrintSpells(t: Token)
    requires WellFormed(t)
    ensures Spells(Print(t), t)
  {
    var s := Print(t);
    MantissaCharacters(t);
    assert !Text.IsSpace(s[0]) && !Text.IsSpace(s[|s| - 1]);
  }

  method EqualTokens(left: Token, right: Token) returns (r: Result<bool, string>)
    requires WellFormed(left) && WellFormed(right)
    ensures r == Success(Denote(left) == Denote(right))
  {
    PrintSpells(left);
    PrintSpells(right);
    r := EqualConnectorNumbers(Print(left), Print(right));
  }

  lemma DifferentKinds(left: Json, right: Json)
    requires Valid(left) && Valid(right) && Kind(left) != Kind(right)
    ensures Meaning(left) != Meaning(right)
  {}

  /** equalConnectorJSON: on valid texts it never errs, and holds exactly when both mean the same value,
      whichever order the members are visited in. */
  method EqualConnectorJson(left: Json, right: Json) returns (r: Result<bool, string>)
    ensures r.Success? <==> Valid(left) && Valid(right)
    ensures r.Success? ==> r.value == (Meaning(left) == Meaning(right))
    decreases left, 1
  {
    if !Valid(left) || !Valid(right) {
      return Failure("must be valid JSON");
    }
    if Kind(left) != Kind(right) {
      DifferentKinds(left, right);
      return Success(false);
    }
    match left {
      case Object(_) =>
        r := EqualConnectorObjects(left, right);
      case Array(_) =>
        r := EqualConnectorArrays(left, right);
      case String(text) =>
        return Success(text == right.text);
      case Number(token) =>
        r := EqualTokens(token, right.token);
      case _ =>
        return Success(left == right);
    }
  }

  method EqualConnectorObjects(left: Json, right: Json) returns (r: Result<bool, string>)
    requires Valid(left) && Valid(right) && left.Object? && right.Object?
    ensures r == Success(Meaning(left) == Meaning(right))
    decreases left, 0
  {
    var leftResult := ConnectorObjectMembers(left.members);
    var rightResult := ConnectorObjectMembers(right.members);
    var leftMembers, rightMembers := leftResult.value, rightResult.value;
    ObjectsAgree(left, leftMembers, right, rightMembers);
    if |leftMembers| != |rightMembers| {
      return Success(false);
    }
    var remaining := leftMembers.Keys;
    while remaining != {}
      invariant remaining <= leftMembers.Keys
      invariant forall name | name in leftMembers.Keys - remaining :: SameMember(leftMembers, rightMembers, name)
    {
      var name :| name in remaining;
      if name !in rightMembers {
        return Success(false);
      }
      LookupMember(left.members, name);
      var equal := EqualConnectorJson(leftMembers[name], rightMembers[name]);
      if equal.Failure? || !equal.value {
        assert equal.Success? && !SameMember(leftMembers, rightMembers, name);
        return equal;
      }
      remaining := remaining - {name};
    }
    return Success(true);
  }

  /** `name` is a member of both tables, with the same meaning. */
  ghost predicate SameMember(left: map<string, Json>, right: map<string, Json>, name: string)
    requires forall n | n in left :: Valid(left[n])
    requires forall n | n in right :: Valid(right[n])
  {
    name in left && name in right && Meaning(left[name]) == Meaning(right[name])
  }

  lemma ObjectsAgree(left: Json, leftMembers: map<string, Json>, right: Json, rightMembers: map<string, Json>)
    requires Valid(left) && left.Object? && Tabulates(leftMembers, left.members)
    requires Valid(right) && right.Object? && Tabulates(rightMembers, right.members)
    ensures forall n | n in leftMembers :: Valid(leftMembers[n])
    ensures forall n | n in rightMembers :: Valid(rightMembers[n])
    ensures Meaning(left) == Meaning(right) <==>
              && |leftMembers| == |rightMembers|
              && forall n | n in leftMembers :: SameMember(leftMembers, rightMembers, n)
  {
    MeaningOfObject(left, leftMembers);
    MeaningOfObject(right, rightMembers);
    TablesAgree(leftMembers, Meaning(left).fields, rightMembers, Meaning(right).fields);
  }

  /** `fields` gives the meaning of each member of `table`. */
  ghost predicate MeansTable(table: map<string, Json>, fields: map<string, Value>) {
    && fields.Keys == table.Keys
    && forall name | name in table :: Valid(table[name]) && fields[name] == Meaning(table[name])
  }

  lemma TablesAgree(left: map<string, Json>, l: map<string, Value>, right: map<string, Json>, r: map<string, Value>)
    requires MeansTable(left, l) && MeansTable(right, r)
    ensures l == r <==> |left| == |right| && forall n | n in left :: SameMember(left, right, n)
  {
    if l == r {
      assert left.Keys == right.Keys;
      forall n | n in left ensures SameMember(left, right, n) {
        assert l[n] == r[n];
      }
    }
    if |left| == |right| && forall n | n in left :: SameMember(left, right, n) {
      EqualSizedSubset(left.Keys, right.Keys);
      assert forall n | n in l :: l[n] == r[n];
    }
  }

  ghost predicate SameItem(left: seq<Json>, right: seq<Json>, i: nat)
    requires i < |left| && i < |right| && Valid(left[i]) && Valid(right[i])
  {
    Meaning(left[i]) == Meaning(right[i])
  }

  lemma ArraysAgree(left: Json, right: Json)
    requires Valid(left) && Valid(right) && left.Array? && right.Array?
    ensures Meaning(left) == Meaning(right) <==>
              && |left.items| == |right.items|
              && forall i | 0 <= i < |left.items| :: SameItem(left.items, right.items, i)
  {
    var l, r := Meaning(left).items, Meaning(right).items;
    assert forall i | 0 <= i < |l| :: l[i] == Meaning(left.items[i]);
    assert forall i | 0 <= i < |r| :: r[i] == Meaning(right.items[i]);
    if l == r {
      forall i | 0 <= i < |left.items| ensures SameItem(left.items, right.items, i) {
        assert l[i] == r[i];
      }
    }
    if |l| == |r| && forall i | 0 <= i < |left.items| :: SameItem(left.items, right.items, i) {
      forall i | 0 <= i < |l| ensures l[i] == r[i] {
        assert SameItem(left.items, right.items, i);
      }
    }
  }

  method EqualConnectorArrays(left: Json, right: Json) returns (r: Result<bool, string>)
    requires Valid(left) && Valid(right) && left.Array? && right.Array?
    ensures r == Success(Meaning(left) == Meaning(right))
    decreases left, 0
  {
    ArraysAgree(left, right);
    if |left.items| != |right.items| {
      return Success(false);
    }
    for index := 0 to |left.items|
      invariant forall i | 0 <= i < index :: SameItem(left.items, right.items, i)
    {
      var equal := EqualConnectorJson(left.items[index], right.items[index]);
      if equal.Failure? || !equal.value {
        assert !SameItem(left.items, right.items, index);
        return equal;
      }
    }
    return Success(true);
  }

  // ---------- checkpoints ----------

  /** A raw value as held by a checkpoint: nothing, text that does not parse, or a tree. */
  datatype Raw = Empty | Malformed | Parsed(json: Json)

  datatype Checkpoint = Checkpoint(found: bool, value: Raw)

  predicate ValidRaw(raw: Raw) { raw.Parsed? && Valid(raw.json) }

  /** ConnectorCheckpoint.Validate */
  predicate ValidCheckpoint(c: Checkpoint) {
    if c.found then ValidRaw(c.value) else c.value == Empty
  }

  /** Absence is not JSON null. */
  function CheckpointMeaning(c: Checkpoint): Option<Value>
    requires ValidCheckpoint(c)
  { if c.found then Some(Meaning(c.value.json)) else None }

  /** EqualConnectorCheckpoints: an error exactly on an invalid checkpoint, otherwise equality of meaning,
      which is an equivalence relation because it is equality. */
  method EqualConnectorCheckpoints(left: Checkpoint, right: Checkpoint) returns (r: Result<bool, string>)
    ensures r.Success? <==> ValidCheckpoint(left) && ValidCheckpoint(right)
    ensures r.Success? ==> r.value == (CheckpointMeaning(left) == CheckpointMeaning(right))
    ensures r.Failure? <==>
              || (left.found && !(left.value.Parsed? && Valid(left.value.json))) || (!left.found && left.value != Empty)
              || (right.found && !(right.value.Parsed? && Valid(right.value.json))) || (!right.found && right.value != Empty)
    ensures r.Success? ==>
              (r.value <==>
                || (!left.found && !right.found)
                || (left.found && right.found && Meaning(left.value.json) == Meaning(right.value.json)))
  {
    if !ValidCheckpoint(left) || !ValidCheckpoint(right) {
      return Failure("must be valid JSON");
    }
    if left.found != right.found {
      return Success(false);
    }
    if !left.found {
      return Success(true);
    }
    r := EqualConnectorJson(left.value.json, right.value.json);
  }
}
