/** JSON objects with a fixed list of members: building them, printing them in declaration order, reading them back. */
module Records {
  import opened Base
  import opened Text
  import opened Json
  import opened StrictJson
  import opened CanonicalJson
  import opened RoundTrip
  import opened CanonicalTheorems

  datatype Field = Field(name: JsString, value: Json)

  ghost predicate DistinctNames(fields: seq<Field>) {
    forall i, j :: 0 <= i < j < |fields| ==> fields[i].name != fields[j].name
  }

  function FieldMap(fields: seq<Field>): map<JsString, Json> {
    if fields == [] then map[] else map[fields[0].name := fields[0].value] + FieldMap(fields[1..])
  }

  /** The object literal with these members. */
  function Record(fields: seq<Field>): Json {
    Obj(FieldMap(fields))
  }

  lemma {:induction false} FieldNames(fields: seq<Field>)
    ensures forall k :: k in FieldMap(fields) <==> exists i :: 0 <= i < |fields| && fields[i].name == k
  {
    if fields != [] {
      FieldNames(fields[1..]);
      forall k ensures k in FieldMap(fields) <==> exists i :: 0 <= i < |fields| && fields[i].name == k {
        if k in FieldMap(fields[1..]) {
          var i :| 0 <= i < |fields| - 1 && fields[1..][i].name == k;
          assert fields[i + 1].name == k;
        }
        if i :| 0 < i < |fields| && fields[i].name == k {
          assert fields[1..][i - 1].name == k;
        }
      }
    }
  }

  lemma {:induction false} FieldLookUp(fields: seq<Field>)
    requires DistinctNames(fields)
    ensures forall i :: 0 <= i < |fields| ==>
      fields[i].name in FieldMap(fields) && FieldMap(fields)[fields[i].name] == fields[i].value
    ensures |FieldMap(fields)| == |fields|
  {
    if fields != [] {
      var more := FieldMap(fields[1..]);
      FieldNames(fields[1..]);
      FieldLookUp(fields[1..]);
      MapCons(fields[0].name, fields[0].value, more);
      forall i | 0 < i < |fields|
        ensures fields[i].name in FieldMap(fields) && FieldMap(fields)[fields[i].name] == fields[i].value
      {
        assert fields[i] == fields[1..][i - 1];
      }
    }
  }

  ghost predicate SameNames(a: seq<Field>, b: seq<Field>) {
    |a| == |b| && forall i :: 0 <= i < |a| ==> a[i].name == b[i].name
  }

  /** A record determines its members. */
  lemma RecordsAreInjective(a: seq<Field>, b: seq<Field>)
    requires DistinctNames(a) && SameNames(a, b) && Record(a) == Record(b)
    ensures a == b
  {
    FieldLookUp(a);
    FieldLookUp(b);
    forall i | 0 <= i < |a| ensures a[i] == b[i] {
      assert FieldMap(a)[a[i].name] == FieldMap(b)[b[i].name];
    }
  }

  /** `JSON.stringify` of an object literal: members in declaration order, no whitespace. */
  function RecordTree(fields: seq<Field>): Tree {
    TObj([], RecordMembers(fields))
  }

  function RecordMember(f: Field): Member {
    Member([], CanonSpellings(f.name), [], [], CanonTree(f.value), [])
  }

  function RecordMembers(fields: seq<Field>): seq<Member> {
    if fields == [] then [] else [RecordMember(fields[0])] + RecordMembers(fields[1..])
  }

  ghost predicate PrintableFields(fields: seq<Field>, depth: nat, b: Bounds) {
    forall i :: 0 <= i < |fields| ==> AcceptableString(fields[i].name, b) && Acceptable(fields[i].value, depth, b)
  }

  lemma {:induction false} RecordMembersFacts(fields: seq<Field>, depth: nat, b: Bounds)
    requires PrintableFields(fields, depth, b)
    ensures var ms := RecordMembers(fields);
            && |ms| == |fields|
            && (forall i :: 0 <= i < |ms| ==> Spelled(ms[i].key) == fields[i].name)
            && ValidMembers(ms, depth, b)
            && MemberMeanings(ms) == FieldMap(fields)
  {
    if fields != [] {
      var ms, more := RecordMembers(fields), RecordMembers(fields[1..]);
      hide Spelled, SpellingsOk, CanonTree, CanonSpellings, Serialize, Meaning, Valid, Acceptable;
      RecordMembersFacts(fields[1..], depth, b);
      CanonSpellingsFacts(fields[0].name);
      SerializeExact(fields[0].value, depth, b);
      assert ms[1..] == more;
      assert forall i :: 0 < i < |ms| ==> ms[i] == more[i - 1] && fields[i] == fields[1..][i - 1];
    }
  }

  /** The strict parser reads a stringified object literal back as the object. */
  lemma StringifiedRecordParses(fields: seq<Field>, b: Bounds)
    requires DistinctNames(fields) && PrintableFields(fields, 2, b)
    requires 1 <= b.maxDepth && |fields| <= b.maxObjectKeys
    requires ByteLength(Render(RecordTree(fields))) <= b.maxDocumentBytes
    ensures ParseText(Render(RecordTree(fields)), b) == Ok(Record(fields))
  {
    RecordMembersFacts(fields, 2, b);
    var t := RecordTree(fields);
    var doc := Item([], t, []);
    assert [] + Render(t) + [] == Render(t);
    assert Valid(t, 1, b);
    assert ValidDocument(doc, b) && RenderDocument(doc) == Render(t) && Meaning(doc.value) == Record(fields);
    ParsesExactlyTheGrammar(Render(t), Record(fields), b);
  }
}
