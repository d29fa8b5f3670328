/** The supervisor's frame byte by byte: the base64url table, the report's members, and which streams carry a report. */
module FrameText {
  import opened Base
  import opened Json
  import opened StrictJson
  import opened Text
  import opened CanonicalJson
  import opened RoundTrip
  import opened CanonicalText
  import opened Records
  import opened ProcessFrame
  import Base64Url
  import opened FrameTheorems

  // ---------- base64url ----------

  const UPPER: string := "ABCDEFGHIJKLMNOPQRSTUVWXYZ"
  const LOWER: string := "abcdefghijklmnopqrstuvwxyz"
  const REST: string := "0123456789-_"
  const TABLE: string := UPPER + LOWER + REST

  lemma UpperChars(v: int)
    requires 0 <= v < 26
    ensures UPPER[v] as int == 'A' as int + v
  {
  }

  lemma LowerChars(v: int)
    requires 0 <= v < 26
    ensures LOWER[v] as int == 'a' as int + v
  {
  }

  lemma RestChars(v: int)
    requires 0 <= v < 12
    ensures REST[v] as int == if v < 10 then '0' as int + v else if v == 10 then '-' as int else '_' as int
  {
  }

  lemma TableParts()
    ensures |UPPER| == 26 && |LOWER| == 26 && |REST| == 12
  {
  }

  lemma CharIsFromTable(v: int)
    requires 0 <= v < 64
    ensures Base64Url.Char(v) as int == TABLE[v] as int
  {
    hide LOWER, REST, UPPER;
    TableParts();
    if v < 26 { UpperChars(v); } else if v < 52 { LowerChars(v - 26); } else { RestChars(v - 52); }
  }

  /** The character of the table at a six-bit value. */
  ghost predicate IsChar(c: Byte, v: int) {
    0 <= v < 64 && c as int == TABLE[v] as int
  }

  /** The encoding, group by group: six bits a character, the highest first, and zeros in place of missing bits. */
  lemma EncodesGroup(b: Bytes)
    requires b != []
    ensures |b| == 1 ==> |Base64Url.Encode(b)| == 2 && exists v0, v1 ::
      IsChar(Base64Url.Encode(b)[0], v0) && IsChar(Base64Url.Encode(b)[1], v1) && v0 * 0x40 + v1 == b[0] as int * 0x10
    ensures |b| == 2 ==> |Base64Url.Encode(b)| == 3 && exists v0, v1, v2 ::
      && IsChar(Base64Url.Encode(b)[0], v0) && IsChar(Base64Url.Encode(b)[1], v1) && IsChar(Base64Url.Encode(b)[2], v2)
      && v0 * 0x1000 + v1 * 0x40 + v2 == (b[0] as int * 0x100 + b[1] as int) * 4
    ensures |b| >= 3 ==> |Base64Url.Encode(b)| >= 4 && exists v0, v1, v2, v3 ::
      && IsChar(Base64Url.Encode(b)[0], v0) && IsChar(Base64Url.Encode(b)[1], v1)
      && IsChar(Base64Url.Encode(b)[2], v2) && IsChar(Base64Url.Encode(b)[3], v3)
      && v0 * 0x4_0000 + v1 * 0x1000 + v2 * 0x40 + v3 == b[0] as int * 0x1_0000 + b[1] as int * 0x100 + b[2] as int
      && Base64Url.Encode(b)[4..] == Base64Url.Encode(b[3..])
  {
    hide TABLE, Base64Url.Char;
    var b0 := b[0];
    if |b| == 1 {
      CharIsFromTable(b0 / 4);
      CharIsFromTable(b0 % 4 * 16);
      assert IsChar(Base64Url.Encode(b)[0], b0 / 4) && IsChar(Base64Url.Encode(b)[1], b0 % 4 * 16);
    } else if |b| == 2 {
      CharIsFromTable(b0 / 4);
      CharIsFromTable(b0 % 4 * 16 + b[1] / 16);
      CharIsFromTable(b[1] % 16 * 4);
      assert IsChar(Base64Url.Encode(b)[0], b0 / 4) && IsChar(Base64Url.Encode(b)[1], b0 % 4 * 16 + b[1] / 16);
      assert IsChar(Base64Url.Encode(b)[2], b[1] % 16 * 4);
    } else {
      CharIsFromTable(b0 / 4);
      CharIsFromTable(b0 % 4 * 16 + b[1] / 16);
      CharIsFromTable(b[1] % 16 * 4 + b[2] / 64);
      CharIsFromTable(b[2] % 64);
      assert IsChar(Base64Url.Encode(b)[0], b0 / 4) && IsChar(Base64Url.Encode(b)[1], b0 % 4 * 16 + b[1] / 16);
      assert IsChar(Base64Url.Encode(b)[2], b[1] % 16 * 4 + b[2] / 64) && IsChar(Base64Url.Encode(b)[3], b[2] % 64);
    }
  }

  lemma AlphabetIsTable(c: Byte)
    ensures Base64Url.IsAlphabet(c) <==>
      || 'A' as int <= c as int <= 'Z' as int || 'a' as int <= c as int <= 'z' as int
      || '0' as int <= c as int <= '9' as int || c as int == '-' as int || c as int == '_' as int
  {
  }

  // ---------- the marker ----------

  const MARKER: string := "\n\U{1e}SHEDU_PROCESS_REPORT_V1:"

  ghost predicate MarkerAt(bytes: Bytes, i: int) {
    0 <= i && i + 26 <= |bytes| && forall k :: 0 <= k < 26 ==> bytes[i + k] as int == MARKER[k] as int
  }

  lemma MarkerIsMagic()
    ensures |MARKER| == 26 == |MAGIC| && forall k :: 0 <= k < 26 ==> MAGIC[k] as int == MARKER[k] as int
  {
  }

  lemma MagicOccurs(bytes: Bytes, i: nat)
    ensures OccursAt(MAGIC, bytes, i) <==> MarkerAt(bytes, i)
  {
    MarkerIsMagic();
    hide MAGIC, MARKER;
    if i + 26 <= |bytes| {
      var part := bytes[i..i + 26];
      assert forall k :: 0 <= k < 26 ==> part[k] == bytes[i + k];
      if MarkerAt(bytes, i) { assert part == MAGIC; }
    }
  }

  // ---------- reading a report ----------

  ghost predicate Has(j: Json, name: string, v: Json)
    requires forall i :: 0 <= i < |name| ==> name[i] as int < 0x80
  {
    j.Obj? && Ascii(name) in j.members && j.members[Ascii(name)] == v
  }

  ghost predicate IsSafe(n: int) {
    -9_007_199_254_740_991 <= n <= 9_007_199_254_740_991
  }

  /** The object is a report: its version and class, and six members of the right types. */
  ghost predicate IsReport(j: Json, r: Report) {
    && Has(j, "schemaVersion", Str(Ascii("process-resource-report@1")))
    && Has(j, "class", Str(Ascii("BOUNDED_PROCESS_TREE")))
    && r.klass == Ascii("BOUNDED_PROCESS_TREE")
    && Has(j, "maxTasks", Num(r.maxTasks)) && IsSafe(r.maxTasks)
    && Has(j, "limitFired", Bool(r.limitFired))
    && Has(j, "limitEvents", Num(r.limitEvents)) && IsSafe(r.limitEvents) && r.limitEvents >= 0
    && Has(j, "outputExceeded", Bool(r.outputExceeded))
    && Has(j, "exitCode", if r.exitCode.Some? then Num(r.exitCode.value) else Null)
    && (r.exitCode.Some? ==> IsSafe(r.exitCode.value))
    && Has(j, "signal", if r.signal.Some? then Str(r.signal.value) else Null)
  }

  lemma KeysAreNamed()
    ensures SCHEMA_KEY == Ascii("schemaVersion") && CLASS_KEY == Ascii("class") && TASKS_KEY == Ascii("maxTasks")
    ensures FIRED_KEY == Ascii("limitFired") && EVENTS_KEY == Ascii("limitEvents")
    ensures EXCEEDED_KEY == Ascii("outputExceeded") && EXIT_KEY == Ascii("exitCode") && SIGNAL_KEY == Ascii("signal")
    ensures REPORT_SCHEMA == Ascii("process-resource-report@1") && BOUNDED_CLASS == Ascii("BOUNDED_PROCESS_TREE")
  {
  }

  /** The shape check accepts exactly the reports, and reads what they say. */
  lemma ReadsExactly(j: Json, r: Report)
    ensures ReadReport(j) == Some(r) <==> IsReport(j, r)
  {
    hide BOUNDED_CLASS, CLASS_KEY, EVENTS_KEY, EXCEEDED_KEY, EXIT_KEY, FIRED_KEY, REPORT_SCHEMA, SCHEMA_KEY, SIGNAL_KEY,
      TASKS_KEY;
    KeysAreNamed();
  }

  // ---------- unframing ----------

  /** The stream is a target's output, the marker for the last time, a payload of the alphabet, and a line feed. */
  ghost predicate Framed(bytes: Bytes, out: Bytes, payload: Bytes) {
    && MarkerAt(bytes, |out|) && (forall i :: |out| < i <= |bytes| ==> !MarkerAt(bytes, i))
    && |bytes| == |out| + 26 + |payload| + 1 && bytes[..|out|] == out
    && bytes[|out| + 26..|bytes| - 1] == payload && bytes[|bytes| - 1] == 0x0A
    && payload != [] && Base64Url.AllAlphabet(payload)
  }

  lemma LastMarker(bytes: Bytes)
    ensures var r := LastIndexFrom(MAGIC, bytes, |bytes|);
      && (r.Some? ==> MarkerAt(bytes, r.value) && forall i :: r.value < i <= |bytes| ==> !MarkerAt(bytes, i))
      && (r.None? ==> forall i :: 0 <= i <= |bytes| ==> !MarkerAt(bytes, i))
  {
    hide LastIndexFrom, MAGIC, MarkerAt, OccursAt;
    forall i: nat ensures OccursAt(MAGIC, bytes, i) <==> MarkerAt(bytes, i) { MagicOccurs(bytes, i); }
  }

  /** A stream carries a report exactly when it is framed and its payload is the base64url of a report's JSON text. */
  lemma UnframesExactly(bytes: Bytes, u: Unframed)
    ensures Unframe(bytes) == Ok(u) <==>
      exists payload ::
        && Framed(bytes, u.stdout, payload)
        && exists j :: ParseBytes(Base64Url.Decode(payload), CANONICAL_BOUNDS) == Ok(j) && IsReport(j, u.report)
  {
    hide IsReport, MarkerAt, ParseBytes, ReadReport, LastIndexFrom, Base64Url.AllAlphabet, Base64Url.Decode;
    MarkerIsMagic();
    hide MAGIC;
    LastMarker(bytes);
    var r := LastIndexFrom(MAGIC, bytes, |bytes|);
    if Unframe(bytes) == Ok(u) {
      var encoded := bytes[r.value + |MAGIC|..];
      var payload := encoded[..|encoded| - 1];
      assert payload == bytes[|u.stdout| + 26..|bytes| - 1] && Framed(bytes, u.stdout, payload);
      var j := ParseBytes(Base64Url.Decode(payload), CANONICAL_BOUNDS).value;
      ReadsExactly(j, u.report);
    }
    if payload, j :| Framed(bytes, u.stdout, payload)
                     && ParseBytes(Base64Url.Decode(payload), CANONICAL_BOUNDS) == Ok(j) && IsReport(j, u.report) {
      ReadsExactly(j, u.report);
      assert r == Some(|u.stdout|);
      assert bytes[|u.stdout| + 26..][..|payload|] == payload;
    }
  }

  // ---------- writing a report ----------

  /** A member as it is written: its name in quotation marks, a colon, and the text of its value. */
  ghost predicate WritesMember(pair: JsString, name: JsString, v: Json) {
    exists quoted, text :: PrintsString(quoted, name) && Prints(v, text) && pair == quoted + [0x3A] + text
  }

  ghost predicate WritesFields(text: JsString, fields: seq<Field>) {
    exists pairs ::
      && |pairs| == |fields| && text == [0x7B] + CommaList(pairs) + [0x7D]
      && forall i :: 0 <= i < |fields| ==> WritesMember(pairs[i], fields[i].name, fields[i].value)
  }

  lemma MemberIsWritten(f: Field)
    requires Acceptable(f.value, 2, CANONICAL_BOUNDS)
    ensures var m := RecordMember(f); WritesMember(RenderKey(m) + Render(m.value) + m.after, f.name, f.value)
  {
    hide Acceptable, CanonSpellings, CanonTree, Render, RenderSpellings, Serialize, Stringify, EscapeAll, Valid, Meaning;
    SerializeExact(f.value, 2, CANONICAL_BOUNDS);
    SerializedPrints(f.value, 2, CANONICAL_BOUNDS);
    CanonSpellingsFacts(f.name);
    StringifyPrints(f.name);
    var m := RecordMember(f);
    QuotedKey(f.name);
    assert RenderKey(m) + Render(m.value) + m.after == Stringify(f.name) + [0x3A] + Render(CanonTree(f.value));
  }

  lemma QuotedKey(name: JsString)
    ensures RenderString(CanonSpellings(name)) == Stringify(name)
  {
    CanonSpellingsFacts(name);
  }

  lemma {:induction false} RecordIsWritten(fields: seq<Field>) returns (pairs: seq<JsString>)
    requires fields != [] && forall i :: 0 <= i < |fields| ==> Acceptable(fields[i].value, 2, CANONICAL_BOUNDS)
    ensures |pairs| == |fields| && RenderMembers(RecordMembers(fields)) == CommaList(pairs)
    ensures forall i :: 0 <= i < |fields| ==> WritesMember(pairs[i], fields[i].name, fields[i].value)
  {
    hide Acceptable, CommaList, Render, RenderKey, WritesMember, RecordMember;
    var ms := RecordMembers(fields);
    var m := RecordMember(fields[0]);
    MemberIsWritten(fields[0]);
    var first := RenderKey(m) + Render(m.value) + m.after;
    if |fields| == 1 {
      assert fields[1..] == [] && RecordMembers(fields[1..]) == [];
      assert ms == [m];
      pairs := [first];
      JoinedIsCommaList(pairs);
    } else {
      var more := RecordIsWritten(fields[1..]);
      pairs := [first] + more;
      assert ms[1..] == RecordMembers(fields[1..]) && pairs[1..] == more;
      JoinedIsCommaList(pairs);
      JoinedIsCommaList(more);
    }
  }

  /** The members of a report, in the order they are written. */
  function ReportMembersInOrder(r: Report): seq<Field> {
    [ Field(Ascii("schemaVersion"), Str(Ascii("process-resource-report@1"))),
      Field(Ascii("class"), Str(Ascii("BOUNDED_PROCESS_TREE"))),
      Field(Ascii("maxTasks"), Num(r.maxTasks)),
      Field(Ascii("limitFired"), Bool(r.limitFired)),
      Field(Ascii("limitEvents"), Num(r.limitEvents)),
      Field(Ascii("outputExceeded"), Bool(r.outputExceeded)),
      Field(Ascii("exitCode"), if r.exitCode.Some? then Num(r.exitCode.value) else Null),
      Field(Ascii("signal"), if r.signal.Some? then Str(r.signal.value) else Null) ]
  }

  lemma FieldsAreInOrder(r: Report)
    requires Reportable(r)
    ensures ReportFields(r) == ReportMembersInOrder(r)
  {
    KeysAreNamed();
    hide BOUNDED_CLASS, CLASS_KEY, EVENTS_KEY, EXCEEDED_KEY, EXIT_KEY, FIRED_KEY, REPORT_SCHEMA, SCHEMA_KEY, SIGNAL_KEY,
      TASKS_KEY;
  }

  lemma ReportTextIsWritten(r: Report)
    requires Reportable(r)
    ensures WritesFields(StringifyReport(r), ReportFields(r))
  {
    hide CommaList, RecordMembers, RenderMembers, Reportable, ReportFields, WritesMember;
    var fields := ReportFields(r);
    ReportValuesAcceptable(r);
    EightFields(r);
    var pairs := RecordIsWritten(fields);
    NonEmptyMembers(fields);
    assert StringifyReport(r) == [0x7B] + CommaList(pairs) + [0x7D];
  }

  lemma EightFields(r: Report)
    ensures |ReportFields(r)| == 8
  {
    hide BOUNDED_CLASS, CLASS_KEY, EVENTS_KEY, EXCEEDED_KEY, EXIT_KEY, FIRED_KEY, REPORT_SCHEMA, SCHEMA_KEY, SIGNAL_KEY,
      TASKS_KEY;
  }

  /** The frame of a report: the marker, the base64url of its JSON text in this order of members, and a line feed. */
  lemma FrameIsWritten(r: Report)
    requires Reportable(r)
    ensures exists text, payload ::
      && WritesFields(text, ReportMembersInOrder(r)) && payload == Base64Url.Encode(Encode(text))
      && MarkerAt(Frame(r), 0) && Frame(r)[26..] == payload + [0x0A]
  {
    hide Base64Url.Encode, Encode, MAGIC, MARKER, Reportable, ReportFields, ReportMembersInOrder, StringifyReport,
      WritesFields;
    MarkerIsMagic();
    FieldsAreInOrder(r);
    ReportTextIsWritten(r);
    var text := StringifyReport(r);
    var payload := Base64Url.Encode(Encode(text));
    assert WritesFields(text, ReportMembersInOrder(r));
    assert Frame(r)[26..] == payload + [0x0A];
  }

  lemma NonEmptyMembers(fields: seq<Field>)
    requires fields != []
    ensures RecordMembers(fields) != []
  {
  }

  lemma ReportValuesAcceptable(r: Report)
    requires Reportable(r)
    ensures forall i :: 0 <= i < 8 ==> Acceptable(ReportFields(r)[i].value, 2, CANONICAL_BOUNDS)
  {
    ConstantsAreAcceptable();
    hide BOUNDED_CLASS, CLASS_KEY, EVENTS_KEY, EXCEEDED_KEY, EXIT_KEY, FIRED_KEY, REPORT_SCHEMA, SCHEMA_KEY, SIGNAL_KEY,
      TASKS_KEY, WellFormed;
  }
}
