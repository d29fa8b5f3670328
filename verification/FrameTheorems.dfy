/** The parent recovers exactly the child's bytes and the supervisor's report, within its buffer. */
module FrameTheorems {
  import opened Base
  import opened Text
  import opened Json
  import opened StrictJson
  import opened RoundTrip
  import opened Records
  import opened ShortRecords
  import opened ProcessFrame
  import Base64Url

  // ---------- the report ----------

  predicate ShortField(f: Field) {
    6 * |f.name| + 4 + ScalarBound(f.value) <= 512
  }

  lemma {:induction false} ShortFields(fields: seq<Field>)
    requires forall i :: 0 <= i < |fields| ==> ShortField(fields[i])
    ensures FieldsBound(fields) <= 512 * |fields|
  {
    if fields != [] { ShortFields(fields[1..]); }
  }

  predicate ShortName(name: JsString) {
    IsAscii(name) && |name| <= 14
  }

  lemma ScalarMember(name: JsString, v: Json)
    requires ShortName(name)
    requires IsScalarJson(v) && ScalarBound(v) <= 386
    requires v.Num? ==> IsSafeInteger(v.n)
    requires v.Str? ==> AcceptableString(v.s, CANONICAL_BOUNDS)
    ensures ScalarField(Field(name, v)) && ShortField(Field(name, v))
  {
    AsciiText(name);
  }

  lemma KeysAreShort()
    ensures ShortName(SCHEMA_KEY) && ShortName(CLASS_KEY) && ShortName(TASKS_KEY) && ShortName(FIRED_KEY)
    ensures ShortName(EVENTS_KEY) && ShortName(EXCEEDED_KEY) && ShortName(EXIT_KEY) && ShortName(SIGNAL_KEY)
  {
  }

  lemma ConstantsAreAcceptable()
    ensures AcceptableString(REPORT_SCHEMA, CANONICAL_BOUNDS) && |REPORT_SCHEMA| == 25
    ensures AcceptableString(BOUNDED_CLASS, CANONICAL_BOUNDS) && |BOUNDED_CLASS| == 20
  {
    hide WellFormed, MinBytes, ByteLength;
    AsciiText(REPORT_SCHEMA);
    AsciiText(BOUNDED_CLASS);
  }

  lemma ReportFieldsOk(r: Report)
    requires Reportable(r)
    ensures ScalarFields(ReportFields(r)) && FieldsBound(ReportFields(r)) <= 4096
  {
    KeysAreShort();
    ConstantsAreAcceptable();
    hide ShortName, WellFormed, ScalarField, ShortField;
    ScalarMember(SCHEMA_KEY, Str(REPORT_SCHEMA));
    ScalarMember(CLASS_KEY, Str(r.klass));
    ScalarMember(TASKS_KEY, Num(r.maxTasks));
    ScalarMember(FIRED_KEY, Bool(r.limitFired));
    ScalarMember(EVENTS_KEY, Num(r.limitEvents));
    ScalarMember(EXCEEDED_KEY, Bool(r.outputExceeded));
    ScalarMember(EXIT_KEY, OptionalNumber(r.exitCode));
    ScalarMember(SIGNAL_KEY, OptionalString(r.signal));
    ShortFields(ReportFields(r));
  }

  /** Parsing a stream the supervisor finished gives back the target's bytes and the report, unchanged. */
  lemma UnframeInvertsFrame(out: Bytes, r: Report)
    requires Reportable(r)
    ensures Unframe(out + Frame(r)) == Ok(Unframed(out, r))
  {
    var text := StringifyReport(r);
    var payload := Base64Url.Encode(Encode(text));
    ReportFieldsOk(r);
    RecordText(ReportFields(r));
    ReportKeysDiffer(r);
    StringifiedRecordParses(ReportFields(r), CANONICAL_BOUNDS);
    DecodeInvertsEncode(text);
    Base64Url.DecodeInvertsEncode(Encode(text));
    ReportIsRead(r);
    EncodeLength(text);
    PayloadNonempty(text);
    UnframePayload(out, payload, Record(ReportFields(r)), r);
  }

  lemma PayloadNonempty(text: JsString)
    requires text != []
    ensures |Encode(text)| >= 1
  {
  }

  lemma UnframePayload(out: Bytes, payload: Bytes, j: Json, r: Report)
    requires Base64Url.AllAlphabet(payload) && payload != []
    requires ParseBytes(Base64Url.Decode(payload), CANONICAL_BOUNDS) == Ok(j) && ReadReport(j) == Some(r)
    ensures Unframe(out + (MAGIC + payload + [NEWLINE])) == Ok(Unframed(out, r))
  {
    hide ParseBytes, ReadReport;
    LastMarkerIsOurs(out, payload);
    var bytes := out + (MAGIC + payload + [NEWLINE]);
    var encoded := bytes[|out| + |MAGIC|..];
    assert encoded == payload + [NEWLINE];
    assert encoded[..|encoded| - 1] == payload;
    assert bytes[..|out|] == out;
  }

  const FRAME_OVERHEAD: nat := 65536

  /** The frame always fits in the buffer space the parent reserves beyond the output ceiling. */
  lemma FrameFits(r: Report)
    requires Reportable(r)
    ensures |Frame(r)| <= FRAME_OVERHEAD
  {
    ReportFieldsOk(r);
    RecordText(ReportFields(r));
    var text := StringifyReport(r);
    EncodeLength(text);
    Base64Url.DecodeInvertsEncode(Encode(text));
    MagicFacts();
  }
}
