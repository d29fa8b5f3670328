/**
 Bounded child output: forwarding under a byte ceiling, the report framed behind it, and the parent's recovery of
 both from one byte stream.
 */
module ProcessFrame {
  import opened Base
  import opened Text
  import opened Json
  import opened StrictJson
  import opened Records
  import Base64Url

  // ---------- forwarding ----------

  datatype Channel = Stdout | Stderr

  datatype Event = Data(channel: Channel, chunk: Bytes)

  /** Everything the child wrote on a channel, however it was chunked. */
  function Arrived(events: seq<Event>, channel: Channel): Bytes {
    if events == [] then []
    else
      var last := |events| - 1;
      Arrived(events[..last], channel) + (if events[last].channel == channel then events[last].chunk else [])
  }

  function Prefix(bytes: Bytes, n: nat): Bytes {
    if |bytes| <= n then bytes else bytes[..n]
  }

  /** Each channel has passed on exactly its first `max` bytes, and going over is noted. */
  ghost predicate Forwards(events: seq<Event>, max: nat, stdout: Bytes, stderr: Bytes, exceeded: bool) {
    && stdout == Prefix(Arrived(events, Stdout), max)
    && stderr == Prefix(Arrived(events, Stderr), max)
    && (exceeded <==> (|Arrived(events, Stdout)| > max || |Arrived(events, Stderr)| > max))
  }

  /** One more chunk, of which what still fits is passed on. */
  lemma ForwardsChunk(events: seq<Event>, max: nat, stdout: Bytes, stderr: Bytes, exceeded: bool, channel: Channel,
      chunk: Bytes)
    requires Forwards(events, max, stdout, stderr, exceeded)
    ensures var remaining := Max(0, max - if channel.Stdout? then |stdout| else |stderr|);
      var passed := Prefix(chunk, remaining);
      Forwards(events + [Data(channel, chunk)], max,
               stdout + (if channel.Stdout? then passed else []), stderr + (if channel.Stdout? then [] else passed),
               exceeded || |chunk| > remaining)
  {
    hide Arrived, Max, Prefix;
    PrefixGrows(Arrived(events, channel), chunk, max);
    ArrivedSnoc(events, channel, chunk);
  }

  /** The `forward` closures of one supervised child. */
  class Forwarder {
    const maxOutputBytes: nat
    var stdoutBytes: nat
    var stderrBytes: nat
    var outputExceeded: bool
    var killed: bool
    var stdout: Bytes
    var stderr: Bytes
    ghost var events: seq<Event>

    ghost predicate Valid()
      reads this
    {
      && Forwards(events, maxOutputBytes, stdout, stderr, outputExceeded)
      && stdoutBytes == |stdout| && stderrBytes == |stderr| && (killed <==> outputExceeded)
    }

    constructor (maxOutputBytes: nat)
      ensures Valid() && events == [] && this.maxOutputBytes == maxOutputBytes
    {
      this.maxOutputBytes := maxOutputBytes;
      stdoutBytes, stderrBytes, outputExceeded, killed := 0, 0, false, false;
      stdout, stderr := [], [];
      events := [];
    }

    /** Write to one destination and count the bytes against its channel. */
    method Pass(channel: Channel, bytes: Bytes)
      modifies `stdout, `stderr, `stdoutBytes, `stderrBytes
      ensures stdout == old(stdout) + (if channel.Stdout? then bytes else [])
      ensures stderr == old(stderr) + (if channel.Stdout? then [] else bytes)
      ensures stdoutBytes == old(stdoutBytes) + (if channel.Stdout? then |bytes| else 0)
      ensures stderrBytes == old(stderrBytes) + (if channel.Stdout? then 0 else |bytes|)
    {
      if channel.Stdout? {
        stdout := stdout + bytes;
        stdoutBytes := stdoutBytes + |bytes|;
      } else {
        stderr := stderr + bytes;
        stderrBytes := stderrBytes + |bytes|;
      }
    }

    /** The `data` handler: pass on what still fits, count it, and kill the child on the first byte too many. */
    method OnData(channel: Channel, chunk: Bytes)
      requires Valid()
      modifies this
      ensures Valid() && events == old(events) + [Data(channel, chunk)]
    {
      hide Forwards, Prefix;
      ForwardsChunk(events, maxOutputBytes, stdout, stderr, outputExceeded, channel, chunk);
      var used := if channel.Stdout? then stdoutBytes else stderrBytes;
      var remaining: nat := Max(0, maxOutputBytes - used);
      Pass(channel, Prefix(chunk, remaining));
      if |chunk| > remaining && !outputExceeded {
        outputExceeded := true;
        killed := true;
      }
      events := events + [Data(channel, chunk)];
    }
  }

  lemma ArrivedSnoc(events: seq<Event>, channel: Channel, chunk: Bytes)
    ensures var after := events + [Data(channel, chunk)];
            && Arrived(after, channel) == Arrived(events, channel) + chunk
            && forall c: Channel :: c != channel ==> Arrived(after, c) == Arrived(events, c)
  {
    var after := events + [Data(channel, chunk)];
    assert after[..|after| - 1] == events;
    forall c: Channel | c != channel ensures Arrived(after, c) == Arrived(events, c) {
      assert Arrived(events, c) + [] == Arrived(events, c);
    }
  }

  lemma PrefixGrows(before: Bytes, chunk: Bytes, max: nat)
    ensures var remaining := Max(0, max - |Prefix(before, max)|);
            && Prefix(before + chunk, max) == Prefix(before, max) + Prefix(chunk, remaining)
            && (|before + chunk| > max <==> |before| > max || |chunk| > remaining)
  {
    var remaining := Max(0, max - |Prefix(before, max)|);
    if |before| > max {
      assert (before + chunk)[..max] == before[..max];
    } else if |before + chunk| > max {
      assert (before + chunk)[..max] == before + chunk[..remaining];
    }
  }

  // ---------- the report and its frame ----------

  /** The supervisor's final report; its schema version is part of its JSON form. */
  datatype Report = Report(
    klass: JsString,
    maxTasks: int,
    limitFired: bool,
    limitEvents: int,
    outputExceeded: bool,
    exitCode: Option<int>,
    signal: Option<JsString>)

  const BOUNDED_CLASS: JsString := Ascii("BOUNDED_PROCESS_TREE")
  const REPORT_SCHEMA: JsString := Ascii("process-resource-report@1")

  /** What a supervisor can report: a signal name is a short word of the host's fixed table. */
  predicate Reportable(r: Report) {
    && r.klass == BOUNDED_CLASS
    && IsSafeInteger(r.maxTasks) && IsSafeInteger(r.limitEvents) && r.limitEvents >= 0
    && (r.exitCode.Some? ==> IsSafeInteger(r.exitCode.value))
    && (r.signal.Some? ==> |r.signal.value| <= 64 && WellFormed(r.signal.value))
  }

  const SCHEMA_KEY: JsString := Ascii("schemaVersion")
  const CLASS_KEY: JsString := Ascii("class")
  const TASKS_KEY: JsString := Ascii("maxTasks")
  const FIRED_KEY: JsString := Ascii("limitFired")
  const EVENTS_KEY: JsString := Ascii("limitEvents")
  const EXCEEDED_KEY: JsString := Ascii("outputExceeded")
  const EXIT_KEY: JsString := Ascii("exitCode")
  const SIGNAL_KEY: JsString := Ascii("signal")

  function OptionalNumber(o: Option<int>): Json {
    if o.Some? then Num(o.value) else Null
  }

  function OptionalString(o: Option<JsString>): Json {
    if o.Some? then Str(o.value) else Null
  }

  function ReportFields(r: Report): seq<Field> {
    [ Field(SCHEMA_KEY, Str(REPORT_SCHEMA)),
      Field(CLASS_KEY, Str(r.klass)),
      Field(TASKS_KEY, Num(r.maxTasks)),
      Field(FIRED_KEY, Bool(r.limitFired)),
      Field(EVENTS_KEY, Num(r.limitEvents)),
      Field(EXCEEDED_KEY, Bool(r.outputExceeded)),
      Field(EXIT_KEY, OptionalNumber(r.exitCode)),
      Field(SIGNAL_KEY, OptionalString(r.signal)) ]
  }

  /** `JSON.stringify(report)`. */
  function StringifyReport(r: Report): JsString {
    Render(RecordTree(ReportFields(r)))
  }

  /** "\n\u001eSHEDU_PROCESS_REPORT_V1:" */
  const MAGIC: Bytes := [0x0A, 0x1E] + Ascii("SHEDU_PROCESS_REPORT_V1:")

  const NEWLINE: Byte := 0x0A

  /** `writeFinalReport`. */
  function Frame(r: Report): Bytes {
    MAGIC + Base64Url.Encode(Encode(StringifyReport(r))) + [NEWLINE]
  }

  // ---------- recovering the report ----------

  predicate OccursAt(needle: Bytes, hay: Bytes, i: nat) {
    i + |needle| <= |hay| && hay[i..i + |needle|] == needle
  }

  /** `hay.lastIndexOf(needle)`, searched downwards from `from`. */
  function LastIndexFrom(needle: Bytes, hay: Bytes, from: nat): (r: Option<nat>)
    ensures r.Some? ==> r.value <= from && OccursAt(needle, hay, r.value)
    ensures r.Some? ==> forall i :: r.value < i <= from ==> !OccursAt(needle, hay, i)
    ensures r.None? ==> forall i :: 0 <= i <= from ==> !OccursAt(needle, hay, i)
  {
    if OccursAt(needle, hay, from) then Some(from)
    else if from == 0 then None
    else LastIndexFrom(needle, hay, from - 1)
  }

  datatype FrameError = NoReport | MalformedFraming | NotJson | InvalidShape

  /** The shape check on a parsed report; an absent member reads as undefined. */
  function ReadReport(j: Json): Option<Report> {
    var klass, tasks, fired := MemberOf(j, CLASS_KEY), MemberOf(j, TASKS_KEY), MemberOf(j, FIRED_KEY);
    var events, exceeded := MemberOf(j, EVENTS_KEY), MemberOf(j, EXCEEDED_KEY);
    var exit, signal := MemberOf(j, EXIT_KEY), MemberOf(j, SIGNAL_KEY);
    if && MemberOf(j, SCHEMA_KEY) == Str(REPORT_SCHEMA) && klass == Str(BOUNDED_CLASS)
       && tasks.Num? && IsSafeInteger(tasks.n) && fired.Bool?
       && events.Num? && IsSafeInteger(events.n) && events.n >= 0 && exceeded.Bool?
       && (exit.Null? || (exit.Num? && IsSafeInteger(exit.n)))
       && (signal.Null? || signal.Str?)
    then
      Some(Report(klass.s, tasks.n, fired.b, events.n, exceeded.b,
                  if exit.Num? then Some(exit.n) else None,
                  if signal.Str? then Some(signal.s) else None))
    else None
  }

  datatype Unframed = Unframed(stdout: Bytes, report: Report)

  /** `parseLinuxSupervisorOutput`. */
  function Unframe(bytes: Bytes): Result<Unframed, FrameError> {
    match LastIndexFrom(MAGIC, bytes, |bytes|)
    case None => Err(NoReport)
    case Some(offset) =>
      var encoded := bytes[offset + |MAGIC|..];
      if |encoded| < 2 || encoded[|encoded| - 1] != NEWLINE || !Base64Url.AllAlphabet(encoded[..|encoded| - 1]) then
        Err(MalformedFraming)
      else
        match ParseBytes(Base64Url.Decode(encoded[..|encoded| - 1]), CANONICAL_BOUNDS)
        case Err(_) => Err(NotJson)
        case Ok(j) =>
          match ReadReport(j)
          case None => Err(InvalidShape)
          case Some(report) => Ok(Unframed(bytes[..offset], report))
  }

  // ---------- the last marker is the supervisor's ----------

  lemma MagicFacts()
    ensures |MAGIC| == 26 && MAGIC[0] == 0x0A && MAGIC[1] == 0x1E
    ensures forall i :: 2 <= i < 26 ==> MAGIC[i] != 0x1E
  {
  }

  /**
   Whatever the target wrote, copies of the marker included, the last marker in the stream is the one in front of an
   unpadded base64url payload.
   */
  lemma LastMarkerIsOurs(out: Bytes, payload: Bytes)
    requires Base64Url.AllAlphabet(payload)
    ensures var bytes := out + (MAGIC + payload + [NEWLINE]);
            LastIndexFrom(MAGIC, bytes, |bytes|) == Some(|out|)
  {
    MagicFacts();
    var frame := MAGIC + payload + [NEWLINE];
    var bytes := out + frame;
    assert bytes[|out|..|out| + |MAGIC|] == MAGIC;
    assert OccursAt(MAGIC, bytes, |out|);
    forall i | |out| < i <= |bytes| ensures !OccursAt(MAGIC, bytes, i) {
      NoMarkerInside(out, payload, i);
    }
  }

  /** Past its first two bytes the frame holds no record separator, so the marker cannot start again there. */
  lemma NoMarkerInside(out: Bytes, payload: Bytes, i: nat)
    requires Base64Url.AllAlphabet(payload)
    requires |out| < i <= |out| + |MAGIC + payload + [NEWLINE]|
    ensures !OccursAt(MAGIC, out + (MAGIC + payload + [NEWLINE]), i)
  {
    MagicFacts();
    var frame := MAGIC + payload + [NEWLINE];
    var bytes := out + frame;
    var k := i + 1 - |out|;
    if i + |MAGIC| <= |bytes| {
      assert bytes[i..i + |MAGIC|][1] == frame[k];
      if |MAGIC| <= k < |MAGIC| + |payload| { assert Base64Url.IsAlphabet(payload[k - |MAGIC|]); }
    }
  }

  lemma ReportKeysDiffer(r: Report)
    ensures DistinctNames(ReportFields(r))
  {
    assert |SCHEMA_KEY| == 13 && |CLASS_KEY| == 5 && |TASKS_KEY| == 8 && |FIRED_KEY| == 10 && |EVENTS_KEY| == 11;
    assert |EXCEEDED_KEY| == 14 && |EXIT_KEY| == 8 && |SIGNAL_KEY| == 6;
    assert TASKS_KEY[0] != EXIT_KEY[0];
  }

  lemma ReportMembers(r: Report)
    ensures var j := Record(ReportFields(r));
            && MemberOf(j, SCHEMA_KEY) == Str(REPORT_SCHEMA) && MemberOf(j, CLASS_KEY) == Str(r.klass)
            && MemberOf(j, TASKS_KEY) == Num(r.maxTasks) && MemberOf(j, FIRED_KEY) == Bool(r.limitFired)
            && MemberOf(j, EVENTS_KEY) == Num(r.limitEvents) && MemberOf(j, EXCEEDED_KEY) == Bool(r.outputExceeded)
            && MemberOf(j, EXIT_KEY) == OptionalNumber(r.exitCode) && MemberOf(j, SIGNAL_KEY) == OptionalString(r.signal)
  {
    var fields := ReportFields(r);
    ReportKeysDiffer(r);
    FieldLookUp(fields);
    hide FieldMap;
    assert fields[0].name == SCHEMA_KEY && fields[1].name == CLASS_KEY && fields[2].name == TASKS_KEY;
    assert fields[3].name == FIRED_KEY && fields[4].name == EVENTS_KEY && fields[5].name == EXCEEDED_KEY;
    assert fields[6].name == EXIT_KEY && fields[7].name == SIGNAL_KEY;
  }

  lemma ReportIsRead(r: Report)
    requires Reportable(r)
    ensures ReadReport(Record(ReportFields(r))) == Some(r)
  {
    ReportMembers(r);
    hide Record, ReportFields, MemberOf;
  }
}
