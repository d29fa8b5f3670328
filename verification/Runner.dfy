/** The runner's view of one sandboxed command: capture, unframe, clamp, and decide how it ended. */
module Runner {
  import opened Base
  import opened Json
  import opened ProcessFrame
  import opened FrameTheorems

  datatype SpawnError = TimedOut | NoBuffer | OtherError

  /** What the synchronous spawn returned; absent streams are `None`. */
  datatype Spawned = Spawned(
    error: Option<SpawnError>,
    status: Option<int>,
    signal: Option<JsString>,
    stdout: Option<Bytes>,
    stderr: Option<Bytes>)

  /** The execution class and task ceiling a bounded command was compiled with. */
  datatype Requirement = Requirement(klass: JsString, maxTasks: int)

  /** The part of a command's outcome that the command report and the evaluator read. */
  datatype Captured = Captured(
    stdout: Bytes,
    stderr: Bytes,
    exitCode: Option<int>,
    signal: Option<JsString>,
    timedOut: bool,
    truncated: bool,
    taskBudgetExceeded: bool,
    limitEvents: int,
    spawnFailed: bool,
    succeeded: bool)

  /** `clamp`. */
  method Clamp(buffer: Option<Bytes>, maxOutputBytes: nat) returns (bytes: Bytes, clamped: bool)
    ensures bytes == Prefix(if buffer.Some? then buffer.value else [], maxOutputBytes)
    ensures clamped <==> buffer.Some? && |buffer.value| > maxOutputBytes
  {
    bytes := if buffer.Some? then buffer.value else [];
    clamped := |bytes| > maxOutputBytes;
    if clamped { bytes := bytes[..maxOutputBytes]; }
  }

  /** Whether the spawn ended normally under a supervisor, so that its stdout must carry a report. */
  predicate Supervised(spawned: Spawned, requirement: Option<Requirement>) {
    requirement.Some? && spawned.error.None? && spawned.status == Some(0)
  }

  predicate Matches(report: Report, requirement: Requirement) {
    report.klass == requirement.klass && report.maxTasks == requirement.maxTasks
  }

  datatype Recovered = Recovered(spawned: Spawned, report: Option<Report>, parseFailed: bool)

  /** Replace a supervised command's stream, status and signal by what its report says. */
  method Recover(spawned0: Spawned, requirement: Option<Requirement>) returns (r: Recovered)
    ensures !Supervised(spawned0, requirement) ==> r == Recovered(spawned0, None, false)
    ensures Supervised(spawned0, requirement) ==>
      && (spawned0.stdout.None? || Unframe(spawned0.stdout.value).Err? ==> r == Recovered(spawned0, None, true))
      && (spawned0.stdout.Some? && Unframe(spawned0.stdout.value).Ok? ==>
            var u := Unframe(spawned0.stdout.value).value;
            && r.report == Some(u.report)
            && (r.parseFailed <==> !Matches(u.report, requirement.value))
            && r.spawned.stdout == Some(u.stdout) && r.spawned.stderr == spawned0.stderr && r.spawned.error.None?
            && r.spawned.status == (if r.parseFailed then Some(0) else u.report.exitCode)
            && r.spawned.signal == (if r.parseFailed then spawned0.signal else u.report.signal))
  {
    hide Unframe;
    var spawned := spawned0;
    var resourceReport: Option<Report> := None;
    var parseFailed := false;
    if requirement.Some? && spawned.error.None? && spawned.status == Some(0) {
      EmptyStreamHasNoReport();
      var raw := if spawned.stdout.Some? then spawned.stdout.value else [];
      match Unframe(raw) {
        case Err(_) => parseFailed := true;
        case Ok(u) =>
          spawned := spawned.(stdout := Some(u.stdout));
          resourceReport := Some(u.report);
          if !Matches(u.report, requirement.value) {
            parseFailed := true;
          } else {
            spawned := spawned.(status := u.report.exitCode, signal := u.report.signal);
          }
      }
    }
    return Recovered(spawned, resourceReport, parseFailed);
  }

  /** Whether a bounded command left a report that matches what it was compiled with. */
  predicate Reported(spawned: Spawned, requirement: Option<Requirement>) {
    && Supervised(spawned, requirement)
    && spawned.stdout.Some?
    && Unframe(spawned.stdout.value).Ok?
    && Matches(Unframe(spawned.stdout.value).value.report, requirement.value)
  }

  /** `status & 0xff`, if there is a status. */
  function LowByte(status: Option<int>): Option<int> {
    if status.Some? then Some(status.value % 0x100) else None
  }

  /** The first `n` bytes of a stream that may not be there. */
  ghost predicate Cut(bytes: Bytes, buffer: Option<Bytes>, n: nat) {
    if buffer.None? then bytes == []
    else if |buffer.value| <= n then bytes == buffer.value
    else |bytes| == n && bytes == buffer.value[..n]
  }

  predicate Longer(buffer: Option<Bytes>, n: nat) {
    buffer.Some? && |buffer.value| > n
  }

  /** What is captured of a command that left no report: a version 1 command, or a supervised one that went wrong. */
  ghost predicate CapturesSpawn(c: Captured, spawned: Spawned, requirement: Option<Requirement>, n: nat) {
    && Cut(c.stdout, spawned.stdout, n) && Cut(c.stderr, spawned.stderr, n)
    && c.exitCode == LowByte(spawned.status) && c.signal == spawned.signal
    && (c.timedOut <==> spawned.error == Some(TimedOut))
    && (c.truncated <==> spawned.error == Some(NoBuffer) || Longer(spawned.stdout, n) || Longer(spawned.stderr, n))
    && !c.taskBudgetExceeded && c.limitEvents == 0
    && (c.spawnFailed <==>
          spawned.error == Some(OtherError)
          || (requirement.Some? && spawned.error != Some(TimedOut) && spawned.error != Some(NoBuffer)))
    && (c.succeeded <==>
          spawned.error.None? && requirement.None? && spawned.status == Some(0)
          && !Longer(spawned.stdout, n) && !Longer(spawned.stderr, n))
  }

  /** What is captured of a supervised command whose report was read; one that does not match is a failed spawn. */
  ghost predicate CapturesReport(c: Captured, u: Unframed, spawned: Spawned, requirement: Requirement, n: nat) {
    var matches := u.report.klass == requirement.klass && u.report.maxTasks == requirement.maxTasks;
    && Cut(c.stdout, Some(u.stdout), n) && Cut(c.stderr, spawned.stderr, n)
    && c.exitCode == (if matches then LowByte(u.report.exitCode) else Some(0))
    && c.signal == (if matches then u.report.signal else spawned.signal)
    && !c.timedOut
    && (c.truncated <==> u.report.outputExceeded || |u.stdout| > n || Longer(spawned.stderr, n))
    && c.taskBudgetExceeded == u.report.limitFired && c.limitEvents == u.report.limitEvents
    && (c.spawnFailed <==> !matches)
    && (c.succeeded <==> matches && !c.truncated && !u.report.limitFired && u.report.exitCode == Some(0))
  }

  /**
   `runTargetCommand` after the spawn, field by field: from the report, if the command ran under a supervisor, ended
   normally and left one that can be read, and from the spawn alone in every other case.
   */
  method Capture(spawned0: Spawned, requirement: Option<Requirement>, maxOutputBytes: nat) returns (c: Captured)
    ensures Supervised(spawned0, requirement) && spawned0.stdout.Some? && Unframe(spawned0.stdout.value).Ok? ==>
      CapturesReport(c, Unframe(spawned0.stdout.value).value, spawned0, requirement.value, maxOutputBytes)
    ensures !(Supervised(spawned0, requirement) && spawned0.stdout.Some? && Unframe(spawned0.stdout.value).Ok?) ==>
      CapturesSpawn(c, spawned0, requirement, maxOutputBytes)
    ensures requirement.None? ==>
      && (c.truncated <==>
            || spawned0.error == Some(NoBuffer)
            || (spawned0.stdout.Some? && |spawned0.stdout.value| > maxOutputBytes)
            || (spawned0.stderr.Some? && |spawned0.stderr.value| > maxOutputBytes))
      && (c.succeeded <==> spawned0.error.None? && spawned0.status == Some(0) && !c.truncated)
    ensures |c.stdout| <= maxOutputBytes && |c.stderr| <= maxOutputBytes
    ensures c.exitCode.Some? ==> 0 <= c.exitCode.value < 0x100
    ensures c.succeeded ==> c.exitCode == Some(0) && (requirement.Some? ==> Reported(spawned0, requirement))
  {
    hide Unframe, Prefix;
    var r := Recover(spawned0, requirement);
    var spawned := r.spawned;
    var timedOut := spawned.error == Some(TimedOut);
    var stdout, outClamped := Clamp(spawned.stdout, maxOutputBytes);
    var stderr, errClamped := Clamp(spawned.stderr, maxOutputBytes);
    PrefixCuts(spawned.stdout, maxOutputBytes);
    PrefixCuts(spawned.stderr, maxOutputBytes);
    var noBuffer := spawned.error == Some(NoBuffer);
    assert spawned.error.Some? ==>
      spawned.error.value.TimedOut? || spawned.error.value.NoBuffer? || spawned.error.value.OtherError?;
    var overflowed := noBuffer || outClamped || errClamped || (r.report.Some? && r.report.value.outputExceeded);
    var taskBudgetExceeded := r.report.Some? && r.report.value.limitFired;
    var spawnFailed := r.parseFailed
      || (spawned.error.Some? && !timedOut && !noBuffer)
      || (requirement.Some? && r.report.None? && !timedOut && !noBuffer);
    c := Captured(
      stdout, stderr,
      LowByte(spawned.status),
      spawned.signal,
      timedOut, overflowed, taskBudgetExceeded,
      if r.report.Some? then r.report.value.limitEvents else 0,
      spawnFailed,
      !spawnFailed && !timedOut && !overflowed && !taskBudgetExceeded && spawned.status == Some(0));
  }

  lemma PrefixCuts(buffer: Option<Bytes>, n: nat)
    ensures var bytes := Prefix(if buffer.Some? then buffer.value else [], n); Cut(bytes, buffer, n) && |bytes| <= n
  {
  }

  lemma EmptyStreamHasNoReport()
    ensures Unframe([]).Err?
  {
    MagicFacts();
  }

  /** How the supervised process ended: its counters and exit, as the supervisor reads them. */
  datatype Ending = Ending(limitEvents: nat, exitCode: Option<int>, signal: Option<JsString>)

  /**
   One bounded command, from the child's chunks to the captured result. Whatever the target writes, in whatever
   chunks, the runner sees the first `maxOutputBytes` bytes of stdout, knows whether either stream exceeded the
   ceiling, and the framed stream fits in the buffer it reserved.
   */
  method RunBounded(events: seq<Event>, ending: Ending, requirement: Requirement, maxOutputBytes: nat)
    returns (c: Captured, streamed: nat)
    requires requirement.klass == BOUNDED_CLASS && IsSafeInteger(requirement.maxTasks)
    requires Reportable(Report(BOUNDED_CLASS, requirement.maxTasks, ending.limitEvents > 0, ending.limitEvents,
                               false, ending.exitCode, ending.signal))
    ensures c.stdout == Prefix(Arrived(events, Stdout), maxOutputBytes)
    ensures c.stderr == Prefix(Arrived(events, Stderr), maxOutputBytes)
    ensures c.truncated <==> |Arrived(events, Stdout)| > maxOutputBytes || |Arrived(events, Stderr)| > maxOutputBytes
    ensures c.taskBudgetExceeded <==> ending.limitEvents > 0
    ensures !c.spawnFailed && !c.timedOut && c.signal == ending.signal && c.limitEvents == ending.limitEvents
    ensures c.succeeded <==> !c.truncated && ending.limitEvents == 0 && ending.exitCode == Some(0)
    ensures streamed <= maxOutputBytes + FRAME_OVERHEAD
  {
    hide Arrived, Frame, Unframe;
    var forwarder := Forward(events, maxOutputBytes);
    var report := Report(BOUNDED_CLASS, requirement.maxTasks, ending.limitEvents > 0, ending.limitEvents,
                         forwarder.outputExceeded, ending.exitCode, ending.signal);
    var stream := forwarder.stdout + Frame(report);
    UnframeInvertsFrame(forwarder.stdout, report);
    FrameFits(report);
    PrefixTwice(Arrived(events, Stdout), maxOutputBytes);
    PrefixTwice(Arrived(events, Stderr), maxOutputBytes);
    streamed := |stream|;
    c := Capture(Spawned(None, Some(0), None, Some(stream), Some(forwarder.stderr)), Some(requirement), maxOutputBytes);
  }

  lemma PrefixTwice(bytes: Bytes, n: nat)
    ensures Prefix(Prefix(bytes, n), n) == Prefix(bytes, n) && |Prefix(bytes, n)| <= n
  {
  }

  /** Feed every chunk to the forwarder in the order it arrived. */
  method Forward(events: seq<Event>, maxOutputBytes: nat) returns (forwarder: Forwarder)
    ensures forwarder.stdout == Prefix(Arrived(events, Stdout), maxOutputBytes)
    ensures forwarder.stderr == Prefix(Arrived(events, Stderr), maxOutputBytes)
    ensures forwarder.outputExceeded <==>
      |Arrived(events, Stdout)| > maxOutputBytes || |Arrived(events, Stderr)| > maxOutputBytes
  {
    hide Arrived, Prefix;
    forwarder := new Forwarder(maxOutputBytes);
    for i := 0 to |events|
      invariant fresh(forwarder) && forwarder.Valid()
      invariant forwarder.events == events[..i] && forwarder.maxOutputBytes == maxOutputBytes
    {
      forwarder.OnData(events[i].channel, events[i].chunk);
      assert events[..i + 1] == events[..i] + [Data(events[i].channel, events[i].chunk)];
    }
    assert events[..|events|] == events;
  }
}
