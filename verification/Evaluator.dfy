/** The evaluator's check loop: run, record, halt, and skip what is left. */
module Evaluator {
  import opened Base
  import opened Plan
  import opened Reducer
  import opened ReducerTheorems

  // ---------- what one check may do ----------

  const COMMAND_FAILED: JsString := Ascii("COMMAND_FAILED")
  const COMMAND_TIMEOUT: JsString := Ascii("COMMAND_TIMEOUT")
  const TASK_BUDGET_EXCEEDED: JsString := Ascii("TASK_BUDGET_EXCEEDED")
  const TOOLCHAIN_UNRESOLVED: JsString := Ascii("TOOLCHAIN_UNRESOLVED")
  const SANDBOX_UNAVAILABLE: JsString := Ascii("SANDBOX_UNAVAILABLE")
  const EXECUTION_BACKEND_REQUIRED: JsString := Ascii("EXECUTION_BACKEND_REQUIRED")

  /** What a validator call ends in: an exception with its reason code, or a partial result, schema-valid or not. */
  datatype Verdict =
    | Threw(code: Option<JsString>)
    | Gave(outcome: Outcome, reasonCodes: seq<JsString>, evidence: seq<EvidenceRef>, shapeOk: bool)

  /** What resolving and verifying an executable comes to; a `ToolchainError` is caught and is a rejection. */
  datatype Toolchain = Resolved | Unresolved | Raises(code: Option<JsString>)

  /** The part of a command report that the evaluator reads. */
  datatype CommandReport = CommandReport(timedOut: bool, truncated: bool)

  /** What `runTargetCommand` returns. */
  datatype Execution = Execution(
    report: Option<CommandReport>,
    spawnFailed: bool,
    toolchainRejected: bool,
    taskBudgetExceeded: bool,
    succeeded: bool)

  /** `runTargetCommand` throws, with its reason code if it has one, or returns. */
  datatype Reply = Refused(code: Option<JsString>) | Returned(execution: Execution)

  /** A run in the sandbox: it cannot be set up, or it is captured and reported. */
  datatype Sandboxed = Unavailable(code: Option<JsString>) | Captured(
    report: CommandReport, spawnFailed: bool, taskBudgetExceeded: bool, succeeded: bool)

  /** The exits of `runTargetCommand`. Only a rejection by the toolchain leaves no report, and nothing runs then. */
  function RunTargetCommand(toolchain: Toolchain, run: Sandboxed): Reply {
    match toolchain
    case Unresolved => Returned(Execution(None, true, true, false, false))
    case Raises(code) => Refused(code)
    case Resolved =>
      match run
      case Unavailable(code) => Refused(code)
      case Captured(report, spawnFailed, budget, succeeded) =>
        Returned(Execution(Some(report), spawnFailed, false, budget, succeeded))
  }

  /** Everything a target command's branch looks at besides the runner's reply. A put that throws gives no reference. */
  datatype TargetInputs = TargetInputs(
    budgetLeft: bool,
    stdoutRef: Option<EvidenceRef>,
    reportRef: Option<EvidenceRef>,
    expiredAfter: bool,
    shapeOk: bool)

  /** The inputs of one turn of the loop: the deadline reading, both kinds of run, and two clock readings. */
  datatype Step = Step(
    expired: bool,
    builtin: Verdict,
    toolchain: Toolchain,
    run: Sandboxed,
    target: TargetInputs,
    startedAt: JsString,
    completedAt: JsString)

  /** The branches after both puts, on an execution whose report is there. */
  function ReportedVerdict(e: Execution, refs: seq<EvidenceRef>, t: TargetInputs): Verdict
    requires e.report.Some?
  {
    if e.toolchainRejected then Gave(InfraFailure, [TOOLCHAIN_UNRESOLVED], refs, t.shapeOk)
    else if e.spawnFailed then Gave(InfraFailure, [INFRASTRUCTURE_FAILURE], refs, t.shapeOk)
    else if e.report.value.timedOut then Gave(Fired, [COMMAND_TIMEOUT], refs, t.shapeOk)
    else if e.taskBudgetExceeded then Gave(Fired, [TASK_BUDGET_EXCEEDED], refs, t.shapeOk)
    else if !e.succeeded then Gave(Fired, [COMMAND_FAILED], refs, t.shapeOk)
    else if t.expiredAfter then Gave(Fired, [DEADLINE_EXCEEDED], refs, t.shapeOk)
    else Gave(Pass, [], refs, t.shapeOk)
  }

  /**
   How a reply becomes a verdict, step by step: the report's stdout is read first, which throws where there is no
   report; then stdout is put; then the report; and only then is the rejection looked at.
   */
  function TargetVerdict(reply: Reply, t: TargetInputs): Verdict {
    if !t.budgetLeft then Gave(Fired, [DEADLINE_EXCEEDED], [], t.shapeOk)
    else
      match reply
      case Refused(code) => Threw(code)
      case Returned(e) =>
        if e.report.None? then Threw(None)
        else if t.stdoutRef.None? then Threw(None)
        else if t.reportRef.None? then Threw(None)
        else ReportedVerdict(e, [t.reportRef.value, t.stdoutRef.value], t)
  }

  function VerdictOf(c: PlanCheck, step: Step): Verdict {
    if c.validator.Builtin? then step.builtin
    else TargetVerdict(RunTargetCommand(step.toolchain, step.run), step.target)
  }

  function ThrownCode(code: Option<JsString>): JsString {
    if code == Some(SANDBOX_UNAVAILABLE) || code == Some(EXECUTION_BACKEND_REQUIRED) then code.value
    else INFRASTRUCTURE_FAILURE
  }

  /** The recorded result of a check that ran. */
  function RanResult(plan: Plan, planDigest: Digest, c: PlanCheck, step: Step): CheckResult {
    var bound := CheckResult(c.checkId, c.packId, planDigest, plan.candidate.id, c.effect,
                             InfraFailure, [INFRASTRUCTURE_FAILURE], [], step.startedAt, step.completedAt);
    match VerdictOf(c, step)
    case Threw(code) => bound.(reasonCodes := [ThrownCode(code)])
    case Gave(outcome, reasonCodes, evidence, shapeOk) =>
      if shapeOk then bound.(outcome := outcome, reasonCodes := reasonCodes, evidence := evidence) else bound
  }

  function SkippedResult(plan: Plan, planDigest: Digest, c: PlanCheck, code: JsString, at: JsString): CheckResult {
    CheckResult(c.checkId, c.packId, planDigest, plan.candidate.id, c.effect, Skipped, [code], [], at, at)
  }

  const INTEGRITY_HALT_CHECK_IDS: set<JsString> := {
    Ascii("candidate-identity-verify"),
    Ascii("scope-boundary-classify"),
    Ascii("candidate-tree-stability"),
    Ascii("evidence-binding-index") }

  /** A blocking failure of admission, identity, containment or evidence integrity ends the run. */
  predicate Halts(c: PlanCheck, r: CheckResult) {
    !r.outcome.Pass? && c.effect.Blocking? && (c.phase.ContractAdmission? || c.checkId in INTEGRITY_HALT_CHECK_IDS)
  }

  // ---------- what a run is ----------

  /** The record of an evaluation: its results, how many checks ran, and the code that stopped it. */
  datatype Run = Run(results: seq<CheckResult>, ran: nat, haltCode: Option<JsString>)

  /**
   One result per check in plan order: the first `ran` checks have what their run gave, the others one and the same
   explicit skip. A run stops only right after a halting check or at a check found past the deadline.
   */
  ghost predicate IsRun(plan: Plan, planDigest: Digest, steps: seq<Step>, run: Run)
    requires |steps| == |plan.checks|
  {
    && |run.results| == |plan.checks|
    && run.ran <= |plan.checks|
    && (forall i :: 0 <= i < run.ran ==>
          && !steps[i].expired
          && run.results[i] == RanResult(plan, planDigest, plan.checks[i], steps[i]))
    && (forall i :: 0 <= i < run.ran - 1 ==> !Halts(plan.checks[i], run.results[i]))
    && (run.haltCode.None? ==> run.ran == |plan.checks|)
    && (run.haltCode.Some? ==> forall i :: run.ran <= i < |plan.checks| ==>
          run.results[i] == SkippedResult(plan, planDigest, plan.checks[i], run.haltCode.value, steps[i].startedAt))
    && (var halted := run.ran > 0 && Halts(plan.checks[run.ran - 1], run.results[run.ran - 1]);
        && (halted <==> run.haltCode == Some(CHECK_SKIPPED))
        && (!halted && run.haltCode.Some? ==>
              run.haltCode == Some(DEADLINE_EXCEEDED) && run.ran < |plan.checks| && steps[run.ran].expired))
  }

  lemma HaltCodesDiffer()
    ensures CHECK_SKIPPED != DEADLINE_EXCEEDED
  {
    assert |CHECK_SKIPPED| != |DEADLINE_EXCEEDED|;
  }

  /** The loop of `evaluateCandidate`; `invoked` is the sequence of validators it actually called. */
  method Evaluate(plan: Plan, planDigest: Digest, steps: seq<Step>) returns (run: Run, invoked: seq<JsString>)
    requires |steps| == |plan.checks|
    ensures IsRun(plan, planDigest, steps, run)
    ensures |invoked| == run.ran && forall i :: 0 <= i < run.ran ==> invoked[i] == plan.checks[i].checkId
  {
    HaltCodesDiffer();
    hide RanResult;
    var results: seq<CheckResult> := [];
    var haltCode: Option<JsString> := None;
    invoked := [];
    ghost var ran := 0;
    for i := 0 to |plan.checks|
      invariant |results| == i && ran == |invoked| <= i
      invariant forall k :: 0 <= k < ran ==> invoked[k] == plan.checks[k].checkId && !steps[k].expired
      invariant forall k :: 0 <= k < ran ==> results[k] == RanResult(plan, planDigest, plan.checks[k], steps[k])
      invariant forall k :: 0 <= k < ran - 1 ==> !Halts(plan.checks[k], results[k])
      invariant haltCode.None? ==> ran == i && (i > 0 ==> !Halts(plan.checks[i - 1], results[i - 1]))
      invariant haltCode.Some? ==> forall k :: ran <= k < i ==>
        results[k] == SkippedResult(plan, planDigest, plan.checks[k], haltCode.value, steps[k].startedAt)
      invariant haltCode.Some? ==>
        || (haltCode.value == CHECK_SKIPPED && ran > 0 && Halts(plan.checks[ran - 1], results[ran - 1]))
        || (haltCode.value == DEADLINE_EXCEEDED && ran < i && steps[ran].expired
            && (ran > 0 ==> !Halts(plan.checks[ran - 1], results[ran - 1])))
    {
      var check, step := plan.checks[i], steps[i];
      if haltCode.None? && step.expired { haltCode := Some(DEADLINE_EXCEEDED); }
      if haltCode.Some? {
        results := results + [SkippedResult(plan, planDigest, check, haltCode.value, step.startedAt)];
      } else {
        invoked := invoked + [check.checkId];
        ran := ran + 1;
        var result := RanResult(plan, planDigest, check, step);
        results := results + [result];
        if Halts(check, result) { haltCode := Some(CHECK_SKIPPED); }
      }
    }
    run := Run(results, |invoked|, haltCode);
  }

  // ---------- what the reduction of a run says ----------

  function Supply(results: seq<CheckResult>): seq<RawResult> {
    seq(|results|, i requires 0 <= i < |results| => Shaped(results[i]))
  }

  /** Plans the compiler produces: distinct checks, and no blocking check whose result is only evidence. */
  ghost predicate CompiledShape(plan: Plan) {
    && DistinctCheckIds(plan.checks)
    && forall i :: 0 <= i < |plan.checks| && plan.checks[i].effect.Blocking? ==> plan.checks[i].consumer.DispositionReducer?
  }

  lemma ResultNamesItsCheck(plan: Plan, planDigest: Digest, steps: seq<Step>, run: Run, i: nat)
    requires |steps| == |plan.checks| && IsRun(plan, planDigest, steps, run) && i < |plan.checks|
    ensures run.results[i].checkId == plan.checks[i].checkId
    ensures DistinctCheckIds(plan.checks) ==> Binds(run.results[i], plan, planDigest)
    ensures i >= run.ran ==> run.results[i].outcome.Skipped?
  {
    if DistinctCheckIds(plan.checks) { CheckNamedFinds(plan.checks, i); }
    if i >= run.ran {
      assert run.haltCode.Some?;
    }
  }

  /** Every result of a run is bound to its plan, and each check is answered once. */
  lemma RunIsBound(plan: Plan, planDigest: Digest, steps: seq<Step>, run: Run)
    requires |steps| == |plan.checks| && IsRun(plan, planDigest, steps, run) && DistinctCheckIds(plan.checks)
    ensures AllBound(Supply(run.results), plan, planDigest)
    ensures DistinctIds(Supply(run.results))
  {
    hide Binds, IsRun;
    var raw := Supply(run.results);
    RunLength(plan, planDigest, steps, run);
    forall i | 0 <= i < |plan.checks|
      ensures BoundResult(raw[i], plan, planDigest) && raw[i].result.checkId == plan.checks[i].checkId
    {
      ResultNamesItsCheck(plan, planDigest, steps, run, i);
    }
  }

  lemma RunLength(plan: Plan, planDigest: Digest, steps: seq<Step>, run: Run)
    requires |steps| == |plan.checks| && IsRun(plan, planDigest, steps, run)
    ensures |run.results| == |plan.checks| && run.ran <= |plan.checks|
  {
  }

  lemma PassedInRun(plan: Plan, planDigest: Digest, steps: seq<Step>, run: Run, i: nat)
    requires |steps| == |plan.checks| && IsRun(plan, planDigest, steps, run) && DistinctCheckIds(plan.checks)
    requires i < |plan.checks| == |run.results|
    ensures PassedBy(plan.checks[i], Supply(run.results)) <==> i < run.ran && run.results[i].outcome.Pass?
  {
    hide Binds, IsRun;
    var raw := Supply(run.results);
    ResultNamesItsCheck(plan, planDigest, steps, run, i);
    assert raw[i] == Shaped(run.results[i]);
    if PassedBy(plan.checks[i], raw) {
      var k :| 0 <= k < |raw| && raw[k].Shaped?
        && raw[k].result.checkId == plan.checks[i].checkId && raw[k].result.outcome.Pass?;
      ResultNamesItsCheck(plan, planDigest, steps, run, k);
      assert k == i;
    }
  }

  /** A run is PROMOTABLE exactly when every deciding check ran and passed. */
  lemma RunPromotableExactly(plan: Plan, planDigest: Digest, steps: seq<Step>, run: Run)
    requires |steps| == |plan.checks| && IsRun(plan, planDigest, steps, run) && DistinctCheckIds(plan.checks)
    ensures |run.results| == |plan.checks|
    ensures Reduce(plan, planDigest, Supply(run.results)).disposition.Promotable? <==>
      forall i :: 0 <= i < |plan.checks| && Decides(plan.checks[i]) ==> i < run.ran && run.results[i].outcome.Pass?
  {
    RunLength(plan, planDigest, steps, run);
    PromotableExactly(plan, planDigest, Supply(run.results));
    RunIsBound(plan, planDigest, steps, run);
    forall i | 0 <= i < |plan.checks|
      ensures PassedBy(plan.checks[i], Supply(run.results)) <==> i < run.ran && run.results[i].outcome.Pass?
    {
      PassedInRun(plan, planDigest, steps, run, i);
    }
  }

  /** On compiled plans: PROMOTABLE exactly when every BLOCKING check ran and passed. */
  lemma CompiledRunPromotableExactly(plan: Plan, planDigest: Digest, steps: seq<Step>, run: Run)
    requires |steps| == |plan.checks| && IsRun(plan, planDigest, steps, run) && CompiledShape(plan)
    ensures |run.results| == |plan.checks|
    ensures Reduce(plan, planDigest, Supply(run.results)).disposition.Promotable? <==>
      forall i :: 0 <= i < |plan.checks| && plan.checks[i].effect.Blocking? ==>
        i < run.ran && run.results[i].outcome.Pass?
  {
    RunPromotableExactly(plan, planDigest, steps, run);
  }

  /** A halt caused by a check always blocks, and leaves the halting check as a non-passing blocking result. */
  lemma CheckHaltBlocks(plan: Plan, planDigest: Digest, steps: seq<Step>, run: Run)
    requires |steps| == |plan.checks| && IsRun(plan, planDigest, steps, run) && CompiledShape(plan)
    requires run.haltCode == Some(CHECK_SKIPPED)
    ensures Reduce(plan, planDigest, Supply(run.results)).disposition.Blocked?
  {
    CompiledRunPromotableExactly(plan, planDigest, steps, run);
    assert Halts(plan.checks[run.ran - 1], run.results[run.ran - 1]);
  }

  /** A deadline halt after passing blocking checks only blocks exactly when a blocking check was left. */
  lemma DeadlineHaltBlocksExactly(plan: Plan, planDigest: Digest, steps: seq<Step>, run: Run)
    requires |steps| == |plan.checks| && IsRun(plan, planDigest, steps, run) && CompiledShape(plan)
    requires run.haltCode == Some(DEADLINE_EXCEEDED)
    requires forall i :: 0 <= i < run.ran && plan.checks[i].effect.Blocking? ==> run.results[i].outcome.Pass?
    ensures Reduce(plan, planDigest, Supply(run.results)).disposition.Blocked? <==>
      exists i :: run.ran <= i < |plan.checks| && plan.checks[i].effect.Blocking?
  {
    CompiledRunPromotableExactly(plan, planDigest, steps, run);
  }

  lemma TargetCodesDiffer()
    ensures TOOLCHAIN_UNRESOLVED !in [DEADLINE_EXCEEDED, INFRASTRUCTURE_FAILURE, COMMAND_TIMEOUT, TASK_BUDGET_EXCEEDED,
                                      COMMAND_FAILED, SANDBOX_UNAVAILABLE, EXECUTION_BACKEND_REQUIRED]
  {
    assert |TOOLCHAIN_UNRESOLVED| == 20 && |INFRASTRUCTURE_FAILURE| == 22 && |DEADLINE_EXCEEDED| == 17;
    assert |COMMAND_TIMEOUT| == 15 && |COMMAND_FAILED| == 14 && |SANDBOX_UNAVAILABLE| == 19;
    assert |TASK_BUDGET_EXCEEDED| == 20 && TASK_BUDGET_EXCEEDED[1] != TOOLCHAIN_UNRESOLVED[1];
    assert |EXECUTION_BACKEND_REQUIRED| == 26;
  }

  /**
   Whatever the runner replied, the verdict names TOOLCHAIN_UNRESOLVED exactly when the reply is a rejection that comes
   with a report, and both puts went through.
   */
  lemma ToolchainCodeExactly(reply: Reply, t: TargetInputs)
    ensures var v := TargetVerdict(reply, t);
      (v.Gave? && TOOLCHAIN_UNRESOLVED in v.reasonCodes) <==>
        && t.budgetLeft && reply.Returned? && reply.execution.toolchainRejected && reply.execution.report.Some?
        && t.stdoutRef.Some? && t.reportRef.Some?
  {
    TargetCodesDiffer();
    hide TOOLCHAIN_UNRESOLVED, DEADLINE_EXCEEDED, INFRASTRUCTURE_FAILURE, COMMAND_TIMEOUT, TASK_BUDGET_EXCEEDED,
      COMMAND_FAILED, SANDBOX_UNAVAILABLE, EXECUTION_BACKEND_REQUIRED;
  }

  /**
   The runner rejects without a report, so that branch is out of reach: no result of a target command names
   TOOLCHAIN_UNRESOLVED, and a command whose executable is rejected is recorded as an infrastructure failure with no
   evidence.
   */
  lemma ToolchainCodeIsUnreachable(plan: Plan, planDigest: Digest, c: PlanCheck, step: Step)
    requires c.validator.TargetCommand?
    ensures TOOLCHAIN_UNRESOLVED !in RanResult(plan, planDigest, c, step).reasonCodes
    ensures step.target.budgetLeft && step.toolchain.Unresolved? ==>
      && RanResult(plan, planDigest, c, step).outcome.InfraFailure?
      && RanResult(plan, planDigest, c, step).reasonCodes == [INFRASTRUCTURE_FAILURE]
      && RanResult(plan, planDigest, c, step).evidence == []
  {
    var reply := RunTargetCommand(step.toolchain, step.run);
    assert reply.Returned? && reply.execution.toolchainRejected ==> reply.execution.report.None?;
    ToolchainCodeExactly(reply, step.target);
    TargetCodesDiffer();
    hide TOOLCHAIN_UNRESOLVED, DEADLINE_EXCEEDED, INFRASTRUCTURE_FAILURE, COMMAND_TIMEOUT, TASK_BUDGET_EXCEEDED,
      COMMAND_FAILED, SANDBOX_UNAVAILABLE, EXECUTION_BACKEND_REQUIRED;
  }
}
