/** What each check of a run is recorded as, from the plan, the inputs of its turn and nothing else. */
module RunOutcomes {
  import opened Base
  import opened Plan
  import opened Evaluator

  // ---------- target commands ----------

  /** The command was run to its end in the sandbox. */
  ghost predicate Ran(step: Step) {
    step.target.budgetLeft && step.toolchain.Resolved? && step.run.Captured?
  }

  /** Its output and its report went into the evidence store. */
  ghost predicate Kept(step: Step) {
    step.target.stdoutRef.Some? && step.target.reportRef.Some?
  }

  /** The code under which a target command fires, by the first thing that is wrong with it. */
  ghost predicate FiresFor(step: Step, code: JsString) {
    if !step.target.budgetLeft then code == Ascii("DEADLINE_EXCEEDED")
    else
      && Ran(step) && Kept(step) && !step.run.spawnFailed
      && (if step.run.report.timedOut then code == Ascii("COMMAND_TIMEOUT")
          else if step.run.taskBudgetExceeded then code == Ascii("TASK_BUDGET_EXCEEDED")
          else if !step.run.succeeded then code == Ascii("COMMAND_FAILED")
          else step.target.expiredAfter && code == Ascii("DEADLINE_EXCEEDED"))
  }

  /** The command passes: run, kept, spawned, in time, within its budget, successful, and finished before the deadline. */
  ghost predicate PassesIn(step: Step) {
    && Ran(step) && Kept(step) && !step.run.spawnFailed && !step.run.report.timedOut && !step.run.taskBudgetExceeded
    && step.run.succeeded && !step.target.expiredAfter
  }

  /** The call ends in an exception with one of the two codes that are recorded as they are. */
  ghost predicate ThrowsWith(step: Step, code: JsString) {
    && (code == Ascii("SANDBOX_UNAVAILABLE") || code == Ascii("EXECUTION_BACKEND_REQUIRED"))
    && step.target.budgetLeft
    && (step.toolchain == Raises(Some(code)) || (step.toolchain.Resolved? && step.run == Unavailable(Some(code))))
  }

  /** The result says this check ran for this plan and candidate, between these two moments. */
  ghost predicate Identifies(r: CheckResult, plan: Plan, planDigest: Digest, c: PlanCheck, startedAt: JsString,
      completedAt: JsString)
  {
    && r.checkId == c.checkId && r.packId == c.packId && r.effect == c.effect
    && r.planDigest == planDigest && r.candidateId == plan.candidate.id
    && r.startedAt == startedAt && r.completedAt == completedAt
  }

  lemma CodesAreNamed()
    ensures COMMAND_FAILED == Ascii("COMMAND_FAILED") && COMMAND_TIMEOUT == Ascii("COMMAND_TIMEOUT")
    ensures TASK_BUDGET_EXCEEDED == Ascii("TASK_BUDGET_EXCEEDED")
    ensures TOOLCHAIN_UNRESOLVED == Ascii("TOOLCHAIN_UNRESOLVED")
    ensures SANDBOX_UNAVAILABLE == Ascii("SANDBOX_UNAVAILABLE")
    ensures EXECUTION_BACKEND_REQUIRED == Ascii("EXECUTION_BACKEND_REQUIRED")
  {
  }

  lemma SharedCodesAreNamed()
    ensures DEADLINE_EXCEEDED == Ascii("DEADLINE_EXCEEDED") && CHECK_SKIPPED == Ascii("CHECK_SKIPPED")
    ensures INFRASTRUCTURE_FAILURE == Ascii("INFRASTRUCTURE_FAILURE")
  {
  }

  /** The record of a target command: its outcome, its codes and its evidence, each exactly when. */
  ghost predicate RecordsTarget(r: CheckResult, step: Step) {
    && (r.outcome.Pass? <==> step.target.shapeOk && PassesIn(step))
    && (r.outcome.Fired? <==> step.target.shapeOk && exists code :: FiresFor(step, code))
    && !r.outcome.Skipped?
    && (r.outcome.Pass? ==> r.reasonCodes == [])
    && (r.outcome.Fired? ==> |r.reasonCodes| == 1 && FiresFor(step, r.reasonCodes[0]))
    && (r.outcome.InfraFailure? ==>
          && |r.reasonCodes| == 1
          && (r.reasonCodes[0] == Ascii("INFRASTRUCTURE_FAILURE") || ThrowsWith(step, r.reasonCodes[0])))
    && (forall code :: ThrowsWith(step, code) ==> r.outcome.InfraFailure? && r.reasonCodes == [code])
    && r.evidence == if step.target.shapeOk && Ran(step) && Kept(step)
                     then [step.target.reportRef.value, step.target.stdoutRef.value] else []
  }

  lemma TargetIsRecorded(plan: Plan, planDigest: Digest, c: PlanCheck, step: Step)
    requires c.validator.TargetCommand?
    ensures var r := RanResult(plan, planDigest, c, step);
            Identifies(r, plan, planDigest, c, step.startedAt, step.completedAt) && RecordsTarget(r, step)
  {
    hide COMMAND_FAILED, COMMAND_TIMEOUT, DEADLINE_EXCEEDED, EXECUTION_BACKEND_REQUIRED, INFRASTRUCTURE_FAILURE,
      SANDBOX_UNAVAILABLE, TASK_BUDGET_EXCEEDED, TOOLCHAIN_UNRESOLVED;
    CodesAreNamed();
    SharedCodesAreNamed();
    var r := RanResult(plan, planDigest, c, step);
    if r.outcome.Fired? { assert FiresFor(step, r.reasonCodes[0]); }
  }

  // ---------- builtin validators ----------

  /** The record of a builtin: what it gave, if that is a valid result, and else an infrastructure failure. */
  ghost predicate RecordsBuiltin(r: CheckResult, verdict: Verdict) {
    match verdict
    case Gave(outcome, codes, evidence, true) =>
      r.outcome == outcome && r.reasonCodes == codes && r.evidence == evidence
    case Gave(_, _, _, false) =>
      r.outcome.InfraFailure? && r.reasonCodes == [Ascii("INFRASTRUCTURE_FAILURE")] && r.evidence == []
    case Threw(code) =>
      && r.outcome.InfraFailure? && r.evidence == []
      && r.reasonCodes ==
           if code == Some(Ascii("SANDBOX_UNAVAILABLE")) || code == Some(Ascii("EXECUTION_BACKEND_REQUIRED")) then
             [code.value]
           else [Ascii("INFRASTRUCTURE_FAILURE")]
  }

  lemma BuiltinIsRecorded(plan: Plan, planDigest: Digest, c: PlanCheck, step: Step)
    requires c.validator.Builtin?
    ensures var r := RanResult(plan, planDigest, c, step);
            Identifies(r, plan, planDigest, c, step.startedAt, step.completedAt) && RecordsBuiltin(r, step.builtin)
  {
    hide EXECUTION_BACKEND_REQUIRED, INFRASTRUCTURE_FAILURE, SANDBOX_UNAVAILABLE;
    CodesAreNamed();
    SharedCodesAreNamed();
  }

  // ---------- the run ----------

  /** A failure that ends the run: of a blocking check of admission, or of one of the four integrity checks. */
  ghost predicate EndsRun(c: PlanCheck, r: CheckResult) {
    && !r.outcome.Pass? && c.effect.Blocking?
    && (|| c.phase.ContractAdmission?
        || c.checkId == Ascii("candidate-identity-verify") || c.checkId == Ascii("scope-boundary-classify")
        || c.checkId == Ascii("candidate-tree-stability") || c.checkId == Ascii("evidence-binding-index"))
  }

  lemma HaltsExactly(c: PlanCheck, r: CheckResult)
    ensures Halts(c, r) <==> EndsRun(c, r)
  {
  }

  /** The record of a check that was not run: skipped, for the reason that stopped the run, and without evidence. */
  ghost predicate RecordsSkip(r: CheckResult, code: JsString) {
    r.outcome.Skipped? && r.reasonCodes == [code] && r.evidence == []
  }

  /** Check `i` has what its own turn gives it. */
  ghost predicate RecordsTurn(plan: Plan, planDigest: Digest, step: Step, c: PlanCheck, r: CheckResult) {
    && Identifies(r, plan, planDigest, c, step.startedAt, step.completedAt)
    && if c.validator.Builtin? then RecordsBuiltin(r, step.builtin) else RecordsTarget(r, step)
  }

  /** How far a run got, and why it stopped there. */
  ghost predicate StopsRight(plan: Plan, steps: seq<Step>, run: Run)
    requires |steps| == |plan.checks| == |run.results| && run.ran <= |plan.checks|
  {
    var ended := run.ran > 0 && EndsRun(plan.checks[run.ran - 1], run.results[run.ran - 1]);
    && (forall i :: 0 <= i < run.ran - 1 ==> !EndsRun(plan.checks[i], run.results[i]))
    && (forall i :: 0 <= i < run.ran ==> !steps[i].expired)
    && (run.ran < |plan.checks| && !ended ==> steps[run.ran].expired)
    && (run.haltCode == Some(Ascii("CHECK_SKIPPED")) <==> ended)
    && (run.haltCode == Some(Ascii("DEADLINE_EXCEEDED")) <==> !ended && run.ran < |plan.checks|)
    && (run.haltCode.None? <==> !ended && run.ran == |plan.checks|)
  }

  /**
   Every check of a run is recorded: those that ran as their own turns gave, the rest as skipped under the code that
   stopped the run; and the run stops exactly at a failure that ends it or at an expired deadline.
   */
  lemma RunIsRecorded(plan: Plan, planDigest: Digest, steps: seq<Step>, run: Run)
    requires |steps| == |plan.checks| && IsRun(plan, planDigest, steps, run)
    ensures |run.results| == |plan.checks| && run.ran <= |plan.checks| && StopsRight(plan, steps, run)
    ensures forall i :: 0 <= i < run.ran ==>
      RecordsTurn(plan, planDigest, steps[i], plan.checks[i], run.results[i])
    ensures forall i :: run.ran <= i < |plan.checks| ==>
      && run.haltCode.Some? && RecordsSkip(run.results[i], run.haltCode.value)
      && Identifies(run.results[i], plan, planDigest, plan.checks[i], steps[i].startedAt, steps[i].startedAt)
  {
    hide CHECK_SKIPPED, DEADLINE_EXCEEDED, EndsRun, Halts, RanResult, RecordsBuiltin, RecordsTarget;
    SharedCodesAreNamed();
    HaltCodesDiffer();
    forall c, r ensures Halts(c, r) <==> EndsRun(c, r) { HaltsExactly(c, r); }
    forall i | 0 <= i < run.ran ensures RecordsTurn(plan, planDigest, steps[i], plan.checks[i], run.results[i]) {
      var c := plan.checks[i];
      if c.validator.Builtin? {
        BuiltinIsRecorded(plan, planDigest, c, steps[i]);
      } else {
        TargetIsRecorded(plan, planDigest, c, steps[i]);
      }
    }
  }
}
