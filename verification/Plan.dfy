/** Compiled plans and the check results bound to them. */
module Plan {
  import opened Base

  datatype Phase = ContractAdmission | CandidateValidation | PromotionFinalization

  /** `PHASES.indexOf(phase)`. */
  function PhaseIndex(p: Phase): nat {
    match p
    case ContractAdmission => 0
    case CandidateValidation => 1
    case PromotionFinalization => 2
  }

  datatype Effect = Blocking | Advisory

  datatype Consumer = DispositionReducer | EvidenceOnly

  datatype Validator = Builtin(builtinId: JsString) | TargetCommand(argv: seq<JsString>, inputManifest: seq<JsString>)

  /** The members of a check that a plan copies unread. */
  datatype Settings = Settings(
    inputs: seq<JsString>,
    outputSchemaId: JsString,
    timeoutSeconds: nat,
    network: JsString,
    filesystem: JsString,
    envAllowlist: seq<JsString>)

  /** One planned check. */
  datatype PlanCheck = PlanCheck(
    checkId: JsString,
    packId: JsString,
    packVersion: JsString,
    phase: Phase,
    effect: Effect,
    validator: Validator,
    settings: Settings,
    consumer: Consumer,
    dependsOn: seq<JsString>)

  datatype PackPin = PackPin(packId: JsString, version: JsString, digest: Digest)

  datatype SourceDigests = SourceDigests(
    workContract: Digest,
    profile: Digest,
    capabilityIndex: Option<Digest>,
    packs: seq<PackPin>)

  datatype Candidate = Candidate(kind: JsString, id: JsString)

  datatype Plan = Plan(
    kernelRelease: JsString,
    repositoryId: JsString,
    baseCommit: JsString,
    candidate: Candidate,
    profileId: JsString,
    sources: SourceDigests,
    checks: seq<PlanCheck>)

  datatype Outcome = Pass | Fired | InfraFailure | Skipped

  datatype EvidenceRef = EvidenceRef(artifactId: JsString, digest: Digest)

  /** A schema-valid check-result@1. */
  datatype CheckResult = CheckResult(
    checkId: JsString,
    packId: JsString,
    planDigest: Digest,
    candidateId: JsString,
    effect: Effect,
    outcome: Outcome,
    reasonCodes: seq<JsString>,
    evidence: seq<EvidenceRef>,
    startedAt: JsString,
    completedAt: JsString)

  ghost predicate DistinctCheckIds(checks: seq<PlanCheck>) {
    forall i, j :: 0 <= i < j < |checks| ==> checks[i].checkId != checks[j].checkId
  }

  lemma SamePlace(checks: seq<PlanCheck>, j: int, k: int)
    requires DistinctCheckIds(checks) && 0 <= j < |checks| && 0 <= k < |checks|
    requires checks[j].checkId == checks[k].checkId
    ensures j == k
  {
  }

  /** A check whose result decides the disposition. */
  predicate Decides(c: PlanCheck) {
    c.effect.Blocking? && c.consumer.DispositionReducer?
  }

  /** `new Map(checks.map((c) => [c.checkId, c])).get(id)`: the last check of that id. */
  function CheckNamed(checks: seq<PlanCheck>, id: JsString): Option<PlanCheck> {
    if checks == [] then None
    else
      var last := |checks| - 1;
      if checks[last].checkId == id then Some(checks[last]) else CheckNamed(checks[..last], id)
  }

  lemma {:induction false} CheckNamedFinds(checks: seq<PlanCheck>, i: nat)
    requires i < |checks| && DistinctCheckIds(checks)
    ensures CheckNamed(checks, checks[i].checkId) == Some(checks[i])
  {
    var last := |checks| - 1;
    if i < last {
      assert checks[..last][i] == checks[i];
      CheckNamedFinds(checks[..last], i);
    }
  }

  lemma {:induction false} CheckNamedIsMember(checks: seq<PlanCheck>, id: JsString)
    ensures match CheckNamed(checks, id)
            case Some(c) => c in checks && c.checkId == id
            case None => forall i :: 0 <= i < |checks| ==> checks[i].checkId != id
  {
    if checks != [] {
      var last := |checks| - 1;
      assert forall i :: 0 <= i < last ==> checks[i] == checks[..last][i];
      CheckNamedIsMember(checks[..last], id);
    }
  }

  /** A result produced for this plan and candidate, with the pack and effect the plan declares. */
  predicate Binds(r: CheckResult, plan: Plan, planDigest: Digest) {
    match CheckNamed(plan.checks, r.checkId)
    case None => false
    case Some(c) =>
      && r.packId == c.packId
      && r.effect == c.effect
      && r.planDigest == planDigest
      && r.candidateId == plan.candidate.id
  }

  // ---------- reason codes ----------

  const CHECK_FIRED: JsString := Ascii("CHECK_FIRED")
  const CHECK_SKIPPED: JsString := Ascii("CHECK_SKIPPED")
  const DEADLINE_EXCEEDED: JsString := Ascii("DEADLINE_EXCEEDED")
  const DUPLICATE_RESULT: JsString := Ascii("DUPLICATE_RESULT")
  const INFRASTRUCTURE_FAILURE: JsString := Ascii("INFRASTRUCTURE_FAILURE")
  const MISSING_REQUIRED_RESULT: JsString := Ascii("MISSING_REQUIRED_RESULT")
  const RESULT_BINDING_MISMATCH: JsString := Ascii("RESULT_BINDING_MISMATCH")
}
