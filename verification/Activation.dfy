/** Activation proof: a conforming and a planted receipt that show one control deciding. */
module Activation {
  import opened Base
  import opened Ordering
  import opened Json
  import opened CanonicalJson
  import opened CanonicalTheorems
  import opened MemberNames
  import opened Records
  import opened Plan
  import opened Reducer
  import opened ReducerTheorems
  import opened Evaluator
  import opened Documents
  import opened Receipt

  // ---------- the fingerprint of a control ----------

  /** A control's identity, independent of the run it took part in. */
  datatype Control = Control(
    checkId: JsString,
    packId: JsString,
    packVersion: JsString,
    packDigest: Digest,
    validatorId: JsString,
    validatorDigest: Digest,
    phase: Phase,
    effect: Effect,
    consumer: Consumer,
    kernelRelease: JsString)

  const FINGERPRINT_SCHEMA: JsString := Ascii("activation-fingerprint@1")
  const REDUCER_RELEASE: JsString := Ascii("reducer-release-bound-to-kernel-release")

  function ControlFields(x: Control): seq<Field> {
    [ Field(K_PHASE, Str(PhaseName(x.phase))),
      Field(K_SCHEMA, Str(FINGERPRINT_SCHEMA)),
      Field(K_PACK_ID, Str(x.packId)),
      Field(K_EFFECT, Str(EffectName(x.effect))),
      Field(K_CHECK_ID, Str(x.checkId)),
      Field(K_PACK_DIGEST, Str(x.packDigest)),
      Field(K_VALIDATOR_ID, Str(x.validatorId)),
      Field(K_PACK_VERSION, Str(x.packVersion)),
      Field(K_KERNEL_RELEASE, Str(x.kernelRelease)),
      Field(K_REDUCER_RELEASE, Str(REDUCER_RELEASE)),
      Field(K_RESULT_CONSUMER, Str(ConsumerName(x.consumer))),
      Field(K_VALIDATOR_DIGEST, Str(x.validatorDigest)) ]
  }

  function ControlJson(x: Control): Json {
    Record(ControlFields(x))
  }

  /** `activationFingerprint`: the canonical form of the control. */
  function Fingerprint(x: Control): Option<JsString> {
    match Canonicalize(ControlJson(x), CANONICAL_BOUNDS)
    case Err(_) => None
    case Ok(text) => Some(text)
  }

  lemma ControlFieldsAgree(x: Control, y: Control)
    requires ControlJson(x) == ControlJson(y)
    ensures ControlFields(x) == ControlFields(y)
  {
    hide ConsumerName, EffectName, PhaseName, Record, Tag;
    NameTags();
    TaggedRecordsAreInjective(ControlFields(x), ControlFields(y));
  }

  /** Equal fingerprints are fingerprints of one control: pack and validator bytes, phase, effect and consumer included. */
  lemma FingerprintIdentifiesControl(x: Control, y: Control)
    requires Fingerprint(x).Some? && Fingerprint(x) == Fingerprint(y)
    ensures x == y
  {
    CanonicalizeIsInjective(ControlJson(x), ControlJson(y), CANONICAL_BOUNDS);
    ControlFieldsAgree(x, y);
    NamesAreDistinct();
    hide ControlJson, Canonicalize, PhaseName, EffectName, ConsumerName;
    var a, b := ControlFields(x), ControlFields(y);
    assert a[0] == b[0] && a[1] == b[1] && a[2] == b[2] && a[3] == b[3] && a[4] == b[4] && a[5] == b[5]
      && a[6] == b[6] && a[7] == b[7] && a[8] == b[8] && a[9] == b[9] && a[10] == b[10] && a[11] == b[11];
  }

  function ChecksOf(checks: seq<PlanCheck>, id: JsString): seq<PlanCheck> {
    if checks == [] then []
    else ChecksOf(checks[..|checks| - 1], id)
         + if checks[|checks| - 1].checkId == id then [checks[|checks| - 1]] else []
  }

  function ResultsOf(results: seq<CheckResult>, id: JsString): seq<CheckResult> {
    if results == [] then []
    else ResultsOf(results[..|results| - 1], id)
         + if results[|results| - 1].checkId == id then [results[|results| - 1]] else []
  }

  function ValidatorPinOf(pins: seq<ValidatorPin>, id: JsString): Option<ValidatorPin> {
    if pins == [] then None else if pins[0].validatorId == id then Some(pins[0]) else ValidatorPinOf(pins[1..], id)
  }

  function PackPinOf(pins: seq<PackPin>, id: JsString): Option<PackPin> {
    if pins == [] then None else if pins[0].packId == id then Some(pins[0]) else PackPinOf(pins[1..], id)
  }

  /** The subject check as one side of a pair shows it. */
  datatype Subject = Subject(result: CheckResult, control: Control)

  /** `fingerprintFromReceipt`; None is each of its refusals. */
  function SubjectOf(hash: Hash, r: Receipt, plan: Plan, checkId: JsString): Option<Subject> {
    var checks, results := ChecksOf(plan.checks, checkId), ResultsOf(r.results, checkId);
    if |checks| != 1 || |results| != 1 then None
    else
      var c := checks[0];
      match ValidatorId(hash, c.validator)
      case None => None
      case Some(validatorId) =>
        match (ValidatorPinOf(r.digests.validators, validatorId), PackPinOf(plan.sources.packs, c.packId))
        case (Some(validator), Some(pack)) =>
          Some(Subject(results[0],
                       Control(checkId, c.packId, c.packVersion, pack.digest, validatorId, validator.digest, c.phase,
                               c.effect, c.consumer, r.kernelRelease)))
        case _ => None
  }

  lemma {:induction false} ResultsOfMembers(results: seq<CheckResult>, id: JsString)
    ensures forall x :: x in ResultsOf(results, id) <==> x in results && x.checkId == id
  {
    if results != [] {
      var front, last := results[..|results| - 1], results[|results| - 1];
      ResultsOfMembers(front, id);
      assert results == front + [last];
    }
  }

  /** The one result of the subject. */
  lemma SubjectIsTheResult(hash: Hash, r: Receipt, plan: Plan, checkId: JsString)
    requires SubjectOf(hash, r, plan, checkId).Some?
    ensures var s := SubjectOf(hash, r, plan, checkId).value;
            && s.result in r.results && s.result.checkId == checkId && s.control.checkId == checkId
            && forall x :: x in r.results && x.checkId == checkId ==> x == s.result
  {
    ResultsOfMembers(r.results, checkId);
    var results := ResultsOf(r.results, checkId);
    assert results == [results[0]];
  }

  // ---------- the pair ----------

  const STRUCTURAL_REASONS: set<JsString> := {
    DUPLICATE_RESULT, RESULT_BINDING_MISMATCH, MISSING_REQUIRED_RESULT, INFRASTRUCTURE_FAILURE }

  datatype PairError =
    | ConformingUnverified
    | PlantedUnverified
    | DifferentRepositories
    | Untrusted
    | NoConformingSubject
    | NoPlantedSubject
    | DifferentControls
    | NotTheCurrentControl
    | NotPromotable
    | NotObserved
    | NotBlocked
    | NothingFired
    | Structural(code: JsString)
    | SubjectDidNotFire
    | UnrelatedFailure(checkId: JsString)

  /** One receipt of a pair with its plan, and whether its signature, if it has one, is valid. */
  datatype Side = Side(receipt: Receipt, plan: Plan, planDigest: Digest, signatureValid: bool)

  datatype TrustPolicy = TrustPolicy(requireSignature: bool, trustedKeys: set<JsString>)

  ghost predicate Verifies(hash: Hash, s: Side) {
    Accepts(hash, s.receipt, s.plan, s.planDigest, s.signatureValid, None, None)
  }

  predicate SignedAndTrusted(r: Receipt, trustedKeys: set<JsString>) {
    r.signing.Some? && r.signing.value.publicKey in trustedKeys
  }

  /** The conforming run is PROMOTABLE with the subject observed as a passing blocking check. */
  predicate Conforms(r: Receipt, subject: CheckResult) {
    r.disposition.Promotable? && subject.outcome.Pass? && subject.effect.Blocking?
  }

  /** The planted run is BLOCKED by a firing, not structurally, and nothing but the subject failed. */
  predicate Plants(r: Receipt, subject: CheckResult) {
    && r.disposition.Blocked?
    && CHECK_FIRED in r.reasonCodes
    && (forall code :: code in r.reasonCodes ==> code !in STRUCTURAL_REASONS)
    && subject.outcome.Fired? && subject.effect.Blocking?
    && forall x :: x in r.results && x.checkId != subject.checkId ==> x.outcome.Pass? || x.outcome.Skipped?
  }

  /** What an accepted pair proves. */
  ghost predicate ProvesActivation(hash: Hash, conforming: Side, planted: Side, checkId: JsString,
      expected: Option<JsString>, trust: TrustPolicy)
  {
    && Verifies(hash, conforming) && Verifies(hash, planted)
    && conforming.receipt.repositoryId == planted.receipt.repositoryId
    && (trust.requireSignature ==>
          SignedAndTrusted(conforming.receipt, trust.trustedKeys) && SignedAndTrusted(planted.receipt, trust.trustedKeys))
    && var c, p := SubjectOf(hash, conforming.receipt, conforming.plan, checkId),
                   SubjectOf(hash, planted.receipt, planted.plan, checkId);
       && c.Some? && p.Some?
       && Fingerprint(c.value.control) == Fingerprint(p.value.control)
       && Fingerprint(c.value.control).Some?
       && (expected.Some? ==> Fingerprint(c.value.control) == expected)
       && Conforms(conforming.receipt, c.value.result)
       && Plants(planted.receipt, p.value.result)
  }

  // ---------- what is complained about ----------

  /** The errors of what the two sides must share, and of what the conforming side must show. */
  predicate SharedGives(r: Receipt, q: Receipt, c: Option<Subject>, p: Option<Subject>, expected: Option<JsString>,
      trust: TrustPolicy, e: PairError)
  {
    || (e == DifferentRepositories && r.repositoryId != q.repositoryId)
    || (e == Untrusted && trust.requireSignature
        && !(SignedAndTrusted(r, trust.trustedKeys) && SignedAndTrusted(q, trust.trustedKeys)))
    || (e == NoConformingSubject && c.None?)
    || (e == NoPlantedSubject && p.None?)
    || (e == DifferentControls && c.Some? && p.Some? && Fingerprint(c.value.control) != Fingerprint(p.value.control))
    || (e == NotTheCurrentControl && expected.Some? && c.Some? && Fingerprint(c.value.control) != expected)
    || (e == NotPromotable && r.disposition != Promotable)
    || (e == NotObserved && c.Some? && (c.value.result.outcome != Pass || c.value.result.effect != Blocking))
  }

  /** A result of another check that neither passed nor was skipped. */
  ghost predicate UnrelatedGives(results: seq<CheckResult>, checkId: JsString, e: PairError) {
    e.UnrelatedFailure? && e.checkId != checkId
    && exists x :: x in results && x.checkId == e.checkId && (x.outcome == Fired || x.outcome == InfraFailure)
  }

  /** The errors of what the planted side must show. */
  ghost predicate PlantedGives(q: Receipt, p: Option<Subject>, checkId: JsString, e: PairError) {
    || (e == NotBlocked && q.disposition != Blocked)
    || (e == NothingFired && CHECK_FIRED !in q.reasonCodes)
    || (e.Structural? && e.code in q.reasonCodes && e.code in STRUCTURAL_REASONS)
    || (e == SubjectDidNotFire && p.Some? && (p.value.result.outcome != Fired || p.value.result.effect != Blocking))
    || (p.Some? && UnrelatedGives(q.results, checkId, e))
  }

  /** Every error that the verification of a pair lists. */
  ghost predicate PairGives(hash: Hash, conforming: Side, planted: Side, checkId: JsString, expected: Option<JsString>,
      trust: TrustPolicy, e: PairError)
  {
    if !Verifies(hash, conforming) then e == ConformingUnverified
    else if !Verifies(hash, planted) then e == PlantedUnverified
    else
      var c, p := SubjectOf(hash, conforming.receipt, conforming.plan, checkId),
                  SubjectOf(hash, planted.receipt, planted.plan, checkId);
      || SharedGives(conforming.receipt, planted.receipt, c, p, expected, trust, e)
      || PlantedGives(planted.receipt, p, checkId, e)
  }

  predicate Named(s: Option<Subject>) {
    s.Some? ==> Fingerprint(s.value.control).Some?
  }

  /** Something that has to be compared by its canonical form has none. */
  ghost predicate PairThrows(hash: Hash, conforming: Side, planted: Side, checkId: JsString) {
    || !Printable(conforming.receipt, conforming.plan, conforming.planDigest)
    || (Verifies(hash, conforming)
        && (|| !Printable(planted.receipt, planted.plan, planted.planDigest)
            || (Verifies(hash, planted)
                && !(Named(SubjectOf(hash, conforming.receipt, conforming.plan, checkId))
                     && Named(SubjectOf(hash, planted.receipt, planted.plan, checkId))))))
  }

  // ---------- the verifier ----------

  method StructuralErrors(codes: seq<JsString>) returns (errors: seq<PairError>)
    ensures forall e :: e in errors <==> e.Structural? && e.code in codes && e.code in STRUCTURAL_REASONS
  {
    hide STRUCTURAL_REASONS;
    errors := [];
    for k := 0 to |codes|
      invariant forall e :: e in errors <==> e.Structural? && e.code in codes[..k] && e.code in STRUCTURAL_REASONS
    {
      assert codes[..k + 1] == codes[..k] + [codes[k]];
      if codes[k] in STRUCTURAL_REASONS { errors := errors + [Structural(codes[k])]; }
    }
    assert codes[..|codes|] == codes;
  }

  method UnrelatedErrors(results: seq<CheckResult>, checkId: JsString) returns (errors: seq<PairError>)
    ensures forall e :: e in errors <==> UnrelatedGives(results, checkId, e)
  {
    errors := [];
    for k := 0 to |results|
      invariant forall e :: e in errors <==> UnrelatedGives(results[..k], checkId, e)
    {
      var x := results[k];
      assert results[..k + 1] == results[..k] + [x];
      if x.checkId != checkId && !x.outcome.Pass? && !x.outcome.Skipped? {
        errors := errors + [UnrelatedFailure(x.checkId)];
      }
    }
    assert results[..|results|] == results;
  }

  /** What the planted side alone must show; `p` is its subject, if it has one. */
  method PlantedErrors(q: Receipt, p: Option<Subject>, checkId: JsString) returns (errors: seq<PairError>)
    ensures forall e :: e in errors <==> PlantedGives(q, p, checkId, e)
  {
    hide STRUCTURAL_REASONS, CHECK_FIRED, UnrelatedGives;
    errors := [];
    if !q.disposition.Blocked? { errors := errors + [NotBlocked]; }
    if CHECK_FIRED !in q.reasonCodes { errors := errors + [NothingFired]; }
    var structural := StructuralErrors(q.reasonCodes);
    errors := errors + structural;
    if p.Some? {
      if !(p.value.result.outcome.Fired? && p.value.result.effect.Blocking?) { errors := errors + [SubjectDidNotFire]; }
      var unrelated := UnrelatedErrors(q.results, checkId);
      errors := errors + unrelated;
    }
  }

  /** What the two sides must share, and what the conforming side must show. */
  method SharedErrors(r: Receipt, q: Receipt, c: Option<Subject>, p: Option<Subject>, expected: Option<JsString>,
      trust: TrustPolicy)
    returns (errors: seq<PairError>)
    requires Named(c) && Named(p)
    ensures forall e :: e in errors <==> SharedGives(r, q, c, p, expected, trust, e)
  {
    hide Fingerprint, SignedAndTrusted;
    errors := [];
    if r.repositoryId != q.repositoryId { errors := errors + [DifferentRepositories]; }
    if trust.requireSignature && !(SignedAndTrusted(r, trust.trustedKeys) && SignedAndTrusted(q, trust.trustedKeys)) {
      errors := errors + [Untrusted];
    }
    if c.None? { errors := errors + [NoConformingSubject]; }
    if p.None? { errors := errors + [NoPlantedSubject]; }
    if c.Some? && p.Some? && Fingerprint(c.value.control) != Fingerprint(p.value.control) {
      errors := errors + [DifferentControls];
    }
    if expected.Some? && c.Some? && Fingerprint(c.value.control) != expected { errors := errors + [NotTheCurrentControl]; }
    if !r.disposition.Promotable? { errors := errors + [NotPromotable]; }
    if c.Some? && !(c.value.result.outcome.Pass? && c.value.result.effect.Blocking?) {
      errors := errors + [NotObserved];
    }
  }

  /** `verifyActivationPair`; None when a canonical form it compares does not exist. */
  method VerifyActivationPair(hash: Hash, conforming: Side, planted: Side, checkId: JsString,
      expected: Option<JsString>, trust: TrustPolicy)
    returns (errors: Option<seq<PairError>>)
    ensures errors.None? <==> PairThrows(hash, conforming, planted, checkId)
    ensures errors.Some? ==>
      forall e :: e in errors.value <==> PairGives(hash, conforming, planted, checkId, expected, trust, e)
    ensures errors == Some([]) <==> ProvesActivation(hash, conforming, planted, checkId, expected, trust)
  {
    hide Accepts, Fingerprint, PlantedGives, Printable, ProvesActivation, SharedGives, SignedAndTrusted, SubjectOf;
    var first := VerifyReceipt(hash, conforming.receipt, conforming.plan, conforming.planDigest,
                               conforming.signatureValid, None, None);
    ProofDecides(hash, conforming, planted, checkId, expected, trust);
    if first.Failed? { return None; }
    if first != Answered([]) {
      assert PairGives(hash, conforming, planted, checkId, expected, trust, ConformingUnverified);
      return Some([ConformingUnverified]);
    }
    var second := VerifyReceipt(hash, planted.receipt, planted.plan, planted.planDigest,
                                planted.signatureValid, None, None);
    if second.Failed? { return None; }
    if second != Answered([]) {
      assert PairGives(hash, conforming, planted, checkId, expected, trust, PlantedUnverified);
      return Some([PlantedUnverified]);
    }
    var r, q := conforming.receipt, planted.receipt;
    var c, p := SubjectOf(hash, r, conforming.plan, checkId), SubjectOf(hash, q, planted.plan, checkId);
    if c.Some? && Fingerprint(c.value.control).None? { return None; }
    if p.Some? && Fingerprint(p.value.control).None? { return None; }
    var shared := SharedErrors(r, q, c, p, expected, trust);
    var own := PlantedErrors(q, p, checkId);
    errors := Some(shared + own);
    if errors.value != [] { assert errors.value[0] in errors.value; }
  }

  lemma AcceptedIsPrintable(hash: Hash, s: Side)
    ensures Verifies(hash, s) ==> Printable(s.receipt, s.plan, s.planDigest)
  {
    hide BindsPlan, EvidenceAgrees, Printable, Reproduces, ResultsBind, SignatureAgrees;
  }

  /** What the two sides share, and what the conforming side shows. */
  predicate Shares(r: Receipt, q: Receipt, c: Option<Subject>, p: Option<Subject>, expected: Option<JsString>,
      trust: TrustPolicy)
  {
    && r.repositoryId == q.repositoryId
    && (trust.requireSignature ==> SignedAndTrusted(r, trust.trustedKeys) && SignedAndTrusted(q, trust.trustedKeys))
    && c.Some? && p.Some?
    && Fingerprint(c.value.control) == Fingerprint(p.value.control)
    && (expected.Some? ==> Fingerprint(c.value.control) == expected)
    && Conforms(r, c.value.result)
  }

  lemma SharersGiveNothing(r: Receipt, q: Receipt, c: Option<Subject>, p: Option<Subject>, expected: Option<JsString>,
      trust: TrustPolicy, e: PairError)
    requires Shares(r, q, c, p, expected, trust)
    ensures !SharedGives(r, q, c, p, expected, trust, e)
  {
    hide Fingerprint, SignedAndTrusted;
  }

  lemma OthersGiveSomething(r: Receipt, q: Receipt, c: Option<Subject>, p: Option<Subject>, expected: Option<JsString>,
      trust: TrustPolicy) returns (e: PairError)
    requires !Shares(r, q, c, p, expected, trust)
    ensures SharedGives(r, q, c, p, expected, trust, e)
  {
    hide Fingerprint, SignedAndTrusted;
    if r.repositoryId != q.repositoryId { return DifferentRepositories; }
    if c.None? { return NoConformingSubject; }
    if p.None? { return NoPlantedSubject; }
    if Fingerprint(c.value.control) != Fingerprint(p.value.control) { return DifferentControls; }
    if expected.Some? && Fingerprint(c.value.control) != expected { return NotTheCurrentControl; }
    if r.disposition != Promotable { return NotPromotable; }
    if c.value.result.outcome != Pass || c.value.result.effect != Blocking { return NotObserved; }
    return Untrusted;
  }

  lemma PlantedDecides(q: Receipt, p: Subject, checkId: JsString)
    requires p.result.checkId == checkId
    ensures (forall e :: !PlantedGives(q, Some(p), checkId, e)) <==> Plants(q, p.result)
  {
    hide STRUCTURAL_REASONS, CHECK_FIRED;
    var s := Some(p);
    if forall e :: !PlantedGives(q, s, checkId, e) {
      assert !PlantedGives(q, s, checkId, NotBlocked) && !PlantedGives(q, s, checkId, NothingFired);
      assert !PlantedGives(q, s, checkId, SubjectDidNotFire);
      forall code | code in q.reasonCodes ensures code !in STRUCTURAL_REASONS {
        assert !PlantedGives(q, s, checkId, Structural(code));
      }
      forall x | x in q.results && x.checkId != checkId ensures x.outcome.Pass? || x.outcome.Skipped? {
        assert !PlantedGives(q, s, checkId, UnrelatedFailure(x.checkId));
      }
    }
  }

  /** A pair proves the activation exactly when there is nothing to complain about. */
  lemma ProofDecides(hash: Hash, conforming: Side, planted: Side, checkId: JsString, expected: Option<JsString>,
      trust: TrustPolicy)
    ensures ProvesActivation(hash, conforming, planted, checkId, expected, trust) <==>
      && !PairThrows(hash, conforming, planted, checkId)
      && forall e :: !PairGives(hash, conforming, planted, checkId, expected, trust, e)
  {
    hide Accepts, Conforms, Fingerprint, Plants, PlantedGives, Printable, SharedGives, SignedAndTrusted, SubjectOf;
    AcceptedIsPrintable(hash, conforming);
    AcceptedIsPrintable(hash, planted);
    var c, p := SubjectOf(hash, conforming.receipt, conforming.plan, checkId),
                SubjectOf(hash, planted.receipt, planted.plan, checkId);
    if !Verifies(hash, conforming) {
      assert PairGives(hash, conforming, planted, checkId, expected, trust, ConformingUnverified);
    } else if !Verifies(hash, planted) {
      assert PairGives(hash, conforming, planted, checkId, expected, trust, PlantedUnverified);
    } else if Named(c) && Named(p) {
      if Shares(conforming.receipt, planted.receipt, c, p, expected, trust) {
        forall e { SharersGiveNothing(conforming.receipt, planted.receipt, c, p, expected, trust, e); }
      } else {
        var e := OthersGiveSomething(conforming.receipt, planted.receipt, c, p, expected, trust);
      }
      forall e ensures PairGives(hash, conforming, planted, checkId, expected, trust, e) <==>
        SharedGives(conforming.receipt, planted.receipt, c, p, expected, trust, e)
        || PlantedGives(planted.receipt, p, checkId, e) {}
      if p.Some? {
        SubjectIsTheResult(hash, planted.receipt, planted.plan, checkId);
        PlantedDecides(planted.receipt, p.value, checkId);
      }
    }
  }

  // ---------- the counterfactual ----------

  lemma StructuralReasonsAreMembers()
    ensures DUPLICATE_RESULT in STRUCTURAL_REASONS && RESULT_BINDING_MISMATCH in STRUCTURAL_REASONS
    ensures MISSING_REQUIRED_RESULT in STRUCTURAL_REASONS
  {
  }

  /** Receiving can only complain about duplicates and bindings. */
  lemma {:induction false} ReceiveReasons(results: seq<RawResult>, plan: Plan, planDigest: Digest)
    ensures ReceiveAll(results, plan, planDigest).reasons <= {DUPLICATE_RESULT, RESULT_BINDING_MISMATCH}
  {
    hide Binds;
    if results != [] { ReceiveReasons(results[..|results| - 1], plan, planDigest); }
  }

  /** Consuming forgets no reason, and names every deciding check without a result. */
  lemma {:induction false} ConsumeReasons(s: State, checks: seq<PlanCheck>)
    ensures s.reasons <= ConsumeAll(s, checks).reasons && ConsumeAll(s, checks).byCheckId == s.byCheckId
    ensures forall k :: 0 <= k < |checks| && Decides(checks[k]) && checks[k].checkId !in s.byCheckId ==>
      MISSING_REQUIRED_RESULT in ConsumeAll(s, checks).reasons
  {
    if checks != [] {
      var last := |checks| - 1;
      ConsumeReasons(s, checks[..last]);
      assert forall k :: 0 <= k < last ==> checks[k] == checks[..last][k];
      hide MISSING_REQUIRED_RESULT;
    }
  }

  /** Without a structural reason, every result is bound, none is repeated, and every deciding check is answered. */
  lemma NoStructuralReason(plan: Plan, planDigest: Digest, results: seq<RawResult>)
    requires forall code :: code in Reduce(plan, planDigest, results).reasonCodes ==> code !in STRUCTURAL_REASONS
    ensures AllBound(results, plan, planDigest) && DistinctIds(results)
    ensures forall k :: 0 <= k < |plan.checks| && Decides(plan.checks[k]) ==> AnsweredBy(plan.checks[k], results)
  {
    StructuralReasonsAreMembers();
    hide STRUCTURAL_REASONS, DUPLICATE_RESULT, RESULT_BINDING_MISMATCH, MISSING_REQUIRED_RESULT, Binds;
    var s := ReceiveAll(results, plan, planDigest);
    var t := ConsumeAll(s, plan.checks);
    SortedFacts(t.reasons);
    assert forall code :: code in t.reasons ==> code in Elements(Sorted(t.reasons));
    ReceiveReasons(results, plan, planDigest);
    ConsumeReasons(s, plan.checks);
    hide ReceiveAll, ConsumeAll;
    assert s.reasons == {};
    ReceiveCleanly(results, plan, planDigest);
    ReceiveFiles(results, plan, planDigest);
    forall k | 0 <= k < |plan.checks| && Decides(plan.checks[k]) ensures AnsweredBy(plan.checks[k], results) {
      var id := plan.checks[k].checkId;
      assert id in s.byCheckId;
      assert Shaped(s.byCheckId[id]) in results;
      var m :| 0 <= m < |results| && results[m] == Shaped(s.byCheckId[id]);
    }
  }

  /** What would have been: the subject's firing, and every skip if `skipsToo`, turned into a PASS. */
  function Unfired(results: seq<CheckResult>, checkId: JsString, skipsToo: bool): seq<CheckResult> {
    seq(|results|, k requires 0 <= k < |results| =>
      if results[k].checkId == checkId || (skipsToo && results[k].outcome.Skipped?)
      then results[k].(outcome := Pass) else results[k])
  }

  lemma UnfiredStaysBound(plan: Plan, planDigest: Digest, results: seq<CheckResult>, checkId: JsString, skipsToo: bool)
    requires AllBound(Supply(results), plan, planDigest) && DistinctIds(Supply(results))
    ensures AllBound(Supply(Unfired(results, checkId, skipsToo)), plan, planDigest)
    ensures DistinctIds(Supply(Unfired(results, checkId, skipsToo)))
  {
    var was, now := Supply(results), Supply(Unfired(results, checkId, skipsToo));
    forall k | 0 <= k < |now| ensures BoundResult(now[k], plan, planDigest) {
      assert BoundResult(was[k], plan, planDigest);
    }
    hide Binds;
    forall j, k | 0 <= j < k < |now| ensures !SameCheck(now[j], now[k]) {
      assert !SameCheck(was[j], was[k]);
    }
  }

  /** If everything but the subject passed or was skipped, then without the firing every answered check passes. */
  lemma UnfiredPromotes(plan: Plan, planDigest: Digest, results: seq<CheckResult>, checkId: JsString, skipsToo: bool)
    requires AllBound(Supply(results), plan, planDigest) && DistinctIds(Supply(results)) && DistinctCheckIds(plan.checks)
    requires forall k :: 0 <= k < |plan.checks| && Decides(plan.checks[k]) ==> AnsweredBy(plan.checks[k], Supply(results))
    requires forall x :: x in results && x.checkId != checkId ==>
      x.outcome.Pass? || (x.outcome.Skipped? && (skipsToo || x.effect.Advisory?))
    ensures Reduce(plan, planDigest, Supply(Unfired(results, checkId, skipsToo))).disposition.Promotable?
  {
    var was, now := Supply(results), Supply(Unfired(results, checkId, skipsToo));
    UnfiredStaysBound(plan, planDigest, results, checkId, skipsToo);
    PromotableExactly(plan, planDigest, now);
    hide Reduce;
    forall k | 0 <= k < |plan.checks| && Decides(plan.checks[k]) ensures PassedBy(plan.checks[k], now) {
      var c := plan.checks[k];
      var m :| 0 <= m < |was| && was[m].Shaped? && was[m].result.checkId == c.checkId;
      BlockingAnswer(plan, planDigest, was, k, m);
      assert results[m] in results;
      assert now[m].result.checkId == c.checkId && now[m].result.outcome.Pass?;
    }
  }

  /** A bound answer to a deciding check is a BLOCKING result, whichever check of that id it is bound to. */
  lemma BlockingAnswer(plan: Plan, planDigest: Digest, results: seq<RawResult>, k: nat, m: nat)
    requires AllBound(results, plan, planDigest) && m < |results| && k < |plan.checks| && Decides(plan.checks[k])
    requires results[m].Shaped? && results[m].result.checkId == plan.checks[k].checkId
    ensures DistinctCheckIds(plan.checks) ==> results[m].result.effect.Blocking?
  {
    assert BoundResult(results[m], plan, planDigest);
    if DistinctCheckIds(plan.checks) { CheckNamedFinds(plan.checks, k); }
  }

  /**
   An accepted pair is counterfactual. Both runs show the same control, and had it not fired in the planted run (what
   its firing skipped having passed), that run would have been PROMOTABLE; when no blocking check was skipped, the one
   outcome alone makes the difference.
   */
  lemma AcceptedPairIsCounterfactual(hash: Hash, conforming: Side, planted: Side, checkId: JsString,
      expected: Option<JsString>, trust: TrustPolicy)
    requires ProvesActivation(hash, conforming, planted, checkId, expected, trust)
    requires DistinctCheckIds(planted.plan.checks)
    ensures SubjectOf(hash, conforming.receipt, conforming.plan, checkId).value.control
            == SubjectOf(hash, planted.receipt, planted.plan, checkId).value.control
    ensures Reduce(planted.plan, planted.planDigest, Supply(planted.receipt.results)).disposition.Blocked?
    ensures Reduce(planted.plan, planted.planDigest, Supply(Unfired(planted.receipt.results, checkId, true)))
              .disposition.Promotable?
    ensures (forall x :: x in planted.receipt.results && x.effect.Blocking? ==> !x.outcome.Skipped?) ==>
      Reduce(planted.plan, planted.planDigest, Supply(Unfired(planted.receipt.results, checkId, false)))
        .disposition.Promotable?
  {
    var c, p := SubjectOf(hash, conforming.receipt, conforming.plan, checkId),
                SubjectOf(hash, planted.receipt, planted.plan, checkId);
    FingerprintIdentifiesControl(c.value.control, p.value.control);
    SubjectIsTheResult(hash, planted.receipt, planted.plan, checkId);
    var results := planted.receipt.results;
    assert Reproduces(planted.receipt, planted.plan, planted.planDigest);
    assert Plants(planted.receipt, p.value.result);
    hide Reduce, SubjectOf, Fingerprint, ProvesActivation, Accepts, STRUCTURAL_REASONS;
    NoStructuralReason(planted.plan, planted.planDigest, Supply(results));
    UnfiredPromotes(planted.plan, planted.planDigest, results, checkId, true);
    if forall x :: x in results && x.effect.Blocking? ==> !x.outcome.Skipped? {
      UnfiredPromotes(planted.plan, planted.planDigest, results, checkId, false);
    }
  }
}
