/** Promotion receipts: offline verification against a plan and an evidence store, and what acceptance means. */
module Receipt {
  import opened Base
  import opened Text
  import opened Json
  import opened CanonicalJson
  import opened CanonicalTheorems
  import opened Plan
  import opened Reducer
  import opened ReducerTheorems
  import opened Evaluator
  import opened Documents
  import opened EvidenceDocument
  import opened EvidenceStore
  import opened EvidenceVerifier

  datatype ValidatorPin = ValidatorPin(validatorId: JsString, digest: Digest)

  datatype ReceiptDigests = ReceiptDigests(
    workContract: Digest,
    profile: Digest,
    packs: seq<PackPin>,
    validators: seq<ValidatorPin>,
    compiledPlan: Digest,
    capabilityIndex: Option<Digest>,
    evidenceIndex: Option<Digest>)

  datatype Signing = Signing(publicKey: JsString, signature: JsString)

  /** The members of a promotion-receipt@1 that verification reads. */
  datatype Receipt = Receipt(
    kernelRelease: JsString,
    repositoryId: JsString,
    baseCommit: JsString,
    candidate: Candidate,
    artifactRoot: JsString,
    digests: ReceiptDigests,
    results: seq<CheckResult>,
    disposition: Disposition,
    reasonCodes: seq<JsString>,
    signing: Option<Signing>)

  datatype ReceiptError =
    | Replay
    | ResultMutated(checkId: JsString)
    | DispositionMismatch
    | SignatureInvalid
    | EvidenceUnusable
    | EvidenceFault(fault: EvidenceError)
    | IndexMutated
    | RefMissing(artifactId: JsString)
    | RefMutated(artifactId: JsString)
    | AnchorMissing(checkId: JsString)
    | AnchorMutated(checkId: JsString)

  /** The verifier's answer; a value without a canonical form makes it fail with an exception. */
  datatype Answer = Failed | Answered(errors: seq<ReceiptError>)

  /** `canonicalize(a) === canonicalize(b)`; None when one of them throws. */
  function SameCanonical(a: Json, b: Json): (same: Option<bool>)
  {
    var s, t := Canonicalize(a, CANONICAL_BOUNDS), Canonicalize(b, CANONICAL_BOUNDS);
    if s.Err? || t.Err? then None else Some(s.value == t.value)
  }

  /** Comparing canonical forms is comparing values. */
  lemma SameCanonicalIsEquality(a: Json, b: Json)
    ensures SameCanonical(a, b).Some? ==> (SameCanonical(a, b).value <==> a == b)
    ensures SameCanonical(a, b).Some? <==>
      Canonicalize(a, CANONICAL_BOUNDS).Ok? && Canonicalize(b, CANONICAL_BOUNDS).Ok?
  {
    if SameCanonical(a, b).Some? { CanonicalizeIsInjective(a, b, CANONICAL_BOUNDS); }
  }

  lemma PinsCompareExactly(xs: seq<PackPin>, ys: seq<PackPin>)
    requires SameCanonical(ArrayOf(PinJson, xs), ArrayOf(PinJson, ys)).Some?
    ensures SameCanonical(ArrayOf(PinJson, xs), ArrayOf(PinJson, ys)).value <==> xs == ys
  {
    SameCanonicalIsEquality(ArrayOf(PinJson, xs), ArrayOf(PinJson, ys));
    PinJsonIsInjective();
    hide SameCanonical, PinJson;
    if ArrayOf(PinJson, xs) == ArrayOf(PinJson, ys) { ArrayOfIsInjective(PinJson, xs, ys); }
  }

  lemma CodesCompareExactly(xs: seq<JsString>, ys: seq<JsString>)
    requires SameCanonical(Strings(xs), Strings(ys)).Some?
    ensures SameCanonical(Strings(xs), Strings(ys)).value <==> xs == ys
  {
    SameCanonicalIsEquality(Strings(xs), Strings(ys));
    hide SameCanonical;
    if Strings(xs) == Strings(ys) { StringsAreInjective(xs, ys); }
  }

  lemma DigestsCompareExactly(x: Option<Digest>, y: Option<Digest>)
    requires SameCanonical(OptionalDigest(x), OptionalDigest(y)).Some?
    ensures SameCanonical(OptionalDigest(x), OptionalDigest(y)).value <==> x == y
  {
    SameCanonicalIsEquality(OptionalDigest(x), OptionalDigest(y));
    hide SameCanonical;
  }

  // ---------- what is to be accepted ----------

  /** Same plan, repository, base, candidate, contract, profile, packs and capability index. */
  ghost predicate BindsPlan(r: Receipt, plan: Plan, planDigest: Digest) {
    && r.digests.compiledPlan == planDigest
    && r.repositoryId == plan.repositoryId
    && r.baseCommit == plan.baseCommit
    && r.candidate == plan.candidate
    && r.digests.workContract == plan.sources.workContract
    && r.digests.profile == plan.sources.profile
    && r.digests.packs == plan.sources.packs
    && r.digests.capabilityIndex == plan.sources.capabilityIndex
  }

  ghost predicate ResultsBind(r: Receipt, planDigest: Digest) {
    forall x :: x in r.results ==> x.planDigest == planDigest && x.candidateId == r.candidate.id
  }

  /** The disposition and its reasons are what the reducer makes of the results. */
  ghost predicate Reproduces(r: Receipt, plan: Plan, planDigest: Digest) {
    var reduced := Reduce(plan, planDigest, Supply(r.results));
    r.disposition == reduced.disposition && r.reasonCodes == reduced.reasonCodes
  }

  predicate SignatureAgrees(r: Receipt, signatureValid: bool, expectedKey: Option<JsString>) {
    if r.signing.Some? then signatureValid && (expectedKey.Some? ==> r.signing.value.publicKey == expectedKey.value)
    else expectedKey.None?
  }

  /** The members compared by canonical form have one, and so does every result. */
  ghost predicate Printable(r: Receipt, plan: Plan, planDigest: Digest) {
    && SameCanonical(ArrayOf(PinJson, r.digests.packs), ArrayOf(PinJson, plan.sources.packs)).Some?
    && SameCanonical(OptionalDigest(r.digests.capabilityIndex), OptionalDigest(plan.sources.capabilityIndex)).Some?
    && SameCanonical(Strings(Reduce(plan, planDigest, Supply(r.results)).reasonCodes), Strings(r.reasonCodes)).Some?
  }

  /** `new Map(artifacts.map((a) => [a.artifactId, a])).get(id)`: the last artifact of that id. */
  function ArtifactNamed(artifacts: seq<Artifact>, id: JsString): Option<Artifact> {
    if artifacts == [] then None
    else
      var last := artifacts[|artifacts| - 1];
      if last.artifactId == id then Some(last) else ArtifactNamed(artifacts[..|artifacts| - 1], id)
  }

  const ANCHOR_PREFIX: JsString := Ascii("result-")

  predicate RefHolds(artifacts: seq<Artifact>, checkId: JsString, ref: EvidenceRef) {
    var entry := ArtifactNamed(artifacts, ref.artifactId);
    entry.Some? && entry.value.digest == ref.digest && entry.value.checkId == checkId
  }

  /** The index anchors the canonical bytes of the result. */
  predicate Anchored(hash: Hash, artifacts: seq<Artifact>, x: CheckResult) {
    var anchor := ArtifactNamed(artifacts, ANCHOR_PREFIX + x.checkId);
    anchor.Some? && Some(anchor.value.digest) == CanonicalDigest(hash, ResultJson(x))
  }

  ghost predicate ResultHolds(hash: Hash, artifacts: seq<Artifact>, x: CheckResult) {
    (forall ref :: ref in x.evidence ==> RefHolds(artifacts, x.checkId, ref)) && Anchored(hash, artifacts, x)
  }

  predicate IndexBinds(index: IndexDoc, r: Receipt, planDigest: Digest) {
    && index.binding.compiledPlan == planDigest
    && index.binding.candidateId == r.candidate.id
    && index.binding.baseCommit == r.baseCommit
    && index.binding.repositoryId == r.repositoryId
    && index.binding.workContract == r.digests.workContract
    && index.binding.profile == r.digests.profile
  }

  /** The store verifies, is the one the receipt pins, belongs to this run, and anchors every result. */
  ghost predicate EvidenceAgrees(hash: Hash, r: Receipt, planDigest: Digest, store: Verification) {
    && store.Checked? && store.errors == []
    && r.digests.evidenceIndex == Some(hash(store.indexBytes))
    && IndexBinds(store.index, r, planDigest)
    && forall x :: x in r.results ==> ResultHolds(hash, store.index.artifacts, x)
  }

  /** Everything a verified receipt satisfies; `store` is the outcome of verifying the evidence, if one was given. */
  ghost predicate Accepts(hash: Hash, r: Receipt, plan: Plan, planDigest: Digest, signatureValid: bool,
      expectedKey: Option<JsString>, store: Option<Verification>)
  {
    && Printable(r, plan, planDigest)
    && BindsPlan(r, plan, planDigest)
    && ResultsBind(r, planDigest)
    && Reproduces(r, plan, planDigest)
    && SignatureAgrees(r, signatureValid, expectedKey)
    && (store.Some? ==> EvidenceAgrees(hash, r, planDigest, store.value))
  }

  // ---------- what is complained about ----------

  /** The errors of the members that pin the run. */
  ghost predicate BindingGives(r: Receipt, plan: Plan, planDigest: Digest, e: ReceiptError) {
    e == Replay && !BindsPlan(r, plan, planDigest)
  }

  ghost predicate ResultGives(r: Receipt, planDigest: Digest, x: CheckResult, e: ReceiptError) {
    e == ResultMutated(x.checkId) && (x.planDigest != planDigest || x.candidateId != r.candidate.id)
  }

  ghost predicate SignatureGives(r: Receipt, signatureValid: bool, expectedKey: Option<JsString>, e: ReceiptError) {
    e == SignatureInvalid && !SignatureAgrees(r, signatureValid, expectedKey)
  }

  /** The errors of a result's references and of its anchor. */
  ghost predicate AnchorGives(hash: Hash, artifacts: seq<Artifact>, x: CheckResult, e: ReceiptError) {
    || (exists ref :: ref in x.evidence && RefGives(artifacts, x.checkId, ref, e))
    || (e == AnchorMissing(x.checkId) && ArtifactNamed(artifacts, ANCHOR_PREFIX + x.checkId).None?)
    || (e == AnchorMutated(x.checkId) && ArtifactNamed(artifacts, ANCHOR_PREFIX + x.checkId).Some?
        && Some(ArtifactNamed(artifacts, ANCHOR_PREFIX + x.checkId).value.digest) != CanonicalDigest(hash, ResultJson(x)))
  }

  predicate RefGives(artifacts: seq<Artifact>, checkId: JsString, ref: EvidenceRef, e: ReceiptError) {
    var entry := ArtifactNamed(artifacts, ref.artifactId);
    if entry.None? then e == RefMissing(ref.artifactId)
    else e == RefMutated(ref.artifactId) && (entry.value.digest != ref.digest || entry.value.checkId != checkId)
  }

  predicate Usable(store: Verification) {
    store.Checked? && store.errors == []
  }

  /** The errors of the evidence that a store holds. */
  ghost predicate EvidenceGives(hash: Hash, r: Receipt, planDigest: Digest, store: Verification, e: ReceiptError) {
    if !store.Checked? then e == EvidenceUnusable
    else if store.errors != [] then e.EvidenceFault? && e.fault in store.errors
    else
      || (e == IndexMutated && r.digests.evidenceIndex != Some(hash(store.indexBytes)))
      || (e == Replay && !IndexBinds(store.index, r, planDigest))
      || (exists x :: x in r.results && AnchorGives(hash, store.index.artifacts, x, e))
  }

  /** Every error that the verification lists. */
  ghost predicate Complains(hash: Hash, r: Receipt, plan: Plan, planDigest: Digest, signatureValid: bool,
      expectedKey: Option<JsString>, store: Option<Verification>, e: ReceiptError)
  {
    || BindingGives(r, plan, planDigest, e)
    || (exists x :: x in r.results && ResultGives(r, planDigest, x, e))
    || (e == DispositionMismatch && !Reproduces(r, plan, planDigest))
    || SignatureGives(r, signatureValid, expectedKey, e)
    || (store.Some? && EvidenceGives(hash, r, planDigest, store.value, e))
  }

  /** The ceiling is no safe integer, or some result that is to be compared with its anchor cannot be printed. */
  ghost predicate EvidenceThrows(hash: Hash, r: Receipt, store: Verification) {
    || store.BadCeiling?
    || (Usable(store) && exists x :: x in r.results && CanonicalDigest(hash, ResultJson(x)).None?)
  }

  // ---------- the verifier ----------

  method BindingErrors(r: Receipt, plan: Plan, planDigest: Digest) returns (errors: seq<ReceiptError>)
    requires Printable(r, plan, planDigest)
    ensures forall e :: e in errors <==> BindingGives(r, plan, planDigest, e)
    ensures errors == [] <==> BindsPlan(r, plan, planDigest)
  {
    PinsCompareExactly(r.digests.packs, plan.sources.packs);
    DigestsCompareExactly(r.digests.capabilityIndex, plan.sources.capabilityIndex);
    hide AllReplay, ArrayOf, OptionalDigest, PinJson, SameCanonical;
    NoReplay();
    errors := ReplayIf(r.digests.compiledPlan != planDigest, []);
    errors := ReplayIf(r.repositoryId != plan.repositoryId, errors);
    errors := ReplayIf(r.baseCommit != plan.baseCommit, errors);
    errors := ReplayIf(r.candidate.kind != plan.candidate.kind || r.candidate.id != plan.candidate.id, errors);
    errors := ReplayIf(r.digests.workContract != plan.sources.workContract, errors);
    errors := ReplayIf(r.digests.profile != plan.sources.profile, errors);
    errors := ReplayIf(
      !SameCanonical(ArrayOf(PinJson, r.digests.packs), ArrayOf(PinJson, plan.sources.packs)).value, errors);
    errors := ReplayIf(
      !SameCanonical(OptionalDigest(r.digests.capabilityIndex), OptionalDigest(plan.sources.capabilityIndex)).value,
      errors);
    OnlyReplay(errors);
  }

  lemma NoReplay()
    ensures AllReplay([])
  {
  }

  ghost predicate AllReplay(errors: seq<ReceiptError>) {
    forall e :: e in errors ==> e == Replay
  }

  /** One more complaint about the run that a receipt is of, if two members differ. */
  function ReplayIf(differ: bool, errors: seq<ReceiptError>): (more: seq<ReceiptError>)
    requires AllReplay(errors)
    ensures AllReplay(more) && (more == [] <==> errors == [] && !differ)
  {
    if differ then errors + [Replay] else errors
  }

  lemma OnlyReplay(errors: seq<ReceiptError>)
    requires AllReplay(errors)
    ensures forall e :: e in errors <==> e == Replay && errors != []
  {
    if errors != [] { assert errors[0] in errors; }
  }

  method ResultErrors(r: Receipt, planDigest: Digest) returns (errors: seq<ReceiptError>)
    ensures forall e :: e in errors <==> exists x :: x in r.results && ResultGives(r, planDigest, x, e)
    ensures errors == [] <==> ResultsBind(r, planDigest)
  {
    errors := [];
    for k := 0 to |r.results|
      invariant forall e :: e in errors <==> exists x :: x in r.results[..k] && ResultGives(r, planDigest, x, e)
    {
      var x := r.results[k];
      assert r.results[..k + 1] == r.results[..k] + [x];
      var more := if x.planDigest != planDigest || x.candidateId != r.candidate.id then [ResultMutated(x.checkId)] else [];
      assert forall e :: e in more <==> ResultGives(r, planDigest, x, e);
      hide ResultGives;
      errors := errors + more;
    }
    assert r.results[..|r.results|] == r.results;
    ResultsDecide(r, planDigest, errors);
  }

  lemma ResultsDecide(r: Receipt, planDigest: Digest, errors: seq<ReceiptError>)
    requires forall e :: e in errors <==> exists x :: x in r.results && ResultGives(r, planDigest, x, e)
    ensures errors == [] <==> ResultsBind(r, planDigest)
  {
    if errors == [] {
      forall x | x in r.results ensures x.planDigest == planDigest && x.candidateId == r.candidate.id {
        assert !ResultGives(r, planDigest, x, ResultMutated(x.checkId)) by {
          assert ResultMutated(x.checkId) !in errors;
        }
      }
    } else {
      assert errors[0] in errors;
    }
  }

  method ReplayErrors(r: Receipt, plan: Plan, planDigest: Digest) returns (errors: seq<ReceiptError>)
    requires Printable(r, plan, planDigest)
    ensures forall e :: e in errors <==> e == DispositionMismatch && !Reproduces(r, plan, planDigest)
    ensures errors == [] <==> Reproduces(r, plan, planDigest)
  {
    errors := [];
    var reduced := ReduceDisposition(plan, planDigest, Supply(r.results));
    CodesCompareExactly(reduced.reasonCodes, r.reasonCodes);
    hide SameCanonical, Reduce, Strings;
    if reduced.disposition != r.disposition { errors := errors + [DispositionMismatch]; }
    if !SameCanonical(Strings(reduced.reasonCodes), Strings(r.reasonCodes)).value {
      errors := errors + [DispositionMismatch];
    }
    assert errors != [] ==> errors[0] == DispositionMismatch;
  }

  method SignatureErrors(r: Receipt, signatureValid: bool, expectedKey: Option<JsString>)
    returns (errors: seq<ReceiptError>)
    ensures forall e :: e in errors <==> SignatureGives(r, signatureValid, expectedKey, e)
    ensures errors == [] <==> SignatureAgrees(r, signatureValid, expectedKey)
  {
    errors := [];
    if r.signing.Some? {
      if !signatureValid { errors := errors + [SignatureInvalid]; }
      if expectedKey.Some? && r.signing.value.publicKey != expectedKey.value { errors := errors + [SignatureInvalid]; }
    } else if expectedKey.Some? {
      errors := errors + [SignatureInvalid];
    }
    assert errors != [] ==> errors[0] == SignatureInvalid;
  }

  /** The references and the anchor of one result. */
  method AnchorErrors(hash: Hash, artifacts: seq<Artifact>, x: CheckResult) returns (errors: seq<ReceiptError>)
    requires CanonicalDigest(hash, ResultJson(x)).Some?
    ensures forall e :: e in errors <==> AnchorGives(hash, artifacts, x, e)
    ensures errors == [] <==> ResultHolds(hash, artifacts, x)
  {
    hide CanonicalDigest, ResultJson, ArtifactNamed, RefGives;
    errors := [];
    for k := 0 to |x.evidence|
      invariant forall e :: e in errors <==> exists ref :: ref in x.evidence[..k] && RefGives(artifacts, x.checkId, ref, e)
    {
      var ref := x.evidence[k];
      assert x.evidence[..k + 1] == x.evidence[..k] + [ref];
      var more := RefErrors(artifacts, x.checkId, ref);
      errors := errors + more;
    }
    assert x.evidence[..|x.evidence|] == x.evidence;
    var anchor := ArtifactNamed(artifacts, ANCHOR_PREFIX + x.checkId);
    if anchor.None? {
      errors := errors + [AnchorMissing(x.checkId)];
    } else if anchor.value.digest != CanonicalDigest(hash, ResultJson(x)).value {
      errors := errors + [AnchorMutated(x.checkId)];
    }
    AnchorsDecide(hash, artifacts, x, errors);
  }

  method RefErrors(artifacts: seq<Artifact>, checkId: JsString, ref: EvidenceRef) returns (errors: seq<ReceiptError>)
    ensures forall e :: e in errors <==> RefGives(artifacts, checkId, ref, e)
  {
    hide ArtifactNamed;
    var entry := ArtifactNamed(artifacts, ref.artifactId);
    errors := [];
    if entry.None? {
      errors := [RefMissing(ref.artifactId)];
    } else if entry.value.digest != ref.digest || entry.value.checkId != checkId {
      errors := [RefMutated(ref.artifactId)];
    }
  }

  lemma AnchorsDecide(hash: Hash, artifacts: seq<Artifact>, x: CheckResult, errors: seq<ReceiptError>)
    requires forall e :: e in errors <==> AnchorGives(hash, artifacts, x, e)
    requires CanonicalDigest(hash, ResultJson(x)).Some?
    ensures errors == [] <==> ResultHolds(hash, artifacts, x)
  {
    hide CanonicalDigest, ResultJson, ArtifactNamed;
    if errors != [] { assert errors[0] in errors; }
    if errors == [] {
      forall ref | ref in x.evidence ensures RefHolds(artifacts, x.checkId, ref) {
        assert !RefGives(artifacts, x.checkId, ref, RefMissing(ref.artifactId)) by {
          assert RefMissing(ref.artifactId) !in errors;
        }
        assert !RefGives(artifacts, x.checkId, ref, RefMutated(ref.artifactId)) by {
          assert RefMutated(ref.artifactId) !in errors;
        }
      }
      assert AnchorMissing(x.checkId) !in errors && AnchorMutated(x.checkId) !in errors;
    }
  }

  /** The comparison with a verified store; None when it throws. */
  method EvidenceErrors(hash: Hash, r: Receipt, planDigest: Digest, store: Verification)
    returns (errors: Option<seq<ReceiptError>>)
    ensures errors.None? <==> EvidenceThrows(hash, r, store)
    ensures errors.Some? ==> forall e :: e in errors.value <==> EvidenceGives(hash, r, planDigest, store, e)
    ensures errors == Some([]) <==> EvidenceAgrees(hash, r, planDigest, store)
  {
    if store.BadCeiling? { return None; }
    if !store.Checked? { return Some([EvidenceUnusable]); }
    if store.errors != [] { return Some(Faults(store.errors)); }
    hide AnchorGives, CanonicalDigest, IndexBinds, ResultHolds, ResultJson;
    var found: seq<ReceiptError> := [];
    if r.digests.evidenceIndex != Some(hash(store.indexBytes)) { found := found + [IndexMutated]; }
    if !IndexBinds(store.index, r, planDigest) { found := found + [Replay]; }
    var anchored := ResultsAnchored(hash, r.results, store.index.artifacts);
    if anchored.None? { return None; }
    return Some(found + anchored.value);
  }

  /** The references and the anchors of all results; None when a result has no canonical form. */
  method ResultsAnchored(hash: Hash, results: seq<CheckResult>, artifacts: seq<Artifact>)
    returns (errors: Option<seq<ReceiptError>>)
    ensures errors.None? <==> exists x :: x in results && CanonicalDigest(hash, ResultJson(x)).None?
    ensures errors.Some? ==>
      forall e :: e in errors.value <==> exists x :: x in results && AnchorGives(hash, artifacts, x, e)
    ensures errors == Some([]) <==> forall x :: x in results ==> ResultHolds(hash, artifacts, x)
  {
    hide AnchorGives, CanonicalDigest, ResultHolds, ResultJson;
    var found: seq<ReceiptError> := [];
    for k := 0 to |results|
      invariant forall e :: e in found <==> exists x :: x in results[..k] && AnchorGives(hash, artifacts, x, e)
      invariant found == [] <==> forall x :: x in results[..k] ==> ResultHolds(hash, artifacts, x)
      invariant forall x :: x in results[..k] ==> CanonicalDigest(hash, ResultJson(x)).Some?
    {
      var x := results[k];
      assert results[..k + 1] == results[..k] + [x];
      if CanonicalDigest(hash, ResultJson(x)).None? {
        UnprintableIsUnanchored(hash, artifacts, x);
        return None;
      }
      var more := AnchorErrors(hash, artifacts, x);
      found := found + more;
    }
    assert results[..|results|] == results;
    return Some(found);
  }

  /** `errors.push(...evidence.errors)`. */
  function Faults(errors: seq<EvidenceError>): (faults: seq<ReceiptError>)
    ensures forall e :: e in faults <==> e.EvidenceFault? && e.fault in errors
    ensures |faults| == |errors|
  {
    var faults := seq(|errors|, k requires 0 <= k < |errors| => EvidenceFault(errors[k]));
    assert forall k :: 0 <= k < |errors| ==> faults[k] == EvidenceFault(errors[k]);
    faults
  }

  lemma UnprintableIsUnanchored(hash: Hash, artifacts: seq<Artifact>, x: CheckResult)
    requires CanonicalDigest(hash, ResultJson(x)).None?
    ensures !ResultHolds(hash, artifacts, x)
  {
  }

  /** `verifyReceipt` on a version 1 receipt and its plan. */
  method VerifyReceipt(hash: Hash, r: Receipt, plan: Plan, planDigest: Digest, signatureValid: bool,
      expectedKey: Option<JsString>, store: Option<Verification>)
    returns (v: Answer)
    ensures v == Failed <==>
      !Printable(r, plan, planDigest) || (store.Some? && EvidenceThrows(hash, r, store.value))
    ensures v.Answered? ==> forall e :: e in v.errors <==>
      Complains(hash, r, plan, planDigest, signatureValid, expectedKey, store, e)
    ensures v == Answered([]) <==> Accepts(hash, r, plan, planDigest, signatureValid, expectedKey, store)
  {
    hide ArrayOf, BindingGives, BindsPlan, EvidenceAgrees, EvidenceGives, EvidenceThrows, OptionalDigest, PinJson,
      Reduce, Reproduces, ResultGives, ResultsBind, SameCanonical, SignatureAgrees, SignatureGives, Strings, Supply;
    if SameCanonical(ArrayOf(PinJson, r.digests.packs), ArrayOf(PinJson, plan.sources.packs)).None? { return Failed; }
    if SameCanonical(OptionalDigest(r.digests.capabilityIndex), OptionalDigest(plan.sources.capabilityIndex)).None? {
      return Failed;
    }
    if SameCanonical(Strings(Reduce(plan, planDigest, Supply(r.results)).reasonCodes), Strings(r.reasonCodes)).None? {
      return Failed;
    }
    var bindings := BindingErrors(r, plan, planDigest);
    var results := ResultErrors(r, planDigest);
    var replay := ReplayErrors(r, plan, planDigest);
    var signature := SignatureErrors(r, signatureValid, expectedKey);
    var errors := bindings + results + replay + signature;
    if store.Some? {
      var evidence := EvidenceErrors(hash, r, planDigest, store.value);
      if evidence.None? {
        ThrowingIsRefused(hash, r, planDigest, store.value);
        return Failed;
      }
      errors := errors + evidence.value;
    }
    return Answered(errors);
  }

  lemma ThrowingIsRefused(hash: Hash, r: Receipt, planDigest: Digest, store: Verification)
    requires EvidenceThrows(hash, r, store)
    ensures !EvidenceAgrees(hash, r, planDigest, store)
  {
    if !store.BadCeiling? {
      var x :| x in r.results && CanonicalDigest(hash, ResultJson(x)).None?;
      UnprintableIsUnanchored(hash, store.index.artifacts, x);
      hide CanonicalDigest, ResultHolds, ResultJson;
    }
  }

  // ---------- what acceptance means ----------

  lemma {:induction false} ArtifactNamedIsMember(artifacts: seq<Artifact>, id: JsString)
    ensures match ArtifactNamed(artifacts, id)
            case Some(a) => a in artifacts && a.artifactId == id
            case None => forall a :: a in artifacts ==> a.artifactId != id
  {
    if artifacts != [] {
      var last := |artifacts| - 1;
      ArtifactNamedIsMember(artifacts[..last], id);
      assert artifacts == artifacts[..last] + [artifacts[last]];
    }
  }

  /** A PASS result of the check, bound to this plan and candidate, has a canonical form. */
  ghost predicate PassesFor(c: PlanCheck, plan: Plan, planDigest: Digest, x: CheckResult) {
    && x.checkId == c.checkId && x.packId == c.packId && x.effect == c.effect && x.outcome.Pass?
    && x.planDigest == planDigest && x.candidateId == plan.candidate.id
    && Canonicalize(ResultJson(x), CANONICAL_BOUNDS).Ok?
  }

  /** The object under the digest of some bytes is there, with that digest. */
  ghost predicate StoredFor(hash: Hash, entries: map<JsString, Entry>, bytes: Bytes) {
    && ObjectName(hash(bytes)) in entries && entries[ObjectName(hash(bytes))].RegularFile?
    && hash(entries[ObjectName(hash(bytes))].bytes) == hash(bytes)
  }

  /** The object under an anchored result's digest hashes to it. */
  lemma AnchoredBytesAreStored(hash: Hash, artifacts: seq<Artifact>, entries: map<JsString, Entry>, ceiling: nat,
      x: CheckResult)
    requires Matches(hash, artifacts, entries, ceiling) && Anchored(hash, artifacts, x)
    ensures Canonicalize(ResultJson(x), CANONICAL_BOUNDS).Ok?
    ensures StoredFor(hash, entries, CanonicalBytes(ResultJson(x)))
  {
    hide ResultJson, Canonicalize, Encode, TotalLength, ObjectName;
    ArtifactNamedIsMember(artifacts, ANCHOR_PREFIX + x.checkId);
    var a := ArtifactNamed(artifacts, ANCHOR_PREFIX + x.checkId).value;
    assert Intact(hash, entries, a);
  }

  lemma PassingResult(plan: Plan, planDigest: Digest, results: seq<CheckResult>, k: nat) returns (x: CheckResult)
    requires Reduce(plan, planDigest, Supply(results)).disposition.Promotable?
    requires k < |plan.checks| && Decides(plan.checks[k]) && DistinctCheckIds(plan.checks)
    ensures x in results && x.checkId == plan.checks[k].checkId && x.outcome.Pass?
    ensures x.packId == plan.checks[k].packId && x.effect == plan.checks[k].effect
    ensures x.planDigest == planDigest && x.candidateId == plan.candidate.id
  {
    PromotableExactly(plan, planDigest, Supply(results));
    hide Reduce;
    assert PassedBy(plan.checks[k], Supply(results));
    var m :| 0 <= m < |Supply(results)| && Supply(results)[m].Shaped?
      && Supply(results)[m].result.checkId == plan.checks[k].checkId && Supply(results)[m].result.outcome.Pass?;
    x := results[m];
    assert BoundResult(Supply(results)[m], plan, planDigest);
    CheckNamedFinds(plan.checks, k);
  }

  /**
   A receipt that verifies together with its evidence directory and says PROMOTABLE proves, for every deciding check
   of the plan, a PASS result bound to this plan and candidate, whose canonical bytes are the object in the store
   exactly when that object is not a collision with them.
   */
  lemma VerifiedPromotable(hash: Hash, r: Receipt, plan: Plan, planDigest: Digest, signatureValid: bool,
      expectedKey: Option<JsString>, store: Verification, decode: Bytes -> Option<IndexDoc>, dir: EvidenceDir,
      ceiling: nat, k: nat) returns (x: CheckResult)
    requires DistinctCheckIds(plan.checks)
    requires Accepts(hash, r, plan, planDigest, signatureValid, expectedKey, Some(store))
    requires r.disposition.Promotable?
    requires Describes(hash, decode, dir, ceiling) && decode(dir.indexFile.value) == Some(store.index)
    requires k < |plan.checks| && Decides(plan.checks[k])
    ensures x in r.results && PassesFor(plan.checks[k], plan, planDigest, x)
    ensures var bytes := CanonicalBytes(ResultJson(x));
      && StoredFor(hash, dir.entries, bytes)
      && (var stored := dir.entries[ObjectName(hash(bytes))].bytes;
          stored == bytes <==> !Collides(hash, stored, bytes))
  {
    x := PassingResult(plan, planDigest, r.results, k);
    hide Reduce, Printable, Matches;
    assert ResultHolds(hash, store.index.artifacts, x);
    AnchoredBytesAreStored(hash, store.index.artifacts, dir.entries, ceiling, x);
  }

  /** No result other than the proven one has those bytes: what is stored identifies the result. */
  lemma StoredBytesIdentifyResult(x: CheckResult, y: CheckResult)
    requires Canonicalize(ResultJson(x), CANONICAL_BOUNDS).Ok? && Canonicalize(ResultJson(y), CANONICAL_BOUNDS).Ok?
    requires CanonicalBytes(ResultJson(x)) == CanonicalBytes(ResultJson(y))
    ensures x == y
  {
    CanonicalBytesAreInjective(ResultJson(x), ResultJson(y), CANONICAL_BOUNDS);
    ResultJsonIsInjective();
  }
}
