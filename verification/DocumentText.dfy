/** The documents member by member: every name, word and value of a result, plan, index, control and census entry. */
module DocumentText {
  import opened Base
  import opened Json
  import opened Records
  import opened MemberNames
  import opened Plan
  import opened Documents
  import opened EvidenceDocument
  import opened Census
  import opened Activation

  // ---------- objects and arrays ----------

  /** The value is an object with exactly these members. */
  ghost predicate IsObjectOf(j: Json, fields: seq<Field>) {
    && j.Obj?
    && (forall k :: k in j.members <==> exists i :: 0 <= i < |fields| && fields[i].name == k)
    && forall i :: 0 <= i < |fields| ==> fields[i].name in j.members && j.members[fields[i].name] == fields[i].value
  }

  ghost predicate IsArrayOf<T>(j: Json, xs: seq<T>, fits: (Json, T) -> bool) {
    j.Arr? && |j.items| == |xs| && forall i :: 0 <= i < |xs| ==> fits(j.items[i], xs[i])
  }

  ghost predicate IsStrings(j: Json, xs: seq<JsString>) {
    j.Arr? && |j.items| == |xs| && forall i :: 0 <= i < |xs| ==> j.items[i] == Str(xs[i])
  }

  lemma RecordIsObject(fields: seq<Field>)
    requires DistinctNames(fields)
    ensures IsObjectOf(Record(fields), fields)
  {
    FieldNames(fields);
    FieldLookUp(fields);
  }

  lemma StringsAre(xs: seq<JsString>)
    ensures IsStrings(Strings(xs), xs)
  {
    forall i | 0 <= i < |xs| ensures Strings(xs).items[i] == Str(xs[i]) {
      assert Strings(xs).items[i] == StringJson(xs[i]);
    }
  }

  lemma ArrayIs<T(!new)>(f: T -> Json, xs: seq<T>, fits: (Json, T) -> bool)
    requires forall x :: x in xs ==> fits(f(x), x)
    ensures IsArrayOf(ArrayOf(f, xs), xs, fits)
  {
  }

  // ---------- words ----------

  lemma WordsAreNamed()
    ensures PhaseName(ContractAdmission) == Ascii("CONTRACT_ADMISSION")
    ensures PhaseName(CandidateValidation) == Ascii("CANDIDATE_VALIDATION")
    ensures PhaseName(PromotionFinalization) == Ascii("PROMOTION_FINALIZATION")
    ensures EffectName(Effect.Blocking) == Ascii("BLOCKING") && EffectName(Effect.Advisory) == Ascii("ADVISORY")
    ensures ConsumerName(DispositionReducer) == Ascii("DISPOSITION_REDUCER")
    ensures ConsumerName(EvidenceOnly) == Ascii("EVIDENCE_ONLY")
    ensures OutcomeName(Pass) == Ascii("PASS") && OutcomeName(Fired) == Ascii("FIRED")
    ensures OutcomeName(InfraFailure) == Ascii("INFRA_FAILURE") && OutcomeName(Skipped) == Ascii("SKIPPED")
  {
  }

  /** The phases in the order they run. */
  lemma PhasesInOrder()
    ensures PhaseIndex(ContractAdmission) == 0 && PhaseIndex(CandidateValidation) == 1
    ensures PhaseIndex(PromotionFinalization) == 2
  {
  }

  // ---------- check-result@1 ----------

  ghost predicate IsRef(j: Json, x: EvidenceRef) {
    IsObjectOf(j, [Field(Ascii("digest"), Str(x.digest)), Field(Ascii("artifactId"), Str(x.artifactId))])
  }

  lemma RefIsObject(x: EvidenceRef)
    ensures IsRef(RefJson(x), x)
  {
    hide IsObjectOf, Record, Tag;
    NameTags();
    RisingNamesAreDistinct(RefFields(x));
    RecordIsObject(RefFields(x));
    assert RefFields(x) == [Field(Ascii("digest"), Str(x.digest)), Field(Ascii("artifactId"), Str(x.artifactId))];
  }

  /** A check-result@1 document. */
  ghost predicate IsResult(j: Json, x: CheckResult) {
    exists evidence, codes ::
      && IsArrayOf(evidence, x.evidence, IsRef) && IsStrings(codes, x.reasonCodes)
      && IsObjectOf(j, [
           Field(Ascii("packId"), Str(x.packId)),
           Field(Ascii("effect"), Str(EffectName(x.effect))),
           Field(Ascii("checkId"), Str(x.checkId)),
           Field(Ascii("outcome"), Str(OutcomeName(x.outcome))),
           Field(Ascii("evidence"), evidence),
           Field(Ascii("startedAt"), Str(x.startedAt)),
           Field(Ascii("planDigest"), Str(x.planDigest)),
           Field(Ascii("candidateId"), Str(x.candidateId)),
           Field(Ascii("reasonCodes"), codes),
           Field(Ascii("completedAt"), Str(x.completedAt)),
           Field(Ascii("schemaVersion"), Str(Ascii("check-result@1")))])
  }

  lemma ResultIsObject(x: CheckResult)
    ensures IsResult(ResultJson(x), x)
  {
    hide ArrayOf, IsObjectOf, IsRef, OutcomeName, Record, RefJson, Strings, Tag, EffectName;
    NameTags();
    RisingNamesAreDistinct(ResultFields(x));
    RecordIsObject(ResultFields(x));
    forall r | r in x.evidence ensures IsRef(RefJson(r), r) { RefIsObject(r); }
    ArrayIs(RefJson, x.evidence, IsRef);
    StringsAre(x.reasonCodes);
    hide IsArrayOf, IsStrings;
  }

  // ---------- compiled-policy-plan@1 ----------

  ghost predicate IsPin(j: Json, x: PackPin) {
    IsObjectOf(j, [
      Field(Ascii("packId"), Str(x.packId)), Field(Ascii("digest"), Str(x.digest)),
      Field(Ascii("version"), Str(x.version))])
  }

  lemma PinIsObject(x: PackPin)
    ensures IsPin(PinJson(x), x)
  {
    hide IsObjectOf, Record, Tag;
    NameTags();
    RisingNamesAreDistinct(PinFields(x));
    RecordIsObject(PinFields(x));
  }

  lemma PinsAre(xs: seq<PackPin>)
    ensures IsArrayOf(ArrayOf(PinJson, xs), xs, IsPin)
  {
    hide IsPin, PinJson;
    forall x | x in xs ensures IsPin(PinJson(x), x) { PinIsObject(x); }
    ArrayIs(PinJson, xs, IsPin);
  }

  ghost predicate IsCandidate(j: Json, x: Candidate) {
    IsObjectOf(j, [Field(Ascii("id"), Str(x.id)), Field(Ascii("kind"), Str(x.kind))])
  }

  lemma CandidateIsObject(x: Candidate)
    ensures IsCandidate(CandidateJson(x), x)
  {
    hide IsObjectOf, Record, Tag;
    NameTags();
    RisingNamesAreDistinct(CandidateFields(x));
    RecordIsObject(CandidateFields(x));
  }

  ghost predicate IsValidator(j: Json, v: Validator) {
    match v
    case Builtin(id) => IsObjectOf(j, [Field(Ascii("kind"), Str(Ascii("BUILTIN"))), Field(Ascii("builtinId"), Str(id))])
    case TargetCommand(argv, manifest) =>
      exists arguments, paths ::
        && IsStrings(arguments, argv) && IsStrings(paths, manifest)
        && IsObjectOf(j, [
             Field(Ascii("kind"), Str(Ascii("TARGET_COMMAND"))), Field(Ascii("argv"), arguments),
             Field(Ascii("inputManifest"), paths)])
  }

  lemma ValidatorIsObject(v: Validator)
    ensures IsValidator(ValidatorJson(v), v)
  {
    hide IsObjectOf, Record, Strings, Tag, FieldMap;
    NameTags();
    ValidatorLookUp(v);
    RisingNamesAreDistinct(ValidatorFields(v));
    RecordIsObject(ValidatorFields(v));
    if v.TargetCommand? {
      StringsAre(v.argv);
      StringsAre(v.inputManifest);
    }
  }

  function CheckHead(x: PlanCheck, inputs: Json, dependsOn: Json): seq<Field> {
    [ Field(Ascii("phase"), Str(PhaseName(x.phase))),
      Field(Ascii("packId"), Str(x.packId)),
      Field(Ascii("inputs"), inputs),
      Field(Ascii("effect"), Str(EffectName(x.effect))),
      Field(Ascii("checkId"), Str(x.checkId)),
      Field(Ascii("network"), Str(x.settings.network)),
      Field(Ascii("dependsOn"), dependsOn) ]
  }

  function CheckTail(x: PlanCheck, validator: Json, allowlist: Json): seq<Field> {
    [ Field(Ascii("validator"), validator),
      Field(Ascii("filesystem"), Str(x.settings.filesystem)),
      Field(Ascii("packVersion"), Str(x.packVersion)),
      Field(Ascii("envAllowlist"), allowlist),
      Field(Ascii("outputSchemaId"), Str(x.settings.outputSchemaId)),
      Field(Ascii("resultConsumer"), Str(ConsumerName(x.consumer))),
      Field(Ascii("timeoutSeconds"), Num(x.settings.timeoutSeconds)) ]
  }

  ghost predicate IsPlanCheck(j: Json, x: PlanCheck) {
    exists inputs, dependsOn, allowlist, validator ::
      && IsStrings(inputs, x.settings.inputs) && IsStrings(dependsOn, x.dependsOn)
      && IsStrings(allowlist, x.settings.envAllowlist) && IsValidator(validator, x.validator)
      && IsObjectOf(j, CheckHead(x, inputs, dependsOn) + CheckTail(x, validator, allowlist))
  }

  lemma PlanCheckIsObject(x: PlanCheck)
    ensures IsPlanCheck(PlanCheckJson(x), x)
  {
    hide ArrayOf, ConsumerName, EffectName, IsObjectOf, IsStrings, IsValidator, PhaseName, Record, Strings, Tag,
      ValidatorJson;
    NameTags();
    RisingNamesAreDistinct(PlanCheckFields(x));
    RecordIsObject(PlanCheckFields(x));
    StringsAre(x.settings.inputs);
    StringsAre(x.dependsOn);
    StringsAre(x.settings.envAllowlist);
    ValidatorIsObject(x.validator);
    var inputs, dependsOn := Strings(x.settings.inputs), Strings(x.dependsOn);
    var validator, allowlist := ValidatorJson(x.validator), Strings(x.settings.envAllowlist);
    assert PlanCheckFields(x) == CheckHead(x, inputs, dependsOn) + CheckTail(x, validator, allowlist);
  }

  lemma PlanChecksAre(xs: seq<PlanCheck>)
    ensures IsArrayOf(ArrayOf(PlanCheckJson, xs), xs, IsPlanCheck)
  {
    hide IsPlanCheck, PlanCheckJson;
    forall x | x in xs ensures IsPlanCheck(PlanCheckJson(x), x) { PlanCheckIsObject(x); }
    ArrayIs(PlanCheckJson, xs, IsPlanCheck);
  }

  ghost predicate IsSources(j: Json, x: SourceDigests) {
    exists packs ::
      && IsArrayOf(packs, x.packs, IsPin)
      && IsObjectOf(j, [
           Field(Ascii("packs"), packs), Field(Ascii("profile"), Str(x.profile)),
           Field(Ascii("workContract"), Str(x.workContract)),
           Field(Ascii("capabilityIndex"), if x.capabilityIndex.Some? then Str(x.capabilityIndex.value) else Null)])
  }

  lemma SourcesAreObject(x: SourceDigests)
    ensures IsSources(SourcesJson(x), x)
  {
    hide ArrayOf, IsArrayOf, IsObjectOf, Record, Tag;
    NameTags();
    RisingNamesAreDistinct(SourcesFields(x));
    RecordIsObject(SourcesFields(x));
    PinsAre(x.packs);
  }

  /** A compiled-policy-plan@1 document. */
  ghost predicate IsPlanDocument(j: Json, x: Plan) {
    exists checks, candidate, sources ::
      && IsArrayOf(checks, x.checks, IsPlanCheck) && IsCandidate(candidate, x.candidate) && IsSources(sources, x.sources)
      && IsObjectOf(j, [
           Field(Ascii("checks"), checks),
           Field(Ascii("profileId"), Str(x.profileId)),
           Field(Ascii("candidate"), candidate),
           Field(Ascii("baseCommit"), Str(x.baseCommit)),
           Field(Ascii("repositoryId"), Str(x.repositoryId)),
           Field(Ascii("kernelRelease"), Str(x.kernelRelease)),
           Field(Ascii("schemaVersion"), Str(Ascii("compiled-policy-plan@1"))),
           Field(Ascii("sourceDigests"), sources)])
  }

  lemma PlanIsObject(x: Plan)
    ensures IsPlanDocument(PlanJson(x), x)
  {
    hide ArrayOf, CandidateJson, IsArrayOf, IsCandidate, IsObjectOf, IsSources, PlanCheckJson, Record, SourcesJson, Tag;
    NameTags();
    RisingNamesAreDistinct(PlanFields(x));
    RecordIsObject(PlanFields(x));
    PlanChecksAre(x.checks);
    CandidateIsObject(x.candidate);
    SourcesAreObject(x.sources);
  }

  // ---------- evidence-index@1 ----------

  ghost predicate IsArtifact(j: Json, x: Artifact) {
    IsObjectOf(j, [
      Field(Ascii("digest"), Str(x.digest)), Field(Ascii("checkId"), Str(x.checkId)),
      Field(Ascii("mediaType"), Str(x.mediaType)), Field(Ascii("artifactId"), Str(x.artifactId)),
      Field(Ascii("byteLength"), Num(x.byteLength)), Field(Ascii("validatorId"), Str(x.validatorId))])
  }

  lemma ArtifactIsObject(x: Artifact)
    ensures IsArtifact(ArtifactJson(x), x)
  {
    hide IsObjectOf, Record, Tag;
    NameTags();
    RisingNamesAreDistinct(ArtifactFields(x));
    RecordIsObject(ArtifactFields(x));
  }

  lemma ArtifactsAre(xs: seq<Artifact>)
    ensures IsArrayOf(ArrayOf(ArtifactJson, xs), xs, IsArtifact)
  {
    hide ArtifactJson, IsArtifact;
    forall x | x in xs ensures IsArtifact(ArtifactJson(x), x) { ArtifactIsObject(x); }
    ArrayIs(ArtifactJson, xs, IsArtifact);
  }

  ghost predicate IsBinding(j: Json, x: Binding) {
    exists packs ::
      && IsArrayOf(packs, x.packs, IsPin)
      && IsObjectOf(j, [
           Field(Ascii("packs"), packs),
           Field(Ascii("profile"), Str(x.profile)),
           Field(Ascii("baseCommit"), Str(x.baseCommit)),
           Field(Ascii("candidateId"), Str(x.candidateId)),
           Field(Ascii("repositoryId"), Str(x.repositoryId)),
           Field(Ascii("compiledPlan"), Str(x.compiledPlan)),
           Field(Ascii("workContract"), Str(x.workContract))])
  }

  lemma BindingIsObject(x: Binding)
    ensures IsBinding(BindingJson(x), x)
  {
    hide ArrayOf, IsArrayOf, IsObjectOf, Record, Tag;
    NameTags();
    RisingNamesAreDistinct(BindingFields(x));
    RecordIsObject(BindingFields(x));
    PinsAre(x.packs);
  }

  /** An evidence-index@1 document. */
  ghost predicate IsIndex(j: Json, x: IndexDoc) {
    exists binding, artifacts ::
      && IsBinding(binding, x.binding) && IsArrayOf(artifacts, x.artifacts, IsArtifact)
      && IsObjectOf(j, [
           Field(Ascii("binding"), binding), Field(Ascii("artifacts"), artifacts),
           Field(Ascii("schemaVersion"), Str(Ascii("evidence-index@1")))])
  }

  lemma IndexIsObject(x: IndexDoc)
    ensures IsIndex(IndexJson(x), x)
  {
    hide ArrayOf, ArtifactJson, BindingJson, IsArrayOf, IsBinding, IsObjectOf, Record, Tag;
    NameTags();
    RisingNamesAreDistinct(IndexFields(x));
    RecordIsObject(IndexFields(x));
    BindingIsObject(x.binding);
    ArtifactsAre(x.artifacts);
  }

  // ---------- controls and census entries ----------

  function ControlHead(x: Control): seq<Field> {
    [ Field(Ascii("phase"), Str(PhaseName(x.phase))),
      Field(Ascii("schema"), Str(Ascii("activation-fingerprint@1"))),
      Field(Ascii("packId"), Str(x.packId)),
      Field(Ascii("effect"), Str(EffectName(x.effect))),
      Field(Ascii("checkId"), Str(x.checkId)),
      Field(Ascii("packDigest"), Str(x.packDigest)) ]
  }

  function ControlTail(x: Control): seq<Field> {
    [ Field(Ascii("validatorId"), Str(x.validatorId)),
      Field(Ascii("packVersion"), Str(x.packVersion)),
      Field(Ascii("kernelRelease"), Str(x.kernelRelease)),
      Field(Ascii("reducerRelease"), Str(Ascii("reducer-release-bound-to-kernel-release"))),
      Field(Ascii("resultConsumer"), Str(ConsumerName(x.consumer))),
      Field(Ascii("validatorDigest"), Str(x.validatorDigest)) ]
  }

  /** What an activation fingerprint is the canonical form of. */
  ghost predicate IsControl(j: Json, x: Control) {
    IsObjectOf(j, ControlHead(x) + ControlTail(x))
  }

  lemma ControlIsObject(x: Control)
    ensures IsControl(ControlJson(x), x)
  {
    hide ConsumerName, EffectName, IsObjectOf, PhaseName, Record, Tag;
    NameTags();
    RisingNamesAreDistinct(ControlFields(x));
    RecordIsObject(ControlFields(x));
    assert ControlFields(x) == ControlHead(x) + ControlTail(x);
  }

  /** What a census key is the canonical form of. */
  ghost predicate IsEntry(j: Json, x: Entry) {
    IsObjectOf(j, [
      Field(Ascii("id"), Str(x.id)), Field(Ascii("phase"), Str(x.phase)), Field(Ascii("effect"), Str(x.effect)),
      Field(Ascii("validatorId"), Str(x.validatorId)), Field(Ascii("resultConsumer"), Str(x.consumer))])
  }

  lemma EntryIsObject(x: Entry)
    ensures IsEntry(EntryJson(x), x)
  {
    hide IsObjectOf, Record, Tag;
    NameTags();
    RisingNamesAreDistinct(EntryFields(x));
    RecordIsObject(EntryFields(x));
  }
}
