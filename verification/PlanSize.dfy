/** Which plans pass the plan schema's counts and have a canonical form: what each one costs, check by check. */
module PlanSize {
  import opened Base
  import opened Text
  import opened Json
  import opened CanonicalJson
  import opened RoundTrip
  import opened Normalization
  import opened Subvalues
  import opened MemberNames
  import opened Records
  import opened Plan
  import opened Documents
  import opened PrintCost
  import opened IndexSize

  // ---------- validators ----------

  function ValidatorCost(v: Validator): nat {
    match v
    case Builtin(id) => 31 + StringCost(id)
    case TargetCommand(argv, manifest) => 50 + ArrayCost(argv, StringCost) + ArrayCost(manifest, StringCost)
  }

  predicate ValidatorOk(v: Validator) {
    match v
    case Builtin(id) => TextOk(id)
    case TargetCommand(argv, manifest) => StringsOk(argv) && StringsOk(manifest)
  }

  /** A list of strings that the printer prints. */
  predicate StringsOk(xs: seq<JsString>) {
    |xs| <= CANONICAL_BOUNDS.maxArrayItems && TextsOk(xs)
  }

  lemma StringsExact(xs: seq<JsString>, depth: nat)
    requires depth < CANONICAL_BOUNDS.maxDepth
    ensures CanonCost(Strings(xs)) == ArrayCost(xs, StringCost)
    ensures Acceptable(Strings(xs), depth, CANONICAL_BOUNDS) <==> StringsOk(xs)
  {
    StringArray(xs, depth);
    hide CanonCost, Acceptable, Strings, ArrayCost, TextsOk;
  }

  lemma BuiltinNames(id: JsString)
    ensures PlainNames(ValidatorFields(Builtin(id))) && DistinctNames(ValidatorFields(Builtin(id)))
  {
    hide IsName, Tag, DistinctNames;
    MemberNamesArePlain();
    NameTags();
    RisingNamesAreDistinct(ValidatorFields(Builtin(id)));
  }

  lemma BuiltinParts(id: JsString, depth: nat)
    requires depth < CANONICAL_BOUNDS.maxDepth
    ensures CanonCost(ValidatorJson(Builtin(id))) == 22
      + CanonCost(Str(BUILTIN_KIND)) + CanonCost(Str(id))
    ensures Acceptable(ValidatorJson(Builtin(id)), depth, CANONICAL_BOUNDS) <==>
      && Acceptable(Str(BUILTIN_KIND), depth + 1, CANONICAL_BOUNDS)
      && Acceptable(Str(id), depth + 1, CANONICAL_BOUNDS)
  {
    assert |K_KIND| == 4 && |K_BUILTIN_ID| == 9;
    hide K_KIND, K_BUILTIN_ID, PlainNames, DistinctNames, Record, CanonCost, Acceptable;
    BuiltinNames(id);
    RecordParts(ValidatorFields(Builtin(id)), 2, depth);
  }

  lemma CommandNames(argv: seq<JsString>, manifest: seq<JsString>)
    ensures PlainNames(ValidatorFields(TargetCommand(argv, manifest)))
    ensures DistinctNames(ValidatorFields(TargetCommand(argv, manifest)))
  {
    hide IsName, Tag, DistinctNames, Strings;
    MemberNamesArePlain();
    NameTags();
    RisingNamesAreDistinct(ValidatorFields(TargetCommand(argv, manifest)));
  }

  lemma CommandParts(argv: seq<JsString>, manifest: seq<JsString>, depth: nat)
    requires depth < CANONICAL_BOUNDS.maxDepth
    ensures CanonCost(ValidatorJson(TargetCommand(argv, manifest))) == 34
      + CanonCost(Str(TARGET_KIND)) + CanonCost(Strings(argv)) + CanonCost(Strings(manifest))
    ensures Acceptable(ValidatorJson(TargetCommand(argv, manifest)), depth, CANONICAL_BOUNDS) <==>
      && Acceptable(Str(TARGET_KIND), depth + 1, CANONICAL_BOUNDS)
      && Acceptable(Strings(argv), depth + 1, CANONICAL_BOUNDS)
      && Acceptable(Strings(manifest), depth + 1, CANONICAL_BOUNDS)
  {
    assert |K_KIND| == 4 && |K_ARGV| == 4 && |K_INPUT_MANIFEST| == 13;
    hide K_KIND, K_ARGV, K_INPUT_MANIFEST, PlainNames, DistinctNames, Record, CanonCost, Acceptable, Strings;
    CommandNames(argv, manifest);
    RecordParts(ValidatorFields(TargetCommand(argv, manifest)), 3, depth);
  }

  lemma KindsArePlain()
    ensures IsName(BUILTIN_KIND, 7) && IsName(TARGET_KIND, 14)
  {
  }

  lemma KindCosts()
    ensures StringCost(BUILTIN_KIND) == 9 && TextOk(BUILTIN_KIND)
    ensures StringCost(TARGET_KIND) == 16 && TextOk(TARGET_KIND)
  {
    KindsArePlain();
    hide BUILTIN_KIND, TARGET_KIND, IsPlain, StringCost, WellFormed;
    PlainCost(BUILTIN_KIND);
    PlainCost(TARGET_KIND);
  }

  lemma ValidatorExact(v: Validator, depth: nat)
    requires depth + 1 < CANONICAL_BOUNDS.maxDepth
    ensures CanonCost(ValidatorJson(v)) == ValidatorCost(v)
    ensures Acceptable(ValidatorJson(v), depth, CANONICAL_BOUNDS) <==> ValidatorOk(v)
  {
    KindCosts();
    hide BUILTIN_KIND, TARGET_KIND, ValidatorJson, CanonCost, StringCost, TextOk, StringsOk, Acceptable, Strings, ArrayCost;
    TextExact(BUILTIN_KIND, depth + 1);
    TextExact(TARGET_KIND, depth + 1);
    match v {
      case Builtin(id) =>
        BuiltinParts(id, depth);
        TextExact(id, depth + 1);
      case TargetCommand(argv, manifest) =>
        CommandParts(argv, manifest, depth);
        StringsExact(argv, depth + 1);
        StringsExact(manifest, depth + 1);
    }
  }

  // ---------- checks ----------

  function CheckCost(x: PlanCheck): nat {
    187 + StringCost(PhaseName(x.phase)) + StringCost(x.packId) + ArrayCost(x.settings.inputs, StringCost)
    + StringCost(EffectName(x.effect)) + StringCost(x.checkId) + StringCost(x.settings.network)
    + ArrayCost(x.dependsOn, StringCost) + ValidatorCost(x.validator) + StringCost(x.settings.filesystem)
    + StringCost(x.packVersion) + ArrayCost(x.settings.envAllowlist, StringCost)
    + StringCost(x.settings.outputSchemaId) + StringCost(ConsumerName(x.consumer)) + |Decimal(x.settings.timeoutSeconds)|
  }

  predicate CheckOk(x: PlanCheck) {
    && TextOk(x.packId) && StringsOk(x.settings.inputs) && TextOk(x.checkId) && TextOk(x.settings.network)
    && StringsOk(x.dependsOn) && ValidatorOk(x.validator) && TextOk(x.settings.filesystem) && TextOk(x.packVersion)
    && StringsOk(x.settings.envAllowlist) && TextOk(x.settings.outputSchemaId)
    && IsSafeInteger(x.settings.timeoutSeconds)
  }

  lemma PlanCheckNames(x: PlanCheck)
    ensures PlainNames(PlanCheckFields(x)) && DistinctNames(PlanCheckFields(x))
  {
    hide IsName, Tag, DistinctNames, Strings, ValidatorJson, PhaseName, EffectName, ConsumerName;
    MemberNamesArePlain();
    NameTags();
    RisingNamesAreDistinct(PlanCheckFields(x));
  }

  lemma PlanCheckCostParts(x: PlanCheck)
    ensures CanonCost(PlanCheckJson(x)) == 187
      + CanonCost(Str(PhaseName(x.phase))) + CanonCost(Str(x.packId)) + CanonCost(Strings(x.settings.inputs))
      + CanonCost(Str(EffectName(x.effect))) + CanonCost(Str(x.checkId)) + CanonCost(Str(x.settings.network))
      + CanonCost(Strings(x.dependsOn)) + CanonCost(ValidatorJson(x.validator))
      + CanonCost(Str(x.settings.filesystem)) + CanonCost(Str(x.packVersion))
      + CanonCost(Strings(x.settings.envAllowlist)) + CanonCost(Str(x.settings.outputSchemaId))
      + CanonCost(Str(ConsumerName(x.consumer))) + CanonCost(Num(x.settings.timeoutSeconds))
  {
    assert |K_PHASE| == 5 && |K_PACK_ID| == 6 && |K_INPUTS| == 6 && |K_EFFECT| == 6 && |K_CHECK_ID| == 7 &&
      |K_NETWORK| == 7 && |K_DEPENDS_ON| == 9 && |K_VALIDATOR| == 9 && |K_FILESYSTEM| == 10 && |K_PACK_VERSION| ==
      11 && |K_ENV_ALLOWLIST| == 12 && |K_OUTPUT_SCHEMA_ID| == 14 && |K_RESULT_CONSUMER| == 14 &&
      |K_TIMEOUT_SECONDS| == 14;
    hide K_PHASE, K_PACK_ID, K_INPUTS, K_EFFECT, K_CHECK_ID, K_NETWORK, K_DEPENDS_ON, K_VALIDATOR, K_FILESYSTEM,
      K_PACK_VERSION, K_ENV_ALLOWLIST, K_OUTPUT_SCHEMA_ID, K_RESULT_CONSUMER, K_TIMEOUT_SECONDS, PlainNames,
      DistinctNames, Record, CanonCost, Acceptable, OkUpTo, Strings, ValidatorJson, PhaseName, EffectName, ConsumerName;
    PlanCheckNames(x);
    var fields := PlanCheckFields(x);
    assert |fields| == 14;
    RecordParts(fields, 14, 1);
    assert CostUpTo(fields, 5) == 50
      + CanonCost(Str(PhaseName(x.phase))) + CanonCost(Str(x.packId)) + CanonCost(Strings(x.settings.inputs))
      + CanonCost(Str(EffectName(x.effect))) + CanonCost(Str(x.checkId));
    assert CostUpTo(fields, 10) == CostUpTo(fields, 5) + 66
      + CanonCost(Str(x.settings.network)) + CanonCost(Strings(x.dependsOn)) + CanonCost(ValidatorJson(x.validator))
      + CanonCost(Str(x.settings.filesystem)) + CanonCost(Str(x.packVersion));
  }

  /** The values of the first ten of its fourteen members. */
  lemma FirstMembersOk(x: PlanCheck, depth: nat)
    ensures |PlanCheckFields(x)| == 14
    ensures OkUpTo(PlanCheckFields(x), 10, depth) <==>
      && Acceptable(Str(PhaseName(x.phase)), depth, CANONICAL_BOUNDS)
      && Acceptable(Str(x.packId), depth, CANONICAL_BOUNDS)
      && Acceptable(Strings(x.settings.inputs), depth, CANONICAL_BOUNDS)
      && Acceptable(Str(EffectName(x.effect)), depth, CANONICAL_BOUNDS)
      && Acceptable(Str(x.checkId), depth, CANONICAL_BOUNDS)
      && Acceptable(Str(x.settings.network), depth, CANONICAL_BOUNDS)
      && Acceptable(Strings(x.dependsOn), depth, CANONICAL_BOUNDS)
      && Acceptable(ValidatorJson(x.validator), depth, CANONICAL_BOUNDS)
      && Acceptable(Str(x.settings.filesystem), depth, CANONICAL_BOUNDS)
      && Acceptable(Str(x.packVersion), depth, CANONICAL_BOUNDS)
  {
    hide K_PHASE, K_PACK_ID, K_INPUTS, K_EFFECT, K_CHECK_ID, K_NETWORK, K_DEPENDS_ON, K_VALIDATOR, K_FILESYSTEM,
      K_PACK_VERSION, K_ENV_ALLOWLIST, K_OUTPUT_SCHEMA_ID, K_RESULT_CONSUMER, K_TIMEOUT_SECONDS, Acceptable, Strings,
      ValidatorJson, PhaseName, EffectName, ConsumerName;
  }

  lemma PlanCheckOkParts(x: PlanCheck, depth: nat)
    requires depth < CANONICAL_BOUNDS.maxDepth
    ensures Acceptable(PlanCheckJson(x), depth, CANONICAL_BOUNDS) <==>
      && Acceptable(Str(PhaseName(x.phase)), depth + 1, CANONICAL_BOUNDS)
      && Acceptable(Str(x.packId), depth + 1, CANONICAL_BOUNDS)
      && Acceptable(Strings(x.settings.inputs), depth + 1, CANONICAL_BOUNDS)
      && Acceptable(Str(EffectName(x.effect)), depth + 1, CANONICAL_BOUNDS)
      && Acceptable(Str(x.checkId), depth + 1, CANONICAL_BOUNDS)
      && Acceptable(Str(x.settings.network), depth + 1, CANONICAL_BOUNDS)
      && Acceptable(Strings(x.dependsOn), depth + 1, CANONICAL_BOUNDS)
      && Acceptable(ValidatorJson(x.validator), depth + 1, CANONICAL_BOUNDS)
      && Acceptable(Str(x.settings.filesystem), depth + 1, CANONICAL_BOUNDS)
      && Acceptable(Str(x.packVersion), depth + 1, CANONICAL_BOUNDS)
      && Acceptable(Strings(x.settings.envAllowlist), depth + 1, CANONICAL_BOUNDS)
      && Acceptable(Str(x.settings.outputSchemaId), depth + 1, CANONICAL_BOUNDS)
      && Acceptable(Str(ConsumerName(x.consumer)), depth + 1, CANONICAL_BOUNDS)
      && Acceptable(Num(x.settings.timeoutSeconds), depth + 1, CANONICAL_BOUNDS)
  {
    hide K_PHASE, K_PACK_ID, K_INPUTS, K_EFFECT, K_CHECK_ID, K_NETWORK, K_DEPENDS_ON, K_VALIDATOR, K_FILESYSTEM,
      K_PACK_VERSION, K_ENV_ALLOWLIST, K_OUTPUT_SCHEMA_ID, K_RESULT_CONSUMER, K_TIMEOUT_SECONDS, PlainNames,
      DistinctNames, Record, CanonCost, Acceptable, CostUpTo, Strings, ValidatorJson, PhaseName, EffectName, ConsumerName;
    PlanCheckNames(x);
    var fields := PlanCheckFields(x);
    assert |fields| == 14;
    RecordParts(fields, 14, depth);
    FirstMembersOk(x, depth + 1);
  }

  lemma FirstPhaseIsPlain()
    ensures IsPlain(PhaseName(ContractAdmission)) && |PhaseName(ContractAdmission)| <= 32
  {
  }

  lemma SecondPhaseIsPlain()
    ensures IsPlain(PhaseName(CandidateValidation)) && |PhaseName(CandidateValidation)| <= 32
  {
  }

  lemma ThirdPhaseIsPlain()
    ensures IsPlain(PhaseName(PromotionFinalization)) && |PhaseName(PromotionFinalization)| <= 32
  {
  }

  lemma PhasesArePlain(p: Phase)
    ensures IsPlain(PhaseName(p)) && |PhaseName(p)| <= 32
  {
    hide PhaseName, IsPlain;
    FirstPhaseIsPlain();
    SecondPhaseIsPlain();
    ThirdPhaseIsPlain();
  }

  lemma WordsArePlain(e: Effect, c: Consumer)
    ensures IsPlain(EffectName(e)) && |EffectName(e)| <= 32 && IsPlain(ConsumerName(c)) && |ConsumerName(c)| <= 32
  {
  }

  lemma WordsOk(p: Phase, e: Effect, c: Consumer)
    ensures TextOk(PhaseName(p)) && TextOk(EffectName(e)) && TextOk(ConsumerName(c))
  {
    PhasesArePlain(p);
    WordsArePlain(e, c);
    hide PhaseName, EffectName, ConsumerName, IsPlain, StringCost, WellFormed;
    PlainCost(PhaseName(p));
    PlainCost(EffectName(e));
    PlainCost(ConsumerName(c));
  }

  lemma CheckExact(x: PlanCheck, depth: nat)
    requires depth + 2 < CANONICAL_BOUNDS.maxDepth
    ensures CanonCost(PlanCheckJson(x)) == CheckCost(x)
    ensures Acceptable(PlanCheckJson(x), depth, CANONICAL_BOUNDS) <==> CheckOk(x)
  {
    WordsOk(x.phase, x.effect, x.consumer);
    hide PhaseName, EffectName, ConsumerName, PlanCheckJson, ValidatorJson, ValidatorOk, ValidatorCost, CanonCost,
      StringCost, TextOk, StringsOk, Acceptable, Strings, ArrayCost, IsSafeInteger, Decimal;
    PlanCheckCostParts(x);
    PlanCheckOkParts(x, depth);
    TextExact(PhaseName(x.phase), depth + 1);
    TextExact(x.packId, depth + 1);
    TextExact(EffectName(x.effect), depth + 1);
    TextExact(x.checkId, depth + 1);
    TextExact(x.settings.network, depth + 1);
    TextExact(x.settings.filesystem, depth + 1);
    TextExact(x.packVersion, depth + 1);
    TextExact(x.settings.outputSchemaId, depth + 1);
    TextExact(ConsumerName(x.consumer), depth + 1);
    StringsExact(x.settings.inputs, depth + 1);
    StringsExact(x.dependsOn, depth + 1);
    StringsExact(x.settings.envAllowlist, depth + 1);
    ValidatorExact(x.validator, depth + 1);
    NumberExact(x.settings.timeoutSeconds, depth + 1);
  }

  lemma ChecksExact(checks: seq<PlanCheck>, depth: nat)
    requires depth + 3 < CANONICAL_BOUNDS.maxDepth
    ensures CanonCost(ArrayOf(PlanCheckJson, checks)) == ArrayCost(checks, CheckCost)
    ensures Acceptable(ArrayOf(PlanCheckJson, checks), depth, CANONICAL_BOUNDS) <==>
      |checks| <= CANONICAL_BOUNDS.maxArrayItems && forall x :: x in checks ==> CheckOk(x)
  {
    hide PlanCheckJson, CheckCost, CheckOk, CanonCost, ArrayOf;
    forall x ensures CanonCost(PlanCheckJson(x)) == CheckCost(x)
                     && (Acceptable(PlanCheckJson(x), depth + 1, CANONICAL_BOUNDS) <==> CheckOk(x)) {
      CheckExact(x, depth + 1);
    }
    CostOfArray(PlanCheckJson, checks, CheckCost);
    PrintableArray(PlanCheckJson, checks, depth, CANONICAL_BOUNDS);
    hide Acceptable, ArrayCost;
  }

  // ---------- candidates and sources ----------

  function CandidateCost(x: Candidate): nat {
    15 + StringCost(x.id) + StringCost(x.kind)
  }

  lemma CandidateNames(x: Candidate)
    ensures PlainNames(CandidateFields(x)) && DistinctNames(CandidateFields(x))
  {
    hide IsName, Tag, DistinctNames;
    MemberNamesArePlain();
    NameTags();
    RisingNamesAreDistinct(CandidateFields(x));
  }

  lemma CandidateParts(x: Candidate, depth: nat)
    requires depth < CANONICAL_BOUNDS.maxDepth
    ensures CanonCost(CandidateJson(x)) == 15
      + CanonCost(Str(x.id)) + CanonCost(Str(x.kind))
    ensures Acceptable(CandidateJson(x), depth, CANONICAL_BOUNDS) <==>
      && Acceptable(Str(x.id), depth + 1, CANONICAL_BOUNDS) && Acceptable(Str(x.kind), depth + 1, CANONICAL_BOUNDS)
  {
    assert |K_ID| == 2 && |K_KIND| == 4;
    hide K_ID, K_KIND, PlainNames, DistinctNames, Record, CanonCost, Acceptable;
    CandidateNames(x);
    RecordParts(CandidateFields(x), 2, depth);
  }

  lemma CandidateExact(x: Candidate, depth: nat)
    requires depth < CANONICAL_BOUNDS.maxDepth
    ensures CanonCost(CandidateJson(x)) == CandidateCost(x)
    ensures Acceptable(CandidateJson(x), depth, CANONICAL_BOUNDS) <==> TextOk(x.id) && TextOk(x.kind)
  {
    hide CandidateJson, CanonCost, StringCost, TextOk, Acceptable;
    CandidateParts(x, depth);
    TextExact(x.id, depth + 1);
    TextExact(x.kind, depth + 1);
  }

  function SourcesCost(x: SourceDigests): nat {
    56 + ArrayCost(x.packs, PinCost) + StringCost(x.profile) + StringCost(x.workContract)
    + if x.capabilityIndex.Some? then StringCost(x.capabilityIndex.value) else 4
  }

  predicate SourcesOk(x: SourceDigests) {
    && |x.packs| <= CANONICAL_BOUNDS.maxArrayItems && (forall p :: p in x.packs ==> PinOk(p))
    && TextOk(x.profile) && TextOk(x.workContract)
    && (x.capabilityIndex.Some? ==> TextOk(x.capabilityIndex.value))
  }

  lemma SourcesNames(x: SourceDigests)
    ensures PlainNames(SourcesFields(x)) && DistinctNames(SourcesFields(x))
  {
    hide IsName, Tag, DistinctNames, ArrayOf, PinJson, OptionalDigest;
    MemberNamesArePlain();
    NameTags();
    RisingNamesAreDistinct(SourcesFields(x));
  }

  lemma SourcesParts(x: SourceDigests, depth: nat)
    requires depth < CANONICAL_BOUNDS.maxDepth
    ensures CanonCost(SourcesJson(x)) == 56
      + CanonCost(ArrayOf(PinJson, x.packs)) + CanonCost(Str(x.profile)) + CanonCost(Str(x.workContract))
      + CanonCost(OptionalDigest(x.capabilityIndex))
    ensures Acceptable(SourcesJson(x), depth, CANONICAL_BOUNDS) <==>
      && Acceptable(ArrayOf(PinJson, x.packs), depth + 1, CANONICAL_BOUNDS)
      && Acceptable(Str(x.profile), depth + 1, CANONICAL_BOUNDS)
      && Acceptable(Str(x.workContract), depth + 1, CANONICAL_BOUNDS)
      && Acceptable(OptionalDigest(x.capabilityIndex), depth + 1, CANONICAL_BOUNDS)
  {
    assert |K_PACKS| == 5 && |K_PROFILE| == 7 && |K_WORK_CONTRACT| == 12 && |K_CAPABILITY_INDEX| == 15;
    hide K_PACKS, K_PROFILE, K_WORK_CONTRACT, K_CAPABILITY_INDEX, PlainNames, DistinctNames, Record, CanonCost,
      Acceptable, ArrayOf, PinJson, OptionalDigest;
    SourcesNames(x);
    RecordParts(SourcesFields(x), 4, depth);
  }

  lemma OptionalExact(d: Option<Digest>, depth: nat)
    requires depth <= CANONICAL_BOUNDS.maxDepth
    ensures CanonCost(OptionalDigest(d)) == if d.Some? then StringCost(d.value) else 4
    ensures Acceptable(OptionalDigest(d), depth, CANONICAL_BOUNDS) <==> (d.Some? ==> TextOk(d.value))
  {
    if d.Some? { TextExact(d.value, depth); } else { CostOfNull(); }
    hide CanonCost, StringCost;
  }

  lemma SourcesExact(x: SourceDigests, depth: nat)
    requires depth + 2 < CANONICAL_BOUNDS.maxDepth
    ensures CanonCost(SourcesJson(x)) == SourcesCost(x)
    ensures Acceptable(SourcesJson(x), depth, CANONICAL_BOUNDS) <==> SourcesOk(x)
  {
    hide SourcesJson, PinJson, PinOk, PinCost, CanonCost, StringCost, TextOk, Acceptable, ArrayOf, ArrayCost,
      OptionalDigest;
    SourcesParts(x, depth);
    PinsExact(x.packs, depth + 1);
    TextExact(x.profile, depth + 1);
    TextExact(x.workContract, depth + 1);
    OptionalExact(x.capabilityIndex, depth + 1);
  }

  // ---------- plans ----------

  /** The bytes of a plan's canonical form. */
  function PlanCost(x: Plan): nat {
    142 + ArrayCost(x.checks, CheckCost) + StringCost(x.profileId) + CandidateCost(x.candidate)
    + StringCost(x.baseCommit) + StringCost(x.repositoryId) + StringCost(x.kernelRelease) + SourcesCost(x.sources)
  }

  /** Every member of the plan is within the printer's bounds on strings, numbers and arrays. */
  predicate PlanMembersOk(x: Plan) {
    && |x.checks| <= CANONICAL_BOUNDS.maxArrayItems && (forall c :: c in x.checks ==> CheckOk(c))
    && TextOk(x.profileId) && TextOk(x.candidate.id) && TextOk(x.candidate.kind) && TextOk(x.baseCommit)
    && TextOk(x.repositoryId) && TextOk(x.kernelRelease) && SourcesOk(x.sources)
  }

  /** What a plan needs to be printed: printable members, and a mebibyte for all of them. */
  predicate PlanPrints(x: Plan) {
    PlanMembersOk(x) && PlanCost(x) <= CANONICAL_BOUNDS.maxDocumentBytes
  }

  lemma PlanNames(x: Plan)
    ensures PlainNames(PlanFields(x)) && DistinctNames(PlanFields(x))
  {
    hide IsName, Tag, DistinctNames, ArrayOf, PlanCheckJson, CandidateJson, SourcesJson;
    MemberNamesArePlain();
    NameTags();
    RisingNamesAreDistinct(PlanFields(x));
  }

  lemma PlanParts(x: Plan, depth: nat)
    requires depth < CANONICAL_BOUNDS.maxDepth
    ensures CanonCost(PlanJson(x)) == 118
      + CanonCost(ArrayOf(PlanCheckJson, x.checks)) + CanonCost(Str(x.profileId))
      + CanonCost(CandidateJson(x.candidate)) + CanonCost(Str(x.baseCommit)) + CanonCost(Str(x.repositoryId))
      + CanonCost(Str(x.kernelRelease)) + CanonCost(Str(PLAN_SCHEMA)) + CanonCost(SourcesJson(x.sources))
    ensures Acceptable(PlanJson(x), depth, CANONICAL_BOUNDS) <==>
      && Acceptable(ArrayOf(PlanCheckJson, x.checks), depth + 1, CANONICAL_BOUNDS)
      && Acceptable(Str(x.profileId), depth + 1, CANONICAL_BOUNDS)
      && Acceptable(CandidateJson(x.candidate), depth + 1, CANONICAL_BOUNDS)
      && Acceptable(Str(x.baseCommit), depth + 1, CANONICAL_BOUNDS)
      && Acceptable(Str(x.repositoryId), depth + 1, CANONICAL_BOUNDS)
      && Acceptable(Str(x.kernelRelease), depth + 1, CANONICAL_BOUNDS)
      && Acceptable(Str(PLAN_SCHEMA), depth + 1, CANONICAL_BOUNDS)
      && Acceptable(SourcesJson(x.sources), depth + 1, CANONICAL_BOUNDS)
  {
    assert |K_CHECKS| == 6 && |K_PROFILE_ID| == 9 && |K_CANDIDATE| == 9 && |K_BASE_COMMIT| == 10 &&
      |K_REPOSITORY_ID| == 12 && |K_KERNEL_RELEASE| == 13 && |K_SCHEMA_VERSION| == 13 && |K_SOURCE_DIGESTS| == 13;
    hide K_CHECKS, K_PROFILE_ID, K_CANDIDATE, K_BASE_COMMIT, K_REPOSITORY_ID, K_KERNEL_RELEASE, K_SCHEMA_VERSION,
      K_SOURCE_DIGESTS, PlainNames, DistinctNames, Record, CanonCost, Acceptable, ArrayOf, PlanCheckJson,
      CandidateJson, SourcesJson;
    PlanNames(x);
    RecordParts(PlanFields(x), 8, depth);
  }

  lemma PlanSchemaCost()
    ensures StringCost(PLAN_SCHEMA) == 24 && TextOk(PLAN_SCHEMA)
  {
    PlainCost(PLAN_SCHEMA);
  }

  lemma PlanExact(x: Plan)
    ensures CanonCost(PlanJson(x)) == PlanCost(x)
    ensures Acceptable(PlanJson(x), 1, CANONICAL_BOUNDS) <==> PlanMembersOk(x)
  {
    PlanSchemaCost();
    hide PLAN_SCHEMA, PlanJson, PlanCheckJson, CheckOk, CheckCost, CandidateJson, CandidateCost, SourcesJson, SourcesOk,
      SourcesCost, CanonCost, StringCost, TextOk, Acceptable, ArrayOf, ArrayCost;
    PlanParts(x, 1);
    ChecksExact(x.checks, 2);
    TextExact(x.profileId, 2);
    CandidateExact(x.candidate, 2);
    TextExact(x.baseCommit, 2);
    TextExact(x.repositoryId, 2);
    TextExact(x.kernelRelease, 2);
    TextExact(PLAN_SCHEMA, 2);
    SourcesExact(x.sources, 2);
  }

  /** A plan has a canonical form exactly when it fits the printer's bounds. */
  lemma PlanPrintsExactly(x: Plan)
    ensures Canonicalize(PlanJson(x), CANONICAL_BOUNDS).Ok? <==> PlanPrints(x)
  {
    CanonicalFormExact(PlanJson(x), CANONICAL_BOUNDS);
    PlanExact(x);
    hide PlanJson, CanonCost, Acceptable, Canonicalize, PlanCost, PlanMembersOk;
  }

  // ---------- the plan schema ----------

  const MAX_PLAN_CHECKS := 4_096
  const MAX_PLAN_PACKS := 128
  const MAX_DEPENDS_ON := 4_096

  /** The counts that compiled-policy-plan@1 asks of the lists a compiler builds itself. */
  predicate PlanCounts(x: Plan) {
    && 1 <= |x.checks| <= MAX_PLAN_CHECKS
    && 1 <= |x.sources.packs| <= MAX_PLAN_PACKS
    && forall c :: c in x.checks ==> |c.dependsOn| <= MAX_DEPENDS_ON
  }

  /** A plan that its schema admits and the printer prints. */
  predicate PlanFits(x: Plan) {
    PlanCounts(x) && PlanPrints(x)
  }

  /** Plans that differ in the order of their checks and pins only. */
  ghost predicate SameButOrder(x: Plan, y: Plan) {
    && multiset(x.checks) == multiset(y.checks)
    && multiset(x.sources.packs) == multiset(y.sources.packs)
    && x.(checks := [], sources := x.sources.(packs := [])) == y.(checks := [], sources := y.sources.(packs := []))
  }

  /** Neither order changes whether the plan fits. */
  lemma FitIgnoresOrder(x: Plan, y: Plan)
    requires SameButOrder(x, y)
    ensures PlanFits(x) <==> PlanFits(y)
  {
    hide CheckCost, CheckOk, PinCost, PinOk, TextOk, StringCost, CandidateCost;
    SameSize(x.checks, y.checks);
    SameSize(x.sources.packs, y.sources.packs);
    ArrayCostIgnoresOrder(x.checks, y.checks, CheckCost);
    ArrayCostIgnoresOrder(x.sources.packs, y.sources.packs, PinCost);
    hide ArrayCost;
  }

  lemma SameSize<T>(xs: seq<T>, ys: seq<T>)
    requires multiset(xs) == multiset(ys)
    ensures |xs| == |ys| && forall x :: x in xs <==> x in ys
  {
    assert |xs| == |multiset(xs)| == |ys|;
    forall x ensures x in xs <==> x in ys {
      assert x in xs <==> x in multiset(xs);
      assert x in ys <==> x in multiset(ys);
    }
  }
}
