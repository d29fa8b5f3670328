/** The JSON documents that get canonicalized and digested, and why each one determines what it was made from. */
module Documents {
  import opened Base
  import opened Text
  import opened Json
  import opened CanonicalJson
  import opened CanonicalTheorems
  import opened MemberNames
  import opened Records
  import opened Plan

  /** `digestOfCanonical`, when the value has a canonical form. */
  function CanonicalDigest(h: Hash, v: Json): Option<Digest> {
    match Canonicalize(v, CANONICAL_BOUNDS)
    case Err(_) => None
    case Ok(text) => Some(h(Encode(text)))
  }

  /** The bytes that `digestOfCanonical` digests. */
  function CanonicalBytes(v: Json): Bytes
    requires Canonicalize(v, CANONICAL_BOUNDS).Ok?
  {
    Encode(Canonicalize(v, CANONICAL_BOUNDS).value)
  }

  /** A digest of a canonical form identifies the value, unless the canonical bytes are a collision of the hash. */
  lemma CanonicalDigestIsInjective(h: Hash, v: Json, w: Json)
    requires CanonicalDigest(h, v).Some? && CanonicalDigest(h, v) == CanonicalDigest(h, w)
    ensures v == w <==> !Collides(h, CanonicalBytes(v), CanonicalBytes(w))
  {
    CanonicalBytesAreInjective(v, w, CANONICAL_BOUNDS);
  }

  // ---------- member names ----------

  ghost predicate TagsRise(fields: seq<Field>) {
    forall i :: 0 <= i < |fields| - 1 ==> Tag(fields[i].name) < Tag(fields[i + 1].name)
  }

  lemma {:induction false} LaterTagsAreGreater(fields: seq<Field>, i: nat, j: nat)
    requires TagsRise(fields) && i < j < |fields|
    ensures Tag(fields[i].name) < Tag(fields[j].name)
  {
    assert Tag(fields[j - 1].name) < Tag(fields[j - 1 + 1].name);
    if i < j - 1 { LaterTagsAreGreater(fields, i, j - 1); }
  }

  lemma RisingNamesAreDistinct(fields: seq<Field>)
    requires TagsRise(fields)
    ensures DistinctNames(fields)
  {
    forall i, j | 0 <= i < j < |fields| ensures fields[i].name != fields[j].name {
      LaterTagsAreGreater(fields, i, j);
    }
  }

  /** A record whose names are told apart by their tags determines its members. */
  lemma TaggedRecordsAreInjective(a: seq<Field>, b: seq<Field>)
    requires TagsRise(a) && SameNames(a, b) && Record(a) == Record(b)
    ensures a == b
  {
    RisingNamesAreDistinct(a);
    RecordsAreInjective(a, b);
  }

  // ---------- arrays ----------

  function ArrayOf<T>(f: T -> Json, xs: seq<T>): Json {
    Arr(seq(|xs|, i requires 0 <= i < |xs| => f(xs[i])))
  }

  lemma ArrayOfIsInjective<T(!new)>(f: T -> Json, xs: seq<T>, ys: seq<T>)
    requires forall x, y :: f(x) == f(y) ==> x == y
    requires ArrayOf(f, xs) == ArrayOf(f, ys)
    ensures xs == ys
  {
    assert |ArrayOf(f, xs).items| == |ArrayOf(f, ys).items|;
    forall i | 0 <= i < |xs| ensures xs[i] == ys[i] {
      assert ArrayOf(f, xs).items[i] == ArrayOf(f, ys).items[i];
    }
  }

  function StringJson(s: JsString): Json {
    Str(s)
  }

  function Strings(xs: seq<JsString>): Json {
    ArrayOf(StringJson, xs)
  }

  lemma StringsAreInjective(xs: seq<JsString>, ys: seq<JsString>)
    requires Strings(xs) == Strings(ys)
    ensures xs == ys
  {
    ArrayOfIsInjective(StringJson, xs, ys);
  }

  // ---------- closed vocabularies ----------

  function PhaseName(p: Phase): JsString {
    match p
    case ContractAdmission => Ascii("CONTRACT_ADMISSION")
    case CandidateValidation => Ascii("CANDIDATE_VALIDATION")
    case PromotionFinalization => Ascii("PROMOTION_FINALIZATION")
  }

  function EffectName(e: Effect): JsString {
    match e
    case Blocking => Ascii("BLOCKING")
    case Advisory => Ascii("ADVISORY")
  }

  function ConsumerName(c: Consumer): JsString {
    match c
    case DispositionReducer => Ascii("DISPOSITION_REDUCER")
    case EvidenceOnly => Ascii("EVIDENCE_ONLY")
  }

  function OutcomeName(o: Outcome): JsString {
    match o
    case Pass => Ascii("PASS")
    case Fired => Ascii("FIRED")
    case InfraFailure => Ascii("INFRA_FAILURE")
    case Skipped => Ascii("SKIPPED")
  }

  lemma NamesAreDistinct()
    ensures forall p, q :: PhaseName(p) == PhaseName(q) ==> p == q
    ensures forall e, f :: EffectName(e) == EffectName(f) ==> e == f
    ensures forall c, d :: ConsumerName(c) == ConsumerName(d) ==> c == d
    ensures forall o, p :: OutcomeName(o) == OutcomeName(p) ==> o == p
  {
    assert |PhaseName(ContractAdmission)| == 18 && |PhaseName(CandidateValidation)| == 20;
    assert |PhaseName(PromotionFinalization)| == 22;
    assert EffectName(Blocking)[0] != EffectName(Advisory)[0];
    assert |ConsumerName(DispositionReducer)| == 19 && |ConsumerName(EvidenceOnly)| == 13;
    assert |OutcomeName(Pass)| == 4 && |OutcomeName(Fired)| == 5;
    assert |OutcomeName(InfraFailure)| == 13 && |OutcomeName(Skipped)| == 7;
  }

  // ---------- check-result@1 ----------

  function RefFields(x: EvidenceRef): seq<Field> {
    [ Field(K_DIGEST, Str(x.digest)),
      Field(K_ARTIFACT_ID, Str(x.artifactId)) ]
  }

  function RefJson(x: EvidenceRef): Json {
    Record(RefFields(x))
  }

  lemma RefFieldsAgree(x: EvidenceRef, y: EvidenceRef)
    requires RefJson(x) == RefJson(y)
    ensures RefFields(x) == RefFields(y)
  {
    hide Record, Tag;
    NameTags();
    TaggedRecordsAreInjective(RefFields(x), RefFields(y));
  }

  lemma RefJsonIsInjective()
    ensures forall x, y :: RefJson(x) == RefJson(y) ==> x == y
  {
    forall x, y | RefJson(x) == RefJson(y) ensures x == y {
      RefFieldsAgree(x, y);
      var a, b := RefFields(x), RefFields(y);
      assert a[0] == b[0] && a[1] == b[1];
    }
  }

  const RESULT_SCHEMA: JsString := Ascii("check-result@1")

  /** A check-result@1 document. */
  function ResultFields(x: CheckResult): seq<Field> {
    [ Field(K_PACK_ID, Str(x.packId)),
      Field(K_EFFECT, Str(EffectName(x.effect))),
      Field(K_CHECK_ID, Str(x.checkId)),
      Field(K_OUTCOME, Str(OutcomeName(x.outcome))),
      Field(K_EVIDENCE, ArrayOf(RefJson, x.evidence)),
      Field(K_STARTED_AT, Str(x.startedAt)),
      Field(K_PLAN_DIGEST, Str(x.planDigest)),
      Field(K_CANDIDATE_ID, Str(x.candidateId)),
      Field(K_REASON_CODES, Strings(x.reasonCodes)),
      Field(K_COMPLETED_AT, Str(x.completedAt)),
      Field(K_SCHEMA_VERSION, Str(RESULT_SCHEMA)) ]
  }

  function ResultJson(x: CheckResult): Json {
    Record(ResultFields(x))
  }

  lemma ResultFieldsAgree(x: CheckResult, y: CheckResult)
    requires ResultJson(x) == ResultJson(y)
    ensures ResultFields(x) == ResultFields(y)
  {
    hide ArrayOf, EffectName, OutcomeName, Record, RefJson, Strings, Tag;
    NameTags();
    TaggedRecordsAreInjective(ResultFields(x), ResultFields(y));
  }

  lemma ResultJsonIsInjective()
    ensures forall x, y :: ResultJson(x) == ResultJson(y) ==> x == y
  {
    NamesAreDistinct();
    RefJsonIsInjective();
    forall x, y | ResultJson(x) == ResultJson(y) ensures x == y {
      ResultFieldsAgree(x, y);
      var a, b := ResultFields(x), ResultFields(y);
      assert a[0] == b[0] && a[1] == b[1] && a[2] == b[2] && a[3] == b[3] && a[4] == b[4] && a[5] == b[5]
        && a[6] == b[6] && a[7] == b[7] && a[8] == b[8] && a[9] == b[9] && a[10] == b[10];
      StringsAreInjective(x.reasonCodes, y.reasonCodes);
      ArrayOfIsInjective(RefJson, x.evidence, y.evidence);
    }
  }

  // ---------- compiled-policy-plan@1 ----------

  function CandidateFields(x: Candidate): seq<Field> {
    [ Field(K_ID, Str(x.id)),
      Field(K_KIND, Str(x.kind)) ]
  }

  function CandidateJson(x: Candidate): Json {
    Record(CandidateFields(x))
  }

  lemma CandidateFieldsAgree(x: Candidate, y: Candidate)
    requires CandidateJson(x) == CandidateJson(y)
    ensures CandidateFields(x) == CandidateFields(y)
  {
    hide Record, Tag;
    NameTags();
    TaggedRecordsAreInjective(CandidateFields(x), CandidateFields(y));
  }

  lemma CandidateJsonIsInjective()
    ensures forall x, y :: CandidateJson(x) == CandidateJson(y) ==> x == y
  {
    forall x, y | CandidateJson(x) == CandidateJson(y) ensures x == y {
      CandidateFieldsAgree(x, y);
      var a, b := CandidateFields(x), CandidateFields(y);
      assert a[0] == b[0] && a[1] == b[1];
    }
  }

  function PinFields(x: PackPin): seq<Field> {
    [ Field(K_PACK_ID, Str(x.packId)),
      Field(K_DIGEST, Str(x.digest)),
      Field(K_VERSION, Str(x.version)) ]
  }

  function PinJson(x: PackPin): Json {
    Record(PinFields(x))
  }

  lemma PinFieldsAgree(x: PackPin, y: PackPin)
    requires PinJson(x) == PinJson(y)
    ensures PinFields(x) == PinFields(y)
  {
    hide Record, Tag;
    NameTags();
    TaggedRecordsAreInjective(PinFields(x), PinFields(y));
  }

  lemma PinJsonIsInjective()
    ensures forall x, y :: PinJson(x) == PinJson(y) ==> x == y
  {
    forall x, y | PinJson(x) == PinJson(y) ensures x == y {
      PinFieldsAgree(x, y);
      var a, b := PinFields(x), PinFields(y);
      assert a[0] == b[0] && a[1] == b[1] && a[2] == b[2];
    }
  }

  function OptionalDigest(d: Option<Digest>): Json {
    if d.Some? then Str(d.value) else Null
  }

  function SourcesFields(x: SourceDigests): seq<Field> {
    [ Field(K_PACKS, ArrayOf(PinJson, x.packs)),
      Field(K_PROFILE, Str(x.profile)),
      Field(K_WORK_CONTRACT, Str(x.workContract)),
      Field(K_CAPABILITY_INDEX, OptionalDigest(x.capabilityIndex)) ]
  }

  function SourcesJson(x: SourceDigests): Json {
    Record(SourcesFields(x))
  }

  lemma SourcesFieldsAgree(x: SourceDigests, y: SourceDigests)
    requires SourcesJson(x) == SourcesJson(y)
    ensures SourcesFields(x) == SourcesFields(y)
  {
    hide ArrayOf, OptionalDigest, PinJson, Record, Tag;
    NameTags();
    TaggedRecordsAreInjective(SourcesFields(x), SourcesFields(y));
  }

  lemma SourcesJsonIsInjective()
    ensures forall x, y :: SourcesJson(x) == SourcesJson(y) ==> x == y
  {
    PinJsonIsInjective();
    forall x, y | SourcesJson(x) == SourcesJson(y) ensures x == y {
      SourcesFieldsAgree(x, y);
      var a, b := SourcesFields(x), SourcesFields(y);
      assert a[0] == b[0] && a[1] == b[1] && a[2] == b[2] && a[3] == b[3];
      ArrayOfIsInjective(PinJson, x.packs, y.packs);
    }
  }

  const BUILTIN_KIND: JsString := Ascii("BUILTIN")
  const TARGET_KIND: JsString := Ascii("TARGET_COMMAND")

  function ValidatorFields(v: Validator): seq<Field> {
    match v
    case Builtin(id) => [Field(K_KIND, Str(BUILTIN_KIND)), Field(K_BUILTIN_ID, Str(id))]
    case TargetCommand(argv, inputManifest) =>
      [ Field(K_KIND, Str(TARGET_KIND)),
        Field(K_ARGV, Strings(argv)),
        Field(K_INPUT_MANIFEST, Strings(inputManifest)) ]
  }

  function ValidatorJson(v: Validator): Json {
    Record(ValidatorFields(v))
  }

  lemma ValidatorLookUp(v: Validator)
    ensures TagsRise(ValidatorFields(v))
    ensures var m := FieldMap(ValidatorFields(v));
            K_KIND in m && m[K_KIND] == Str(if v.Builtin? then BUILTIN_KIND else TARGET_KIND)
  {
    NameTags();
    hide Tag;
    RisingNamesAreDistinct(ValidatorFields(v));
    FieldLookUp(ValidatorFields(v));
    assert ValidatorFields(v)[0].name == K_KIND;
  }

  lemma ValidatorJsonIsInjective()
    ensures forall x, y :: ValidatorJson(x) == ValidatorJson(y) ==> x == y
  {
    assert |BUILTIN_KIND| == 7 && |TARGET_KIND| == 14;
    forall x, y | ValidatorJson(x) == ValidatorJson(y) ensures x == y {
      ValidatorLookUp(x);
      ValidatorLookUp(y);
      hide FieldMap, Tag, Strings;
      assert x.Builtin? <==> y.Builtin?;
      TaggedRecordsAreInjective(ValidatorFields(x), ValidatorFields(y));
      var a, b := ValidatorFields(x), ValidatorFields(y);
      assert a[1] == b[1];
      if x.TargetCommand? {
        assert a[2] == b[2];
        StringsAreInjective(x.argv, y.argv);
        StringsAreInjective(x.inputManifest, y.inputManifest);
      }
    }
  }

  function PlanCheckFields(x: PlanCheck): seq<Field> {
    [ Field(K_PHASE, Str(PhaseName(x.phase))),
      Field(K_PACK_ID, Str(x.packId)),
      Field(K_INPUTS, Strings(x.settings.inputs)),
      Field(K_EFFECT, Str(EffectName(x.effect))),
      Field(K_CHECK_ID, Str(x.checkId)),
      Field(K_NETWORK, Str(x.settings.network)),
      Field(K_DEPENDS_ON, Strings(x.dependsOn)),
      Field(K_VALIDATOR, ValidatorJson(x.validator)),
      Field(K_FILESYSTEM, Str(x.settings.filesystem)),
      Field(K_PACK_VERSION, Str(x.packVersion)),
      Field(K_ENV_ALLOWLIST, Strings(x.settings.envAllowlist)),
      Field(K_OUTPUT_SCHEMA_ID, Str(x.settings.outputSchemaId)),
      Field(K_RESULT_CONSUMER, Str(ConsumerName(x.consumer))),
      Field(K_TIMEOUT_SECONDS, Num(x.settings.timeoutSeconds)) ]
  }

  function PlanCheckJson(x: PlanCheck): Json {
    Record(PlanCheckFields(x))
  }

  lemma PlanCheckFieldsAgree(x: PlanCheck, y: PlanCheck)
    requires PlanCheckJson(x) == PlanCheckJson(y)
    ensures PlanCheckFields(x) == PlanCheckFields(y)
  {
    hide ConsumerName, EffectName, PhaseName, Record, Strings, Tag, ValidatorJson;
    NameTags();
    TaggedRecordsAreInjective(PlanCheckFields(x), PlanCheckFields(y));
  }

  lemma PlanCheckJsonIsInjective()
    ensures forall x, y :: PlanCheckJson(x) == PlanCheckJson(y) ==> x == y
  {
    NamesAreDistinct();
    ValidatorJsonIsInjective();
    hide ValidatorJson, PhaseName, EffectName, ConsumerName, Strings;
    forall x, y | PlanCheckJson(x) == PlanCheckJson(y) ensures x == y {
      PlanCheckFieldsAgree(x, y);
      var a, b := PlanCheckFields(x), PlanCheckFields(y);
      assert a[0] == b[0] && a[1] == b[1] && a[2] == b[2] && a[3] == b[3] && a[4] == b[4] && a[5] == b[5]
        && a[6] == b[6] && a[7] == b[7] && a[8] == b[8] && a[9] == b[9] && a[10] == b[10] && a[11] == b[11]
        && a[12] == b[12] && a[13] == b[13];
      StringsAreInjective(x.settings.inputs, y.settings.inputs);
      StringsAreInjective(x.settings.envAllowlist, y.settings.envAllowlist);
      StringsAreInjective(x.dependsOn, y.dependsOn);
      assert x.settings == y.settings;
    }
  }

  const PLAN_SCHEMA: JsString := Ascii("compiled-policy-plan@1")

  /** A compiled-policy-plan@1 document. */
  function PlanFields(x: Plan): seq<Field> {
    [ Field(K_CHECKS, ArrayOf(PlanCheckJson, x.checks)),
      Field(K_PROFILE_ID, Str(x.profileId)),
      Field(K_CANDIDATE, CandidateJson(x.candidate)),
      Field(K_BASE_COMMIT, Str(x.baseCommit)),
      Field(K_REPOSITORY_ID, Str(x.repositoryId)),
      Field(K_KERNEL_RELEASE, Str(x.kernelRelease)),
      Field(K_SCHEMA_VERSION, Str(PLAN_SCHEMA)),
      Field(K_SOURCE_DIGESTS, SourcesJson(x.sources)) ]
  }

  function PlanJson(x: Plan): Json {
    Record(PlanFields(x))
  }

  lemma PlanFieldsAgree(x: Plan, y: Plan)
    requires PlanJson(x) == PlanJson(y)
    ensures PlanFields(x) == PlanFields(y)
  {
    hide ArrayOf, CandidateJson, PlanCheckJson, Record, SourcesJson, Tag;
    NameTags();
    TaggedRecordsAreInjective(PlanFields(x), PlanFields(y));
  }

  lemma PlanJsonIsInjective()
    ensures forall x, y :: PlanJson(x) == PlanJson(y) ==> x == y
  {
    CandidateJsonIsInjective();
    SourcesJsonIsInjective();
    PlanCheckJsonIsInjective();
    hide CandidateJson, SourcesJson, PlanCheckJson;
    forall x, y | PlanJson(x) == PlanJson(y) ensures x == y {
      PlanFieldsAgree(x, y);
      var a, b := PlanFields(x), PlanFields(y);
      assert a[0] == b[0] && a[1] == b[1] && a[2] == b[2] && a[3] == b[3] && a[4] == b[4] && a[5] == b[5]
        && a[6] == b[6] && a[7] == b[7];
      ArrayOfIsInjective(PlanCheckJson, x.checks, y.checks);
    }
  }

  /** Equal plan digests mean the same plan, or a collision of the hash. */
  lemma PlanDigestIdentifiesPlan(h: Hash, x: Plan, y: Plan)
    requires CanonicalDigest(h, PlanJson(x)).Some?
    requires CanonicalDigest(h, PlanJson(x)) == CanonicalDigest(h, PlanJson(y))
    ensures x == y <==> !Collides(h, CanonicalBytes(PlanJson(x)), CanonicalBytes(PlanJson(y)))
  {
    CanonicalDigestIsInjective(h, PlanJson(x), PlanJson(y));
    PlanJsonIsInjective();
  }

  /** The digest of a result's canonical bytes, which its anchor in the evidence store carries. */
  lemma ResultDigestIdentifiesResult(h: Hash, x: CheckResult, y: CheckResult)
    requires CanonicalDigest(h, ResultJson(x)).Some?
    requires CanonicalDigest(h, ResultJson(x)) == CanonicalDigest(h, ResultJson(y))
    ensures x == y <==> !Collides(h, CanonicalBytes(ResultJson(x)), CanonicalBytes(ResultJson(y)))
  {
    CanonicalDigestIsInjective(h, ResultJson(x), ResultJson(y));
    ResultJsonIsInjective();
  }

  const TARGET_PREFIX: JsString := Ascii("target:")

  /** `planCheckValidatorId`: the builtin's id, or a digest-qualified name for an argv. */
  function ValidatorId(h: Hash, v: Validator): Option<JsString> {
    match v
    case Builtin(id) => Some(id)
    case TargetCommand(argv, _) =>
      match CanonicalDigest(h, Strings(argv))
      case None => None
      case Some(d) => Some(TARGET_PREFIX + d)
  }

  /** Two target commands share a validator id exactly when they run the same argv, or on a collision of the hash. */
  lemma TargetIdsNeverAlias(h: Hash, v: Validator, w: Validator)
    requires v.TargetCommand? && w.TargetCommand? && ValidatorId(h, v).Some? && ValidatorId(h, v) == ValidatorId(h, w)
    ensures Canonicalize(Strings(v.argv), CANONICAL_BOUNDS).Ok? && Canonicalize(Strings(w.argv), CANONICAL_BOUNDS).Ok?
    ensures v.argv == w.argv <==> !Collides(h, CanonicalBytes(Strings(v.argv)), CanonicalBytes(Strings(w.argv)))
  {
    var a, b := ValidatorId(h, v).value, ValidatorId(h, w).value;
    assert a[|TARGET_PREFIX|..] == CanonicalDigest(h, Strings(v.argv)).value;
    assert b[|TARGET_PREFIX|..] == CanonicalDigest(h, Strings(w.argv)).value;
    CanonicalDigestIsInjective(h, Strings(v.argv), Strings(w.argv));
    if Strings(v.argv) == Strings(w.argv) { StringsAreInjective(v.argv, w.argv); }
  }
}
