/** The evidence index document: what an evidence store says about itself. */
module EvidenceDocument {
  import opened Base
  import opened Patterns
  import opened Json
  import opened MemberNames
  import opened Records
  import opened Plan
  import opened Documents

  /** One indexed artifact. */
  datatype Artifact = Artifact(
    artifactId: JsString,
    checkId: JsString,
    validatorId: JsString,
    digest: Digest,
    byteLength: nat,
    mediaType: JsString)

  /** The run an evidence index belongs to. */
  datatype Binding = Binding(
    repositoryId: JsString,
    baseCommit: JsString,
    candidateId: JsString,
    workContract: Digest,
    profile: Digest,
    packs: seq<PackPin>,
    compiledPlan: Digest)

  /** An evidence-index@1 document. */
  datatype IndexDoc = IndexDoc(binding: Binding, artifacts: seq<Artifact>)

  const INDEX_SCHEMA: JsString := Ascii("evidence-index@1")

  function ArtifactFields(x: Artifact): seq<Field> {
    [ Field(K_DIGEST, Str(x.digest)),
      Field(K_CHECK_ID, Str(x.checkId)),
      Field(K_MEDIA_TYPE, Str(x.mediaType)),
      Field(K_ARTIFACT_ID, Str(x.artifactId)),
      Field(K_BYTE_LENGTH, Num(x.byteLength)),
      Field(K_VALIDATOR_ID, Str(x.validatorId)) ]
  }

  function ArtifactJson(x: Artifact): Json {
    Record(ArtifactFields(x))
  }

  lemma ArtifactFieldsAgree(x: Artifact, y: Artifact)
    requires ArtifactJson(x) == ArtifactJson(y)
    ensures ArtifactFields(x) == ArtifactFields(y)
  {
    hide Record, Tag;
    NameTags();
    TaggedRecordsAreInjective(ArtifactFields(x), ArtifactFields(y));
  }

  lemma ArtifactJsonIsInjective()
    ensures forall x, y :: ArtifactJson(x) == ArtifactJson(y) ==> x == y
  {
    forall x, y | ArtifactJson(x) == ArtifactJson(y) ensures x == y {
      ArtifactFieldsAgree(x, y);
      var a, b := ArtifactFields(x), ArtifactFields(y);
      assert a[0] == b[0] && a[1] == b[1] && a[2] == b[2] && a[3] == b[3] && a[4] == b[4] && a[5] == b[5];
    }
  }

  function BindingFields(x: Binding): seq<Field> {
    [ Field(K_PACKS, ArrayOf(PinJson, x.packs)),
      Field(K_PROFILE, Str(x.profile)),
      Field(K_BASE_COMMIT, Str(x.baseCommit)),
      Field(K_CANDIDATE_ID, Str(x.candidateId)),
      Field(K_REPOSITORY_ID, Str(x.repositoryId)),
      Field(K_COMPILED_PLAN, Str(x.compiledPlan)),
      Field(K_WORK_CONTRACT, Str(x.workContract)) ]
  }

  function BindingJson(x: Binding): Json {
    Record(BindingFields(x))
  }

  lemma BindingFieldsAgree(x: Binding, y: Binding)
    requires BindingJson(x) == BindingJson(y)
    ensures BindingFields(x) == BindingFields(y)
  {
    hide ArrayOf, PinJson, Record, Tag;
    NameTags();
    TaggedRecordsAreInjective(BindingFields(x), BindingFields(y));
  }

  lemma BindingJsonIsInjective()
    ensures forall x, y :: BindingJson(x) == BindingJson(y) ==> x == y
  {
    PinJsonIsInjective();
    hide PinJson;
    forall x, y | BindingJson(x) == BindingJson(y) ensures x == y {
      BindingFieldsAgree(x, y);
      var a, b := BindingFields(x), BindingFields(y);
      assert a[0] == b[0] && a[1] == b[1] && a[2] == b[2] && a[3] == b[3] && a[4] == b[4] && a[5] == b[5]
        && a[6] == b[6];
      ArrayOfIsInjective(PinJson, x.packs, y.packs);
    }
  }

  function IndexFields(x: IndexDoc): seq<Field> {
    [ Field(K_BINDING, BindingJson(x.binding)),
      Field(K_ARTIFACTS, ArrayOf(ArtifactJson, x.artifacts)),
      Field(K_SCHEMA_VERSION, Str(INDEX_SCHEMA)) ]
  }

  function IndexJson(x: IndexDoc): Json {
    Record(IndexFields(x))
  }

  lemma IndexFieldsAgree(x: IndexDoc, y: IndexDoc)
    requires IndexJson(x) == IndexJson(y)
    ensures IndexFields(x) == IndexFields(y)
  {
    hide ArrayOf, ArtifactJson, BindingJson, Record, Tag;
    NameTags();
    TaggedRecordsAreInjective(IndexFields(x), IndexFields(y));
  }

  lemma IndexJsonIsInjective()
    ensures forall x, y :: IndexJson(x) == IndexJson(y) ==> x == y
  {
    BindingJsonIsInjective();
    ArtifactJsonIsInjective();
    hide BindingJson, ArtifactJson;
    forall x, y | IndexJson(x) == IndexJson(y) ensures x == y {
      IndexFieldsAgree(x, y);
      var a, b := IndexFields(x), IndexFields(y);
      assert a[0] == b[0] && a[1] == b[1] && a[2] == b[2];
      ArrayOfIsInjective(ArtifactJson, x.artifacts, y.artifacts);
    }
  }

  /** A digest pinned elsewhere admits one index document only, but for a collision of the hash. */
  lemma IndexDigestIdentifiesIndex(h: Hash, x: IndexDoc, y: IndexDoc)
    requires CanonicalDigest(h, IndexJson(x)).Some?
    requires CanonicalDigest(h, IndexJson(x)) == CanonicalDigest(h, IndexJson(y))
    ensures x == y <==> !Collides(h, CanonicalBytes(IndexJson(x)), CanonicalBytes(IndexJson(y)))
  {
    CanonicalDigestIsInjective(h, IndexJson(x), IndexJson(y));
    IndexJsonIsInjective();
  }

  // ---------- the schema of an index ----------

  const MAX_INDEXED_ARTIFACTS := 8_192
  const MAX_BOUND_PACKS := 128

  const MEDIA_TYPES: set<JsString> := {
    Ascii("application/json"), Ascii("text/plain"), Ascii("application/octet-stream") }

  predicate ArtifactShaped(x: Artifact) {
    && IsKebabId(x.artifactId) && IsKebabId(x.checkId) && IsValidatorRef(x.validatorId) && IsDigest(x.digest)
    && x.mediaType in MEDIA_TYPES
  }

  predicate PinShaped(p: PackPin) {
    IsKebabId(p.packId) && IsSemver(p.version) && IsDigest(p.digest)
  }

  predicate BindingShaped(x: Binding) {
    && IsKebabId(x.repositoryId) && IsCommitId(x.baseCommit) && IsCommitId(x.candidateId)
    && IsDigest(x.workContract) && IsDigest(x.profile) && IsDigest(x.compiledPlan)
    && 1 <= |x.packs| <= MAX_BOUND_PACKS && forall p :: p in x.packs ==> PinShaped(p)
  }

  /** evidence-index@1. */
  predicate IndexShaped(x: IndexDoc) {
    && |x.artifacts| <= MAX_INDEXED_ARTIFACTS
    && (forall a :: a in x.artifacts ==> ArtifactShaped(a))
    && BindingShaped(x.binding)
  }
}
