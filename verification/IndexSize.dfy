/** Which evidence indexes have a canonical form: what each one costs, artifact by artifact. */
module IndexSize {
  import opened Json
  import opened CanonicalJson
  import opened RoundTrip
  import opened Normalization
  import opened Subvalues
  import opened MemberNames
  import opened Records
  import opened Plan
  import opened Documents
  import opened EvidenceDocument
  import opened PrintCost

  // ---------- pins ----------

  function PinCost(p: PackPin): nat {
    32 + StringCost(p.packId) + StringCost(p.digest) + StringCost(p.version)
  }

  predicate PinOk(p: PackPin) {
    TextOk(p.packId) && TextOk(p.digest) && TextOk(p.version)
  }

  lemma PinNames(p: PackPin)
    ensures PlainNames(PinFields(p)) && DistinctNames(PinFields(p))
  {
    hide IsName, Tag, DistinctNames;
    MemberNamesArePlain();
    NameTags();
    RisingNamesAreDistinct(PinFields(p));
  }

  lemma PinParts(p: PackPin, depth: nat)
    requires depth < CANONICAL_BOUNDS.maxDepth
    ensures CanonCost(PinJson(p)) == 32
      + CanonCost(Str(p.packId)) + CanonCost(Str(p.digest)) + CanonCost(Str(p.version))
    ensures Acceptable(PinJson(p), depth, CANONICAL_BOUNDS) <==>
      && Acceptable(Str(p.packId), depth + 1, CANONICAL_BOUNDS)
      && Acceptable(Str(p.digest), depth + 1, CANONICAL_BOUNDS)
      && Acceptable(Str(p.version), depth + 1, CANONICAL_BOUNDS)
  {
    assert |K_PACK_ID| == 6 && |K_DIGEST| == 6 && |K_VERSION| == 7;
    hide K_PACK_ID, K_DIGEST, K_VERSION, PlainNames, DistinctNames, Record, CanonCost, Acceptable;
    PinNames(p);
    RecordParts(PinFields(p), 3, depth);
  }

  lemma PinExact(p: PackPin, depth: nat)
    requires depth < CANONICAL_BOUNDS.maxDepth
    ensures CanonCost(PinJson(p)) == PinCost(p)
    ensures Acceptable(PinJson(p), depth, CANONICAL_BOUNDS) <==> PinOk(p)
  {
    hide PinJson, CanonCost, StringCost, TextOk, Acceptable;
    PinParts(p, depth);
    TextExact(p.packId, depth + 1);
    TextExact(p.digest, depth + 1);
    TextExact(p.version, depth + 1);
  }

  lemma PinsExact(pins: seq<PackPin>, depth: nat)
    requires depth + 1 < CANONICAL_BOUNDS.maxDepth
    ensures CanonCost(ArrayOf(PinJson, pins)) == ArrayCost(pins, PinCost)
    ensures Acceptable(ArrayOf(PinJson, pins), depth, CANONICAL_BOUNDS) <==>
      |pins| <= CANONICAL_BOUNDS.maxArrayItems && forall p :: p in pins ==> PinOk(p)
  {
    hide PinJson, PinCost, PinOk, CanonCost, ArrayOf;
    forall p ensures CanonCost(PinJson(p)) == PinCost(p)
                     && (Acceptable(PinJson(p), depth + 1, CANONICAL_BOUNDS) <==> PinOk(p)) {
      PinExact(p, depth + 1);
    }
    CostOfArray(PinJson, pins, PinCost);
    PrintableArray(PinJson, pins, depth, CANONICAL_BOUNDS);
    hide Acceptable, ArrayCost;
  }

  // ---------- artifacts ----------

  function ArtifactCost(x: Artifact): nat {
    78 + StringCost(x.digest) + StringCost(x.checkId) + StringCost(x.mediaType) + StringCost(x.artifactId)
    + |Decimal(x.byteLength)| + StringCost(x.validatorId)
  }

  predicate ArtifactOk(x: Artifact) {
    && TextOk(x.digest) && TextOk(x.checkId) && TextOk(x.mediaType) && TextOk(x.artifactId)
    && IsSafeInteger(x.byteLength) && TextOk(x.validatorId)
  }

  lemma ArtifactNames(x: Artifact)
    ensures PlainNames(ArtifactFields(x)) && DistinctNames(ArtifactFields(x))
  {
    hide IsName, Tag, DistinctNames;
    MemberNamesArePlain();
    NameTags();
    RisingNamesAreDistinct(ArtifactFields(x));
  }

  lemma ArtifactParts(x: Artifact, depth: nat)
    requires depth < CANONICAL_BOUNDS.maxDepth
    ensures CanonCost(ArtifactJson(x)) == 78
      + CanonCost(Str(x.digest)) + CanonCost(Str(x.checkId)) + CanonCost(Str(x.mediaType))
      + CanonCost(Str(x.artifactId)) + CanonCost(Num(x.byteLength)) + CanonCost(Str(x.validatorId))
    ensures Acceptable(ArtifactJson(x), depth, CANONICAL_BOUNDS) <==>
      && Acceptable(Str(x.digest), depth + 1, CANONICAL_BOUNDS)
      && Acceptable(Str(x.checkId), depth + 1, CANONICAL_BOUNDS)
      && Acceptable(Str(x.mediaType), depth + 1, CANONICAL_BOUNDS)
      && Acceptable(Str(x.artifactId), depth + 1, CANONICAL_BOUNDS)
      && Acceptable(Num(x.byteLength), depth + 1, CANONICAL_BOUNDS)
      && Acceptable(Str(x.validatorId), depth + 1, CANONICAL_BOUNDS)
  {
    assert |K_DIGEST| == 6 && |K_CHECK_ID| == 7 && |K_MEDIA_TYPE| == 9 && |K_ARTIFACT_ID| == 10 && |K_BYTE_LENGTH|
      == 10 && |K_VALIDATOR_ID| == 11;
    hide K_DIGEST, K_CHECK_ID, K_MEDIA_TYPE, K_ARTIFACT_ID, K_BYTE_LENGTH, K_VALIDATOR_ID, PlainNames,
      DistinctNames, Record, CanonCost, Acceptable;
    ArtifactNames(x);
    RecordParts(ArtifactFields(x), 6, depth);
  }

  lemma ArtifactExact(x: Artifact, depth: nat)
    requires depth < CANONICAL_BOUNDS.maxDepth
    ensures CanonCost(ArtifactJson(x)) == ArtifactCost(x)
    ensures Acceptable(ArtifactJson(x), depth, CANONICAL_BOUNDS) <==> ArtifactOk(x)
  {
    hide ArtifactJson, CanonCost, StringCost, TextOk, Acceptable, IsSafeInteger, Decimal;
    ArtifactParts(x, depth);
    TextExact(x.digest, depth + 1);
    TextExact(x.checkId, depth + 1);
    TextExact(x.mediaType, depth + 1);
    TextExact(x.artifactId, depth + 1);
    NumberExact(x.byteLength, depth + 1);
    TextExact(x.validatorId, depth + 1);
  }

  lemma ArtifactsExact(artifacts: seq<Artifact>, depth: nat)
    requires depth + 1 < CANONICAL_BOUNDS.maxDepth
    ensures CanonCost(ArrayOf(ArtifactJson, artifacts)) == ArrayCost(artifacts, ArtifactCost)
    ensures Acceptable(ArrayOf(ArtifactJson, artifacts), depth, CANONICAL_BOUNDS) <==>
      |artifacts| <= CANONICAL_BOUNDS.maxArrayItems && forall x :: x in artifacts ==> ArtifactOk(x)
  {
    hide ArtifactJson, ArtifactCost, ArtifactOk, CanonCost, ArrayOf;
    forall x ensures CanonCost(ArtifactJson(x)) == ArtifactCost(x)
                     && (Acceptable(ArtifactJson(x), depth + 1, CANONICAL_BOUNDS) <==> ArtifactOk(x)) {
      ArtifactExact(x, depth + 1);
    }
    CostOfArray(ArtifactJson, artifacts, ArtifactCost);
    PrintableArray(ArtifactJson, artifacts, depth, CANONICAL_BOUNDS);
    hide Acceptable, ArrayCost;
  }

  // ---------- bindings ----------

  function BindingCost(x: Binding): nat {
    98 + ArrayCost(x.packs, PinCost) + StringCost(x.profile) + StringCost(x.baseCommit) + StringCost(x.candidateId)
    + StringCost(x.repositoryId) + StringCost(x.compiledPlan) + StringCost(x.workContract)
  }

  predicate BindingOk(x: Binding) {
    && |x.packs| <= CANONICAL_BOUNDS.maxArrayItems && (forall p :: p in x.packs ==> PinOk(p))
    && TextOk(x.profile) && TextOk(x.baseCommit) && TextOk(x.candidateId)
    && TextOk(x.repositoryId) && TextOk(x.compiledPlan) && TextOk(x.workContract)
  }

  lemma BindingNames(x: Binding)
    ensures PlainNames(BindingFields(x)) && DistinctNames(BindingFields(x))
  {
    hide IsName, Tag, DistinctNames, ArrayOf, PinJson;
    MemberNamesArePlain();
    NameTags();
    RisingNamesAreDistinct(BindingFields(x));
  }

  lemma BindingParts(x: Binding, depth: nat)
    requires depth < CANONICAL_BOUNDS.maxDepth
    ensures CanonCost(BindingJson(x)) == 98
      + CanonCost(ArrayOf(PinJson, x.packs)) + CanonCost(Str(x.profile)) + CanonCost(Str(x.baseCommit))
      + CanonCost(Str(x.candidateId)) + CanonCost(Str(x.repositoryId)) + CanonCost(Str(x.compiledPlan))
      + CanonCost(Str(x.workContract))
    ensures Acceptable(BindingJson(x), depth, CANONICAL_BOUNDS) <==>
      && Acceptable(ArrayOf(PinJson, x.packs), depth + 1, CANONICAL_BOUNDS)
      && Acceptable(Str(x.profile), depth + 1, CANONICAL_BOUNDS)
      && Acceptable(Str(x.baseCommit), depth + 1, CANONICAL_BOUNDS)
      && Acceptable(Str(x.candidateId), depth + 1, CANONICAL_BOUNDS)
      && Acceptable(Str(x.repositoryId), depth + 1, CANONICAL_BOUNDS)
      && Acceptable(Str(x.compiledPlan), depth + 1, CANONICAL_BOUNDS)
      && Acceptable(Str(x.workContract), depth + 1, CANONICAL_BOUNDS)
  {
    assert |K_PACKS| == 5 && |K_PROFILE| == 7 && |K_BASE_COMMIT| == 10 && |K_CANDIDATE_ID| == 11 &&
      |K_REPOSITORY_ID| == 12 && |K_COMPILED_PLAN| == 12 && |K_WORK_CONTRACT| == 12;
    hide K_PACKS, K_PROFILE, K_BASE_COMMIT, K_CANDIDATE_ID, K_REPOSITORY_ID, K_COMPILED_PLAN, K_WORK_CONTRACT,
      PlainNames, DistinctNames, Record, CanonCost, Acceptable, ArrayOf, PinJson;
    BindingNames(x);
    RecordParts(BindingFields(x), 7, depth);
  }

  lemma BindingExact(x: Binding, depth: nat)
    requires depth + 2 < CANONICAL_BOUNDS.maxDepth
    ensures CanonCost(BindingJson(x)) == BindingCost(x)
    ensures Acceptable(BindingJson(x), depth, CANONICAL_BOUNDS) <==> BindingOk(x)
  {
    hide BindingJson, PinJson, PinOk, PinCost, CanonCost, StringCost, TextOk, Acceptable, ArrayOf, ArrayCost;
    BindingParts(x, depth);
    PinsExact(x.packs, depth + 1);
    TextExact(x.profile, depth + 1);
    TextExact(x.baseCommit, depth + 1);
    TextExact(x.candidateId, depth + 1);
    TextExact(x.repositoryId, depth + 1);
    TextExact(x.compiledPlan, depth + 1);
    TextExact(x.workContract, depth + 1);
  }

  // ---------- indexes ----------

  /** The bytes of an index's canonical form. */
  function IndexCost(x: IndexDoc): nat {
    60 + BindingCost(x.binding) + ArrayCost(x.artifacts, ArtifactCost)
  }

  /** What an index needs to be printed: at most 4096 artifacts and pins, printable members, and a mebibyte for all. */
  predicate IndexFits(x: IndexDoc) {
    && |x.artifacts| <= CANONICAL_BOUNDS.maxArrayItems
    && (forall a :: a in x.artifacts ==> ArtifactOk(a))
    && BindingOk(x.binding)
    && IndexCost(x) <= CANONICAL_BOUNDS.maxDocumentBytes
  }

  lemma IndexNames(x: IndexDoc)
    ensures PlainNames(IndexFields(x)) && DistinctNames(IndexFields(x))
  {
    hide IsName, Tag, DistinctNames, ArrayOf, ArtifactJson, BindingJson;
    MemberNamesArePlain();
    NameTags();
    RisingNamesAreDistinct(IndexFields(x));
  }

  lemma IndexParts(x: IndexDoc, depth: nat)
    requires depth < CANONICAL_BOUNDS.maxDepth
    ensures CanonCost(IndexJson(x)) == 42
      + CanonCost(BindingJson(x.binding)) + CanonCost(ArrayOf(ArtifactJson, x.artifacts))
      + CanonCost(Str(INDEX_SCHEMA))
    ensures Acceptable(IndexJson(x), depth, CANONICAL_BOUNDS) <==>
      && Acceptable(BindingJson(x.binding), depth + 1, CANONICAL_BOUNDS)
      && Acceptable(ArrayOf(ArtifactJson, x.artifacts), depth + 1, CANONICAL_BOUNDS)
      && Acceptable(Str(INDEX_SCHEMA), depth + 1, CANONICAL_BOUNDS)
  {
    assert |K_BINDING| == 7 && |K_ARTIFACTS| == 9 && |K_SCHEMA_VERSION| == 13;
    hide K_BINDING, K_ARTIFACTS, K_SCHEMA_VERSION, PlainNames, DistinctNames, Record, CanonCost, Acceptable,
      ArrayOf, ArtifactJson, BindingJson;
    IndexNames(x);
    RecordParts(IndexFields(x), 3, depth);
  }

  lemma IndexExact(x: IndexDoc)
    ensures CanonCost(IndexJson(x)) == IndexCost(x)
    ensures Acceptable(IndexJson(x), 1, CANONICAL_BOUNDS) <==>
      |x.artifacts| <= CANONICAL_BOUNDS.maxArrayItems && (forall a :: a in x.artifacts ==> ArtifactOk(a))
      && BindingOk(x.binding)
  {
    SchemaNameCost();
    hide INDEX_SCHEMA, IndexJson, ArtifactJson, ArtifactOk, ArtifactCost, BindingJson, BindingOk, BindingCost, CanonCost,
      StringCost, TextOk, Acceptable, ArrayOf, ArrayCost;
    IndexParts(x, 1);
    TextExact(INDEX_SCHEMA, 2);
    BindingExact(x.binding, 2);
    ArtifactsExact(x.artifacts, 2);
  }

  lemma SchemaNameCost()
    ensures StringCost(INDEX_SCHEMA) == 18 && TextOk(INDEX_SCHEMA)
  {
    PlainCost(INDEX_SCHEMA);
  }

  /** An index has a canonical form exactly when it fits. */
  lemma IndexPrintsExactly(x: IndexDoc)
    ensures Canonicalize(IndexJson(x), CANONICAL_BOUNDS).Ok? <==> IndexFits(x)
  {
    CanonicalFormExact(IndexJson(x), CANONICAL_BOUNDS);
    IndexExact(x);
    hide IndexJson, CanonCost, Acceptable, Canonicalize, IndexCost, ArtifactOk, BindingOk;
  }
}
