/** What the schemas say about the documents of a compilation and about the plan that comes of them. */
module InputShapes {
  import opened Base
  import opened Patterns
  import opened Json
  import opened Plan
  import opened Packs
  import opened Compilation
  import opened PrintCost
  import opened PlanSize
  import opened EvidenceDocument

  const NETWORK_NONE: JsString := Ascii("NONE")
  const READ_ONLY: JsString := Ascii("READ_ONLY")
  const CANDIDATE_KINDS: set<JsString> := {Ascii("COMMIT"), Ascii("TREE")}
  const MAX_ARGUMENT := 4_096

  // ---------- checks ----------

  ghost predicate ValidatorShaped(v: Validator) {
    match v
    case Builtin(id) => IsVersionedId(id)
    case TargetCommand(argv, manifest) =>
      && 1 <= |argv| <= 64 && (forall x :: x in argv ==> 1 <= |x| <= MAX_ARGUMENT && TextOk(x))
      && |manifest| <= 1_024 && NoDuplicates(manifest) && forall x :: x in manifest ==> IsManifestPath(x)
  }

  ghost predicate SettingsShaped(s: Settings) {
    && |s.inputs| <= 32 && NoDuplicates(s.inputs) && (forall x :: x in s.inputs ==> IsInputName(x))
    && IsVersionedId(s.outputSchemaId) && 1 <= s.timeoutSeconds <= 3_600
    && s.network == NETWORK_NONE && s.filesystem == READ_ONLY
    && |s.envAllowlist| <= 32 && NoDuplicates(s.envAllowlist) && (forall x :: x in s.envAllowlist ==> IsEnvName(x))
  }

  ghost predicate CheckShaped(c: Check) {
    IsKebabId(c.checkId) && ValidatorShaped(c.validator) && SettingsShaped(c.settings)
  }

  /** A version as a parsed document can have it: no schema bounds its length, but the parser bounds every string. */
  ghost predicate VersionShaped(s: JsString) {
    IsSemver(s) && TextOk(s)
  }

  // ---------- packs, profiles and contracts ----------

  /** policy-pack@1. */
  ghost predicate PackShaped(p: Pack) {
    && IsKebabId(p.packId) && VersionShaped(p.version)
    && 1 <= |p.phases| <= 3 && NoDuplicates(p.phases)
    && |p.dependencies| <= 32
    && (forall d :: d in p.dependencies ==> IsKebabId(d.packId) && VersionShaped(d.version) && IsDigest(d.digest))
    && 1 <= |p.checks| <= 128 && forall c :: c in p.checks ==> CheckShaped(c)
  }

  /** policy-profile@1. */
  ghost predicate ProfileShaped(p: Profile) {
    && IsKebabId(p.profileId)
    && 1 <= |p.packs| <= 64
    && (forall s :: s in p.packs ==> IsKebabId(s.packId) && VersionShaped(s.version) && IsDigest(s.digest))
    && |p.strengthen| <= 128 && NoDuplicates(p.strengthen) && forall x :: x in p.strengthen ==> IsKebabId(x)
  }

  predicate CandidateShaped(c: Candidate) {
    c.kind in CANDIDATE_KINDS && IsCommitId(c.id)
  }

  /** work-contract@1. */
  ghost predicate ContractShaped(c: WorkContract) {
    && IsDigest(c.digest) && IsKebabId(c.repositoryId) && IsCommitId(c.baseCommit) && CandidateShaped(c.candidate)
    && IsKebabId(c.profileId) && IsDigest(c.profileDigest)
    && (c.capabilityIndex.Some? ==> IsDigest(c.capabilityIndex.value))
  }

  ghost predicate ReleaseShaped(s: JsString) {
    1 <= |s| <= 128 && TextOk(s)
  }

  /** All that a compilation reads, with no more kernel packs than a profile may select. */
  ghost predicate InputsShaped(i: Inputs) {
    && ReleaseShaped(i.kernelRelease) && ContractShaped(i.contract) && ProfileShaped(i.profile)
    && IsDigest(i.profileDigest) && (i.capabilityIndex.Some? ==> IsDigest(i.capabilityIndex.value))
    && |i.mandatory| <= 64 && (forall p :: p in i.mandatory ==> PackShaped(p.value) && IsDigest(p.digest))
    && forall p :: p in i.packs ==> PackShaped(p.value)
  }

  // ---------- plans ----------

  ghost predicate PlanCheckShaped(x: PlanCheck) {
    && IsKebabId(x.checkId) && IsKebabId(x.packId) && VersionShaped(x.packVersion)
    && ValidatorShaped(x.validator) && SettingsShaped(x.settings)
    && |x.dependsOn| <= MAX_DEPENDS_ON && NoDuplicates(x.dependsOn) && forall d :: d in x.dependsOn ==> IsKebabId(d)
  }

  ghost predicate SourcesShaped(s: SourceDigests) {
    && IsDigest(s.workContract) && IsDigest(s.profile)
    && (s.capabilityIndex.Some? ==> IsDigest(s.capabilityIndex.value))
    && 1 <= |s.packs| <= MAX_PLAN_PACKS && forall p :: p in s.packs ==> PinShaped(p) && TextOk(p.version)
  }

  ghost predicate HeadShaped(x: Plan) {
    && ReleaseShaped(x.kernelRelease) && IsKebabId(x.repositoryId) && IsCommitId(x.baseCommit)
    && CandidateShaped(x.candidate) && IsKebabId(x.profileId)
  }

  /** compiled-policy-plan@1, but for the greatest number of checks. */
  ghost predicate PlanShaped(x: Plan) {
    && HeadShaped(x) && SourcesShaped(x.sources)
    && 1 <= |x.checks| && forall c :: c in x.checks ==> PlanCheckShaped(c)
  }

  // ---------- what has a pattern can be printed ----------

  lemma PlainTextOk(s: JsString)
    requires IsPlain(s) && |s| <= 65_536
    ensures TextOk(s)
  {
    PlainCost(s);
  }

  lemma KebabTextOk(s: JsString)
    requires IsKebabId(s)
    ensures TextOk(s)
  {
    PlainTextOk(s);
  }

  lemma VersionedTextOk(s: JsString)
    requires IsVersionedId(s)
    ensures TextOk(s)
  {
    var at :| 0 <= at < |s| && s[at] == 0x40 && IsKebab(s[..at]) && IsVersionNumber(s[at + 1..]);
    forall k | 0 <= k < |s| ensures s[k] == 0x40 || s[k] == 0x2D || IsLowerAlnum(s[k]) {
      if k < at { assert s[k] == s[..at][k]; }
      if k > at { assert s[k] == s[at + 1..][k - at - 1]; }
    }
    hide IsVersioned, IsVersionNumber, IsKebab;
    PlainTextOk(s);
  }

  lemma DigestTextOk(d: Digest)
    requires IsDigest(d)
    ensures TextOk(d)
  {
    assert |DIGEST_PREFIX| == 7 && IsPlain(DIGEST_PREFIX);
    forall k | 0 <= k < |d| ensures d[k] == if k < 7 then DIGEST_PREFIX[k] else d[7..][k - 7] {
      if k < 7 { assert d[..7][k] == d[k]; }
    }
    hide DIGEST_PREFIX;
    PlainTextOk(d);
  }

  lemma CommitTextOk(s: JsString)
    requires IsCommitId(s)
    ensures TextOk(s)
  {
    PlainTextOk(s);
  }

  lemma CandidateTextOk(c: Candidate)
    requires CandidateShaped(c)
    ensures TextOk(c.kind) && TextOk(c.id)
  {
    CommitTextOk(c.id);
    PlainTextOk(c.kind);
  }

  lemma NamesTextOk(s: JsString)
    ensures IsInputName(s) || IsEnvName(s) || IsManifestPath(s) ==> TextOk(s)
  {
    if IsInputName(s) || IsEnvName(s) || IsManifestPath(s) { PlainTextOk(s); }
  }

  lemma SettingsTextOk(s: Settings)
    requires SettingsShaped(s)
    ensures StringsOk(s.inputs) && StringsOk(s.envAllowlist) && TextOk(s.network) && TextOk(s.filesystem)
    ensures TextOk(s.outputSchemaId) && IsSafeInteger(s.timeoutSeconds)
  {
    VersionedTextOk(s.outputSchemaId);
    PlainTextOk(NETWORK_NONE);
    PlainTextOk(READ_ONLY);
    hide TextOk, IsVersionedId, IsInputName, IsEnvName;
    forall k | 0 <= k < |s.inputs| ensures TextOk(s.inputs[k]) {
      assert s.inputs[k] in s.inputs;
      NamesTextOk(s.inputs[k]);
    }
    forall k | 0 <= k < |s.envAllowlist| ensures TextOk(s.envAllowlist[k]) {
      assert s.envAllowlist[k] in s.envAllowlist;
      NamesTextOk(s.envAllowlist[k]);
    }
  }

  lemma ValidatorTextOk(v: Validator)
    requires ValidatorShaped(v)
    ensures ValidatorOk(v)
  {
    hide TextOk, IsVersionedId, IsManifestPath;
    if v.Builtin? {
      VersionedTextOk(v.builtinId);
    } else {
      forall k | 0 <= k < |v.inputManifest| ensures TextOk(v.inputManifest[k]) {
        assert v.inputManifest[k] in v.inputManifest;
        NamesTextOk(v.inputManifest[k]);
      }
      forall k | 0 <= k < |v.argv| ensures TextOk(v.argv[k]) { assert v.argv[k] in v.argv; }
    }
  }

  /** A check that the plan's schema admits can be printed. */
  lemma PlanCheckTextOk(x: PlanCheck)
    requires PlanCheckShaped(x)
    ensures CheckOk(x)
  {
    KebabTextOk(x.checkId);
    KebabTextOk(x.packId);
    ValidatorTextOk(x.validator);
    SettingsTextOk(x.settings);
    hide TextOk, IsKebabId, IsSemver, ValidatorShaped, ValidatorOk, SettingsShaped;
    forall k | 0 <= k < |x.dependsOn| ensures TextOk(x.dependsOn[k]) {
      assert x.dependsOn[k] in x.dependsOn;
      KebabTextOk(x.dependsOn[k]);
    }
  }

  lemma SourcesTextOk(s: SourceDigests)
    requires SourcesShaped(s)
    ensures SourcesOk(s)
  {
    DigestTextOk(s.workContract);
    DigestTextOk(s.profile);
    if s.capabilityIndex.Some? { DigestTextOk(s.capabilityIndex.value); }
    hide TextOk, IsKebabId, IsSemver, IsDigest;
    forall p | p in s.packs ensures TextOk(p.packId) && TextOk(p.digest) {
      KebabTextOk(p.packId);
      DigestTextOk(p.digest);
    }
  }

  lemma HeadTextOk(x: Plan)
    requires HeadShaped(x)
    ensures TextOk(x.profileId) && TextOk(x.candidate.id) && TextOk(x.candidate.kind) && TextOk(x.baseCommit)
    ensures TextOk(x.repositoryId) && TextOk(x.kernelRelease)
  {
    KebabTextOk(x.profileId);
    KebabTextOk(x.repositoryId);
    CommitTextOk(x.baseCommit);
    CandidateTextOk(x.candidate);
  }

  lemma ChecksTextOk(x: Plan)
    requires PlanShaped(x)
    ensures 1 <= |x.checks| && 1 <= |x.sources.packs| <= MAX_PLAN_PACKS
    ensures HeadShaped(x) && SourcesShaped(x.sources)
    ensures forall c :: c in x.checks ==> CheckOk(c) && |c.dependsOn| <= MAX_DEPENDS_ON
  {
    hide CheckOk, HeadShaped, TextOk, PinShaped, IsDigest;
    forall c | c in x.checks ensures CheckOk(c) && |c.dependsOn| <= MAX_DEPENDS_ON {
      PlanCheckTextOk(c);
      assert PlanCheckShaped(c);
    }
  }

  lemma CountAndLengthDecide(x: Plan)
    requires 1 <= |x.checks| && 1 <= |x.sources.packs| <= MAX_PLAN_PACKS
    requires forall c :: c in x.checks ==> CheckOk(c) && |c.dependsOn| <= MAX_DEPENDS_ON
    requires TextOk(x.profileId) && TextOk(x.candidate.id) && TextOk(x.candidate.kind) && TextOk(x.baseCommit)
    requires TextOk(x.repositoryId) && TextOk(x.kernelRelease) && SourcesOk(x.sources)
    ensures PlanFits(x) <==> |x.checks| <= 4_096 && PlanCost(x) <= 1_048_576
  {
    hide CheckOk, SourcesOk, TextOk, PlanCost;
  }

  /** A plan of the right shape is stopped by its number of checks or by its length, and by nothing else. */
  lemma ShapedPlanFits(x: Plan)
    requires PlanShaped(x)
    ensures PlanFits(x) <==> |x.checks| <= 4_096 && PlanCost(x) <= 1_048_576
  {
    hide *;
    ChecksTextOk(x);
    HeadTextOk(x);
    SourcesTextOk(x.sources);
    CountAndLengthDecide(x);
  }
}
