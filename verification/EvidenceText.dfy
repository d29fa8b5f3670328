/** What an evidence store and a receipt name, order and look up, spelled out. */
module EvidenceText {
  import opened Base
  import opened Ordering
  import opened Sorting
  import opened Patterns
  import opened Text
  import opened PatternText
  import opened Json
  import opened CanonicalJson
  import opened Plan
  import opened Documents
  import opened EvidenceDocument
  import opened EvidenceStore
  import opened EvidenceVerifier
  import opened Receipt
  import opened ReceiptAssembly
  import opened Activation

  // ---------- objects ----------

  /** The file of an object is named by the hex digits of its digest. */
  lemma ObjectIsNamed(hex: JsString)
    ensures ObjectName(Ascii("sha256:") + hex) == hex
  {
    assert |Ascii("sha256:")| == 7;
  }

  // ---------- the index ----------

  ghost predicate AscendsById(xs: seq<Artifact>) {
    forall j, k :: 0 <= j < k < |xs| ==> UnitBefore(xs[j].artifactId, xs[k].artifactId)
  }

  /** No id twice and no neighbours out of order: that is to ascend, unit by unit. */
  lemma AscendsExactly(xs: seq<Artifact>)
    ensures AscendsById(xs) <==>
      DistinctArtifactIds(xs) && forall k :: 0 < k < |xs| ==> !Less(xs[k].artifactId, xs[k - 1].artifactId)
  {
    var ids := seq(|xs|, k requires 0 <= k < |xs| => xs[k].artifactId);
    forall a, b ensures Less(a, b) <==> UnitBefore(a, b) { LessIsUnitBefore(a, b); }
    hide Less, UnitBefore;
    if AscendsById(xs) {
      forall j, k | 0 <= j < k < |xs|
        ensures xs[j].artifactId != xs[k].artifactId && !Less(xs[k].artifactId, xs[j].artifactId)
      {
        LessAsymmetric(xs[j].artifactId, xs[k].artifactId);
      }
      forall k | 0 < k < |xs| ensures !Less(xs[k].artifactId, xs[k - 1].artifactId) {
        LessAsymmetric(xs[k - 1].artifactId, xs[k].artifactId);
      }
    }
    if DistinctArtifactIds(xs) && forall k :: 0 < k < |xs| ==> !Less(xs[k].artifactId, xs[k - 1].artifactId) {
      forall k | 0 < k < |ids| ensures Less(ids[k - 1], ids[k]) {
        assert xs[k - 1].artifactId != xs[k].artifactId;
        LessTotal(ids[k - 1], ids[k]);
      }
      NeighboursAscend(ids);
      forall j, k | 0 <= j < k < |xs| ensures UnitBefore(xs[j].artifactId, xs[k].artifactId) {
        assert Less(ids[j], ids[k]);
      }
    }
  }

  lemma IndexLawfulExactly(x: IndexDoc)
    ensures IndexLawful(x) <==> AscendsById(x.artifacts)
  {
    AscendsExactly(x.artifacts);
    hide AscendsById, Less;
  }

  lemma NeighboursAscend(ids: seq<JsString>)
    requires forall k :: 0 < k < |ids| ==> Less(ids[k - 1], ids[k])
    ensures Increasing(ids)
  {
    forall j, k | 0 <= j < k < |ids| ensures Less(ids[j], ids[k]) { AscendsTo(ids, j, k); }
  }

  lemma {:induction false} AscendsTo(ids: seq<JsString>, j: nat, k: nat)
    requires (forall n :: 0 < n < |ids| ==> Less(ids[n - 1], ids[n])) && j < k < |ids|
    ensures Less(ids[j], ids[k])
  {
    if j + 1 < k {
      AscendsTo(ids, j, k - 1);
      LessTransitive(ids[j], ids[k - 1], ids[k]);
    }
  }

  /** What is finalized lists the artifacts that were put, by ascending id. */
  lemma FinalizedAscends(xs: seq<Artifact>)
    requires DistinctArtifactIds(xs)
    ensures AscendsById(Sort(ArtifactBefore, xs)) && multiset(Sort(ArtifactBefore, xs)) == multiset(xs)
  {
    SortedArtifactsLawful(xs);
    AscendsExactly(Sort(ArtifactBefore, xs));
    hide AscendsById, Less, Sort;
  }

  /** The sum of the lengths, one artifact after the other. */
  lemma TotalLengthExactly(xs: seq<Artifact>, sums: seq<nat>)
    requires |sums| == |xs| + 1 && sums[0] == 0 && forall k :: 0 <= k < |xs| ==> sums[k + 1] == sums[k] + xs[k].byteLength
    ensures TotalLength(xs) == sums[|xs|]
  {
    if xs != [] {
      TotalLengthExactly(xs[..|xs| - 1], sums[..|xs|]);
    }
  }

  ghost predicate ValidatorAdmitted(s: JsString) {
    && |s| <= 128
    && (|| (exists name, number :: VersionedAs(s, name, number))
        || (exists hex :: HexOfLength(hex, 64) && s == Ascii("target:sha256:") + hex))
  }

  ghost predicate IdAdmitted(s: JsString) {
    Words(s, {0x2D}) && |s| <= 128
  }

  ghost predicate DigestAdmitted(s: JsString) {
    exists hex :: HexOfLength(hex, 64) && s == Ascii("sha256:") + hex
  }

  ghost predicate CommitAdmitted(s: JsString) {
    HexOfLength(s, 40) || HexOfLength(s, 64)
  }

  ghost predicate ArtifactAdmitted(x: Artifact) {
    && IdAdmitted(x.artifactId) && IdAdmitted(x.checkId) && ValidatorAdmitted(x.validatorId) && DigestAdmitted(x.digest)
    && (|| x.mediaType == Ascii("application/json") || x.mediaType == Ascii("text/plain")
        || x.mediaType == Ascii("application/octet-stream"))
  }

  ghost predicate BindingAdmitted(x: Binding) {
    && IdAdmitted(x.repositoryId) && CommitAdmitted(x.baseCommit) && CommitAdmitted(x.candidateId)
    && DigestAdmitted(x.workContract) && DigestAdmitted(x.profile) && DigestAdmitted(x.compiledPlan)
    && 1 <= |x.packs| <= 128
    && forall p :: p in x.packs ==>
      IdAdmitted(p.packId) && DigestAdmitted(p.digest) && exists a, b, c :: SemverAs(p.version, a, b, c)
  }

  lemma PatternsExactly(s: JsString)
    ensures IsKebabId(s) <==> IdAdmitted(s)
    ensures IsValidatorRef(s) <==> ValidatorAdmitted(s)
    ensures IsDigest(s) <==> DigestAdmitted(s)
    ensures IsCommitId(s) <==> CommitAdmitted(s)
    ensures IsSemver(s) <==> exists a, b, c :: SemverAs(s, a, b, c)
  {
    hide HexOfLength, IsDigest, IsKebab, IsObjectName, IsSemver, IsTargetId, IsVersioned, SemverAs, VersionedAs, Words;
    KebabExactly(s);
    VersionedExactly(s);
    TargetExactly(s);
    ValidatorExactly(s);
    DigestExactly(s);
    CommitExactly(s);
    SemverExactly(s);
  }

  lemma MediaTypesExactly(s: JsString)
    ensures s in MEDIA_TYPES <==>
      s == Ascii("application/json") || s == Ascii("text/plain") || s == Ascii("application/octet-stream")
  {
  }

  /** What the schema of an index admits. */
  lemma IndexShapedExactly(x: IndexDoc)
    ensures IndexShaped(x) <==>
      |x.artifacts| <= 8192 && (forall a :: a in x.artifacts ==> ArtifactAdmitted(a)) && BindingAdmitted(x.binding)
  {
    forall s
      ensures IsKebabId(s) <==> IdAdmitted(s)
      ensures IsValidatorRef(s) <==> ValidatorAdmitted(s)
      ensures IsDigest(s) <==> DigestAdmitted(s)
      ensures IsCommitId(s) <==> CommitAdmitted(s)
      ensures IsSemver(s) <==> exists a, b, c :: SemverAs(s, a, b, c)
    {
      PatternsExactly(s);
    }
    hide CommitAdmitted, DigestAdmitted, IdAdmitted, IsCommitId, IsDigest, IsKebabId, IsSemver, IsValidatorRef, MEDIA_TYPES,
      SemverAs, ValidatorAdmitted;
    forall a ensures ArtifactShaped(a) <==> ArtifactAdmitted(a) { MediaTypesExactly(a.mediaType); }
    hide ArtifactAdmitted, ArtifactShaped;
  }

  /** A directory is read when it is concrete and its index is there and at most a mebibyte long. */
  lemma ReadableExactly(dir: EvidenceDir)
    ensures IsReadable(dir) <==> dir.concrete && dir.indexFile.Some? && |dir.indexFile.value| <= 1024 * 1024
  {
  }

  // ---------- looking things up ----------

  /** The artifact of an id is the last one that has it. */
  lemma {:induction false} ArtifactNamedExactly(xs: seq<Artifact>, id: JsString, a: Artifact)
    ensures ArtifactNamed(xs, id) == Some(a) <==>
      exists k :: 0 <= k < |xs| && xs[k] == a && a.artifactId == id
                  && forall j :: k < j < |xs| ==> xs[j].artifactId != id
  {
    if xs != [] {
      var front, last := xs[..|xs| - 1], xs[|xs| - 1];
      ArtifactNamedExactly(front, id, a);
      assert forall j :: 0 <= j < |front| ==> front[j] == xs[j];
    }
  }

  /** A reference holds when the last artifact of its id has its digest and belongs to the check. */
  lemma RefHoldsExactly(xs: seq<Artifact>, checkId: JsString, ref: EvidenceRef)
    ensures RefHolds(xs, checkId, ref) <==>
      exists k :: && 0 <= k < |xs| && xs[k].artifactId == ref.artifactId
                  && (forall j :: k < j < |xs| ==> xs[j].artifactId != ref.artifactId)
                  && xs[k].digest == ref.digest && xs[k].checkId == checkId
  {
    var named := ArtifactNamed(xs, ref.artifactId);
    if named.Some? { ArtifactNamedExactly(xs, ref.artifactId, named.value); }
    if k :| && 0 <= k < |xs| && xs[k].artifactId == ref.artifactId
            && (forall j :: k < j < |xs| ==> xs[j].artifactId != ref.artifactId)
    {
      ArtifactNamedExactly(xs, ref.artifactId, xs[k]);
    }
    hide ArtifactNamed;
  }

  /** A result is anchored when the last artifact called `result-` and its check id has the digest of its bytes. */
  lemma AnchoredExactly(hash: Hash, xs: seq<Artifact>, x: CheckResult)
    ensures Anchored(hash, xs, x) <==>
      exists k :: && 0 <= k < |xs| && xs[k].artifactId == Ascii("result-") + x.checkId
                  && (forall j :: k < j < |xs| ==> xs[j].artifactId != Ascii("result-") + x.checkId)
                  && CanonicalDigest(hash, ResultJson(x)) == Some(xs[k].digest)
  {
    var id := Ascii("result-") + x.checkId;
    var named := ArtifactNamed(xs, id);
    assert ANCHOR_PREFIX + x.checkId == id;
    if named.Some? { ArtifactNamedExactly(xs, id, named.value); }
    if k :| 0 <= k < |xs| && xs[k].artifactId == id && (forall j :: k < j < |xs| ==> xs[j].artifactId != id) {
      ArtifactNamedExactly(xs, id, xs[k]);
    }
    hide ArtifactNamed, CanonicalDigest, ResultJson;
  }

  /** A JSON artifact of the result's check that holds the bytes of a text. */
  ghost predicate AnchorsText(hash: Hash, x: CheckResult, text: JsString, a: Artifact) {
    && a.artifactId == Ascii("result-") + x.checkId && a.checkId == x.checkId
    && a.mediaType == Ascii("application/json") && a.digest == hash(Encode(text)) && a.byteLength == |Encode(text)|
  }

  /** The anchor of a result holds its canonical text. */
  lemma AnchorExactly(hash: Hash, plan: Plan, x: CheckResult, text: JsString)
    requires Anchorable(hash, plan, x) && Canonicalize(ResultJson(x), CANONICAL_BOUNDS) == Ok(text)
    ensures AnchorsText(hash, x, text, AnchorOf(hash, plan, x))
  {
    hide Canonicalize, CheckNamed, Encode, ResultJson, ValidatorId;
  }

  // ---------- a control ----------

  ghost predicate OnlyCheck(checks: seq<PlanCheck>, id: JsString, c: PlanCheck) {
    exists k :: && 0 <= k < |checks| && checks[k] == c && c.checkId == id
                && forall j :: 0 <= j < |checks| && j != k ==> checks[j].checkId != id
  }

  ghost predicate OnlyResult(results: seq<CheckResult>, id: JsString, x: CheckResult) {
    exists k :: && 0 <= k < |results| && results[k] == x && x.checkId == id
                && forall j :: 0 <= j < |results| && j != k ==> results[j].checkId != id
  }

  ghost predicate FirstValidator(pins: seq<ValidatorPin>, id: JsString, v: ValidatorPin) {
    exists k :: && 0 <= k < |pins| && pins[k] == v && v.validatorId == id
                && forall j :: 0 <= j < k ==> pins[j].validatorId != id
  }

  ghost predicate FirstPackPin(pins: seq<PackPin>, id: JsString, p: PackPin) {
    exists k :: && 0 <= k < |pins| && pins[k] == p && p.packId == id
                && forall j :: 0 <= j < k ==> pins[j].packId != id
  }

  /** The control that a check of the plan is, with its one result in the receipt. */
  ghost predicate Shows(hash: Hash, r: Receipt, plan: Plan, checkId: JsString, s: Subject) {
    exists c: PlanCheck, v: ValidatorPin, p: PackPin ::
      && OnlyCheck(plan.checks, checkId, c) && OnlyResult(r.results, checkId, s.result)
      && ValidatorId(hash, c.validator) == Some(v.validatorId)
      && FirstValidator(r.digests.validators, v.validatorId, v) && FirstPackPin(plan.sources.packs, c.packId, p)
      && s.control.checkId == checkId && s.control.packId == c.packId && s.control.packVersion == c.packVersion
      && s.control.packDigest == p.digest && s.control.validatorId == v.validatorId
      && s.control.validatorDigest == v.digest && s.control.phase == c.phase && s.control.effect == c.effect
      && s.control.consumer == c.consumer && s.control.kernelRelease == r.kernelRelease
  }

  lemma OneMore<T>(xs: seq<T>, last: T, x: T)
    ensures xs + [last] == [x] <==> xs == [] && last == x
  {
    assert (xs + [last])[|xs|] == last;
  }

  lemma OnlyCheckSnoc(front: seq<PlanCheck>, last: PlanCheck, id: JsString, c: PlanCheck)
    ensures OnlyCheck(front + [last], id, c) <==>
      if last.checkId == id then c == last && (forall x :: x in front ==> x.checkId != id) else OnlyCheck(front, id, c)
  {
    var checks := front + [last];
    if last.checkId == id && c == last && forall x :: x in front ==> x.checkId != id {
      assert checks[|front|] == last;
    }
    if last.checkId != id && OnlyCheck(front, id, c) {
      var k :| && 0 <= k < |front| && front[k] == c
               && forall j :: 0 <= j < |front| && j != k ==> front[j].checkId != id;
      assert checks[k] == c;
    }
    if OnlyCheck(checks, id, c) {
      var k :| && 0 <= k < |checks| && checks[k] == c
               && forall j :: 0 <= j < |checks| && j != k ==> checks[j].checkId != id;
      assert checks[|front|] == last;
      forall j | 0 <= j < |front| && j != k ensures front[j].checkId != id { assert checks[j] == front[j]; }
      if k < |front| { assert front[k] == c; }
    }
  }

  lemma {:induction false} OneCheck(checks: seq<PlanCheck>, id: JsString, c: PlanCheck)
    ensures ChecksOf(checks, id) == [c] <==> OnlyCheck(checks, id, c)
  {
    if checks != [] {
      var front, last := checks[..|checks| - 1], checks[|checks| - 1];
      OneCheck(front, id, c);
      NoCheck(front, id);
      assert checks == front + [last];
      OnlyCheckSnoc(front, last, id, c);
      hide OnlyCheck;
      OneMore(ChecksOf(front, id), last, c);
    }
  }

  lemma {:induction false} NoCheck(checks: seq<PlanCheck>, id: JsString)
    ensures ChecksOf(checks, id) == [] <==> forall c :: c in checks ==> c.checkId != id
  {
    if checks != [] {
      var front, last := checks[..|checks| - 1], checks[|checks| - 1];
      NoCheck(front, id);
      assert checks == front + [last];
    }
  }

  lemma OnlyResultSnoc(front: seq<CheckResult>, last: CheckResult, id: JsString, r: CheckResult)
    ensures OnlyResult(front + [last], id, r) <==>
      if last.checkId == id then r == last && (forall x :: x in front ==> x.checkId != id) else OnlyResult(front, id, r)
  {
    var results := front + [last];
    if last.checkId == id && r == last && forall x :: x in front ==> x.checkId != id {
      assert results[|front|] == last;
    }
    if last.checkId != id && OnlyResult(front, id, r) {
      var k :| && 0 <= k < |front| && front[k] == r
               && forall j :: 0 <= j < |front| && j != k ==> front[j].checkId != id;
      assert results[k] == r;
    }
    if OnlyResult(results, id, r) {
      var k :| && 0 <= k < |results| && results[k] == r
               && forall j :: 0 <= j < |results| && j != k ==> results[j].checkId != id;
      assert results[|front|] == last;
      forall j | 0 <= j < |front| && j != k ensures front[j].checkId != id { assert results[j] == front[j]; }
      if k < |front| { assert front[k] == r; }
    }
  }

  lemma NoResult(results: seq<CheckResult>, id: JsString)
    ensures ResultsOf(results, id) == [] <==> forall x :: x in results ==> x.checkId != id
  {
    ResultsOfMembers(results, id);
    if ResultsOf(results, id) != [] { assert ResultsOf(results, id)[0] in ResultsOf(results, id); }
  }

  lemma {:induction false} OneResult(results: seq<CheckResult>, id: JsString, x: CheckResult)
    ensures ResultsOf(results, id) == [x] <==> OnlyResult(results, id, x)
  {
    if results != [] {
      var front, last := results[..|results| - 1], results[|results| - 1];
      OneResult(front, id, x);
      NoResult(front, id);
      assert results == front + [last];
      OnlyResultSnoc(front, last, id, x);
      hide OnlyResult;
      OneMore(ResultsOf(front, id), last, x);
    }
  }

  lemma {:induction false} FirstValidatorIsFound(pins: seq<ValidatorPin>, id: JsString, v: ValidatorPin)
    ensures ValidatorPinOf(pins, id) == Some(v) <==> FirstValidator(pins, id, v)
  {
    if pins != [] && pins[0].validatorId != id {
      FirstValidatorIsFound(pins[1..], id, v);
      if FirstValidator(pins, id, v) {
        var k :| && 0 <= k < |pins| && pins[k] == v && forall j :: 0 <= j < k ==> pins[j].validatorId != id;
        assert pins[1..][k - 1] == v;
      }
      if FirstValidator(pins[1..], id, v) {
        var k :| && 0 <= k < |pins[1..]| && pins[1..][k] == v && forall j :: 0 <= j < k ==> pins[1..][j].validatorId != id;
        assert forall j :: 0 < j <= k ==> pins[j] == pins[1..][j - 1];
        assert pins[k + 1] == v;
      }
    }
  }

  lemma {:induction false} FirstPackPinIsFound(pins: seq<PackPin>, id: JsString, p: PackPin)
    ensures PackPinOf(pins, id) == Some(p) <==> FirstPackPin(pins, id, p)
  {
    if pins != [] && pins[0].packId != id {
      FirstPackPinIsFound(pins[1..], id, p);
      if FirstPackPin(pins, id, p) {
        var k :| && 0 <= k < |pins| && pins[k] == p && forall j :: 0 <= j < k ==> pins[j].packId != id;
        assert pins[1..][k - 1] == p;
      }
      if FirstPackPin(pins[1..], id, p) {
        var k :| && 0 <= k < |pins[1..]| && pins[1..][k] == p && forall j :: 0 <= j < k ==> pins[1..][j].packId != id;
        assert forall j :: 0 < j <= k ==> pins[j] == pins[1..][j - 1];
        assert pins[k + 1] == p;
      }
    }
  }

  /** The subject of a receipt is the one check and the one result of that id, under the first pins that name it. */
  lemma SubjectExactly(hash: Hash, r: Receipt, plan: Plan, checkId: JsString, s: Subject)
    ensures SubjectOf(hash, r, plan, checkId) == Some(s) <==> Shows(hash, r, plan, checkId, s)
  {
    if SubjectOf(hash, r, plan, checkId) == Some(s) { SubjectShows(hash, r, plan, checkId, s); }
    if Shows(hash, r, plan, checkId, s) { ShownIsSubject(hash, r, plan, checkId, s); }
  }

  lemma SubjectShows(hash: Hash, r: Receipt, plan: Plan, checkId: JsString, s: Subject)
    requires SubjectOf(hash, r, plan, checkId) == Some(s)
    ensures Shows(hash, r, plan, checkId, s)
  {
    hide ChecksOf, FirstPackPin, FirstValidator, OnlyCheck, OnlyResult, PackPinOf, ResultsOf, ValidatorId, ValidatorPinOf;
    var c, x := ChecksOf(plan.checks, checkId)[0], ResultsOf(r.results, checkId)[0];
    assert ChecksOf(plan.checks, checkId) == [c] && ResultsOf(r.results, checkId) == [x];
    OneCheck(plan.checks, checkId, c);
    OneResult(r.results, checkId, x);
    var id := ValidatorId(hash, c.validator).value;
    var v, p := ValidatorPinOf(r.digests.validators, id).value, PackPinOf(plan.sources.packs, c.packId).value;
    FirstValidatorIsFound(r.digests.validators, id, v);
    FirstPackPinIsFound(plan.sources.packs, c.packId, p);
    assert v.validatorId == id by { FirstHasId(r.digests.validators, id, v); }
  }

  lemma FirstHasId(pins: seq<ValidatorPin>, id: JsString, v: ValidatorPin)
    requires FirstValidator(pins, id, v)
    ensures v.validatorId == id
  {
  }

  lemma ShownIsSubject(hash: Hash, r: Receipt, plan: Plan, checkId: JsString, s: Subject)
    requires Shows(hash, r, plan, checkId, s)
    ensures SubjectOf(hash, r, plan, checkId) == Some(s)
  {
    hide ChecksOf, FirstPackPin, FirstValidator, OnlyCheck, OnlyResult, PackPinOf, ResultsOf, ValidatorId, ValidatorPinOf;
    var c: PlanCheck, v: ValidatorPin, p: PackPin :|
      && OnlyCheck(plan.checks, checkId, c) && OnlyResult(r.results, checkId, s.result)
      && ValidatorId(hash, c.validator) == Some(v.validatorId)
      && FirstValidator(r.digests.validators, v.validatorId, v) && FirstPackPin(plan.sources.packs, c.packId, p)
      && s.control.checkId == checkId && s.control.packId == c.packId && s.control.packVersion == c.packVersion
      && s.control.packDigest == p.digest && s.control.validatorId == v.validatorId
      && s.control.validatorDigest == v.digest && s.control.phase == c.phase && s.control.effect == c.effect
      && s.control.consumer == c.consumer && s.control.kernelRelease == r.kernelRelease;
    OneCheck(plan.checks, checkId, c);
    OneResult(r.results, checkId, s.result);
    FirstValidatorIsFound(r.digests.validators, v.validatorId, v);
    FirstPackPinIsFound(plan.sources.packs, c.packId, p);
  }

  /** The reasons that make a planted run no activation. */
  lemma StructuralExactly(code: JsString)
    ensures code in STRUCTURAL_REASONS <==>
      || code == Ascii("DUPLICATE_RESULT") || code == Ascii("RESULT_BINDING_MISMATCH")
      || code == Ascii("MISSING_REQUIRED_RESULT") || code == Ascii("INFRASTRUCTURE_FAILURE")
    ensures CHECK_FIRED == Ascii("CHECK_FIRED")
  {
  }
}
