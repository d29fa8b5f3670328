/** Anchoring and finalizing in one go: when a run's evidence store can be sealed. */
module Sealing {
  import opened Base
  import opened Patterns
  import opened Ordering
  import opened Sorting
  import opened Plan
  import opened Evaluator
  import opened Documents
  import opened EvidenceDocument
  import opened EvidenceStore
  import opened IndexSize
  import opened InputShapes
  import opened PrintCost
  import opened Receipt
  import opened ReceiptAssembly

  // ---------- the shape of an anchor ----------

  /** The longest check id whose anchor has an id of at most 128 characters. */
  const MAX_ANCHORED_ID: nat := 121

  /** What the schema of a plan says about the ids of a check. */
  predicate PlanIdsShaped(plan: Plan) {
    forall c :: c in plan.checks ==> IsKebabId(c.checkId) && (c.validator.Builtin? ==> IsVersionedId(c.validator.builtinId))
  }

  lemma AnchorIdIsKebab(id: JsString)
    requires IsKebab(id)
    ensures IsKebab(ANCHOR_PREFIX + id) && |ANCHOR_PREFIX + id| == |id| + 7
  {
    assert ANCHOR_PREFIX == [0x72, 0x65, 0x73, 0x75, 0x6C, 0x74] + [0x2D];
    KebabsJoin([0x72, 0x65, 0x73, 0x75, 0x6C, 0x74], id);
  }

  lemma TargetIdsAreShaped(d: Digest)
    requires IsDigest(d)
    ensures IsValidatorRef(TARGET_PREFIX + d)
  {
    var s := TARGET_PREFIX + d;
    assert TARGET_PREFIX + DIGEST_PREFIX == TARGET_DIGEST_PREFIX;
    assert d == DIGEST_PREFIX + d[|DIGEST_PREFIX|..];
    assert s == TARGET_DIGEST_PREFIX + d[|DIGEST_PREFIX|..];
    assert |TARGET_DIGEST_PREFIX| == 14;
    hide TARGET_DIGEST_PREFIX, DIGEST_PREFIX, IsLowerHex;
  }

  lemma ValidatorIdsAreShaped(hash: Hash, v: Validator)
    requires PrintsDigests(hash) && ValidatorId(hash, v).Some?
    requires v.Builtin? ==> IsVersionedId(v.builtinId)
    ensures IsValidatorRef(ValidatorId(hash, v).value)
  {
    if v.TargetCommand? {
      var d := CanonicalDigest(hash, Strings(v.argv)).value;
      assert IsDigest(d);
      TargetIdsAreShaped(d);
    }
  }

  /** The anchor of a planned check's result is an artifact that the index schema admits unless the check id is too long. */
  lemma AnchorShapedExactly(hash: Hash, plan: Plan, x: CheckResult)
    requires PrintsDigests(hash) && Anchorable(hash, plan, x) && PlanIdsShaped(plan)
    ensures ArtifactShaped(AnchorOf(hash, plan, x)) <==> |x.checkId| <= MAX_ANCHORED_ID
  {
    CheckNamedIsMember(plan.checks, x.checkId);
    AnchorIdIsKebab(x.checkId);
    ValidatorIdsAreShaped(hash, CheckNamed(plan.checks, x.checkId).value.validator);
    assert IsDigest(AnchorOf(hash, plan, x).digest);
    hide IsKebab, IsValidatorRef, IsDigest, ValidatorId, ANCHOR_PREFIX, CheckNamed;
  }

  /** A plan of the shape its schema asks for has check ids and a binding of the shape that the index asks for. */
  lemma ShapedPlansBind(plan: Plan, planDigest: Digest)
    requires PlanShaped(plan) && IsDigest(planDigest)
    ensures PlanIdsShaped(plan)
    ensures BindingShaped(Binding(plan.repositoryId, plan.baseCommit, plan.candidate.id, plan.sources.workContract,
                                  plan.sources.profile, plan.sources.packs, planDigest))
  {
    hide IsKebabId, IsDigest, IsCommitId, PinShaped, IsVersionedId, SettingsShaped, VersionShaped, ReleaseShaped;
    forall c | c in plan.checks
      ensures IsKebabId(c.checkId) && (c.validator.Builtin? ==> IsVersionedId(c.validator.builtinId))
    {
      assert PlanCheckShaped(c);
    }
  }

  const TARGET_STDOUT: JsString := Ascii("target-stdout-")
  const TARGET_REPORT: JsString := Ascii("target-report-")

  /** The longest check id of a target command whose artifacts have ids of at most 128 characters. */
  const MAX_TARGET_ID: nat := 114

  /** What a target command leaves behind is admitted exactly when its check id leaves room for the prefix. */
  lemma TargetArtifactsShapedExactly(id: JsString)
    requires IsKebabId(id)
    ensures IsKebabId(TARGET_STDOUT + id) <==> |id| <= MAX_TARGET_ID
    ensures IsKebabId(TARGET_REPORT + id) <==> |id| <= MAX_TARGET_ID
  {
    assert |TARGET_STDOUT| == 14 && |TARGET_REPORT| == 14;
    assert IsKebab(TARGET_STDOUT[..13]) && TARGET_STDOUT == TARGET_STDOUT[..13] + [0x2D];
    assert IsKebab(TARGET_REPORT[..13]) && TARGET_REPORT == TARGET_REPORT[..13] + [0x2D];
    KebabsJoin(TARGET_STDOUT[..13], id);
    KebabsJoin(TARGET_REPORT[..13], id);
  }

  /** Two kebab-case names with a hyphen between them. */
  lemma KebabsJoin(a: JsString, b: JsString)
    requires IsKebab(a) && IsKebab(b)
    ensures IsKebab(a + [0x2D] + b)
  {
    var s := a + [0x2D] + b;
    forall k | 0 <= k < |s| ensures s[k] == if k < |a| then a[k] else if k == |a| then 0x2D else b[k - |a| - 1] {}
    forall k | 0 <= k < |s| - 1 ensures !(s[k] == 0x2D && s[k + 1] == 0x2D) {
      if k > |a| { assert s[k + 1] == b[k + 1 - |a| - 1]; }
    }
  }

  // ---------- the index of a run ----------

  /** The order of the artifacts decides neither whether the schema admits an index nor whether it can be printed. */
  lemma ArtifactOrderIsFree(binding: Binding, xs: seq<Artifact>, ys: seq<Artifact>)
    requires multiset(xs) == multiset(ys)
    ensures IndexShaped(IndexDoc(binding, xs)) <==> IndexShaped(IndexDoc(binding, ys))
    ensures IndexFits(IndexDoc(binding, xs)) <==> IndexFits(IndexDoc(binding, ys))
  {
    assert |xs| == |multiset(xs)| == |ys|;
    SameMembers(xs, ys);
    ArrayCostIgnoresOrder(xs, ys, ArtifactCost);
    hide ArrayCost, ArtifactCost, ArtifactOk, BindingOk, BindingCost, ArtifactShaped, BindingShaped;
  }

  /** The index of a run: what was indexed while the checks ran, and the anchors of their results. */
  function RunIndex(e: EvidenceIndex, plan: Plan, results: seq<CheckResult>): IndexDoc
    reads e
    requires AllAnchorable(e.hash, plan, results)
  {
    IndexDoc(e.binding, e.artifacts + AnchorsOf(e.hash, plan, results))
  }

  /** The binding and what the store holds before anchoring are as the index schema wants them. */
  predicate RunShaped(binding: Binding, artifacts: seq<Artifact>) {
    BindingShaped(binding) && forall a :: a in artifacts ==> ArtifactShaped(a)
  }

  /**
   An index that can be printed is refused exactly for what was in the store before the anchors, or for a check id that
   is too long.
   */
  lemma LongIdsDecide(hash: Hash, binding: Binding, plan: Plan, artifacts: seq<Artifact>, results: seq<CheckResult>)
    requires PrintsDigests(hash) && AllAnchorable(hash, plan, results) && PlanIdsShaped(plan)
    ensures var index := IndexDoc(binding, artifacts + AnchorsOf(hash, plan, results));
      IndexFits(index) ==>
        (IndexShaped(index) <==>
          RunShaped(binding, artifacts) && forall x :: x in results ==> |x.checkId| <= MAX_ANCHORED_ID)
  {
    var anchors := AnchorsOf(hash, plan, results);
    forall k | 0 <= k < |results| ensures ArtifactShaped(anchors[k]) <==> |results[k].checkId| <= MAX_ANCHORED_ID {
      AnchorShapedExactly(hash, plan, results[k]);
    }
    hide ArtifactShaped, BindingShaped, ArtifactOk, BindingOk, IndexCost, AllAnchorable, AnchorsOf, PlanIdsShaped,
      PrintsDigests;
    ShapedInTwo(artifacts, anchors);
    AnchorsShaped(results, anchors);
  }

  lemma ShapedInTwo(xs: seq<Artifact>, ys: seq<Artifact>)
    ensures (forall a :: a in xs + ys ==> ArtifactShaped(a)) <==>
      (forall a :: a in xs ==> ArtifactShaped(a)) && (forall a :: a in ys ==> ArtifactShaped(a))
  {
    hide ArtifactShaped;
    assert forall a :: a in xs + ys <==> a in xs || a in ys;
  }

  lemma AnchorsShaped(results: seq<CheckResult>, anchors: seq<Artifact>)
    requires |anchors| == |results|
    requires forall k :: 0 <= k < |results| ==> (ArtifactShaped(anchors[k]) <==> |results[k].checkId| <= MAX_ANCHORED_ID)
    ensures (forall a :: a in anchors ==> ArtifactShaped(a)) <==>
      (forall x :: x in results ==> |x.checkId| <= MAX_ANCHORED_ID)
  {
    hide ArtifactShaped;
    forall k | 0 <= k < |results| ensures anchors[k] in anchors && results[k] in results {}
  }

  // ---------- sealing ----------

  /** How anchoring and finalizing end: a refusal, an exception that nothing catches, or a sealed store. */
  datatype Sealing = AnchoringFailed | FinalizeThrew | Sealed(finalized: Finalized)

  /** The end of `evaluateCandidate`: every result is anchored, then the index is finalized, outside any `try`. */
  method Seal(e: EvidenceIndex, plan: Plan, results: seq<CheckResult>, writable: nat -> bool) returns (r: Sealing)
    requires e.Valid() && !e.finalized
    modifies e
    ensures e.Valid()
    ensures r.AnchoringFailed? <==>
      !CanAnchor(e.hash, plan, results, writable, false, old(e.seenIds), e.maxTotalBytes - old(e.totalBytes))
    ensures !r.AnchoringFailed? ==>
      && AllAnchorable(e.hash, plan, results)
      && (r.Sealed? <==> IndexShaped(old(RunIndex(e, plan, results))) && IndexFits(old(RunIndex(e, plan, results))))
    ensures r.Sealed? ==> IsFinalized(e.hash, IndexDoc(e.binding, Sort(ArtifactBefore, e.artifacts)), r.finalized)
    ensures r.Sealed? ==> e.indexFile == Some(r.finalized.indexBytes)
    ensures !r.AnchoringFailed? ==> e.artifacts == old(e.artifacts) + AnchorsOf(e.hash, plan, results)
    ensures !r.AnchoringFailed? ==> forall x :: x in results ==> HasAnchor(e.hash, e.artifacts, x)
    ensures old(e.Sound()) && CollisionFree(e.hash, BytesAtHand(old(e.objects), results)) ==> e.Sound()
  {
    hide AllAnchorable, AnchorsOf, ArtifactBefore, BytesAtHand, CollisionFree, EvidenceIndex.Sound, EvidenceIndex.Valid,
      HasAnchor, IndexFits, IndexLawful, IndexShaped, IsFinalized, Sort;
    var ok := AnchorResults(e, plan, results, writable);
    if !ok { return AnchoringFailed; }
    assert AllAnchorable(e.hash, plan, results) by { CanAnchorAll(e.hash, plan, results, writable, false, old(e.seenIds),
                                                    e.maxTotalBytes - old(e.totalBytes)); }
    hide CanAnchor;
    SortKeeps(ArtifactBefore, e.artifacts);
    ArtifactOrderIsFree(e.binding, Sort(ArtifactBefore, e.artifacts), e.artifacts);
    var f := e.Finalize();
    if f.Err? {
      assert f.error.AlreadyFinalized? || f.error.InvalidIndex? || f.error.NotCanonical?;
      return FinalizeThrew;
    }
    return Sealed(f.value);
  }

  lemma CanAnchorAll(hash: Hash, plan: Plan, results: seq<CheckResult>, writable: nat -> bool, finalized: bool,
      seenIds: set<JsString>, room: int)
    requires CanAnchor(hash, plan, results, writable, finalized, seenIds, room)
    ensures AllAnchorable(hash, plan, results)
  {
  }

  /** A run whose plan has a check id of more than 121 characters is never sealed: it is refused, or finalizing throws. */
  method SealRun(e: EvidenceIndex, plan: Plan, planDigest: Digest, steps: seq<Step>, run: Run, writable: nat -> bool)
    returns (r: Sealing)
    requires e.Valid() && !e.finalized && PlanIdsShaped(plan)
    requires |steps| == |plan.checks| && IsRun(plan, planDigest, steps, run)
    modifies e
    ensures r.AnchoringFailed? <==>
      !CanAnchor(e.hash, plan, run.results, writable, false, old(e.seenIds), e.maxTotalBytes - old(e.totalBytes))
    ensures !r.AnchoringFailed? ==>
      && AllAnchorable(e.hash, plan, run.results)
      && (r.Sealed? <==>
            && RunShaped(e.binding, old(e.artifacts))
            && (forall c :: c in plan.checks ==> |c.checkId| <= MAX_ANCHORED_ID)
            && IndexFits(old(RunIndex(e, plan, run.results))))
  {
    hide IsRun, IndexShaped, IndexFits, Sort, Anchorable, CanAnchor, BytesAtHand;
    RunAnswersChecks(plan, planDigest, steps, run);
    assert PrintsDigests(e.hash);
    if AllAnchorable(e.hash, plan, run.results) {
      LongIdsDecide(e.hash, e.binding, plan, e.artifacts, run.results);
    }
    hide AllAnchorable, AnchorsOf, ArtifactBefore, CollisionFree, EvidenceIndex.Sound, EvidenceIndex.Valid, HasAnchor,
      IsFinalized, PlanIdsShaped, PrintsDigests, RunShaped;
    r := Seal(e, plan, run.results, writable);
  }

  /** The results of a run are about the checks of its plan, one for each. */
  lemma RunAnswersChecks(plan: Plan, planDigest: Digest, steps: seq<Step>, run: Run)
    requires |steps| == |plan.checks| && IsRun(plan, planDigest, steps, run)
    ensures (forall c :: c in plan.checks ==> |c.checkId| <= MAX_ANCHORED_ID) <==>
      (forall x :: x in run.results ==> |x.checkId| <= MAX_ANCHORED_ID)
  {
    hide IsRun;
    RunLength(plan, planDigest, steps, run);
    forall i | 0 <= i < |plan.checks| ensures run.results[i].checkId == plan.checks[i].checkId {
      ResultNamesItsCheck(plan, planDigest, steps, run, i);
    }
    if forall c :: c in plan.checks ==> |c.checkId| <= MAX_ANCHORED_ID {
      forall x | x in run.results ensures |x.checkId| <= MAX_ANCHORED_ID {
        var k :| 0 <= k < |run.results| && run.results[k] == x;
        assert plan.checks[k] in plan.checks;
      }
    }
    if forall x :: x in run.results ==> |x.checkId| <= MAX_ANCHORED_ID {
      forall c | c in plan.checks ensures |c.checkId| <= MAX_ANCHORED_ID {
        var k :| 0 <= k < |plan.checks| && plan.checks[k] == c;
        assert run.results[k] in run.results;
      }
    }
  }
}
