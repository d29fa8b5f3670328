/** When a compilation without errors throws all the same: the bounds that matter, and inputs that break each. */
module CompileBounds {
  import opened Base
  import opened Ordering
  import opened Subvalues
  import opened Patterns
  import opened Packs
  import opened Kahn
  import opened Compilation
  import opened PlanSchedule
  import opened PrintCost
  import opened PlanSize
  import opened PlanDraft
  import opened EvidenceDocument
  import opened InputShapes

  // ---------- what is left to check ----------

  lemma SelectedIsShaped(i: Inputs, id: JsString)
    requires DocumentsLawful(i) && KernelPacksLawful(i.mandatory) && InputsShaped(i) && id in SelectedMap(i)
    ensures PackShaped(SelectedMap(i)[id].value)
  {
    SelectedFacts(i);
    IndexFacts(i.packs);
    var p := SelectedMap(i)[id];
    assert p in Selected(i);
    hide PackShaped, SelectedMap, Selected, Index;
  }

  /** Distinct ids of a list of checks are at most as many as the checks. */
  lemma {:induction false} IdsOfChecks(checks: seq<Check>)
    ensures var ids := set c | c in checks :: c.checkId; |ids| <= |checks|
  {
    var ids := set c | c in checks :: c.checkId;
    if checks == [] {
      assert ids == {};
    } else {
      var rest := set c | c in checks[1..] :: c.checkId;
      IdsOfChecks(checks[1..]);
      assert checks == [checks[0]] + checks[1..];
      assert ids == rest + {checks[0].checkId};
    }
  }

  function DepIdsOf(sel: PackMap, deps: seq<Dep>): set<JsString> {
    set d, c | d in deps && d.packId in sel && c in sel[d.packId].value.checks :: c.checkId
  }

  lemma {:induction false} DependsOnIsShort(sel: PackMap, deps: seq<Dep>)
    requires forall id :: id in sel ==> |sel[id].value.checks| <= 128
    ensures |DepIdsOf(sel, deps)| <= 128 * |deps|
  {
    if deps == [] {
      assert DepIdsOf(sel, deps) == {};
    } else {
      var d := deps[0];
      var first: set<JsString> := if d.packId in sel then set c | c in sel[d.packId].value.checks :: c.checkId else {};
      if d.packId in sel { IdsOfChecks(sel[d.packId].value.checks); }
      DependsOnIsShort(sel, deps[1..]);
      assert deps == [d] + deps[1..];
      assert DepIdsOf(sel, deps) == first + DepIdsOf(sel, deps[1..]);
    }
  }

  lemma DependsOnIsShaped(i: Inputs, id: JsString)
    requires DocumentsLawful(i) && KernelPacksLawful(i.mandatory) && InputsShaped(i) && id in SelectedMap(i)
    ensures var dependsOn := Sorted(DepCheckIds(SelectedMap(i), id));
      && |dependsOn| <= MAX_DEPENDS_ON && NoDuplicates(dependsOn) && forall d :: d in dependsOn ==> IsKebabId(d)
  {
    var sel := SelectedMap(i);
    forall x | x in sel ensures PackShaped(sel[x].value) { SelectedIsShaped(i, x); }
    hide SelectedMap, InputsShaped, DocumentsLawful, KernelPacksLawful, IsKebabId, IsSemver, ValidatorShaped,
      SettingsShaped;
    var deps, ids := sel[id].value.dependencies, DepCheckIds(sel, id);
    assert ids == DepIdsOf(sel, deps);
    DependsOnIsShort(sel, deps);
    SortedFacts(ids);
    IncreasingNoDuplicates(Sorted(ids));
    DistinctLength(Sorted(ids));
    forall x | x in Sorted(ids) ensures IsKebabId(x) {
      assert x in Elements(Sorted(ids));
      var d, c :| d in deps && d.packId in sel && c in sel[d.packId].value.checks && c.checkId == x;
      assert CheckShaped(c);
    }
  }

  /** What a compilation plans of a check of the right shape has the shape of a planned check. */
  lemma PlannedIsShaped(i: Inputs, id: JsString, c: Check)
    requires DocumentsLawful(i) && KernelPacksLawful(i.mandatory) && InputsShaped(i)
    requires Declares(SelectedMap(i), id, c)
    ensures PlanCheckShaped(PlanCheckOf(SelectedMap(i), Elements(i.profile.strengthen), id, c))
  {
    SelectedFacts(i);
    SelectedIsShaped(i, id);
    DependsOnIsShaped(i, id);
    hide SelectedMap, InputsShaped, DocumentsLawful, KernelPacksLawful, DepCheckIds, PackLawful, IsKebabId, VersionShaped,
      ValidatorShaped, SettingsShaped;
    assert CheckShaped(c);
  }

  /** How many checks some packs have together. */
  function CheckTotal(packs: seq<SuppliedPack>): nat {
    SumOf(packs, ChecksOf)
  }

  function ChecksOf(p: SuppliedPack): nat {
    |p.value.checks|
  }

  lemma {:induction false} OffersCount(packs: seq<SuppliedPack>)
    ensures |Offers(packs)| == CheckTotal(packs)
  {
    if packs != [] {
      var front, last := packs[..|packs| - 1], packs[|packs| - 1];
      OffersCount(front);
      assert packs == front + [last];
      SumOfConcat(front, [last], ChecksOf);
      SumOfCons(last, [], ChecksOf);
      assert [last] + [] == [last];
    }
  }

  /** Every check of every selected pack is planned once, so the draft has as many checks as they have together. */
  lemma DraftCount(i: Inputs)
    ensures |DraftChecks(i)| == CheckTotal(Selected(i))
  {
    OffersAreGrounded(i);
    OffersCount(Selected(i));
    hide Selected, SelectedMap, CheckTotal, Offers;
  }

  lemma SomethingIsSelected(i: Inputs) returns (p: SuppliedPack)
    requires DocumentsLawful(i) && KernelPacksLawful(i.mandatory) && SelectionAgrees(i) && i.profile.packs != []
    ensures p in Selected(i) && ChecksOf(p) >= 1
  {
    var s := i.profile.packs[0];
    SelectedFacts(i);
    hide Selected, SelectedMap, DocumentsLawful, KernelPacksLawful;
    assert s in i.profile.packs && Supplies(i.packs, s);
    assert SelectionIds(i.profile.packs)[0] == s.packId;
    var q :| q in i.packs && q.value.packId == s.packId;
    var k :| 0 <= k < |i.packs| && i.packs[k] == q;
    assert PackIds(i.packs)[k] == s.packId;
    p := SelectedMap(i)[s.packId];
    assert PackLawful(p.value);
  }

  lemma SomethingIsDrafted(i: Inputs)
    requires DocumentsLawful(i) && KernelPacksLawful(i.mandatory) && SelectionAgrees(i) && i.profile.packs != []
    ensures |DraftChecks(i)| >= 1
  {
    var p := SomethingIsSelected(i);
    hide Selected, ChecksOf;
    SummandIsLess(Selected(i), p, ChecksOf);
    DraftCount(i);
  }

  lemma DraftPartsAreShaped(i: Inputs)
    requires InputsShaped(i)
    ensures HeadShaped(DraftPlan(i)) && SourcesShaped(DraftPlan(i).sources) && DraftPlan(i).checks == DraftChecks(i)
  {
    hide CheckShaped, DraftChecks, IsKebabId, IsSemver, TextOk, IsDigest, IsCommitId;
    forall pin | pin in DraftPins(i) ensures PinShaped(pin) && TextOk(pin.version) {
      var k :| 0 <= k < |DraftPins(i)| && DraftPins(i)[k] == pin;
      if k < |i.mandatory| {
        assert i.mandatory[k] in i.mandatory;
      } else {
        assert i.profile.packs[k - |i.mandatory|] in i.profile.packs;
      }
    }
  }

  /** The plan of documents of the right shape has the shape that its own schema asks for, but for its length. */
  lemma DraftIsShaped(i: Inputs)
    requires DocumentsLawful(i) && KernelPacksLawful(i.mandatory) && Compilable(i) && InputsShaped(i)
    ensures PlanShaped(DraftPlan(i))
  {
    SomethingCompiles(i);
    SomethingIsDrafted(i);
    DraftChecksAre(i);
    DraftPartsAreShaped(i);
    hide Compilable, DocumentsLawful, DraftChecks, DraftPlan, HeadShaped, InputsShaped, KernelPacksLawful,
      PlanCheckShaped, SelectedMap, SourcesShaped;
    forall pc | pc in DraftChecks(i) ensures PlanCheckShaped(pc) {
      var id, c :| Declares(SelectedMap(i), id, c)
        && pc == PlanCheckOf(SelectedMap(i), Elements(i.profile.strengthen), id, c);
      PlannedIsShaped(i, id, c);
    }
  }

  lemma SomethingCompiles(i: Inputs)
    requires Compilable(i) && InputsShaped(i)
    ensures SelectionAgrees(i) && i.profile.packs != []
  {
    hide SelectionAgrees, Composes, PackShaped, TextOk;
  }

  /**
   Documents that their schemas admit can compile without an error and without a plan for two reasons only: their
   packs have more than 4096 checks together, or the plan's canonical form is longer than a mebibyte.
   */
  lemma OnlyCountAndLengthMatter(i: Inputs)
    requires DocumentsLawful(i) && KernelPacksLawful(i.mandatory) && Compilable(i) && InputsShaped(i)
    ensures PlanFits(DraftPlan(i)) <==>
      CheckTotal(Selected(i)) <= 4_096 && PlanCost(DraftPlan(i)) <= 1_048_576
  {
    hide *;
    DraftCount(i);
    DraftPartsAreShaped(i);
    DraftIsShaped(i);
    ShapedPlanFits(DraftPlan(i));
  }
}
