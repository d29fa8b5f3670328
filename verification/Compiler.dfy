/** `compilePlan`: check the documents, gather every error, and build the canonical plan when there is none. */
module Compiler {
  import opened Base
  import opened Ordering
  import opened Sorting
  import opened Json
  import opened CanonicalJson
  import opened Plan
  import opened Packs
  import opened Kahn
  import opened KahnTheorems
  import opened Documents
  import opened Compilation
  import opened CompilerChecks
  import opened Refusals
  import opened PlanSchedule
  import opened PlanSize
  import opened PlanDraft

  /** How a compilation ends: with the first unlawful document, with all errors, with an exception, or with a plan. */
  datatype Compiled =
    | ProfileUnlawful(repeated: seq<JsString>)
    | PackUnlawful(errors: seq<PackError>)
    | Refused(reasons: seq<CompileError>)
    | Threw
    | Compiled(plan: Plan, planBytes: JsString)

  // ---------- building the checks ----------

  /** `new Set` filled with the check ids of all dependencies, sorted. */
  method DependsOn(sel: PackMap, packId: JsString) returns (ids: seq<JsString>)
    requires packId in sel && DepsMet(sel)
    ensures ids == Sorted(DepCheckIds(sel, packId))
  {
    var dependsOn: set<JsString> := {};
    var deps := sel[packId].value.dependencies;
    for k := 0 to |deps|
      invariant dependsOn == set d, c | d in deps[..k] && d.packId in sel && c in sel[d.packId].value.checks :: c.checkId
    {
      PrefixGrows(deps, k);
      assert deps[k] in deps && DepMet(sel, deps[k]);
      var checks := sel[deps[k].packId].value.checks;
      ghost var before := dependsOn;
      for j := 0 to |checks|
        invariant dependsOn == before + set c | c in checks[..j] :: c.checkId
      {
        PrefixGrows(checks, j);
        dependsOn := dependsOn + {checks[j].checkId};
      }
      assert checks[..|checks|] == checks;
    }
    assert deps[..|deps|] == deps;
    ids := Sorted(dependsOn);
  }

  function PacksIn(order: seq<JsString>, sel: PackMap): seq<SuppliedPack>
    requires forall id :: id in order ==> id in sel
  {
    seq(|order|, k requires 0 <= k < |order| => sel[order[k]])
  }

  /** The planned checks of one pack. */
  method PackPlanChecks(p: SuppliedPack, sel: PackMap, strengthened: set<JsString>) returns (checks: seq<PlanCheck>)
    requires p.value.packId in sel && sel[p.value.packId] == p && DepsMet(sel)
    ensures Grounded(OffersOf(p), sel) && checks == PlannedOffers(sel, strengthened, OffersOf(p))
  {
    checks := [];
    for k := 0 to |p.value.checks|
      invariant |checks| == k
      invariant forall j :: 0 <= j < k ==> checks[j] == PlanCheckOf(sel, strengthened, p.value.packId, p.value.checks[j])
    {
      var check := p.value.checks[k];
      var dependsOn := DependsOn(sel, p.value.packId);
      checks := checks + [PlanCheck(
        check.checkId, p.value.packId, p.value.version, check.phase,
        if check.checkId in strengthened then Blocking else check.effect,
        check.validator, check.settings, check.consumer, dependsOn)];
    }
  }

  lemma PlannedOffersConcat(sel: PackMap, strengthened: set<JsString>, xs: seq<Offer>, ys: seq<Offer>)
    requires Grounded(xs, sel) && Grounded(ys, sel)
    ensures Grounded(xs + ys, sel)
    ensures PlannedOffers(sel, strengthened, xs + ys)
            == PlannedOffers(sel, strengthened, xs) + PlannedOffers(sel, strengthened, ys)
  {
    hide PlanCheckOf;
  }

  /** The planned checks of all packs, pack by pack in pack order. */
  method PlanChecks(order: seq<JsString>, sel: PackMap, strengthened: set<JsString>) returns (checks: seq<PlanCheck>)
    requires (forall id :: id in order ==> id in sel && sel[id].value.packId == id) && DepsMet(sel)
    ensures Grounded(Offers(PacksIn(order, sel)), sel)
    ensures checks == PlannedOffers(sel, strengthened, Offers(PacksIn(order, sel)))
  {
    hide OffersOf, DepsMet;
    var packs := PacksIn(order, sel);
    checks := [];
    assert Grounded(Offers(packs[..0]), sel);
    assert PlannedOffers(sel, strengthened, Offers(packs[..0])) == [];
    for k := 0 to |packs|
      invariant Grounded(Offers(packs[..k]), sel)
      invariant checks == PlannedOffers(sel, strengthened, Offers(packs[..k]))
    {
      assert packs[..k + 1][..k] == packs[..k];
      assert packs[k] == sel[order[k]] && order[k] in order;
      var more := PackPlanChecks(packs[k], sel, strengthened);
      PlannedOffersConcat(sel, strengthened, Offers(packs[..k]), OffersOf(packs[k]));
      checks := checks + more;
    }
    assert packs[..|packs|] == packs;
  }

  // ---------- from the built list to the schedule ----------

  lemma OffersInOrder(order: seq<JsString>, sel: PackMap)
    requires WellKeyed(sel) && Elements(order) == sel.Keys && NoDuplicates(order) && ChecksDistinct(sel)
    ensures forall id :: id in order ==> id in sel
    ensures forall o :: o in Offers(PacksIn(order, sel)) <==> Declares(sel, o.packId, o.check)
    ensures NoDuplicates(OfferIds(Offers(PacksIn(order, sel))))
  {
    assert forall id :: id in order ==> id in Elements(order);
    var packs := PacksIn(order, sel);
    var offers := Offers(packs);
    OfferMembers(packs);
    hide PackLawful, Offers, ChecksDistinct;
    assert forall p :: p in packs ==> p.value.packId in sel && sel[p.value.packId] == p;
    forall o ensures o in offers <==> Declares(sel, o.packId, o.check) {
      if Declares(sel, o.packId, o.check) {
        assert o.packId in Elements(order);
        var k :| 0 <= k < |order| && order[k] == o.packId;
        assert packs[k] in packs;
      }
    }
    assert PackIds(packs) == order;
    NoDeclaredClash(offers, sel);
    NoClashNoRepeat(packs);
  }

  lemma DistinctChecksSort(order: seq<JsString>, checks: seq<PlanCheck>)
    requires DistinctCheckIds(checks)
    ensures SortedBy(PlanOrderBy(order), Sort(PlanOrderBy(order), checks))
    ensures forall pc :: pc in Sort(PlanOrderBy(order), checks) <==> pc in checks
  {
    var s := Elements(checks);
    forall x, y | x in s && y in s && x.checkId == y.checkId ensures x == y {
      var i :| 0 <= i < |checks| && checks[i] == x;
      var j :| 0 <= j < |checks| && checks[j] == y;
      SamePlace(checks, i, j);
    }
    PlanOrderIsStrict(order, s);
    forall i, j | 0 <= i < j < |checks| ensures checks[i] != checks[j] {
      assert checks[i].checkId != checks[j].checkId;
    }
    SortSorts(PlanOrderBy(order), checks, s);
    SortMembers(PlanOrderBy(order), checks);
  }

  /** Building in pack order and sorting yields the schedule. */
  lemma SortedPlanIsSchedule(sel: PackMap, strengthened: set<JsString>, order: seq<JsString>)
    requires WellKeyed(sel) && ChecksDistinct(sel)
    requires Greedy(DepGraph(sel), order) && IsTopological(DepGraph(sel), order)
    ensures (forall id :: id in order ==> id in sel) && Grounded(Offers(PacksIn(order, sel)), sel)
    ensures var checks := PlannedOffers(sel, strengthened, Offers(PacksIn(order, sel)));
            IsSchedule(sel, strengthened, order, Sort(PlanOrderBy(order), checks))
  {
    assert DepGraph(sel).Keys == sel.Keys;
    OffersInOrder(order, sel);
    var offers := Offers(PacksIn(order, sel));
    hide Offers, PlanOrderBy, ChecksDistinct, WellKeyed, Greedy, DepGraph, PlannedOffers;
    assert Grounded(offers, sel) by {
      forall o | o in offers ensures o.packId in sel { assert Declares(sel, o.packId, o.check); }
    }
    hide Grounded, Declares;
    PlannedMembers(sel, strengthened, offers);
    PlannedDistinct(sel, strengthened, offers);
    DistinctChecksSort(order, PlannedOffers(sel, strengthened, offers));
    hide OfferIds, IsPlanned, SortedBy, Sort;
  }

  // ---------- pins ----------

  method Pins(i: Inputs) returns (pins: seq<PackPin>)
    ensures pins == DraftPins(i)
  {
    pins := seq(|i.mandatory|, k requires 0 <= k < |i.mandatory| => PinOf(i.mandatory[k]))
      + seq(|i.profile.packs|, k requires 0 <= k < |i.profile.packs| => SelectionPin(i.profile.packs[k]));
  }

  // ---------- the two halves together ----------

  /** `depsOf` for every selected pack. */
  function DepLists(sel: PackMap): map<JsString, seq<JsString>> {
    map id | id in sel :: SelectedDeps(sel, id, sel[id].value.dependencies)
  }

  /** `dependencies.map((d) => d.packId).filter((d) => selected.has(d) && d !== id)`. */
  function SelectedDeps(sel: PackMap, id: JsString, deps: seq<Dep>): seq<JsString> {
    if deps == [] then []
    else (if deps[0].packId in sel && deps[0].packId != id then [deps[0].packId] else [])
         + SelectedDeps(sel, id, deps[1..])
  }

  lemma {:induction false} SelectedDepsFacts(sel: PackMap, id: JsString, deps: seq<Dep>)
    requires NoDuplicates(DepIds(deps))
    ensures NoDuplicates(SelectedDeps(sel, id, deps))
    ensures forall x :: x in SelectedDeps(sel, id, deps) <==> x in DepIds(deps) && x in sel && x != id
  {
    if deps != [] {
      var rest := deps[1..];
      assert DepIds(deps) == [deps[0].packId] + DepIds(rest);
      assert NoDuplicates(DepIds(rest)) && deps[0].packId !in DepIds(rest) by {
        forall i, j | 0 <= i < j < |rest| ensures DepIds(rest)[i] != DepIds(rest)[j] {
          assert DepIds(deps)[i + 1] != DepIds(deps)[j + 1];
        }
        forall k | 0 <= k < |rest| ensures DepIds(rest)[k] != deps[0].packId {
          assert DepIds(deps)[0] != DepIds(deps)[k + 1];
        }
      }
      SelectedDepsFacts(sel, id, rest);
    }
  }

  lemma DepListsFacts(sel: PackMap)
    requires WellKeyed(sel)
    ensures Lists(DepGraph(sel), DepLists(sel))
  {
    forall id | id in sel
      ensures NoDuplicates(DepLists(sel)[id]) && Elements(DepLists(sel)[id]) == DepGraph(sel)[id]
    {
      var deps := sel[id].value.dependencies;
      assert PackLawful(sel[id].value);
      SelectedDepsFacts(sel, id, deps);
      forall x ensures x in DepIds(deps) <==> exists d :: d in deps && d.packId == x {
        if x in DepIds(deps) {
          var k :| 0 <= k < |deps| && DepIds(deps)[k] == x;
          assert deps[k] in deps;
        }
        if d :| d in deps && d.packId == x {
          var k :| 0 <= k < |deps| && deps[k] == d;
          assert DepIds(deps)[k] == x;
        }
      }
    }
  }

  /** The errors of the pins and of the selection, and the selected packs. */
  method CheckSelection(i: Inputs) returns (errors: seq<CompileError>, packs: seq<SuppliedPack>, sel: PackMap)
    requires forall id :: id in Index(i.packs) ==> Index(i.packs)[id].value.packId == id
    ensures forall e :: e in errors <==> Violates(i, e) && (OnPins(e) || OnSelection(e))
    ensures packs == Selected(i) && sel == SelectedMap(i)
  {
    hide Chosen, Elements, Index, OnPins, OnSelection, PackIds, Violates;
    var pinErrors: seq<CompileError> := [];
    if i.contract.profileDigest != i.profileDigest { pinErrors := pinErrors + [ProfileDigestMismatch]; }
    if i.contract.profileId != i.profile.profileId { pinErrors := pinErrors + [ProfileIdentityMismatch]; }
    if i.contract.capabilityIndex != i.capabilityIndex { pinErrors := pinErrors + [CapabilityDigestMismatch]; }
    var supplied, ids, supplyErrors := IndexSupplied(i.packs);
    var kernelIds := Elements(PackIds(i.mandatory));
    var kernelErrors := KernelConflicts(kernelIds, i.profile.packs, i.packs);
    var selectionErrors;
    packs, sel, selectionErrors := SelectPacks(i.mandatory, kernelIds, supplied, i.profile.packs);
    var unselected := UnselectedPacks(ids, i.profile.packs);
    errors := pinErrors + supplyErrors + kernelErrors + selectionErrors + unselected;
    SelectionErrorsComplete(i, ids, pinErrors, supplyErrors, kernelErrors, selectionErrors, unselected);
  }

  predicate OnPins(e: CompileError) {
    e.ProfileDigestMismatch? || e.ProfileIdentityMismatch? || e.CapabilityDigestMismatch?
  }

  lemma SelectionErrorsComplete(i: Inputs, ids: seq<JsString>, pinErrors: seq<CompileError>,
      supplyErrors: seq<CompileError>, kernelErrors: seq<CompileError>, selectionErrors: seq<CompileError>,
      unselected: seq<CompileError>)
    requires forall e :: e in pinErrors <==>
      || (e.ProfileDigestMismatch? && i.contract.profileDigest != i.profileDigest)
      || (e.ProfileIdentityMismatch? && i.contract.profileId != i.profile.profileId)
      || (e.CapabilityDigestMismatch? && i.contract.capabilityIndex != i.capabilityIndex)
    requires forall id :: id in ids <==> id in PackIds(i.packs)
    requires forall e :: e in supplyErrors <==> e.DuplicatePack? && Repeats(PackIds(i.packs), e.packId)
    requires forall e :: e in kernelErrors <==>
      || (e.KernelPackRedeclared? && e.packId in Elements(PackIds(i.mandatory))
          && e.packId in SelectionIds(i.profile.packs))
      || (e.KernelPackSupplied? && e.packId in Elements(PackIds(i.mandatory)) && e.packId in PackIds(i.packs))
    requires forall e :: e in selectionErrors <==>
      SelectionFault(Elements(PackIds(i.mandatory)), Index(i.packs), i.profile.packs, e)
    requires forall e :: e in unselected <==>
      e.PackNotSelected? && e.packId in ids && e.packId !in SelectionIds(i.profile.packs)
    ensures forall e :: e in pinErrors + supplyErrors + kernelErrors + selectionErrors + unselected
                        <==> Violates(i, e) && (OnPins(e) || OnSelection(e))
  {
    FaultKinds(i);
    hide Acyclic, DepFault, DepGraph, Elements, FirstChecks, Index, OfferIds, Offers, PackIds, PhaseFault, Repeats,
      Selected, SelectedMap, SelectionFault, SelectionIds, ValidatorFault;
  }

  /** The errors of the selected packs taken together, and their order. */
  method CheckComposition(i: Inputs, packs: seq<SuppliedPack>, sel: PackMap)
    returns (errors: seq<CompileError>, order: seq<JsString>)
    requires packs == Selected(i) && sel == SelectedMap(i)
    requires forall p :: p in packs ==> p.value.checks != []
    requires Lists(DepGraph(sel), DepLists(sel)) && Closed(DepGraph(sel))
    ensures forall e :: e in errors <==> Violates(i, e) && !OnPins(e) && !OnSelection(e)
    ensures Greedy(DepGraph(sel), order)
  {
    hide *;
    var depErrors := DependencyErrors(packs, sel);
    var phaseErrors := PhaseErrors(packs, sel);
    order := PackOrder(DepLists(sel), DepGraph(sel));
    CompleteBySize(sel, order);
    var cycle: seq<CompileError> := if |order| != |sel| then [DependencyCycle] else [];
    var checkById, ownerErrors := OwnerErrors(packs, i.builtinIds, i.admits);
    var strengthenErrors := StrengthenErrors(i.profile.strengthen, checkById);
    errors := depErrors + phaseErrors + cycle + ownerErrors + strengthenErrors;
    CompositionErrorsComplete(i, depErrors, phaseErrors, cycle, ownerErrors, strengthenErrors);
  }

  lemma CompositionErrorsComplete(i: Inputs, depErrors: seq<CompileError>, phaseErrors: seq<CompileError>,
      cycle: seq<CompileError>, ownerErrors: seq<CompileError>, strengthenErrors: seq<CompileError>)
    requires forall e :: e in depErrors <==> DepFault(Selected(i), SelectedMap(i), e)
    requires forall e :: e in phaseErrors <==> PhaseFault(Selected(i), SelectedMap(i), e)
    requires forall e :: e in cycle <==> e.DependencyCycle? && !Acyclic(DepGraph(SelectedMap(i)))
    requires forall e :: e in ownerErrors <==>
      || (e.DuplicateCheck? && Repeats(OfferIds(Offers(Selected(i))), e.checkId))
      || (e.UnknownValidator? && ValidatorFault(Offers(Selected(i)), i.builtinIds, i.admits, e.checkId))
    requires forall e :: e in strengthenErrors <==>
      || (e.UnknownStrengthened? && e.checkId in i.profile.strengthen
          && e.checkId !in FirstChecks(Offers(Selected(i))))
      || (e.StrengthenConflict? && e.checkId in i.profile.strengthen
          && e.checkId in FirstChecks(Offers(Selected(i)))
          && FirstChecks(Offers(Selected(i)))[e.checkId].consumer.EvidenceOnly?)
    ensures forall e :: e in depErrors + phaseErrors + cycle + ownerErrors + strengthenErrors
                        <==> Violates(i, e) && !OnPins(e) && !OnSelection(e)
  {
    FaultKinds(i);
    hide Acyclic, DepFault, DepGraph, Elements, FirstChecks, Index, OfferIds, Offers, PackIds, PhaseFault, Repeats,
      Selected, SelectedMap, SelectionFault, SelectionIds, ValidatorFault;
  }

  /** Everything between document validation and the plan: the selection, the order, and all errors. */
  method CheckInputs(i: Inputs)
    returns (errors: seq<CompileError>, sel: PackMap, order: seq<JsString>)
    requires DocumentsLawful(i) && KernelPacksLawful(i.mandatory)
    ensures forall e :: e in errors <==> Violates(i, e)
    ensures sel == SelectedMap(i) && Greedy(DepGraph(sel), order)
  {
    CheckFacts(i);
    hide *;
    var selectionErrors, packs;
    selectionErrors, packs, sel := CheckSelection(i);
    var compositionErrors;
    compositionErrors, order := CheckComposition(i, packs, sel);
    errors := selectionErrors + compositionErrors;
  }

  lemma CheckFacts(i: Inputs)
    requires DocumentsLawful(i) && KernelPacksLawful(i.mandatory)
    ensures forall p :: p in Selected(i) ==> p.value.checks != []
    ensures forall id :: id in Index(i.packs) ==> Index(i.packs)[id].value.packId == id
    ensures Lists(DepGraph(SelectedMap(i)), DepLists(SelectedMap(i))) && Closed(DepGraph(SelectedMap(i)))
  {
    SelectedFacts(i);
    forall p | p in Selected(i) ensures p.value.checks != [] {
      assert PackLawful(SelectedMap(i)[p.value.packId].value);
    }
    IndexFacts(i.packs);
    DepListsFacts(SelectedMap(i));
    DepGraphIsClosed(SelectedMap(i));
  }

  lemma CompleteBySize(sel: PackMap, order: seq<JsString>)
    requires Greedy(DepGraph(sel), order)
    ensures |order| == |sel| <==> Acyclic(DepGraph(sel))
  {
    DepGraphIsClosed(sel);
    assert DepGraph(sel).Keys == sel.Keys;
    assert |sel.Keys| == |sel|;
    CompleteExactlyWhenAcyclic(DepGraph(sel), order);
  }

  /** Which constructors a fault of each group can have. */
  lemma FaultKinds(i: Inputs)
    ensures forall e :: SelectionFault(Elements(PackIds(i.mandatory)), Index(i.packs), i.profile.packs, e) ==>
      e.PackNotFound? || e.PackVersionMismatch? || e.PackDigestMismatch?
    ensures forall e :: DepFault(Selected(i), SelectedMap(i), e) ==>
      e.DependencyUnsatisfied? || e.DependencyDigestMismatch?
    ensures forall e :: PhaseFault(Selected(i), SelectedMap(i), e) ==> e.PhaseConflict?
  {
  }

  /** The first unlawful document, with everything it violates. */
  ghost predicate StopsAt(i: Inputs, out: Compiled) {
    || (out.ProfileUnlawful? && forall id :: id in out.repeated <==> Repeats(SelectionIds(i.profile.packs), id))
    || (out.PackUnlawful? && exists k ::
          && 0 <= k < |i.packs| && (forall j :: 0 <= j < k ==> PackLawful(i.packs[j].value))
          && out.errors != [] && forall e :: e in out.errors <==> PackViolates(i.packs[k].value, e))
  }

  /** The unlawful document that stops a compilation, if any. */
  method CheckDocuments(i: Inputs) returns (stop: Option<Compiled>)
    requires forall p :: p in i.packs ==> p.value.checks != []
    ensures stop.None? <==> DocumentsLawful(i)
    ensures stop.Some? ==> stop.value.ProfileUnlawful? || stop.value.PackUnlawful?
    ensures stop.Some? && stop.value.ProfileUnlawful? <==> !NoDuplicates(SelectionIds(i.profile.packs))
    ensures stop.Some? ==> StopsAt(i, stop.value)
  {
    var repeated := DuplicateIds(SelectionIds(i.profile.packs));
    if repeated != [] { return Some(ProfileUnlawful(repeated)); }
    hide PackLawful, PackViolates;
    for k := 0 to |i.packs|
      invariant forall j :: 0 <= j < k ==> PackLawful(i.packs[j].value)
    {
      var p := i.packs[k];
      assert p in i.packs;
      var errors := PackErrors(p.value);
      if errors != [] { return Some(PackUnlawful(errors)); }
    }
    return None;
  }

  /** `compilePlan`. */
  method CompilePlan(i: Inputs) returns (out: Compiled)
    requires KernelPacksLawful(i.mandatory) && forall p :: p in i.packs ==> p.value.checks != []
    ensures out.ProfileUnlawful? || out.PackUnlawful? <==> !DocumentsLawful(i)
    ensures out.ProfileUnlawful? <==> !NoDuplicates(SelectionIds(i.profile.packs))
    ensures out.ProfileUnlawful? || out.PackUnlawful? ==> StopsAt(i, out)
    ensures DocumentsLawful(i) ==> (out.Refused? <==> !Compilable(i))
    ensures out.Refused? ==> forall e :: e in out.reasons <==> Violates(i, e)
    ensures out.Compiled? ==> IsPlan(i, out.plan) && Canonicalize(PlanJson(out.plan), CANONICAL_BOUNDS) == Ok(out.planBytes)
    ensures out.Threw? <==> DocumentsLawful(i) && Compilable(i) && !PlanFits(DraftPlan(i))
  {
    hide Canonicalize, Compilable, DocumentsLawful, Elements, IsPin, IsSchedule, KernelPacksLawful, PinBefore,
      PlanJson, PlanOrderBy, SelectedMap, Sort, SortedBy, Violates;
    var stop := CheckDocuments(i);
    if stop.Some? { return stop.value; }
    var errors, sel, order := CheckInputs(i);
    CompilableExactly(i);
    if errors != [] {
      assert errors[0] in errors;
      return Refused(errors);
    }
    CompilableParts(i, order);
    SortedPlanIsSchedule(sel, Elements(i.profile.strengthen), order);
    var checks := PlanChecks(order, sel, Elements(i.profile.strengthen));
    checks := Sort(PlanOrderBy(order), checks);
    var pins := Pins(i);
    PinsSort(i, pins);
    var plan := Plan(
      i.kernelRelease, i.contract.repositoryId, i.contract.baseCommit, i.contract.candidate, i.profile.profileId,
      SourceDigests(i.contract.digest, i.profileDigest, i.capabilityIndex, Sort(PinBefore, pins)), checks);
    assert IsPlan(i, plan);
    hide IsPlan, DraftPlan, PlanCounts, PlanPrints;
    PromisedPlanIsDraft(i, plan);
    if !PlanCounts(plan) { return Threw; }
    PlanRulesNeverFire(i, plan);
    var planErrors := PlanErrors(plan.checks);
    if planErrors != [] { assert false; }
    PlanPrintsExactly(plan);
    var bytes := Canonicalize(PlanJson(plan), CANONICAL_BOUNDS);
    if bytes.Err? { return Threw; }
    return Compiled(plan, bytes.value);
  }

  lemma CompilableParts(i: Inputs, order: seq<JsString>)
    requires DocumentsLawful(i) && KernelPacksLawful(i.mandatory) && Compilable(i)
    requires Greedy(DepGraph(SelectedMap(i)), order)
    ensures WellKeyed(SelectedMap(i)) && ChecksDistinct(SelectedMap(i)) && DepsMet(SelectedMap(i))
    ensures SelectionAgrees(i) && IsTopological(DepGraph(SelectedMap(i)), order)
    ensures forall id :: id in order ==> id in SelectedMap(i) && SelectedMap(i)[id].value.packId == id
  {
    SelectedFacts(i);
    DepGraphIsClosed(SelectedMap(i));
    CompleteExactlyWhenAcyclic(DepGraph(SelectedMap(i)), order);
    assert forall id :: id in order ==> id in Elements(order);
  }
}
