/** The plan a compilation is about to build, before anything is ordered, and the same plan in plan order. */
module PlanDraft {
  import opened Base
  import opened Ordering
  import opened Sorting
  import opened Plan
  import opened Packs
  import opened Compilation
  import opened Refusals
  import opened PlanSchedule
  import opened PlanSize

  // ---------- planned checks ----------

  /** Every offer's planned form, in the order of the offers. */
  function PlannedOffers(sel: PackMap, strengthened: set<JsString>, offers: seq<Offer>): seq<PlanCheck>
    requires forall o :: o in offers ==> o.packId in sel
  {
    seq(|offers|, k requires 0 <= k < |offers| => PlanCheckOf(sel, strengthened, offers[k].packId, offers[k].check))
  }

  ghost predicate Grounded(offers: seq<Offer>, sel: PackMap) {
    forall o :: o in offers ==> o.packId in sel
  }

  /** The map of packs is keyed by their own ids, and every pack is lawful. */
  ghost predicate WellKeyed(sel: PackMap) {
    forall id :: id in sel ==> sel[id].value.packId == id && PackLawful(sel[id].value)
  }

  lemma PlannedMembers(sel: PackMap, strengthened: set<JsString>, offers: seq<Offer>)
    requires Grounded(offers, sel) && forall o :: o in offers <==> Declares(sel, o.packId, o.check)
    ensures forall pc :: pc in PlannedOffers(sel, strengthened, offers) <==> IsPlanned(sel, strengthened, pc)
  {
    var checks := PlannedOffers(sel, strengthened, offers);
    forall pc ensures pc in checks <==> IsPlanned(sel, strengthened, pc) {
      if pc in checks {
        var k :| 0 <= k < |checks| && checks[k] == pc;
        assert offers[k] in offers;
        assert Declares(sel, offers[k].packId, offers[k].check);
      }
      if IsPlanned(sel, strengthened, pc) {
        var id, c := PlannedFrom(sel, strengthened, pc);
        assert Offer(id, c) in offers;
        var k :| 0 <= k < |offers| && offers[k] == Offer(id, c);
        assert checks[k] == pc;
      }
    }
  }

  lemma PlannedDistinct(sel: PackMap, strengthened: set<JsString>, offers: seq<Offer>)
    requires Grounded(offers, sel) && NoDuplicates(OfferIds(offers))
    ensures DistinctCheckIds(PlannedOffers(sel, strengthened, offers))
  {
    var checks := PlannedOffers(sel, strengthened, offers);
    forall i, j | 0 <= i < j < |checks| ensures checks[i].checkId != checks[j].checkId {
      assert checks[i].checkId == OfferIds(offers)[i] && checks[j].checkId == OfferIds(offers)[j];
    }
  }

  lemma NoDeclaredClash(offers: seq<Offer>, sel: PackMap)
    requires ChecksDistinct(sel) && forall o :: o in offers ==> Declares(sel, o.packId, o.check)
    ensures !Clash(offers)
  {
    hide Declares;
  }

  // ---------- pins ----------

  /** The pins in the order their packs are taken up: the kernel's, then the profile's. */
  function DraftPins(i: Inputs): seq<PackPin> {
    seq(|i.mandatory|, k requires 0 <= k < |i.mandatory| => PinOf(i.mandatory[k]))
    + seq(|i.profile.packs|, k requires 0 <= k < |i.profile.packs| => SelectionPin(i.profile.packs[k]))
  }

  lemma PinsSort(i: Inputs, pins: seq<PackPin>)
    requires KernelPacksLawful(i.mandatory) && DocumentsLawful(i) && SelectionAgrees(i)
    requires pins == DraftPins(i)
    ensures SortedBy(PinBefore, Sort(PinBefore, pins))
    ensures forall pin :: pin in Sort(PinBefore, pins) <==> IsPin(i, pin)
  {
    var ids := PackIds(i.mandatory) + SelectionIds(i.profile.packs);
    PinIdsDistinct(i);
    PinMembers(i, pins);
    PinIdsAre(i, pins);
    hide *;
    DistinctPinsSort(pins, ids);
  }

  lemma PinIdsAre(i: Inputs, pins: seq<PackPin>)
    requires |pins| == |i.mandatory| + |i.profile.packs|
    requires forall k :: 0 <= k < |i.mandatory| ==> pins[k] == PinOf(i.mandatory[k])
    requires forall k :: 0 <= k < |i.profile.packs| ==> pins[|i.mandatory| + k] == SelectionPin(i.profile.packs[k])
    ensures var ids := PackIds(i.mandatory) + SelectionIds(i.profile.packs);
            |ids| == |pins| && forall k :: 0 <= k < |pins| ==> pins[k].packId == ids[k]
  {
    forall k | |i.mandatory| <= k < |pins|
      ensures pins[k].packId == SelectionIds(i.profile.packs)[k - |i.mandatory|]
    {
      assert pins[|i.mandatory| + (k - |i.mandatory|)] == SelectionPin(i.profile.packs[k - |i.mandatory|]);
    }
  }

  lemma PinIdsDistinct(i: Inputs)
    requires KernelPacksLawful(i.mandatory) && DocumentsLawful(i) && SelectionAgrees(i)
    ensures NoDuplicates(PackIds(i.mandatory) + SelectionIds(i.profile.packs))
  {
    hide PackLawful, Supplies;
    ConcatNoDuplicates(PackIds(i.mandatory), SelectionIds(i.profile.packs));
  }

  lemma PinMembers(i: Inputs, pins: seq<PackPin>)
    requires |pins| == |i.mandatory| + |i.profile.packs|
    requires forall k :: 0 <= k < |i.mandatory| ==> pins[k] == PinOf(i.mandatory[k])
    requires forall k :: 0 <= k < |i.profile.packs| ==> pins[|i.mandatory| + k] == SelectionPin(i.profile.packs[k])
    ensures forall pin :: pin in pins <==> IsPin(i, pin)
  {
    forall pin ensures pin in pins <==> IsPin(i, pin) {
      if pin in pins {
        var k :| 0 <= k < |pins| && pins[k] == pin;
        if k < |i.mandatory| {
          assert i.mandatory[k] in i.mandatory;
        } else {
          assert i.profile.packs[k - |i.mandatory|] in i.profile.packs;
          assert pins[|i.mandatory| + (k - |i.mandatory|)] == pin;
        }
      }
    }
  }

  lemma DistinctPinsSort(pins: seq<PackPin>, ids: seq<JsString>)
    requires NoDuplicates(ids) && |ids| == |pins| && forall k :: 0 <= k < |pins| ==> pins[k].packId == ids[k]
    ensures SortedBy(PinBefore, Sort(PinBefore, pins))
    ensures forall pin :: pin in Sort(PinBefore, pins) <==> pin in pins
  {
    var s := Elements(pins);
    forall x, y | x in s && y in s && x.packId == y.packId ensures x == y {
      var j :| 0 <= j < |pins| && pins[j] == x;
      var k :| 0 <= k < |pins| && pins[k] == y;
      RepeatedIndex(ids, j, k);
    }
    PinOrderIsStrict(s);
    forall j, k | 0 <= j < k < |pins| ensures pins[j] != pins[k] {
      assert ids[j] != ids[k];
    }
    SortSorts(PinBefore, pins, s);
    SortMembers(PinBefore, pins);
  }

  // ---------- the draft ----------

  lemma OffersAreGrounded(i: Inputs)
    ensures Grounded(Offers(Selected(i)), SelectedMap(i))
  {
    OfferMembers(Selected(i));
    IndexFacts(Selected(i));
    forall o | o in Offers(Selected(i)) ensures o.packId in SelectedMap(i) {
      var p :| p in Selected(i) && p.value.packId == o.packId && o.check in p.value.checks;
      var k :| 0 <= k < |Selected(i)| && Selected(i)[k] == p;
      assert PackIds(Selected(i))[k] == o.packId;
    }
  }

  /** The checks of the selected packs, in the order they are taken up, each in its planned form. */
  function DraftChecks(i: Inputs): seq<PlanCheck> {
    OffersAreGrounded(i);
    PlannedOffers(SelectedMap(i), Elements(i.profile.strengthen), Offers(Selected(i)))
  }

  /** The plan of a compilation, but for the order of its checks and of its pins. */
  function DraftPlan(i: Inputs): Plan {
    Plan(
      i.kernelRelease, i.contract.repositoryId, i.contract.baseCommit, i.contract.candidate, i.profile.profileId,
      SourceDigests(i.contract.digest, i.profileDigest, i.capabilityIndex, DraftPins(i)), DraftChecks(i))
  }

  lemma DraftChecksAre(i: Inputs)
    requires DocumentsLawful(i) && KernelPacksLawful(i.mandatory) && ChecksDistinct(SelectedMap(i))
    ensures forall pc :: pc in DraftChecks(i) <==> IsPlanned(SelectedMap(i), Elements(i.profile.strengthen), pc)
    ensures DistinctCheckIds(DraftChecks(i))
  {
    OffersAreGrounded(i);
    OffersAreDeclared(i);
    DistinctExactly(i);
    hide SelectedMap, Selected, Offers, DocumentsLawful, KernelPacksLawful, ChecksDistinct;
    PlannedMembers(SelectedMap(i), Elements(i.profile.strengthen), Offers(Selected(i)));
    PlannedDistinct(SelectedMap(i), Elements(i.profile.strengthen), Offers(Selected(i)));
  }

  /** The promised plan is the draft in another order, so both fit or neither does. */
  lemma PromisedPlanIsDraft(i: Inputs, plan: Plan)
    requires DocumentsLawful(i) && KernelPacksLawful(i.mandatory) && Compilable(i) && IsPlan(i, plan)
    ensures SameButOrder(plan, DraftPlan(i))
    ensures PlanFits(plan) <==> PlanFits(DraftPlan(i))
  {
    PromisedChecks(i, plan);
    PromisedPins(i, plan);
    hide DraftChecks, DraftPins, Compilable, DocumentsLawful, KernelPacksLawful, IsPlan, PlanFits;
    assert SameButOrder(plan, DraftPlan(i)) by { PlanHead(i, plan); }
    FitIgnoresOrder(plan, DraftPlan(i));
  }

  lemma PlanHead(i: Inputs, plan: Plan)
    requires IsPlan(i, plan)
    ensures plan == DraftPlan(i).(checks := plan.checks, sources := DraftPlan(i).sources.(packs := plan.sources.packs))
  {
  }

  lemma PromisedChecks(i: Inputs, plan: Plan)
    requires DocumentsLawful(i) && KernelPacksLawful(i.mandatory) && Compilable(i) && IsPlan(i, plan)
    ensures multiset(plan.checks) == multiset(DraftChecks(i))
  {
    PlanRulesNeverFire(i, plan);
    DraftChecksAre(i);
    var order :| IsSchedule(SelectedMap(i), Elements(i.profile.strengthen), order, plan.checks);
    hide DraftChecks, SelectedMap, IsPlanned, DocumentsLawful, KernelPacksLawful;
    DistinctIdsDistinct(plan.checks);
    DistinctIdsDistinct(DraftChecks(i));
    assert forall pc :: pc in plan.checks <==> pc in DraftChecks(i);
    SameMembersPermute(plan.checks, DraftChecks(i));
  }

  lemma DistinctIdsDistinct(checks: seq<PlanCheck>)
    requires DistinctCheckIds(checks)
    ensures NoDuplicates(checks)
  {
    forall j, k | 0 <= j < k < |checks| ensures checks[j] != checks[k] {
      assert checks[j].checkId != checks[k].checkId;
    }
  }

  lemma PromisedPins(i: Inputs, plan: Plan)
    requires DocumentsLawful(i) && KernelPacksLawful(i.mandatory) && Compilable(i) && IsPlan(i, plan)
    ensures multiset(plan.sources.packs) == multiset(DraftPins(i))
  {
    PinIdsDistinct(i);
    PinMembers(i, DraftPins(i));
    PinIdsAre(i, DraftPins(i));
    SortedPinsDistinct(plan.sources.packs);
    hide DraftPins, IsPin;
    var ids := PackIds(i.mandatory) + SelectionIds(i.profile.packs);
    forall j, k | 0 <= j < k < |DraftPins(i)| ensures DraftPins(i)[j] != DraftPins(i)[k] { assert ids[j] != ids[k]; }
    assert forall pin :: pin in plan.sources.packs <==> pin in DraftPins(i);
    SameMembersPermute(plan.sources.packs, DraftPins(i));
  }

  lemma SortedPinsDistinct(pins: seq<PackPin>)
    requires SortedBy(PinBefore, pins)
    ensures NoDuplicates(pins)
  {
    forall j, k | 0 <= j < k < |pins| ensures pins[j] != pins[k] {
      assert PinBefore(pins[j], pins[k]);
      LessIrreflexive(pins[j].packId);
    }
  }
}
