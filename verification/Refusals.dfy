/** The reasons for refusal are exactly the failures of what a compilation needs. */
module Refusals {
  import opened Base
  import opened Plan
  import opened Packs
  import opened Kahn
  import opened Compilation

  // ---------- offers ----------

  lemma {:induction false} OfferMembers(packs: seq<SuppliedPack>)
    ensures forall o :: o in Offers(packs) <==>
      exists p :: p in packs && p.value.packId == o.packId && o.check in p.value.checks
  {
    if packs != [] {
      var front, last := packs[..|packs| - 1], packs[|packs| - 1];
      OfferMembers(front);
      assert packs == front + [last];
      forall o ensures o in OffersOf(last) <==> last.value.packId == o.packId && o.check in last.value.checks {
        if o.packId == last.value.packId && o.check in last.value.checks {
          var k :| 0 <= k < |last.value.checks| && last.value.checks[k] == o.check;
          assert OffersOf(last)[k] == o;
        }
      }
    }
  }

  /** An offer of the selected packs is a declaration in the selected map. */
  lemma OffersAreDeclared(i: Inputs)
    requires DocumentsLawful(i) && KernelPacksLawful(i.mandatory)
    ensures forall o :: o in Offers(Selected(i)) <==> Declares(SelectedMap(i), o.packId, o.check)
  {
    SelectedFacts(i);
    OfferMembers(Selected(i));
    hide Selected, SelectedMap, Offers, DocumentsLawful, KernelPacksLawful;
    forall o ensures o in Offers(Selected(i)) <==> Declares(SelectedMap(i), o.packId, o.check) {
      if o in Offers(Selected(i)) {
        var p :| p in Selected(i) && p.value.packId == o.packId && o.check in p.value.checks;
        assert SelectedMap(i)[o.packId] == p;
      }
      if Declares(SelectedMap(i), o.packId, o.check) {
        assert SelectedMap(i)[o.packId] in Selected(i);
      }
    }
  }

  lemma OfferOf(offers: seq<Offer>, id: JsString) returns (o: Offer)
    requires id in OfferIds(offers)
    ensures o in offers && o.check.checkId == id
  {
    var k :| 0 <= k < |offers| && OfferIds(offers)[k] == id;
    o := offers[k];
  }

  lemma OfferIsListed(offers: seq<Offer>, o: Offer)
    requires o in offers
    ensures o.check.checkId in OfferIds(offers)
  {
    var k :| 0 <= k < |offers| && offers[k] == o;
    assert OfferIds(offers)[k] == o.check.checkId;
  }

  lemma LawfulOffersDistinct(p: SuppliedPack)
    requires PackLawful(p.value)
    ensures NoDuplicates(OfferIds(OffersOf(p)))
  {
    assert OfferIds(OffersOf(p)) == CheckIds(p.value.checks);
  }

  /** Two different offers of one id. */
  ghost predicate Clash(offers: seq<Offer>) {
    exists o, q :: o in offers && q in offers && o != q && o.check.checkId == q.check.checkId
  }

  lemma RepeatedIndex(ids: seq<JsString>, j: int, k: int)
    requires NoDuplicates(ids) && 0 <= j < |ids| && 0 <= k < |ids| && ids[j] == ids[k]
    ensures j == k
  {
  }

  lemma ClashRepeats(offers: seq<Offer>)
    requires NoDuplicates(OfferIds(offers))
    ensures !Clash(offers)
  {
    if Clash(offers) {
      var o, q :| o in offers && q in offers && o != q && o.check.checkId == q.check.checkId;
      var j :| 0 <= j < |offers| && offers[j] == o;
      var k :| 0 <= k < |offers| && offers[k] == q;
      RepeatedIndex(OfferIds(offers), j, k);
    }
  }

  /** Packs with distinct ids and distinct checks of their own offer an id twice only by a clash. */
  lemma {:induction false} NoClashNoRepeat(packs: seq<SuppliedPack>)
    requires NoDuplicates(PackIds(packs)) && !Clash(Offers(packs))
    requires forall p :: p in packs ==> PackLawful(p.value)
    ensures NoDuplicates(OfferIds(Offers(packs)))
  {
    if packs != [] {
      var front, last := packs[..|packs| - 1], packs[|packs| - 1];
      var before, more := Offers(front), OffersOf(last);
      assert packs == front + [last] && PackIds(packs) == PackIds(front) + [last.value.packId];
      PrefixNoDuplicates(PackIds(front), last.value.packId);
      assert forall o :: o in before ==> o in Offers(packs);
      NoClashNoRepeat(front);
      LawfulOffersDistinct(last);
      assert OfferIds(Offers(packs)) == OfferIds(before) + OfferIds(more);
      OfferMembers(front);
      hide PackLawful, Offers;
      forall id | id in OfferIds(before) ensures id !in OfferIds(more) {
        if id in OfferIds(more) {
          var o := OfferOf(before, id);
          var q := OfferOf(more, id);
          LastIsNew(front, last, o);
        }
      }
      ConcatNoDuplicates(OfferIds(before), OfferIds(more));
    }
  }

  lemma LastIsNew(front: seq<SuppliedPack>, last: SuppliedPack, o: Offer)
    requires last.value.packId !in PackIds(front) && o in Offers(front)
    ensures o.packId != last.value.packId
  {
    OfferMembers(front);
    var p :| p in front && p.value.packId == o.packId;
    var k :| 0 <= k < |front| && front[k] == p;
    assert PackIds(front)[k] == p.value.packId;
  }

  /** Distinct declarations and repetition-free offers are the same thing. */
  lemma DistinctExactly(i: Inputs)
    requires DocumentsLawful(i) && KernelPacksLawful(i.mandatory)
    ensures ChecksDistinct(SelectedMap(i)) <==> NoDuplicates(OfferIds(Offers(Selected(i))))
  {
    var sel, offers := SelectedMap(i), Offers(Selected(i));
    SelectedFacts(i);
    OffersAreDeclared(i);
    hide SelectedMap, Offers, Selected, Declares, OfferIds, DocumentsLawful, KernelPacksLawful;
    if ChecksDistinct(sel) {
      forall p | p in Selected(i) ensures PackLawful(p.value) {
      }
      NoClashNoRepeat(Selected(i));
    }
    if NoDuplicates(OfferIds(offers)) {
      ClashRepeats(offers);
      forall a, c, b, d | Declares(sel, a, c) && Declares(sel, b, d) && c.checkId == d.checkId
        ensures a == b && c == d
      {
        var o, q := Offer(a, c), Offer(b, d);
        assert o in offers && q in offers;
      }
    }
  }

  lemma {:induction false} FirstChecksFacts(offers: seq<Offer>)
    ensures forall id :: id in FirstChecks(offers) <==> id in OfferIds(offers)
    ensures forall id :: id in FirstChecks(offers) ==>
      FirstChecks(offers)[id].checkId == id && exists o :: o in offers && o.check == FirstChecks(offers)[id]
  {
    if offers != [] {
      var front, last := offers[..|offers| - 1], offers[|offers| - 1];
      FirstChecksFacts(front);
      assert offers == front + [last];
      assert OfferIds(offers) == OfferIds(front) + [last.check.checkId];
      forall id | id in FirstChecks(offers) ensures exists o :: o in offers && o.check == FirstChecks(offers)[id] {
        if id in FirstChecks(front) {
          var o :| o in front && o.check == FirstChecks(front)[id];
          assert o in offers;
        } else {
          assert last in offers;
        }
      }
    }
  }

  // ---------- group by group ----------

  lemma PinsExactly(i: Inputs)
    ensures PinsAgree(i) <==>
      !Violates(i, ProfileDigestMismatch) && !Violates(i, ProfileIdentityMismatch) && !Violates(i, CapabilityDigestMismatch)
  {
  }

  predicate OnSelection(e: CompileError) {
    || e.DuplicatePack? || e.KernelPackRedeclared? || e.KernelPackSupplied? || e.PackNotFound?
    || e.PackVersionMismatch? || e.PackDigestMismatch? || e.PackNotSelected?
  }

  lemma SelectionRefused(i: Inputs)
    requires forall e :: OnSelection(e) ==> !Violates(i, e)
    ensures SelectionAgrees(i)
  {
    IndexFacts(i.packs);
    NothingRepeats(PackIds(i.packs));
    forall id ensures !Repeats(PackIds(i.packs), id) {
      assert !Violates(i, DuplicatePack(id));
    }
    forall id | id in PackIds(i.mandatory) ensures id !in PackIds(i.packs) && id !in SelectionIds(i.profile.packs) {
      assert !Violates(i, KernelPackRedeclared(id)) && !Violates(i, KernelPackSupplied(id));
    }
    forall s | s in i.profile.packs ensures Supplies(i.packs, s) {
      SelectionIsListed(i.profile.packs, s);
      assert !Violates(i, PackNotFound(s.packId)) && !Violates(i, PackVersionMismatch(s.packId));
      assert !Violates(i, PackDigestMismatch(s.packId));
      hide Violates;
      FaultlessSelection(Elements(PackIds(i.mandatory)), i.packs, i.profile.packs, s);
    }
    forall id | id in PackIds(i.packs) ensures id in SelectionIds(i.profile.packs) {
      assert !Violates(i, PackNotSelected(id));
    }
  }

  lemma FaultlessSelection(kernelIds: set<JsString>, packs: seq<SuppliedPack>, sels: seq<Selection>, s: Selection)
    requires s in sels && s.packId !in kernelIds
    requires !SelectionFault(kernelIds, Index(packs), sels, PackNotFound(s.packId))
    requires !SelectionFault(kernelIds, Index(packs), sels, PackVersionMismatch(s.packId))
    requires !SelectionFault(kernelIds, Index(packs), sels, PackDigestMismatch(s.packId))
    ensures Supplies(packs, s)
  {
    var supplied, id := Index(packs), s.packId;
    IndexFacts(packs);
    hide Index;
    assert !SelectionGives(kernelIds, supplied, s, PackNotFound(id));
    assert !SelectionGives(kernelIds, supplied, s, PackVersionMismatch(id));
    assert !SelectionGives(kernelIds, supplied, s, PackDigestMismatch(id));
    assert supplied[id] in packs;
  }

  lemma SelectionIsListed(sels: seq<Selection>, s: Selection)
    requires s in sels
    ensures s.packId in SelectionIds(sels)
  {
    var k :| 0 <= k < |sels| && sels[k] == s;
    assert SelectionIds(sels)[k] == s.packId;
  }

  lemma SelectionAdmitted(i: Inputs, e: CompileError)
    requires SelectionAgrees(i) && OnSelection(e)
    ensures !Violates(i, e)
  {
    IndexFacts(i.packs);
    if e.DuplicatePack? {
      NothingRepeats(PackIds(i.packs));
    } else if e.PackNotFound? || e.PackVersionMismatch? || e.PackDigestMismatch? {
      var kernelIds := Elements(PackIds(i.mandatory));
      forall s | s in i.profile.packs ensures !SelectionGives(kernelIds, Index(i.packs), s, e) {
        assert Supplies(i.packs, s);
        var p :| p in i.packs && p.value.packId == s.packId && p.value.version == s.version && p.digest == s.digest;
        assert Index(i.packs)[s.packId] == p;
      }
    }
  }

  lemma DepsExactly(i: Inputs)
    requires DocumentsLawful(i) && KernelPacksLawful(i.mandatory)
    ensures DepsMet(SelectedMap(i)) <==>
      forall p, q :: !Violates(i, DependencyUnsatisfied(p, q)) && !Violates(i, DependencyDigestMismatch(p, q))
  {
    SelectedFacts(i);
    forall p, q ensures Violates(i, DependencyUnsatisfied(p, q)) <==>
                        DepFault(Selected(i), SelectedMap(i), DependencyUnsatisfied(p, q)) {}
    forall p, q ensures Violates(i, DependencyDigestMismatch(p, q)) <==>
                        DepFault(Selected(i), SelectedMap(i), DependencyDigestMismatch(p, q)) {}
    hide Violates, SelectedMap, Selected, DocumentsLawful, KernelPacksLawful, PackLawful;
    DepFaults(Selected(i), SelectedMap(i));
  }

  /** The list and the map of the packs say the same. */
  ghost predicate Listed(packs: seq<SuppliedPack>, sel: PackMap) {
    && (forall p :: p in packs ==> p.value.packId in sel && sel[p.value.packId] == p)
    && forall id :: id in sel ==> sel[id] in packs && sel[id].value.packId == id
  }

  lemma DepFaults(packs: seq<SuppliedPack>, sel: PackMap)
    requires Listed(packs, sel)
    ensures DepsMet(sel) <==>
      forall p, q :: !DepFault(packs, sel, DependencyUnsatisfied(p, q))
                     && !DepFault(packs, sel, DependencyDigestMismatch(p, q))
  {
    if forall p, q :: !DepFault(packs, sel, DependencyUnsatisfied(p, q))
                      && !DepFault(packs, sel, DependencyDigestMismatch(p, q)) {
      forall id, d | id in sel && d in sel[id].value.dependencies ensures DepMet(sel, d) {
        assert !DepFault(packs, sel, DependencyUnsatisfied(id, d.packId));
        assert !DepFault(packs, sel, DependencyDigestMismatch(id, d.packId));
        assert sel[id] in packs;
        assert !DepGives(sel, id, d, DependencyUnsatisfied(id, d.packId));
        assert !DepGives(sel, id, d, DependencyDigestMismatch(id, d.packId));
      }
    }
    if DepsMet(sel) {
      forall e, p, d | p in packs && d in p.value.dependencies ensures !DepGives(sel, p.value.packId, d, e) {
        assert sel[p.value.packId] == p;
        assert DepMet(sel, d);
      }
    }
  }

  lemma PhasesExactly(i: Inputs)
    requires DocumentsLawful(i) && KernelPacksLawful(i.mandatory)
    ensures PhasesAgree(SelectedMap(i)) <==> forall p, q, c :: !Violates(i, PhaseConflict(p, q, c))
  {
    SelectedFacts(i);
    forall p, q, c ensures Violates(i, PhaseConflict(p, q, c)) <==>
                           PhaseFault(Selected(i), SelectedMap(i), PhaseConflict(p, q, c)) {}
    hide Violates, SelectedMap, Selected, DocumentsLawful, KernelPacksLawful, PackLawful;
    PhaseFaults(Selected(i), SelectedMap(i));
  }

  lemma PhaseFaults(packs: seq<SuppliedPack>, sel: PackMap)
    requires Listed(packs, sel)
    ensures PhasesAgree(sel) <==> forall p, q, c :: !PhaseFault(packs, sel, PhaseConflict(p, q, c))
  {
    if forall p, q, c :: !PhaseFault(packs, sel, PhaseConflict(p, q, c)) {
      forall id, d, mine, theirs |
        && id in sel && d in sel[id].value.dependencies && d.packId in sel
        && mine in sel[id].value.checks && theirs in sel[d.packId].value.checks
        ensures PhaseIndex(theirs.phase) <= PhaseIndex(mine.phase)
      {
        var e := PhaseConflict(id, d.packId, theirs.checkId);
        assert !PhaseFault(packs, sel, e);
        assert sel[id] in packs;
        assert !PhaseGives(sel[id].value, d, theirs, e);
      }
    }
    if PhasesAgree(sel) {
      forall e, p, d, c | p in packs && d in p.value.dependencies && d.packId in sel
                          && c in sel[d.packId].value.checks
        ensures !PhaseGives(p.value, d, c, e)
      {
        assert sel[p.value.packId] == p;
      }
    }
  }

  lemma ChecksExactly(i: Inputs)
    requires DocumentsLawful(i) && KernelPacksLawful(i.mandatory)
    ensures ChecksDistinct(SelectedMap(i)) <==> forall id :: !Violates(i, DuplicateCheck(id))
  {
    DistinctExactly(i);
    var ids := OfferIds(Offers(Selected(i)));
    NothingRepeats(ids);
    forall id ensures Repeats(ids, id) <==> Violates(i, DuplicateCheck(id)) {
    }
  }

  lemma ValidatorsExactly(i: Inputs)
    requires DocumentsLawful(i) && KernelPacksLawful(i.mandatory)
    ensures ValidatorsKnown(SelectedMap(i), i.builtinIds, i.admits) <==> forall id :: !Violates(i, UnknownValidator(id))
  {
    var sel, offers := SelectedMap(i), Offers(Selected(i));
    OffersAreDeclared(i);
    forall id ensures Violates(i, UnknownValidator(id)) <==> ValidatorFault(offers, i.builtinIds, i.admits, id) {}
    hide Violates, SelectedMap, Selected, Offers, Declares, Known;
    if forall id :: !Violates(i, UnknownValidator(id)) {
      forall a, c | Declares(sel, a, c) ensures Known(i.builtinIds, i.admits, c.validator) {
        assert !ValidatorFault(offers, i.builtinIds, i.admits, c.checkId);
        assert Offer(a, c) in offers && Offer(a, c).check == c;
      }
    }
  }

  lemma StrengthenExactly(i: Inputs)
    requires DocumentsLawful(i) && KernelPacksLawful(i.mandatory) && ChecksDistinct(SelectedMap(i))
    ensures (forall id :: id in i.profile.strengthen ==> Strengthenable(SelectedMap(i), id)) <==>
      forall id :: !Violates(i, UnknownStrengthened(id)) && !Violates(i, StrengthenConflict(id))
  {
    var sel, offers := SelectedMap(i), Offers(Selected(i));
    OffersAreDeclared(i);
    hide SelectedMap, Selected, Offers, FirstChecks, Strengthenable, ChecksDistinct, Declares, Violates;
    forall id ensures (id in i.profile.strengthen ==> Strengthenable(sel, id)) <==>
      !Violates(i, UnknownStrengthened(id)) && !Violates(i, StrengthenConflict(id))
    {
      StrengthenViolations(i, id);
      FirstIsTheCheck(sel, offers, id);
    }
  }

  lemma StrengthenViolations(i: Inputs, id: JsString)
    ensures var first := FirstChecks(Offers(Selected(i)));
            !Violates(i, UnknownStrengthened(id)) && !Violates(i, StrengthenConflict(id)) <==>
            (id in i.profile.strengthen ==> id in first && first[id].consumer.DispositionReducer?)
  {
    hide Selected, Offers, FirstChecks;
  }

  lemma FirstIsTheCheck(sel: PackMap, offers: seq<Offer>, id: JsString)
    requires ChecksDistinct(sel) && forall o :: o in offers <==> Declares(sel, o.packId, o.check)
    ensures Strengthenable(sel, id) <==> id in FirstChecks(offers) && FirstChecks(offers)[id].consumer.DispositionReducer?
  {
    FirstChecksFacts(offers);
    hide FirstChecks;
    if id in FirstChecks(offers) {
      var o :| o in offers && o.check == FirstChecks(offers)[id];
      assert Declares(sel, o.packId, o.check);
      if Strengthenable(sel, id) {
        var a, c :| Declares(sel, a, c) && c.checkId == id && c.consumer.DispositionReducer?;
        assert c == o.check;
      }
    } else if Strengthenable(sel, id) {
      var a, c :| Declares(sel, a, c) && c.checkId == id && c.consumer.DispositionReducer?;
      assert Offer(a, c) in offers;
      OfferIsListed(offers, Offer(a, c));
    }
  }

  lemma CycleExactly(i: Inputs)
    ensures Acyclic(DepGraph(SelectedMap(i))) <==> !Violates(i, DependencyCycle)
  {
    hide Acyclic, DepGraph, SelectedMap;
  }

  lemma NothingRefusedCompiles(i: Inputs)
    requires DocumentsLawful(i) && KernelPacksLawful(i.mandatory) && forall e :: !Violates(i, e)
    ensures Compilable(i)
  {
    hide Acyclic, ChecksDistinct, DepGraph, DepsMet, DocumentsLawful, KernelPacksLawful, PhasesAgree, PinsAgree,
      SelectedMap, SelectionAgrees, Strengthenable, ValidatorsKnown, Violates;
    PinsExactly(i);
    SelectionRefused(i);
    DepsExactly(i);
    PhasesExactly(i);
    CycleExactly(i);
    ChecksExactly(i);
    ValidatorsExactly(i);
    StrengthenExactly(i);
  }

  lemma CompilableIsNotRefused(i: Inputs, e: CompileError)
    requires DocumentsLawful(i) && KernelPacksLawful(i.mandatory) && Compilable(i)
    ensures !Violates(i, e)
  {
    hide Acyclic, ChecksDistinct, DepGraph, DepsMet, DocumentsLawful, KernelPacksLawful, PhasesAgree, PinsAgree,
      SelectedMap, SelectionAgrees, Strengthenable, ValidatorsKnown, Violates;
    if OnSelection(e) {
      SelectionAdmitted(i, e);
    } else {
      match e
      case ProfileDigestMismatch => PinsExactly(i);
      case ProfileIdentityMismatch => PinsExactly(i);
      case CapabilityDigestMismatch => PinsExactly(i);
      case DependencyUnsatisfied(_, _) => DepsExactly(i);
      case DependencyDigestMismatch(_, _) => DepsExactly(i);
      case PhaseConflict(_, _, _) => PhasesExactly(i);
      case DependencyCycle => CycleExactly(i);
      case DuplicateCheck(_) => ChecksExactly(i);
      case UnknownValidator(_) => ValidatorsExactly(i);
      case UnknownStrengthened(_) => StrengthenExactly(i);
      case StrengthenConflict(_) => StrengthenExactly(i);
    }
  }

  /** A lawful set of documents compiles exactly when no reason for refusal applies. */
  lemma CompilableExactly(i: Inputs)
    requires DocumentsLawful(i) && KernelPacksLawful(i.mandatory)
    ensures Compilable(i) <==> forall e :: !Violates(i, e)
  {
    hide *;
    if forall e :: !Violates(i, e) { NothingRefusedCompiles(i); }
    if Compilable(i) {
      forall e ensures !Violates(i, e) { CompilableIsNotRefused(i, e); }
    }
  }
}
