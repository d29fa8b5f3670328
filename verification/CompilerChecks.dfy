/** The checking half of `compilePlan`: select the packs and gather every error. */
module CompilerChecks {
  import opened Base
  import opened Plan
  import opened Packs
  import opened Compilation

  lemma PrefixGrows<T>(xs: seq<T>, k: nat)
    requires k < |xs|
    ensures xs[..k + 1] == xs[..k] + [xs[k]]
    ensures forall x :: x in xs[..k + 1] <==> x in xs[..k] || x == xs[k]
  {
  }

  /** The supplied packs by id, and the ids supplied more than once. */
  method IndexSupplied(packs: seq<SuppliedPack>)
    returns (supplied: PackMap, ids: seq<JsString>, errors: seq<CompileError>)
    ensures supplied == Index(packs)
    ensures forall id :: id in ids <==> id in PackIds(packs)
    ensures forall e :: e in errors <==> e.DuplicatePack? && Repeats(PackIds(packs), e.packId)
  {
    supplied, ids, errors := map[], [], [];
    for k := 0 to |packs|
      invariant supplied == Index(packs[..k])
      invariant forall id :: id in supplied <==> id in PackIds(packs)[..k]
      invariant forall id :: id in ids <==> id in PackIds(packs)[..k]
      invariant forall e :: e in errors <==> e.DuplicatePack? && Repeats(PackIds(packs)[..k], e.packId)
    {
      var p := packs[k];
      PrefixGrows(packs, k);
      PrefixGrows(PackIds(packs), k);
      assert packs[..k + 1][..k] == packs[..k];
      forall id ensures Repeats(PackIds(packs)[..k + 1], id)
                        <==> Repeats(PackIds(packs)[..k], id) || (p.value.packId == id && id in PackIds(packs)[..k])
      {
        RepeatsSnoc(PackIds(packs)[..k], p.value.packId, id);
      }
      if p.value.packId in supplied {
        errors := errors + [DuplicatePack(p.value.packId)];
      } else {
        ids := ids + [p.value.packId];
      }
      supplied := supplied[p.value.packId := p];
    }
    assert packs[..|packs|] == packs && PackIds(packs)[..|packs|] == PackIds(packs);
  }

  /** Kernel packs named by the profile or supplied by the target. */
  method KernelConflicts(kernelIds: set<JsString>, sels: seq<Selection>, packs: seq<SuppliedPack>)
    returns (errors: seq<CompileError>)
    ensures forall e :: e in errors <==>
      || (e.KernelPackRedeclared? && e.packId in kernelIds && e.packId in SelectionIds(sels))
      || (e.KernelPackSupplied? && e.packId in kernelIds && e.packId in PackIds(packs))
  {
    errors := [];
    for k := 0 to |sels|
      invariant forall e :: e in errors <==>
        e.KernelPackRedeclared? && e.packId in kernelIds && e.packId in SelectionIds(sels)[..k]
    {
      PrefixGrows(SelectionIds(sels), k);
      if sels[k].packId in kernelIds { errors := errors + [KernelPackRedeclared(sels[k].packId)]; }
    }
    assert SelectionIds(sels)[..|sels|] == SelectionIds(sels);
    for k := 0 to |packs|
      invariant forall e :: e in errors <==>
        || (e.KernelPackRedeclared? && e.packId in kernelIds && e.packId in SelectionIds(sels))
        || (e.KernelPackSupplied? && e.packId in kernelIds && e.packId in PackIds(packs)[..k])
    {
      PrefixGrows(PackIds(packs), k);
      if packs[k].value.packId in kernelIds { errors := errors + [KernelPackSupplied(packs[k].value.packId)]; }
    }
    assert PackIds(packs)[..|packs|] == PackIds(packs);
  }

  /** Take up one selection of the profile. */
  method SelectPack(kernelIds: set<JsString>, supplied: PackMap, s: Selection, packs0: seq<SuppliedPack>,
      selected0: PackMap)
    returns (packs: seq<SuppliedPack>, selected: PackMap, more: seq<CompileError>)
    requires selected0 == Index(packs0) && forall id :: id in supplied ==> supplied[id].value.packId == id
    ensures selected == Index(packs)
    ensures packs == if s.packId !in kernelIds && s.packId in supplied then packs0 + [supplied[s.packId]] else packs0
    ensures forall e :: e in more <==> SelectionGives(kernelIds, supplied, s, e)
  {
    packs, selected, more := packs0, selected0, [];
    if s.packId in kernelIds { return; }
    if s.packId !in supplied {
      more := [PackNotFound(s.packId)];
      return;
    }
    var p := supplied[s.packId];
    if p.value.version != s.version { more := more + [PackVersionMismatch(s.packId)]; }
    if p.digest != s.digest { more := more + [PackDigestMismatch(s.packId)]; }
    packs := packs + [p];
    assert packs[..|packs0|] == packs0;
    selected := selected[s.packId := p];
  }

  /** The kernel's packs come first. */
  method KernelPacks(mandatory: seq<SuppliedPack>) returns (packs: seq<SuppliedPack>, selected: PackMap)
    ensures packs == mandatory && selected == Index(packs)
  {
    packs, selected := [], map[];
    for k := 0 to |mandatory|
      invariant packs == mandatory[..k] && selected == Index(packs)
    {
      assert (mandatory[..k] + [mandatory[k]])[..k] == mandatory[..k];
      packs := packs + [mandatory[k]];
      selected := selected[mandatory[k].value.packId := mandatory[k]];
    }
    assert mandatory[..|mandatory|] == mandatory;
  }

  /** Resolve the profile's selections, starting from the kernel's packs. */
  method SelectPacks(mandatory: seq<SuppliedPack>, kernelIds: set<JsString>, supplied: PackMap, sels: seq<Selection>)
    returns (packs: seq<SuppliedPack>, selected: PackMap, errors: seq<CompileError>)
    requires forall id :: id in supplied ==> supplied[id].value.packId == id
    ensures packs == mandatory + Chosen(kernelIds, supplied, sels) && selected == Index(packs)
    ensures forall e :: e in errors <==> SelectionFault(kernelIds, supplied, sels, e)
  {
    packs, selected := KernelPacks(mandatory);
    errors := [];
    for k := 0 to |sels|
      invariant packs == mandatory + Chosen(kernelIds, supplied, sels[..k]) && selected == Index(packs)
      invariant forall e :: e in errors <==> SelectionFault(kernelIds, supplied, sels[..k], e)
    {
      hide Index, Chosen, SelectionFault, SelectionGives;
      ChosenGrows(mandatory, kernelIds, supplied, sels, k);
      SelectionFaultGrows(kernelIds, supplied, sels, k);
      var more;
      packs, selected, more := SelectPack(kernelIds, supplied, sels[k], packs, selected);
      errors := errors + more;
    }
    assert sels[..|sels|] == sels;
  }

  lemma ChosenGrows(mandatory: seq<SuppliedPack>, kernelIds: set<JsString>, supplied: PackMap, sels: seq<Selection>,
      k: nat)
    requires k < |sels|
    ensures var before, after := Chosen(kernelIds, supplied, sels[..k]), Chosen(kernelIds, supplied, sels[..k + 1]);
            if sels[k].packId !in kernelIds && sels[k].packId in supplied
            then mandatory + after == mandatory + before + [supplied[sels[k].packId]]
            else after == before
  {
    assert sels[..k + 1][..k] == sels[..k];
    var before := Chosen(kernelIds, supplied, sels[..k]);
    assert before + [] == before;
  }

  lemma SelectionFaultGrows(kernelIds: set<JsString>, supplied: PackMap, sels: seq<Selection>, k: nat)
    requires k < |sels|
    ensures forall e :: SelectionFault(kernelIds, supplied, sels[..k + 1], e) <==>
      SelectionFault(kernelIds, supplied, sels[..k], e) || SelectionGives(kernelIds, supplied, sels[k], e)
  {
    PrefixGrows(sels, k);
    hide SelectionGives;
  }

  /** Supplied packs that the profile does not select. */
  method UnselectedPacks(ids: seq<JsString>, sels: seq<Selection>) returns (errors: seq<CompileError>)
    ensures forall e :: e in errors <==> e.PackNotSelected? && e.packId in ids && e.packId !in SelectionIds(sels)
  {
    errors := [];
    for k := 0 to |ids|
      invariant forall e :: e in errors <==>
        e.PackNotSelected? && e.packId in ids[..k] && e.packId !in SelectionIds(sels)
    {
      PrefixGrows(ids, k);
      if ids[k] !in SelectionIds(sels) { errors := errors + [PackNotSelected(ids[k])]; }
    }
    assert ids[..|ids|] == ids;
  }

  // ---------- dependencies ----------

  ghost predicate PackDepFault(deps: seq<Dep>, sel: PackMap, packId: JsString, e: CompileError) {
    exists d :: d in deps && DepGives(sel, packId, d, e)
  }

  method PackDependencyErrors(p: Pack, sel: PackMap) returns (errors: seq<CompileError>)
    ensures forall e :: e in errors <==> PackDepFault(p.dependencies, sel, p.packId, e)
  {
    errors := [];
    for k := 0 to |p.dependencies|
      invariant forall e :: e in errors <==> PackDepFault(p.dependencies[..k], sel, p.packId, e)
    {
      var d := p.dependencies[k];
      PrefixGrows(p.dependencies, k);
      var more: seq<CompileError> := [];
      if d.packId !in sel || sel[d.packId].value.version != d.version {
        more := [DependencyUnsatisfied(p.packId, d.packId)];
      } else if sel[d.packId].digest != d.digest {
        more := [DependencyDigestMismatch(p.packId, d.packId)];
      }
      assert forall e :: e in more <==> DepGives(sel, p.packId, d, e);
      hide DepGives;
      errors := errors + more;
    }
    assert p.dependencies[..|p.dependencies|] == p.dependencies;
  }

  /** Dependencies no selected pack meets at their pinned version and digest. */
  method DependencyErrors(packs: seq<SuppliedPack>, sel: PackMap) returns (errors: seq<CompileError>)
    ensures forall e :: e in errors <==> DepFault(packs, sel, e)
  {
    hide DepGives;
    errors := [];
    for k := 0 to |packs|
      invariant forall e :: e in errors <==> DepFault(packs[..k], sel, e)
    {
      PrefixGrows(packs, k);
      var more := PackDependencyErrors(packs[k].value, sel);
      errors := errors + more;
    }
    assert packs[..|packs|] == packs;
  }

  // ---------- phases ----------

  /** `Math.min(...checks.map((c) => PHASES.indexOf(c.phase)))`. */
  method EarliestPhase(checks: seq<Check>) returns (least: nat)
    requires checks != []
    ensures forall c :: c in checks ==> least <= PhaseIndex(c.phase)
    ensures exists c :: c in checks && least == PhaseIndex(c.phase)
  {
    least := PhaseIndex(checks[0].phase);
    for k := 1 to |checks|
      invariant forall c :: c in checks[..k] ==> least <= PhaseIndex(c.phase)
      invariant exists c :: c in checks && least == PhaseIndex(c.phase)
    {
      PrefixGrows(checks, k);
      if PhaseIndex(checks[k].phase) < least { least := PhaseIndex(checks[k].phase); }
    }
    assert checks[..|checks|] == checks;
  }

  ghost predicate DepPhaseFault(p: Pack, d: Dep, checks: seq<Check>, e: CompileError) {
    exists c :: c in checks && PhaseGives(p, d, c, e)
  }

  ghost predicate PackPhaseFault(p: Pack, deps: seq<Dep>, sel: PackMap, e: CompileError) {
    exists d :: d in deps && d.packId in sel && DepPhaseFault(p, d, sel[d.packId].value.checks, e)
  }

  method DepPhaseErrors(p: Pack, minPhase: nat, d: Dep, checks: seq<Check>) returns (errors: seq<CompileError>)
    requires forall c :: c in p.checks ==> minPhase <= PhaseIndex(c.phase)
    requires exists c :: c in p.checks && minPhase == PhaseIndex(c.phase)
    ensures forall e :: e in errors <==> DepPhaseFault(p, d, checks, e)
  {
    errors := [];
    for k := 0 to |checks|
      invariant forall e :: e in errors <==> DepPhaseFault(p, d, checks[..k], e)
    {
      PrefixGrows(checks, k);
      var more: seq<CompileError> := [];
      if PhaseIndex(checks[k].phase) > minPhase { more := [PhaseConflict(p.packId, d.packId, checks[k].checkId)]; }
      assert forall e :: e in more <==> PhaseGives(p, d, checks[k], e);
      hide PhaseGives;
      errors := errors + more;
    }
    assert checks[..|checks|] == checks;
  }

  method PackPhaseErrors(p: Pack, sel: PackMap) returns (errors: seq<CompileError>)
    requires p.checks != []
    ensures forall e :: e in errors <==> PackPhaseFault(p, p.dependencies, sel, e)
  {
    hide DepPhaseFault;
    var minPhase := EarliestPhase(p.checks);
    errors := [];
    for k := 0 to |p.dependencies|
      invariant forall e :: e in errors <==> PackPhaseFault(p, p.dependencies[..k], sel, e)
    {
      var d := p.dependencies[k];
      PrefixGrows(p.dependencies, k);
      if d.packId in sel {
        var more := DepPhaseErrors(p, minPhase, d, sel[d.packId].value.checks);
        errors := errors + more;
      }
    }
    assert p.dependencies[..|p.dependencies|] == p.dependencies;
  }

  /** Checks of dependencies that run later than a check of the pack that needs them. */
  method PhaseErrors(packs: seq<SuppliedPack>, sel: PackMap) returns (errors: seq<CompileError>)
    requires forall p :: p in packs ==> p.value.checks != []
    ensures forall e :: e in errors <==> PhaseFault(packs, sel, e)
  {
    hide PhaseGives;
    errors := [];
    for k := 0 to |packs|
      invariant forall e :: e in errors <==> PhaseFault(packs[..k], sel, e)
    {
      PrefixGrows(packs, k);
      assert packs[k] in packs;
      var more := PackPhaseErrors(packs[k].value, sel);
      PhaseFaultGrows(packs, k, sel);
      errors := errors + more;
    }
    assert packs[..|packs|] == packs;
  }

  lemma PhaseFaultGrows(packs: seq<SuppliedPack>, k: nat, sel: PackMap)
    requires k < |packs|
    ensures forall e :: PhaseFault(packs[..k + 1], sel, e) <==>
      PhaseFault(packs[..k], sel, e) || PackPhaseFault(packs[k].value, packs[k].value.dependencies, sel, e)
  {
    PrefixGrows(packs, k);
    hide PhaseGives;
    forall e ensures PhaseFault(packs[..k + 1], sel, e) <==>
      PhaseFault(packs[..k], sel, e) || PackPhaseFault(packs[k].value, packs[k].value.dependencies, sel, e)
    {
      if PhaseFault(packs[..k + 1], sel, e) && !PhaseFault(packs[..k], sel, e) {
        var p, d, c :| p in packs[..k + 1] && d in p.value.dependencies && d.packId in sel
          && c in sel[d.packId].value.checks && PhaseGives(p.value, d, c, e);
        assert DepPhaseFault(p.value, d, sel[d.packId].value.checks, e);
      }
      if PackPhaseFault(packs[k].value, packs[k].value.dependencies, sel, e) {
        var d :| d in packs[k].value.dependencies && d.packId in sel
          && DepPhaseFault(packs[k].value, d, sel[d.packId].value.checks, e);
        var c :| c in sel[d.packId].value.checks && PhaseGives(packs[k].value, d, c, e);
        assert packs[k] in packs[..k + 1];
      }
    }
  }

  // ---------- checks ----------

  /** The checks of one pack, after those of the packs before it. */
  method OwnPack(p: SuppliedPack, builtinIds: set<JsString>, admits: JsString -> bool,
      checkById0: map<JsString, Check>, errors0: seq<CompileError>, ghost before: seq<Offer>)
    returns (checkById: map<JsString, Check>, errors: seq<CompileError>)
    requires Owned(before, builtinIds, admits, checkById0, errors0)
    ensures Owned(before + OffersOf(p), builtinIds, admits, checkById, errors)
  {
    hide Owned;
    checkById, errors := checkById0, errors0;
    assert before + OffersOf(p)[..0] == before;
    for j := 0 to |p.value.checks|
      invariant Owned(before + OffersOf(p)[..j], builtinIds, admits, checkById, errors)
    {
      var check := p.value.checks[j];
      ghost var oldMap := checkById;
      var more: seq<CompileError> := [];
      if check.checkId in checkById {
        more := more + [DuplicateCheck(check.checkId)];
      } else {
        checkById := checkById[check.checkId := check];
      }
      if check.validator.Builtin? && check.validator.builtinId !in builtinIds {
        more := more + [UnknownValidator(check.checkId)];
      }
      if check.validator.TargetCommand? && (check.validator.argv == [] || !admits(check.validator.argv[0])) {
        more := more + [UnknownValidator(check.checkId)];
      }
      OwnedGrows(before + OffersOf(p)[..j], OffersOf(p)[j], builtinIds, admits, oldMap, errors, checkById, more);
      assert before + OffersOf(p)[..j + 1] == before + OffersOf(p)[..j] + [OffersOf(p)[j]];
      errors := errors + more;
    }
    assert OffersOf(p)[..|p.value.checks|] == OffersOf(p);
  }

  /** Who owns each check id: ids offered twice, and validators nobody knows. */
  method OwnerErrors(packs: seq<SuppliedPack>, builtinIds: set<JsString>, admits: JsString -> bool)
    returns (checkById: map<JsString, Check>, errors: seq<CompileError>)
    ensures checkById == FirstChecks(Offers(packs))
    ensures forall e :: e in errors <==>
      || (e.DuplicateCheck? && Repeats(OfferIds(Offers(packs)), e.checkId))
      || (e.UnknownValidator? && ValidatorFault(Offers(packs), builtinIds, admits, e.checkId))
  {
    checkById, errors := map[], [];
    hide OffersOf;
    assert Owned(Offers(packs[..0]), builtinIds, admits, checkById, errors) by {
    }
    for k := 0 to |packs|
      invariant Owned(Offers(packs[..k]), builtinIds, admits, checkById, errors)
    {
      hide Owned;
      assert packs[..k + 1][..k] == packs[..k];
      checkById, errors := OwnPack(packs[k], builtinIds, admits, checkById, errors, Offers(packs[..k]));
    }
    assert packs[..|packs|] == packs;
  }

  ghost predicate Owned(offers: seq<Offer>, builtinIds: set<JsString>, admits: JsString -> bool,
      checkById: map<JsString, Check>, errors: seq<CompileError>)
  {
    && checkById == FirstChecks(offers)
    && (forall id :: id in checkById <==> id in OfferIds(offers))
    && forall e :: e in errors <==>
         || (e.DuplicateCheck? && Repeats(OfferIds(offers), e.checkId))
         || (e.UnknownValidator? && ValidatorFault(offers, builtinIds, admits, e.checkId))
  }

  lemma OwnedGrows(offers: seq<Offer>, o: Offer, builtinIds: set<JsString>, admits: JsString -> bool,
      before: map<JsString, Check>, errors: seq<CompileError>, after: map<JsString, Check>, more: seq<CompileError>)
    requires Owned(offers, builtinIds, admits, before, errors)
    requires after == if o.check.checkId in before then before else before[o.check.checkId := o.check]
    requires forall e :: e in more <==>
      || (e == DuplicateCheck(o.check.checkId) && o.check.checkId in before)
      || (e == UnknownValidator(o.check.checkId) && !Known(builtinIds, admits, o.check.validator))
    ensures Owned(offers + [o], builtinIds, admits, after, errors + more)
  {
    var all := offers + [o];
    var id := o.check.checkId;
    assert all[..|offers|] == offers;
    assert OfferIds(all) == OfferIds(offers) + [id];
    hide Known;
    assert after == FirstChecks(all);
    forall x ensures Repeats(OfferIds(all), x) <==> Repeats(OfferIds(offers), x) || (x == id && x in OfferIds(offers)) {
      RepeatsSnoc(OfferIds(offers), id, x);
    }
    assert forall x :: x in all <==> x in offers || x == o;
    hide Repeats;
    forall e ensures e in errors + more <==>
      || (e.DuplicateCheck? && Repeats(OfferIds(all), e.checkId))
      || (e.UnknownValidator? && ValidatorFault(all, builtinIds, admits, e.checkId))
    {
      assert e in errors + more <==> e in errors || e in more;
    }
  }

  /** Strengthened ids that name no check, or a check whose result never reaches the reducer. */
  method StrengthenErrors(strengthen: seq<JsString>, checkById: map<JsString, Check>)
    returns (errors: seq<CompileError>)
    ensures forall e :: e in errors <==>
      || (e.UnknownStrengthened? && e.checkId in strengthen && e.checkId !in checkById)
      || (e.StrengthenConflict? && e.checkId in strengthen && e.checkId in checkById
          && checkById[e.checkId].consumer.EvidenceOnly?)
  {
    errors := [];
    for k := 0 to |strengthen|
      invariant forall e :: e in errors <==>
        || (e.UnknownStrengthened? && e.checkId in strengthen[..k] && e.checkId !in checkById)
        || (e.StrengthenConflict? && e.checkId in strengthen[..k] && e.checkId in checkById
            && checkById[e.checkId].consumer.EvidenceOnly?)
    {
      PrefixGrows(strengthen, k);
      var id := strengthen[k];
      if id !in checkById {
        errors := errors + [UnknownStrengthened(id)];
      } else if !checkById[id].consumer.DispositionReducer? {
        errors := errors + [StrengthenConflict(id)];
      }
    }
    assert strengthen[..|strengthen|] == strengthen;
  }
}
