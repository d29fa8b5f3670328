/** Which packs a compilation takes and each reason for which it is refused, read off the documents alone. */
module CompileText {
  import opened Base
  import opened Plan
  import opened Packs
  import opened Kahn
  import opened Compilation
  import opened Refusals

  // ---------- the packs that take part ----------

  ghost predicate IsKernels(i: Inputs, id: JsString) {
    exists p :: p in i.mandatory && p.value.packId == id
  }

  ghost predicate IsNamed(i: Inputs, id: JsString) {
    exists s :: s in i.profile.packs && s.packId == id
  }

  ghost predicate IsSupplied(i: Inputs, id: JsString) {
    exists p :: p in i.packs && p.value.packId == id
  }

  /** No later pack of the list has the id of this one. */
  ghost predicate LastOfId(packs: seq<SuppliedPack>, p: SuppliedPack) {
    exists k :: 0 <= k < |packs| && packs[k] == p && forall j :: k < j < |packs| ==> packs[j].value.packId != p.value.packId
  }

  /** The pack is taken up in the `n`th place: the kernel's packs, then what each selection names. */
  ghost predicate JoinsAt(i: Inputs, p: SuppliedPack, n: nat) {
    var own := |i.mandatory|;
    || (n < own && i.mandatory[n] == p)
    || (&& own <= n < own + |i.profile.packs| && i.profile.packs[n - own].packId == p.value.packId
        && !IsKernels(i, p.value.packId) && LastOfId(i.packs, p))
  }

  ghost predicate Joins(i: Inputs, p: SuppliedPack) {
    exists n: nat :: JoinsAt(i, p, n)
  }

  lemma IdsAreNamed(i: Inputs, id: JsString)
    ensures id in PackIds(i.mandatory) <==> IsKernels(i, id)
    ensures id in SelectionIds(i.profile.packs) <==> IsNamed(i, id)
    ensures id in PackIds(i.packs) <==> IsSupplied(i, id)
  {
    if p :| p in i.mandatory && p.value.packId == id { PackIsListed(i.mandatory, p); }
    if p :| p in i.packs && p.value.packId == id { PackIsListed(i.packs, p); }
    if s :| s in i.profile.packs && s.packId == id { SelectionIsListed(i.profile.packs, s); }
  }

  lemma PackIsListed(packs: seq<SuppliedPack>, p: SuppliedPack)
    requires p in packs
    ensures p.value.packId in PackIds(packs)
  {
    var k :| 0 <= k < |packs| && packs[k] == p;
    assert PackIds(packs)[k] == p.value.packId;
  }

  /** The map by id holds the last pack of each id. */
  lemma {:induction false} IndexIsLast(packs: seq<SuppliedPack>, p: SuppliedPack)
    ensures p.value.packId in Index(packs) && Index(packs)[p.value.packId] == p <==> LastOfId(packs, p)
  {
    if packs != [] {
      var front, last := packs[..|packs| - 1], packs[|packs| - 1];
      IndexIsLast(front, p);
      if last.value.packId == p.value.packId {
        assert packs[|front|] == last;
      } else {
        EarlierIsLast(front, last, p);
        assert packs == front + [last];
      }
    }
  }

  lemma EarlierIsLast(front: seq<SuppliedPack>, last: SuppliedPack, p: SuppliedPack)
    requires last.value.packId != p.value.packId
    ensures LastOfId(front + [last], p) <==> LastOfId(front, p)
  {
    var packs := front + [last];
    if k :| 0 <= k < |front| && front[k] == p && forall j :: k < j < |front| ==> front[j].value.packId != p.value.packId {
      assert packs[k] == p;
    }
    if k :| 0 <= k < |packs| && packs[k] == p && forall j :: k < j < |packs| ==> packs[j].value.packId != p.value.packId {
      assert front[k] == p;
      assert forall j :: k < j < |front| ==> front[j] == packs[j];
    }
  }

  /** The selected packs are those that take part, one for an id. */
  lemma SelectedExactly(i: Inputs)
    requires DocumentsLawful(i) && KernelPacksLawful(i.mandatory)
    ensures forall p :: p in Selected(i) <==> Joins(i, p)
    ensures forall p :: Joins(i, p) <==> p.value.packId in SelectedMap(i) && SelectedMap(i)[p.value.packId] == p
    ensures forall id :: id in SelectedMap(i) ==> SelectedMap(i)[id].value.packId == id
  {
    SelectedFacts(i);
    hide DocumentsLawful, KernelPacksLawful, NoDuplicates, PackIds, PackLawful, Selected, SelectedMap, SelectionIds;
    forall p ensures p in Selected(i) <==> Joins(i, p) {
      IdsAreNamed(i, p.value.packId);
      IndexIsLast(i.packs, p);
      JoinsExactly(i, p);
      hide Index, IsKernels, IsNamed, Joins, LastOfId;
    }
  }

  lemma JoinsExactly(i: Inputs, p: SuppliedPack)
    ensures Joins(i, p) <==>
      p in i.mandatory || (!IsKernels(i, p.value.packId) && IsNamed(i, p.value.packId) && LastOfId(i.packs, p))
  {
    hide IsKernels, LastOfId;
    var own := |i.mandatory|;
    if p in i.mandatory {
      var n :| 0 <= n < own && i.mandatory[n] == p;
      assert JoinsAt(i, p, n);
    }
    if !IsKernels(i, p.value.packId) && IsNamed(i, p.value.packId) && LastOfId(i.packs, p) {
      var s :| s in i.profile.packs && s.packId == p.value.packId;
      var k :| 0 <= k < |i.profile.packs| && i.profile.packs[k] == s;
      assert JoinsAt(i, p, own + k);
    }
    if Joins(i, p) {
      var n: nat :| JoinsAt(i, p, n);
      if n >= own { assert i.profile.packs[n - own] in i.profile.packs; }
    }
  }

  // ---------- the reasons ----------

  ghost predicate SelectsAnother(i: Inputs, id: JsString, version: bool) {
    exists s, p ::
      && s in i.profile.packs && s.packId == id && !IsKernels(i, id) && LastOfId(i.packs, p) && p.value.packId == id
      && if version then p.value.version != s.version else p.digest != s.digest
  }

  ghost predicate Unsatisfied(i: Inputs, id: JsString, dep: JsString) {
    exists a, d ::
      && Joins(i, a) && a.value.packId == id && d in a.value.dependencies && d.packId == dep
      && forall b :: Joins(i, b) && b.value.packId == dep ==> b.value.version != d.version
  }

  ghost predicate SatisfiedByAnother(i: Inputs, id: JsString, dep: JsString) {
    exists a, d, b ::
      && Joins(i, a) && a.value.packId == id && d in a.value.dependencies && d.packId == dep
      && Joins(i, b) && b.value.packId == dep && b.value.version == d.version && b.digest != d.digest
  }

  predicate Later(a: Phase, b: Phase) {
    || (a == CandidateValidation && b == ContractAdmission)
    || (a == PromotionFinalization && b != PromotionFinalization)
  }

  ghost predicate IsLater(theirs: Check, a: Pack) {
    exists mine :: mine in a.checks && Later(theirs.phase, mine.phase)
  }

  ghost predicate RunsTooLate(i: Inputs, id: JsString, dep: JsString, checkId: JsString) {
    exists a, d, b, theirs ::
      && Joins(i, a) && a.value.packId == id && d in a.value.dependencies && d.packId == dep
      && Joins(i, b) && b.value.packId == dep && theirs in b.value.checks && theirs.checkId == checkId
      && IsLater(theirs, a.value)
  }

  /** A pack that takes part depends on another that does. */
  ghost predicate Uses(i: Inputs, id: JsString, dep: JsString) {
    exists a, d, b ::
      && Joins(i, a) && a.value.packId == id && d in a.value.dependencies && d.packId == dep && id != dep
      && Joins(i, b) && b.value.packId == dep
  }

  /** A walk along dependencies that ends where it began. */
  ghost predicate IsRound(i: Inputs, walk: seq<JsString>) {
    && |walk| > 1 && walk[0] == walk[|walk| - 1]
    && forall k :: 0 < k < |walk| ==> Uses(i, walk[k - 1], walk[k])
  }

  ghost predicate GoesRound(i: Inputs) {
    exists walk :: IsRound(i, walk)
  }

  /** A pack that takes part has a check of this id. */
  ghost predicate Has(i: Inputs, a: SuppliedPack, c: Check, id: JsString) {
    Joins(i, a) && c in a.value.checks && c.checkId == id
  }

  predicate Unknown(i: Inputs, v: Validator) {
    if v.Builtin? then v.builtinId !in i.builtinIds else v.argv == [] || !i.admits(v.argv[0])
  }

  /** The check of this id that is met first. */
  ghost predicate FirstOfId(i: Inputs, c: Check, id: JsString) {
    exists a, n: nat ::
      && JoinsAt(i, a, n) && c in a.value.checks && c.checkId == id
      && forall b, m: nat, d :: m < n && JoinsAt(i, b, m) && d in b.value.checks ==> d.checkId != id
  }

  /** Every reason for a refusal, read off the documents. */
  ghost predicate Refuses(i: Inputs, e: CompileError) {
    match e
    case ProfileDigestMismatch => i.contract.profileDigest != i.profileDigest
    case ProfileIdentityMismatch => i.contract.profileId != i.profile.profileId
    case CapabilityDigestMismatch => i.contract.capabilityIndex != i.capabilityIndex
    case DuplicatePack(id) =>
      exists j, k :: 0 <= j < k < |i.packs| && i.packs[j].value.packId == id && i.packs[k].value.packId == id
    case KernelPackRedeclared(id) => IsKernels(i, id) && IsNamed(i, id)
    case KernelPackSupplied(id) => IsKernels(i, id) && IsSupplied(i, id)
    case PackNotFound(id) => IsNamed(i, id) && !IsKernels(i, id) && !IsSupplied(i, id)
    case PackVersionMismatch(id) => SelectsAnother(i, id, true)
    case PackDigestMismatch(id) => SelectsAnother(i, id, false)
    case PackNotSelected(id) => IsSupplied(i, id) && !IsNamed(i, id)
    case DependencyUnsatisfied(id, dep) => Unsatisfied(i, id, dep)
    case DependencyDigestMismatch(id, dep) => SatisfiedByAnother(i, id, dep)
    case PhaseConflict(id, dep, checkId) => RunsTooLate(i, id, dep, checkId)
    case DependencyCycle => GoesRound(i)
    case DuplicateCheck(id) => exists a, c, b, d :: a != b && Has(i, a, c, id) && Has(i, b, d, id)
    case UnknownValidator(id) => exists a, c :: Has(i, a, c, id) && Unknown(i, c.validator)
    case UnknownStrengthened(id) => id in i.profile.strengthen && forall a, c :: !Has(i, a, c, id)
    case StrengthenConflict(id) =>
      id in i.profile.strengthen && exists c :: FirstOfId(i, c, id) && c.consumer == EvidenceOnly
  }

  // ---------- selection ----------

  predicate OnDocuments(e: CompileError) {
    e.ProfileDigestMismatch? || e.ProfileIdentityMismatch? || e.CapabilityDigestMismatch? || e.DuplicatePack?
  }

  lemma DocumentRefusals(i: Inputs, e: CompileError)
    requires OnDocuments(e)
    ensures Violates(i, e) <==> Refuses(i, e)
  {
    if e.DuplicatePack? { PackIdRepeats(i.packs, e.packId); }
  }

  lemma PackIdRepeats(packs: seq<SuppliedPack>, id: JsString)
    ensures Repeats(PackIds(packs), id) <==>
      exists j, k :: 0 <= j < k < |packs| && packs[j].value.packId == id && packs[k].value.packId == id
  {
    var ids := PackIds(packs);
    if j: nat, k: nat :| j < k < |packs| && packs[j].value.packId == id && packs[k].value.packId == id {
      assert ids[j] == id && ids[k] == id;
    }
    if Repeats(ids, id) {
      var j: nat, k: nat :| j < k < |ids| && ids[j] == id && ids[k] == id;
      assert packs[j].value.packId == id && packs[k].value.packId == id;
    }
  }

  lemma KernelRefusals(i: Inputs, e: CompileError)
    requires e.KernelPackRedeclared? || e.KernelPackSupplied? || e.PackNotSelected?
    ensures Violates(i, e) <==> Refuses(i, e)
  {
    IdsAreNamed(i, e.packId);
    hide IsKernels, IsNamed, IsSupplied, PackIds, SelectionIds;
  }

  ghost predicate SelectionRefuses(i: Inputs, e: CompileError) {
    || (e.PackNotFound? && IsNamed(i, e.packId) && !IsKernels(i, e.packId) && !IsSupplied(i, e.packId))
    || (e.PackVersionMismatch? && SelectsAnother(i, e.packId, true))
    || (e.PackDigestMismatch? && SelectsAnother(i, e.packId, false))
  }

  /** The supplied pack of an id is the last of that id, and the kernel's ids are those of its packs. */
  ghost predicate Filed(i: Inputs, supplied: PackMap, kernelIds: set<JsString>) {
    && (forall id :: id in supplied <==> IsSupplied(i, id))
    && (forall id :: id in kernelIds <==> IsKernels(i, id))
    && forall p: SuppliedPack :: p.value.packId in supplied && supplied[p.value.packId] == p <==> LastOfId(i.packs, p)
  }

  lemma IndexFiles(i: Inputs)
    ensures Filed(i, Index(i.packs), Elements(PackIds(i.mandatory)))
    ensures forall id :: id in Index(i.packs) ==> Index(i.packs)[id].value.packId == id
  {
    hide Index, IsKernels, IsSupplied, LastOfId, PackIds;
    IndexFacts(i.packs);
    forall id ensures id in PackIds(i.packs) <==> IsSupplied(i, id) { IdsAreNamed(i, id); }
    forall id ensures id in PackIds(i.mandatory) <==> IsKernels(i, id) { IdsAreNamed(i, id); }
    forall p: SuppliedPack
      ensures p.value.packId in Index(i.packs) && Index(i.packs)[p.value.packId] == p <==> LastOfId(i.packs, p)
    {
      IndexIsLast(i.packs, p);
    }
  }

  lemma SelectionRefusals(i: Inputs, e: CompileError)
    ensures SelectionFault(Elements(PackIds(i.mandatory)), Index(i.packs), i.profile.packs, e) <==> SelectionRefuses(i, e)
  {
    hide Index, IsKernels, IsSupplied, LastOfId, PackIds;
    var supplied, kernelIds := Index(i.packs), Elements(PackIds(i.mandatory));
    IndexFiles(i);
    if SelectionFault(kernelIds, supplied, i.profile.packs, e) {
      var s :| s in i.profile.packs && SelectionGives(kernelIds, supplied, s, e);
      if !e.PackNotFound? { assert LastOfId(i.packs, supplied[e.packId]); }
    }
    if e.PackNotFound? && SelectionRefuses(i, e) {
      var s :| s in i.profile.packs && s.packId == e.packId;
      assert SelectionGives(kernelIds, supplied, s, e);
    }
    if !e.PackNotFound? && SelectionRefuses(i, e) {
      var s, p :|
        && s in i.profile.packs && s.packId == e.packId && !IsKernels(i, e.packId) && LastOfId(i.packs, p)
        && p.value.packId == e.packId
        && if e.PackVersionMismatch? then p.value.version != s.version else p.digest != s.digest;
      assert SelectionGives(kernelIds, supplied, s, e);
    }
  }

  // ---------- composition ----------

  /** The list and the map of the packs are those that take part. */
  ghost predicate Taken(i: Inputs, packs: seq<SuppliedPack>, sel: PackMap) {
    && (forall p :: p in packs <==> Joins(i, p))
    && (forall p: SuppliedPack :: Joins(i, p) <==> p.value.packId in sel && sel[p.value.packId] == p)
    && forall id :: id in sel ==> sel[id].value.packId == id
  }

  lemma UnsatisfiedExactly(i: Inputs, packs: seq<SuppliedPack>, sel: PackMap, id: JsString, dep: JsString)
    requires Taken(i, packs, sel)
    ensures DepFault(packs, sel, DependencyUnsatisfied(id, dep)) <==> Unsatisfied(i, id, dep)
  {
    hide Joins;
    var e := DependencyUnsatisfied(id, dep);
    if DepFault(packs, sel, e) {
      var a, d :| a in packs && d in a.value.dependencies && DepGives(sel, a.value.packId, d, e);
      assert Joins(i, a);
    }
    if Unsatisfied(i, id, dep) {
      var a, d :|
        && Joins(i, a) && a.value.packId == id && d in a.value.dependencies && d.packId == dep
        && forall b :: Joins(i, b) && b.value.packId == dep ==> b.value.version != d.version;
      assert dep in sel ==> Joins(i, sel[dep]);
      assert DepGives(sel, id, d, e);
    }
  }

  lemma MismatchIsPinned(i: Inputs, packs: seq<SuppliedPack>, sel: PackMap, id: JsString, dep: JsString)
    requires Taken(i, packs, sel) && DepFault(packs, sel, DependencyDigestMismatch(id, dep))
    ensures SatisfiedByAnother(i, id, dep)
  {
    hide Joins;
    var a, d :|
      && a in packs && d in a.value.dependencies && DepGives(sel, a.value.packId, d, DependencyDigestMismatch(id, dep));
    assert Joins(i, a) && Joins(i, sel[dep]);
  }

  lemma PinnedIsMismatch(i: Inputs, packs: seq<SuppliedPack>, sel: PackMap, id: JsString, dep: JsString)
    requires Taken(i, packs, sel) && SatisfiedByAnother(i, id, dep)
    ensures DepFault(packs, sel, DependencyDigestMismatch(id, dep))
  {
    hide Joins;
    var a, d, b :|
      && Joins(i, a) && a.value.packId == id && d in a.value.dependencies && d.packId == dep
      && Joins(i, b) && b.value.packId == dep && b.value.version == d.version && b.digest != d.digest;
    assert a in packs && sel[d.packId] == b;
    assert DepGives(sel, a.value.packId, d, DependencyDigestMismatch(id, dep));
  }

  lemma LaterExactly(a: Phase, b: Phase)
    ensures Later(a, b) <==> PhaseIndex(a) > PhaseIndex(b)
  {
  }

  lemma PhaseGivesExactly(a: Pack, d: Dep, theirs: Check, id: JsString, dep: JsString, checkId: JsString)
    ensures PhaseGives(a, d, theirs, PhaseConflict(id, dep, checkId)) <==>
      a.packId == id && d.packId == dep && theirs.checkId == checkId && IsLater(theirs, a)
  {
    forall mine: Check ensures Later(theirs.phase, mine.phase) <==> PhaseIndex(theirs.phase) > PhaseIndex(mine.phase) {
      LaterExactly(theirs.phase, mine.phase);
    }
    hide Later, PhaseIndex;
  }

  lemma ConflictRunsTooLate(i: Inputs, packs: seq<SuppliedPack>, sel: PackMap, id: JsString, dep: JsString,
      checkId: JsString)
    requires Taken(i, packs, sel) && PhaseFault(packs, sel, PhaseConflict(id, dep, checkId))
    ensures RunsTooLate(i, id, dep, checkId)
  {
    hide IsLater, Joins, PhaseGives;
    var a, d, theirs :|
      && a in packs && d in a.value.dependencies && d.packId in sel && theirs in sel[d.packId].value.checks
      && PhaseGives(a.value, d, theirs, PhaseConflict(id, dep, checkId));
    PhaseGivesExactly(a.value, d, theirs, id, dep, checkId);
    assert Joins(i, a) && Joins(i, sel[d.packId]);
  }

  lemma TooLateConflicts(i: Inputs, packs: seq<SuppliedPack>, sel: PackMap, id: JsString, dep: JsString,
      checkId: JsString)
    requires Taken(i, packs, sel) && RunsTooLate(i, id, dep, checkId)
    ensures PhaseFault(packs, sel, PhaseConflict(id, dep, checkId))
  {
    hide IsLater, Joins, PhaseGives;
    var a, d, b, theirs :|
      && Joins(i, a) && a.value.packId == id && d in a.value.dependencies && d.packId == dep
      && Joins(i, b) && b.value.packId == dep && theirs in b.value.checks && theirs.checkId == checkId
      && IsLater(theirs, a.value);
    PhaseGivesExactly(a.value, d, theirs, id, dep, checkId);
    assert a in packs && sel[d.packId] == b;
  }

  lemma UsesExactly(i: Inputs, packs: seq<SuppliedPack>, sel: PackMap, id: JsString, dep: JsString)
    requires Taken(i, packs, sel)
    ensures Uses(i, id, dep) <==> id in DepGraph(sel) && dep in DepGraph(sel)[id]
  {
    hide Joins;
    if id in DepGraph(sel) && dep in DepGraph(sel)[id] {
      var d :| d in sel[id].value.dependencies && d.packId in sel && d.packId != id && d.packId == dep;
      assert Joins(i, sel[id]) && Joins(i, sel[dep]);
    }
  }

  lemma RoundIsCycle(i: Inputs, g: Graph, walk: seq<JsString>)
    requires forall id, dep :: Uses(i, id, dep) <==> id in g && dep in g[id]
    ensures IsRound(i, walk) <==> IsCycle(g, walk)
  {
    hide Uses;
    if IsRound(i, walk) {
      forall k | 0 <= k < |walk| - 1 ensures walk[k] in g && walk[k + 1] in g[walk[k]] {
        assert Uses(i, walk[k + 1 - 1], walk[k + 1]);
      }
    }
    if IsCycle(g, walk) {
      forall k | 0 < k < |walk| ensures Uses(i, walk[k - 1], walk[k]) {
        assert walk[k - 1] in g && walk[k - 1 + 1] in g[walk[k - 1]];
      }
    }
  }

  lemma CycleExactly(i: Inputs, g: Graph)
    requires forall id, dep :: Uses(i, id, dep) <==> id in g && dep in g[id]
    ensures Acyclic(g) <==> !GoesRound(i)
  {
    hide IsCycle, IsRound, Uses;
    forall walk ensures IsRound(i, walk) <==> IsCycle(g, walk) { RoundIsCycle(i, g, walk); }
  }

  // ---------- checks ----------

  lemma ValidatorsExactly(i: Inputs, packs: seq<SuppliedPack>, sel: PackMap, id: JsString)
    requires Taken(i, packs, sel)
    ensures ValidatorFault(Offers(packs), i.builtinIds, i.admits, id) <==>
      exists a, c :: Has(i, a, c, id) && Unknown(i, c.validator)
  {
    hide Joins, Offers;
    OfferMembers(packs);
    forall v ensures Known(i.builtinIds, i.admits, v) <==> !Unknown(i, v) {}
    hide Known, Unknown;
    if a, c :| Has(i, a, c, id) && Unknown(i, c.validator) {
      assert Offer(a.value.packId, c) in Offers(packs);
    }
    if ValidatorFault(Offers(packs), i.builtinIds, i.admits, id) {
      var o :| o in Offers(packs) && o.check.checkId == id && !Known(i.builtinIds, i.admits, o.check.validator);
      var a :| a in packs && a.value.packId == o.packId && o.check in a.value.checks;
      assert Has(i, a, o.check, id);
    }
  }

  lemma RepeatsConcat<T>(xs: seq<T>, ys: seq<T>, x: T)
    ensures Repeats(xs + ys, x) <==> Repeats(xs, x) || Repeats(ys, x) || (x in xs && x in ys)
  {
    var all := xs + ys;
    if Repeats(xs, x) {
      var j, k :| 0 <= j < k < |xs| && xs[j] == x && xs[k] == x;
      assert all[j] == x && all[k] == x;
    }
    if Repeats(ys, x) {
      var j, k :| 0 <= j < k < |ys| && ys[j] == x && ys[k] == x;
      assert all[|xs| + j] == x && all[|xs| + k] == x;
    }
    if x in xs && x in ys {
      var j :| 0 <= j < |xs| && xs[j] == x;
      var k :| 0 <= k < |ys| && ys[k] == x;
      assert all[j] == x && all[|xs| + k] == x;
    }
    if Repeats(all, x) {
      var j, k :| 0 <= j < k < |all| && all[j] == x && all[k] == x;
      if |xs| <= j {
        assert ys[j - |xs|] == x && ys[k - |xs|] == x;
      } else if k < |xs| {
        assert xs[j] == x && xs[k] == x;
      }
    }
  }

  ghost predicate HasCheck(p: SuppliedPack, c: Check, id: JsString) {
    c in p.value.checks && c.checkId == id
  }

  lemma {:induction false} OfferedIn(packs: seq<SuppliedPack>, id: JsString)
    ensures id in OfferIds(Offers(packs)) <==> exists a, c :: a in packs && HasCheck(a, c, id)
  {
    hide Offers;
    OfferMembers(packs);
    var offers := Offers(packs);
    if a, c :| a in packs && HasCheck(a, c, id) {
      assert Offer(a.value.packId, c) in offers;
      OfferIsListed(offers, Offer(a.value.packId, c));
    }
    if id in OfferIds(offers) {
      var o := OfferOf(offers, id);
      var a :| a in packs && a.value.packId == o.packId && o.check in a.value.checks;
      assert HasCheck(a, o.check, id);
    }
  }

  lemma OwnOffers(p: SuppliedPack, id: JsString)
    ensures id in OfferIds(OffersOf(p)) <==> exists c :: HasCheck(p, c, id)
  {
    OfferedIn([p], id);
    assert Offers([p]) == Offers([]) + OffersOf(p) == OffersOf(p);
    hide Offers, OffersOf, HasCheck;
  }

  lemma {:induction false} OfferRepeats(packs: seq<SuppliedPack>, id: JsString)
    requires NoDuplicates(PackIds(packs)) && forall p :: p in packs ==> PackLawful(p.value)
    ensures Repeats(OfferIds(Offers(packs)), id) <==>
      exists a, c, b, d :: a in packs && b in packs && a != b && HasCheck(a, c, id) && HasCheck(b, d, id)
  {
    if packs != [] {
      var front, last := packs[..|packs| - 1], packs[|packs| - 1];
      assert packs == front + [last] && PackIds(packs) == PackIds(front) + [last.value.packId];
      PrefixNoDuplicates(PackIds(front), last.value.packId);
      OfferRepeats(front, id);
      assert OfferIds(Offers(packs)) == OfferIds(Offers(front)) + OfferIds(OffersOf(last));
      LawfulOffersDistinct(last);
      NothingRepeats(OfferIds(OffersOf(last)));
      hide HasCheck, NoDuplicates, OfferIds, Offers, OffersOf, PackLawful, Repeats;
      RepeatsConcat(OfferIds(Offers(front)), OfferIds(OffersOf(last)), id);
      OfferedIn(front, id);
      OwnOffers(last, id);
      if last in front { PackIsListed(front, last); }
    }
  }

  lemma DuplicatesExactly(i: Inputs, packs: seq<SuppliedPack>, sel: PackMap, id: JsString)
    requires Taken(i, packs, sel) && NoDuplicates(PackIds(packs)) && forall p :: p in packs ==> PackLawful(p.value)
    ensures Repeats(OfferIds(Offers(packs)), id) <==> exists a, c, b, d :: a != b && Has(i, a, c, id) && Has(i, b, d, id)
  {
    hide Joins, NoDuplicates, OfferIds, Offers, PackIds, PackLawful, Repeats;
    OfferRepeats(packs, id);
    if a, c, b, d :| a != b && Has(i, a, c, id) && Has(i, b, d, id) {
      assert a in packs && b in packs && HasCheck(a, c, id) && HasCheck(b, d, id);
    }
    if Repeats(OfferIds(Offers(packs)), id) {
      var a, c, b, d :| a in packs && b in packs && a != b && HasCheck(a, c, id) && HasCheck(b, d, id);
      assert Has(i, a, c, id) && Has(i, b, d, id);
    }
  }

  lemma StrengthenedExactly(i: Inputs, packs: seq<SuppliedPack>, sel: PackMap, id: JsString)
    requires Taken(i, packs, sel)
    ensures id in FirstChecks(Offers(packs)) <==> exists a, c :: Has(i, a, c, id)
  {
    hide FirstChecks, Joins, Offers, OfferIds;
    FirstChecksFacts(Offers(packs));
    OfferedIn(packs, id);
    if a, c :| Has(i, a, c, id) { assert a in packs && HasCheck(a, c, id); }
    if id in FirstChecks(Offers(packs)) {
      var a, c :| a in packs && HasCheck(a, c, id);
      assert Has(i, a, c, id);
    }
  }

  // ---------- the first check of an id ----------

  /** The first offer of an id is the one kept. */
  lemma {:induction false} FirstOffer(offers: seq<Offer>, id: JsString, k: nat)
    requires k < |offers| && offers[k].check.checkId == id && id !in OfferIds(offers[..k])
    ensures id in FirstChecks(offers) && FirstChecks(offers)[id] == offers[k].check
  {
    var front, last := offers[..|offers| - 1], offers[|offers| - 1];
    assert OfferIds(offers) == OfferIds(front) + [last.check.checkId];
    if k < |front| {
      assert front[..k] == offers[..k];
      FirstOffer(front, id, k);
    } else {
      FirstChecksFacts(front);
    }
  }

  /** The pack that has the id first decides. */
  lemma {:induction false} FirstPack(packs: seq<SuppliedPack>, n: nat, c: Check, id: JsString)
    requires n < |packs| && HasCheck(packs[n], c, id) && NoDuplicates(CheckIds(packs[n].value.checks))
    requires forall k, d :: 0 <= k < n ==> !HasCheck(packs[k], d, id)
    ensures id in FirstChecks(Offers(packs)) && FirstChecks(Offers(packs))[id] == c
  {
    var p, before := packs[n], Offers(packs[..n]);
    OfferedIn(packs[..n], id);
    var j :| 0 <= j < |p.value.checks| && p.value.checks[j] == c;
    assert packs[..n + 1][..n] == packs[..n];
    var upto := Offers(packs[..n + 1]);
    assert upto == before + OffersOf(p);
    OffersStart(packs, n + 1);
    var offers, k := Offers(packs), |before| + j;
    assert offers[k] == upto[k] == Offer(p.value.packId, c);
    forall m | 0 <= m < k ensures OfferIds(offers[..k])[m] != id {
      assert offers[m] == upto[m];
      if m < |before| {
        assert OfferIds(before)[m] == offers[m].check.checkId;
      } else {
        assert CheckIds(p.value.checks)[m - |before|] != CheckIds(p.value.checks)[j];
      }
    }
    FirstOffer(offers, id, k);
  }

  lemma {:induction false} OffersStart(packs: seq<SuppliedPack>, n: nat)
    requires n <= |packs|
    ensures Offers(packs[..n]) <= Offers(packs)
  {
    if n < |packs| {
      var front := packs[..|packs| - 1];
      assert front[..n] == packs[..n];
      OffersStart(front, n);
    } else {
      assert packs[..n] == packs;
    }
  }

  /** Chosen packs keep the order of the selections that name them. */
  lemma {:induction false} ChosenInOrder(kernelIds: set<JsString>, supplied: PackMap, sels: seq<Selection>, j: nat,
      k: nat, m: nat, n: nat)
    requires forall id :: id in supplied ==> supplied[id].value.packId == id
    requires NoDuplicates(SelectionIds(sels)) && m < |sels| && n < |sels|
    requires var chosen := Chosen(kernelIds, supplied, sels);
             && j < k < |chosen| && chosen[j].value.packId == sels[m].packId && chosen[k].value.packId == sels[n].packId
    ensures m < n
  {
    var front, last := sels[..|sels| - 1], sels[|sels| - 1];
    var before := Chosen(kernelIds, supplied, front);
    assert SelectionIds(sels) == SelectionIds(front) + [last.packId];
    PrefixNoDuplicates(SelectionIds(front), last.packId);
    ChosenFacts(kernelIds, supplied, front);
    assert before[j] in before;
    PlaceBefore(sels, m, before[j].value.packId);
    if k < |before| {
      assert before[k] in before;
      PlaceBefore(sels, n, before[k].value.packId);
      ChosenInOrder(kernelIds, supplied, front, j, k, m, n);
    } else {
      OnePlace(sels, n, |front|);
    }
  }

  lemma OnePlace(sels: seq<Selection>, m: nat, n: nat)
    requires NoDuplicates(SelectionIds(sels)) && m < |sels| && n < |sels| && sels[m].packId == sels[n].packId
    ensures m == n
  {
    assert SelectionIds(sels)[m] == SelectionIds(sels)[n];
  }

  lemma PlaceBefore(sels: seq<Selection>, m: nat, id: JsString)
    requires NoDuplicates(SelectionIds(sels)) && m < |sels| && sels[m].packId == id
    requires id in SelectionIds(sels[..|sels| - 1])
    ensures m < |sels| - 1
  {
    var front := sels[..|sels| - 1];
    var k :| 0 <= k < |front| && SelectionIds(front)[k] == id;
    OnePlace(sels, m, k);
  }

  /** Places rise along the list of the selected packs. */
  lemma PlacesRise(i: Inputs, j: nat, k: nat, m: nat, n: nat)
    requires NoDuplicates(SelectionIds(i.profile.packs)) && NoDuplicates(PackIds(i.mandatory))
    requires j < k < |Selected(i)| && JoinsAt(i, Selected(i)[j], m) && JoinsAt(i, Selected(i)[k], n)
    ensures m < n
  {
    var own := |i.mandatory|;
    var kernelIds, supplied := Elements(PackIds(i.mandatory)), Index(i.packs);
    hide Chosen, Index, LastOfId, NoDuplicates;
    PlaceOf(i, j, m);
    PlaceOf(i, k, n);
    if j >= own {
      IndexFacts(i.packs);
      ChosenInOrder(kernelIds, supplied, i.profile.packs, j - own, k - own, m - own, n - own);
    }
  }

  /** A kernel pack has its own place, any other one of the places of the selections. */
  lemma PlaceOf(i: Inputs, k: nat, n: nat)
    requires NoDuplicates(PackIds(i.mandatory)) && k < |Selected(i)| && JoinsAt(i, Selected(i)[k], n)
    ensures if k < |i.mandatory| then n == k else n >= |i.mandatory|
  {
    var own, p := |i.mandatory|, Selected(i)[k];
    hide Chosen, Index, LastOfId, NoDuplicates;
    if k < own {
      assert i.mandatory[k] in i.mandatory && p == i.mandatory[k];
      KernelPlace(i.mandatory, k, n);
    } else if n < own {
      IndexFacts(i.packs);
      ChosenFacts(Elements(PackIds(i.mandatory)), Index(i.packs), i.profile.packs);
      assert p in Chosen(Elements(PackIds(i.mandatory)), Index(i.packs), i.profile.packs);
      PackIsListed(i.mandatory, i.mandatory[n]);
    }
  }

  lemma KernelPlace(mandatory: seq<SuppliedPack>, k: nat, n: nat)
    requires NoDuplicates(PackIds(mandatory)) && k < |mandatory|
    ensures n < |mandatory| && mandatory[n] == mandatory[k] ==> n == k
  {
    if n < |mandatory| {
      var ids := PackIds(mandatory);
      assert ids[n] == mandatory[n].value.packId && ids[k] == mandatory[k].value.packId;
    }
  }

  lemma PlaceIsOne(i: Inputs, k: nat, m: nat, n: nat)
    requires NoDuplicates(SelectionIds(i.profile.packs)) && NoDuplicates(PackIds(i.mandatory)) && k < |Selected(i)|
    requires JoinsAt(i, Selected(i)[k], m) && JoinsAt(i, Selected(i)[k], n)
    ensures m == n
  {
    PlaceOf(i, k, m);
    PlaceOf(i, k, n);
    hide IsKernels, LastOfId, NoDuplicates, PackIds, Selected, SelectionIds;
    var own := |i.mandatory|;
    if k >= own { OnePlace(i.profile.packs, m - own, n - own); }
  }

  /** The list of the selected packs, its places, and the ids that do not repeat. */
  ghost predicate Listing(i: Inputs, packs: seq<SuppliedPack>) {
    && packs == Selected(i)
    && (forall p :: p in packs <==> Joins(i, p))
    && (forall p :: p in packs ==> NoDuplicates(CheckIds(p.value.checks)))
    && NoDuplicates(SelectionIds(i.profile.packs)) && NoDuplicates(PackIds(i.mandatory))
  }

  lemma FirstIsKept(i: Inputs, packs: seq<SuppliedPack>, c: Check, id: JsString)
    requires Listing(i, packs) && FirstOfId(i, c, id)
    ensures id in FirstChecks(Offers(packs)) && FirstChecks(Offers(packs))[id] == c
  {
    hide CheckIds, FirstChecks, JoinsAt, NoDuplicates, Offers, PackIds, Selected, SelectionIds;
    var a: SuppliedPack, n: nat :|
      && JoinsAt(i, a, n) && c in a.value.checks && c.checkId == id
      && forall b, m: nat, d :: m < n && JoinsAt(i, b, m) && d in b.value.checks ==> d.checkId != id;
    assert a in packs by { assert Joins(i, a); }
    var k :| 0 <= k < |packs| && packs[k] == a;
    forall j, d | 0 <= j < k ensures !HasCheck(packs[j], d, id) {
      assert packs[j] in packs;
      var m: nat :| JoinsAt(i, packs[j], m);
      PlacesRise(i, j, k, m, n);
    }
    FirstPack(packs, k, c, id);
  }

  lemma LeastPack(packs: seq<SuppliedPack>, id: JsString) returns (k: nat, c: Check)
    requires exists a, c :: a in packs && HasCheck(a, c, id)
    ensures k < |packs| && HasCheck(packs[k], c, id)
    ensures forall j, d :: 0 <= j < k ==> !HasCheck(packs[j], d, id)
  {
    if d :| HasCheck(packs[0], d, id) {
      k, c := 0, d;
    } else {
      var rest := packs[1..];
      var a, d :| a in packs && HasCheck(a, d, id);
      assert a in rest;
      k, c := LeastPack(rest, id);
      k := k + 1;
      forall j, d | 0 <= j < k ensures !HasCheck(packs[j], d, id) {
        if j > 0 { assert packs[j] == rest[j - 1]; }
      }
    }
  }

  lemma KeptIsFirst(i: Inputs, packs: seq<SuppliedPack>, id: JsString)
    requires Listing(i, packs) && id in FirstChecks(Offers(packs))
    ensures FirstOfId(i, FirstChecks(Offers(packs))[id], id)
  {
    hide CheckIds, FirstChecks, JoinsAt, NoDuplicates, Offers, PackIds, Selected, SelectionIds;
    FirstChecksFacts(Offers(packs));
    OfferedIn(packs, id);
    var k, c := LeastPack(packs, id);
    FirstPack(packs, k, c, id);
    assert packs[k] in packs;
    var n: nat :| JoinsAt(i, packs[k], n);
    forall b, m: nat, d | m < n && JoinsAt(i, b, m) && d in b.value.checks ensures d.checkId != id {
      assert b in packs by { assert Joins(i, b); }
      var j :| 0 <= j < |packs| && packs[j] == b;
      if j == k {
        PlaceIsOne(i, k, m, n);
      } else if k < j {
        PlacesRise(i, k, j, n, m);
      } else {
        assert !HasCheck(packs[j], d, id);
      }
    }
  }

  lemma ConflictExactly(i: Inputs, packs: seq<SuppliedPack>, id: JsString)
    requires Listing(i, packs)
    ensures id in FirstChecks(Offers(packs)) && FirstChecks(Offers(packs))[id].consumer.EvidenceOnly? <==>
      exists c :: FirstOfId(i, c, id) && c.consumer == EvidenceOnly
  {
    hide FirstChecks, FirstOfId, Joins, Listing, Offers;
    if id in FirstChecks(Offers(packs)) { KeptIsFirst(i, packs, id); }
    if c :| FirstOfId(i, c, id) && c.consumer == EvidenceOnly { FirstIsKept(i, packs, c, id); }
  }

  // ---------- all of them ----------

  lemma TakenExactly(i: Inputs)
    requires DocumentsLawful(i) && KernelPacksLawful(i.mandatory)
    ensures Taken(i, Selected(i), SelectedMap(i)) && Listing(i, Selected(i))
    ensures NoDuplicates(PackIds(Selected(i))) && forall p :: p in Selected(i) ==> PackLawful(p.value)
  {
    SelectedFacts(i);
    SelectedExactly(i);
    hide Index, Joins, NoDuplicates, Selected, SelectedMap;
  }

  lemma CompositionRefusals(i: Inputs, e: CompileError)
    requires DocumentsLawful(i) && KernelPacksLawful(i.mandatory)
    requires e.DependencyUnsatisfied? || e.DependencyDigestMismatch? || e.PhaseConflict? || e.DependencyCycle?
    ensures Violates(i, e) <==> Refuses(i, e)
  {
    TakenExactly(i);
    var packs, sel := Selected(i), SelectedMap(i);
    hide Acyclic, DepFault, DepGraph, DocumentsLawful, GoesRound, KernelPacksLawful, Listing, PackLawful, PhaseFault,
      RunsTooLate, SatisfiedByAnother, Selected, SelectedMap, Taken, Unsatisfied, Uses;
    if e.DependencyUnsatisfied? {
      UnsatisfiedExactly(i, packs, sel, e.packId, e.dep);
    } else if e.DependencyDigestMismatch? {
      if Violates(i, e) { MismatchIsPinned(i, packs, sel, e.packId, e.dep); }
      if Refuses(i, e) { PinnedIsMismatch(i, packs, sel, e.packId, e.dep); }
    } else if e.PhaseConflict? {
      if Violates(i, e) { ConflictRunsTooLate(i, packs, sel, e.packId, e.dep, e.checkId); }
      if Refuses(i, e) { TooLateConflicts(i, packs, sel, e.packId, e.dep, e.checkId); }
    } else {
      forall id, dep ensures Uses(i, id, dep) <==> id in DepGraph(sel) && dep in DepGraph(sel)[id] {
        UsesExactly(i, packs, sel, id, dep);
      }
      CycleExactly(i, DepGraph(sel));
    }
  }

  lemma CheckRefusals(i: Inputs, id: JsString)
    requires DocumentsLawful(i) && KernelPacksLawful(i.mandatory)
    ensures Violates(i, DuplicateCheck(id)) <==> Refuses(i, DuplicateCheck(id))
    ensures Violates(i, UnknownValidator(id)) <==> Refuses(i, UnknownValidator(id))
  {
    hide DocumentsLawful, FirstChecks, FirstOfId, Has, KernelPacksLawful, Listing, NoDuplicates, OfferIds, Offers,
      PackIds, PackLawful, Repeats, Selected, SelectedMap, Taken, Unknown, ValidatorFault;
    TakenExactly(i);
    DuplicatesExactly(i, Selected(i), SelectedMap(i), id);
    ValidatorsExactly(i, Selected(i), SelectedMap(i), id);
  }

  lemma StrengthenRefusals(i: Inputs, id: JsString)
    requires DocumentsLawful(i) && KernelPacksLawful(i.mandatory)
    ensures Violates(i, UnknownStrengthened(id)) <==> Refuses(i, UnknownStrengthened(id))
    ensures Violates(i, StrengthenConflict(id)) <==> Refuses(i, StrengthenConflict(id))
  {
    hide DocumentsLawful, FirstChecks, FirstOfId, Has, KernelPacksLawful, Listing, NoDuplicates, OfferIds, Offers,
      PackIds, PackLawful, Repeats, Selected, SelectedMap, Taken, Unknown, ValidatorFault;
    TakenExactly(i);
    StrengthenedExactly(i, Selected(i), SelectedMap(i), id);
    ConflictExactly(i, Selected(i), id);
  }

  /** A lawful set of documents is refused for exactly the reasons that can be read off it. */
  lemma RefusedExactly(i: Inputs, e: CompileError)
    requires DocumentsLawful(i) && KernelPacksLawful(i.mandatory)
    ensures Violates(i, e) <==> Refuses(i, e)
  {
    hide DocumentsLawful, KernelPacksLawful, Refuses, Violates;
    if OnDocuments(e) {
      DocumentRefusals(i, e);
    } else if e.KernelPackRedeclared? || e.KernelPackSupplied? || e.PackNotSelected? {
      KernelRefusals(i, e);
    } else if e.PackNotFound? || e.PackVersionMismatch? || e.PackDigestMismatch? {
      NamedRefusals(i, e);
    } else if e.DependencyUnsatisfied? || e.DependencyDigestMismatch? || e.PhaseConflict? || e.DependencyCycle? {
      CompositionRefusals(i, e);
    } else {
      assert e.DuplicateCheck? || e.UnknownValidator? || e.UnknownStrengthened? || e.StrengthenConflict?;
      CheckRefusals(i, e.checkId);
      StrengthenRefusals(i, e.checkId);
    }
  }

  lemma NamedRefusals(i: Inputs, e: CompileError)
    requires e.PackNotFound? || e.PackVersionMismatch? || e.PackDigestMismatch?
    ensures Violates(i, e) <==> Refuses(i, e)
  {
    SelectionRefusals(i, e);
    hide Index, IsKernels, IsNamed, IsSupplied, SelectionFault, SelectsAnother;
  }
}
