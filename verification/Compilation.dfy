/** What a compilation starts from, which packs it selects, and every reason it can be refused. */
module Compilation {
  import opened Base
  import opened Plan
  import opened Packs
  import opened Kahn

  /** The arguments of `compilePlan`; `admits` is the toolchain authority, `mandatory` the packs the kernel ships. */
  datatype Inputs = Inputs(
    kernelRelease: JsString,
    contract: WorkContract,
    profile: Profile,
    profileDigest: Digest,
    packs: seq<SuppliedPack>,
    capabilityIndex: Option<Digest>,
    builtinIds: set<JsString>,
    admits: JsString -> bool,
    mandatory: seq<SuppliedPack>)

  datatype CompileError =
    | ProfileDigestMismatch
    | ProfileIdentityMismatch
    | CapabilityDigestMismatch
    | DuplicatePack(packId: JsString)
    | KernelPackRedeclared(packId: JsString)
    | KernelPackSupplied(packId: JsString)
    | PackNotFound(packId: JsString)
    | PackVersionMismatch(packId: JsString)
    | PackDigestMismatch(packId: JsString)
    | PackNotSelected(packId: JsString)
    | DependencyUnsatisfied(packId: JsString, dep: JsString)
    | DependencyDigestMismatch(packId: JsString, dep: JsString)
    | PhaseConflict(packId: JsString, dep: JsString, checkId: JsString)
    | DependencyCycle
    | DuplicateCheck(checkId: JsString)
    | UnknownValidator(checkId: JsString)
    | UnknownStrengthened(checkId: JsString)
    | StrengthenConflict(checkId: JsString)

  // ---------- selection ----------

  type PackMap = map<JsString, SuppliedPack>

  function PackIds(packs: seq<SuppliedPack>): seq<JsString> {
    seq(|packs|, k requires 0 <= k < |packs| => packs[k].value.packId)
  }

  function SelectionIds(sels: seq<Selection>): seq<JsString> {
    seq(|sels|, k requires 0 <= k < |sels| => sels[k].packId)
  }

  /** Packs by id, a later one replacing an earlier one. */
  function Index(packs: seq<SuppliedPack>): PackMap {
    if packs == [] then map[]
    else
      var last := packs[|packs| - 1];
      Index(packs[..|packs| - 1])[last.value.packId := last]
  }

  /** The supplied packs a profile's selections name, kernel packs left out. */
  function Chosen(kernelIds: set<JsString>, supplied: PackMap, sels: seq<Selection>): seq<SuppliedPack> {
    if sels == [] then []
    else
      var last := sels[|sels| - 1];
      Chosen(kernelIds, supplied, sels[..|sels| - 1])
      + if last.packId !in kernelIds && last.packId in supplied then [supplied[last.packId]] else []
  }

  /** All packs of a compilation, in the order they are taken up: the kernel's, then the profile's. */
  function Selected(i: Inputs): seq<SuppliedPack> {
    i.mandatory + Chosen(Elements(PackIds(i.mandatory)), Index(i.packs), i.profile.packs)
  }

  /** `selected`: the packs of the compilation by id. */
  function SelectedMap(i: Inputs): PackMap {
    Index(Selected(i))
  }

  /** What each selected pack depends on among the selected packs. */
  function DepGraph(sel: PackMap): Graph {
    map id | id in sel ::
      set d | d in sel[id].value.dependencies && d.packId in sel && d.packId != id :: d.packId
  }

  /** A check together with the pack that offers it. */
  datatype Offer = Offer(packId: JsString, check: Check)

  function OffersOf(p: SuppliedPack): seq<Offer> {
    seq(|p.value.checks|, k requires 0 <= k < |p.value.checks| => Offer(p.value.packId, p.value.checks[k]))
  }

  /** All checks of some packs, pack by pack. */
  function Offers(packs: seq<SuppliedPack>): seq<Offer> {
    if packs == [] then [] else Offers(packs[..|packs| - 1]) + OffersOf(packs[|packs| - 1])
  }

  function OfferIds(offers: seq<Offer>): seq<JsString> {
    seq(|offers|, k requires 0 <= k < |offers| => offers[k].check.checkId)
  }

  /** `checkById`: the first check of each id. */
  function FirstChecks(offers: seq<Offer>): map<JsString, Check> {
    if offers == [] then map[]
    else
      var last := offers[|offers| - 1].check;
      var m := FirstChecks(offers[..|offers| - 1]);
      if last.checkId in m then m else m[last.checkId := last]
  }

  /** A builtin the kernel knows, or a target command whose executable the toolchain authority admits. */
  predicate Known(builtinIds: set<JsString>, admits: JsString -> bool, v: Validator) {
    match v
    case Builtin(id) => id in builtinIds
    case TargetCommand(argv, _) => argv != [] && admits(argv[0])
  }

  // ---------- reasons for refusal ----------

  predicate SelectionGives(kernelIds: set<JsString>, supplied: PackMap, s: Selection, e: CompileError) {
    && s.packId !in kernelIds
    && match e
       case PackNotFound(id) => id == s.packId && id !in supplied
       case PackVersionMismatch(id) => id == s.packId && id in supplied && supplied[id].value.version != s.version
       case PackDigestMismatch(id) => id == s.packId && id in supplied && supplied[id].digest != s.digest
       case _ => false
  }

  predicate DepGives(sel: PackMap, packId: JsString, d: Dep, e: CompileError) {
    var met := d.packId in sel && sel[d.packId].value.version == d.version;
    match e
    case DependencyUnsatisfied(p, q) => p == packId && q == d.packId && !met
    case DependencyDigestMismatch(p, q) => p == packId && q == d.packId && met && sel[d.packId].digest != d.digest
    case _ => false
  }

  /** The check `c` of a dependency runs in a later phase than some check of the pack. */
  predicate PhaseGives(pack: Pack, d: Dep, c: Check, e: CompileError) {
    && e == PhaseConflict(pack.packId, d.packId, c.checkId)
    && exists mine :: mine in pack.checks && PhaseIndex(c.phase) > PhaseIndex(mine.phase)
  }

  ghost predicate SelectionFault(kernelIds: set<JsString>, supplied: PackMap, sels: seq<Selection>, e: CompileError) {
    exists s :: s in sels && SelectionGives(kernelIds, supplied, s, e)
  }

  ghost predicate DepFault(packs: seq<SuppliedPack>, sel: PackMap, e: CompileError) {
    exists p, d :: p in packs && d in p.value.dependencies && DepGives(sel, p.value.packId, d, e)
  }

  ghost predicate PhaseFault(packs: seq<SuppliedPack>, sel: PackMap, e: CompileError) {
    exists p, d, c ::
      && p in packs && d in p.value.dependencies && d.packId in sel
      && c in sel[d.packId].value.checks && PhaseGives(p.value, d, c, e)
  }

  ghost predicate ValidatorFault(offers: seq<Offer>, builtinIds: set<JsString>, admits: JsString -> bool, id: JsString) {
    exists o :: o in offers && o.check.checkId == id && !Known(builtinIds, admits, o.check.validator)
  }

  /** Every reason for which `compilePlan` refuses its inputs. */
  ghost predicate Violates(i: Inputs, e: CompileError) {
    var kernelIds := Elements(PackIds(i.mandatory));
    var packs := Selected(i);
    match e
    case ProfileDigestMismatch => i.contract.profileDigest != i.profileDigest
    case ProfileIdentityMismatch => i.contract.profileId != i.profile.profileId
    case CapabilityDigestMismatch => i.contract.capabilityIndex != i.capabilityIndex
    case DuplicatePack(id) => Repeats(PackIds(i.packs), id)
    case KernelPackRedeclared(id) => id in kernelIds && id in SelectionIds(i.profile.packs)
    case KernelPackSupplied(id) => id in kernelIds && id in PackIds(i.packs)
    case PackNotFound(_) => SelectionFault(kernelIds, Index(i.packs), i.profile.packs, e)
    case PackVersionMismatch(_) => SelectionFault(kernelIds, Index(i.packs), i.profile.packs, e)
    case PackDigestMismatch(_) => SelectionFault(kernelIds, Index(i.packs), i.profile.packs, e)
    case PackNotSelected(id) => id in PackIds(i.packs) && id !in SelectionIds(i.profile.packs)
    case DependencyUnsatisfied(_, _) => DepFault(packs, SelectedMap(i), e)
    case DependencyDigestMismatch(_, _) => DepFault(packs, SelectedMap(i), e)
    case PhaseConflict(_, _, _) => PhaseFault(packs, SelectedMap(i), e)
    case DependencyCycle => !Acyclic(DepGraph(SelectedMap(i)))
    case DuplicateCheck(id) => Repeats(OfferIds(Offers(packs)), id)
    case UnknownValidator(id) => ValidatorFault(Offers(packs), i.builtinIds, i.admits, id)
    case UnknownStrengthened(id) => id in i.profile.strengthen && id !in FirstChecks(Offers(packs))
    case StrengthenConflict(id) =>
      && id in i.profile.strengthen && id in FirstChecks(Offers(packs))
      && FirstChecks(Offers(packs))[id].consumer.EvidenceOnly?
  }

  // ---------- the same, said positively ----------

  ghost predicate DocumentsLawful(i: Inputs) {
    && NoDuplicates(SelectionIds(i.profile.packs))
    && forall p :: p in i.packs ==> PackLawful(p.value)
  }

  /** What the kernel checks of its own packs when it loads them. */
  ghost predicate KernelPacksLawful(mandatory: seq<SuppliedPack>) {
    NoDuplicates(PackIds(mandatory)) && forall p :: p in mandatory ==> PackLawful(p.value)
  }

  /** The contract pins this profile and this capability index. */
  ghost predicate PinsAgree(i: Inputs) {
    && i.contract.profileDigest == i.profileDigest
    && i.contract.profileId == i.profile.profileId
    && i.contract.capabilityIndex == i.capabilityIndex
  }

  ghost predicate Supplies(packs: seq<SuppliedPack>, s: Selection) {
    exists p :: p in packs && p.value.packId == s.packId && p.value.version == s.version && p.digest == s.digest
  }

  /** The profile selects exactly the supplied packs, each at its version and digest, and none of the kernel's. */
  ghost predicate SelectionAgrees(i: Inputs) {
    && NoDuplicates(PackIds(i.packs))
    && (forall id :: id in PackIds(i.mandatory) ==> id !in PackIds(i.packs) && id !in SelectionIds(i.profile.packs))
    && (forall s :: s in i.profile.packs ==> Supplies(i.packs, s))
    && forall id :: id in PackIds(i.packs) ==> id in SelectionIds(i.profile.packs)
  }

  /** A dependency is selected at the version and digest it pins. */
  ghost predicate DepMet(sel: PackMap, d: Dep) {
    d.packId in sel && sel[d.packId].value.version == d.version && sel[d.packId].digest == d.digest
  }

  ghost predicate DepsMet(sel: PackMap) {
    forall id, d :: id in sel && d in sel[id].value.dependencies ==> DepMet(sel, d)
  }

  /** No check of a dependency runs in a later phase than a check of the dependent pack. */
  ghost predicate PhasesAgree(sel: PackMap) {
    forall id, d, mine, theirs ::
      && id in sel && d in sel[id].value.dependencies && d.packId in sel
      && mine in sel[id].value.checks && theirs in sel[d.packId].value.checks
      ==> PhaseIndex(theirs.phase) <= PhaseIndex(mine.phase)
  }

  ghost predicate Declares(sel: PackMap, packId: JsString, c: Check) {
    packId in sel && c in sel[packId].value.checks
  }

  /** A check id names one check of one pack. */
  ghost predicate ChecksDistinct(sel: PackMap) {
    forall a, c, b, d :: Declares(sel, a, c) && Declares(sel, b, d) && c.checkId == d.checkId ==> a == b && c == d
  }

  ghost predicate ValidatorsKnown(sel: PackMap, builtinIds: set<JsString>, admits: JsString -> bool) {
    forall a, c :: Declares(sel, a, c) ==> Known(builtinIds, admits, c.validator)
  }

  ghost predicate Strengthenable(sel: PackMap, id: JsString) {
    exists a, c :: Declares(sel, a, c) && c.checkId == id && c.consumer.DispositionReducer?
  }

  ghost predicate Composes(sel: PackMap, i: Inputs) {
    && DepsMet(sel)
    && PhasesAgree(sel)
    && Acyclic(DepGraph(sel))
    && ChecksDistinct(sel)
    && ValidatorsKnown(sel, i.builtinIds, i.admits)
    && forall id :: id in i.profile.strengthen ==> Strengthenable(sel, id)
  }

  /** What a compilation needs of its inputs. */
  ghost predicate Compilable(i: Inputs) {
    PinsAgree(i) && SelectionAgrees(i) && Composes(SelectedMap(i), i)
  }

  // ---------- facts about the selection ----------

  lemma {:induction false} IndexFacts(packs: seq<SuppliedPack>)
    ensures forall id :: id in Index(packs) <==> id in PackIds(packs)
    ensures forall id :: id in Index(packs) ==> Index(packs)[id] in packs && Index(packs)[id].value.packId == id
    ensures NoDuplicates(PackIds(packs)) ==> forall p :: p in packs ==>
      p.value.packId in Index(packs) && Index(packs)[p.value.packId] == p
  {
    if packs != [] {
      var front, last := packs[..|packs| - 1], packs[|packs| - 1];
      IndexFacts(front);
      assert packs == front + [last];
      assert PackIds(packs) == PackIds(front) + [last.value.packId];
      PrefixNoDuplicates(PackIds(front), last.value.packId);
      if NoDuplicates(PackIds(packs)) {
        forall p | p in packs ensures p.value.packId in Index(packs) && Index(packs)[p.value.packId] == p {
          if p != last {
            var k :| 0 <= k < |front| && front[k] == p;
            assert PackIds(packs)[k] == p.value.packId && PackIds(packs)[|front|] == last.value.packId;
          }
        }
      }
    }
  }

  /** What `Chosen` picks: a supplied pack for each selection that names one. */
  lemma {:induction false} ChosenFacts(kernelIds: set<JsString>, supplied: PackMap, sels: seq<Selection>)
    requires forall id :: id in supplied ==> supplied[id].value.packId == id
    ensures forall p :: p in Chosen(kernelIds, supplied, sels) <==>
      p.value.packId !in kernelIds && p.value.packId in SelectionIds(sels)
      && p.value.packId in supplied && supplied[p.value.packId] == p
  {
    if sels != [] {
      var front, last := sels[..|sels| - 1], sels[|sels| - 1];
      ChosenFacts(kernelIds, supplied, front);
      assert SelectionIds(sels) == SelectionIds(front) + [last.packId];
    }
  }

  lemma {:induction false} ChosenDistinct(kernelIds: set<JsString>, supplied: PackMap, sels: seq<Selection>)
    requires forall id :: id in supplied ==> supplied[id].value.packId == id
    requires NoDuplicates(SelectionIds(sels))
    ensures NoDuplicates(PackIds(Chosen(kernelIds, supplied, sels)))
  {
    if sels != [] {
      var front, last := sels[..|sels| - 1], sels[|sels| - 1];
      assert SelectionIds(sels) == SelectionIds(front) + [last.packId];
      PrefixNoDuplicates(SelectionIds(front), last.packId);
      ChosenDistinct(kernelIds, supplied, front);
      ChosenFacts(kernelIds, supplied, front);
      var before := Chosen(kernelIds, supplied, front);
      if last.packId in PackIds(before) {
        var p := PackOf(before, last.packId);
      }
      PrefixNoDuplicates(PackIds(before), last.packId);
      if last.packId !in kernelIds && last.packId in supplied {
        assert PackIds(before + [supplied[last.packId]]) == PackIds(before) + [last.packId];
      } else {
        assert before + [] == before;
      }
    }
  }

  lemma PackOf(packs: seq<SuppliedPack>, id: JsString) returns (p: SuppliedPack)
    requires id in PackIds(packs)
    ensures p in packs && p.value.packId == id
  {
    var k :| 0 <= k < |packs| && PackIds(packs)[k] == id;
    p := packs[k];
  }

  lemma PrefixNoDuplicates<T>(xs: seq<T>, x: T)
    ensures NoDuplicates(xs + [x]) <==> NoDuplicates(xs) && x !in xs
  {
    var all := xs + [x];
    if NoDuplicates(all) {
      forall i, j | 0 <= i < j < |xs| ensures xs[i] != xs[j] { assert all[i] != all[j]; }
      forall i | 0 <= i < |xs| ensures xs[i] != x { assert all[i] != all[|xs|]; }
    }
  }

  lemma ConcatNoDuplicates<T>(xs: seq<T>, ys: seq<T>)
    requires NoDuplicates(xs) && NoDuplicates(ys) && forall x :: x in xs ==> x !in ys
    ensures NoDuplicates(xs + ys)
  {
    var all := xs + ys;
    forall i, j | 0 <= i < j < |all| ensures all[i] != all[j] {
      if i < |xs| <= j { assert all[i] in xs && all[j] in ys; }
    }
  }

  /** Selected packs have distinct ids, so the map and the list say the same. */
  lemma SelectedFacts(i: Inputs)
    requires DocumentsLawful(i) && KernelPacksLawful(i.mandatory)
    ensures NoDuplicates(PackIds(Selected(i)))
    ensures forall p :: p in Selected(i) <==> p.value.packId in SelectedMap(i) && SelectedMap(i)[p.value.packId] == p
    ensures forall id :: id in SelectedMap(i) ==> SelectedMap(i)[id].value.packId == id
    ensures forall id :: id in SelectedMap(i) ==> PackLawful(SelectedMap(i)[id].value)
    ensures forall id :: id in SelectedMap(i) <==>
      id in PackIds(i.mandatory) || (id in SelectionIds(i.profile.packs) && id in PackIds(i.packs))
    ensures forall p :: p in Selected(i) <==>
      p in i.mandatory
      || (p.value.packId !in PackIds(i.mandatory) && p.value.packId in SelectionIds(i.profile.packs)
          && p.value.packId in Index(i.packs) && Index(i.packs)[p.value.packId] == p)
  {
    hide DocumentsLawful, Index, KernelPacksLawful, NoDuplicates, PackIds, PackLawful, Selected, SelectionIds;
    SelectedDistinct(i);
    SelectedMembers(i);
    SelectedLawful(i);
    IndexFacts(Selected(i));
    SelectedIds(i);
  }

  /** Selections leave the kernel's ids alone, so no id is taken up twice. */
  lemma SelectedDistinct(i: Inputs)
    requires DocumentsLawful(i) && KernelPacksLawful(i.mandatory)
    ensures NoDuplicates(PackIds(Selected(i)))
  {
    hide Chosen, Index, NoDuplicates, PackLawful, SelectionIds;
    var kernelIds := Elements(PackIds(i.mandatory));
    var chosen := Chosen(kernelIds, Index(i.packs), i.profile.packs);
    IndexFacts(i.packs);
    ChosenFacts(kernelIds, Index(i.packs), i.profile.packs);
    ChosenDistinct(kernelIds, Index(i.packs), i.profile.packs);
    assert PackIds(Selected(i)) == PackIds(i.mandatory) + PackIds(chosen);
    forall id | id in PackIds(i.mandatory) ensures id !in PackIds(chosen) {
      if id in PackIds(chosen) { var p := PackOf(chosen, id); }
    }
    ConcatNoDuplicates(PackIds(i.mandatory), PackIds(chosen));
  }

  /** A selected pack is the kernel's, or the supplied one a selection names. */
  lemma SelectedMembers(i: Inputs)
    ensures forall p :: p in Selected(i) <==>
      p in i.mandatory
      || (p.value.packId !in PackIds(i.mandatory) && p.value.packId in SelectionIds(i.profile.packs)
          && p.value.packId in Index(i.packs) && Index(i.packs)[p.value.packId] == p)
  {
    hide Chosen, Index, PackIds, SelectionIds;
    IndexFacts(i.packs);
    ChosenFacts(Elements(PackIds(i.mandatory)), Index(i.packs), i.profile.packs);
  }

  lemma SelectedLawful(i: Inputs)
    requires DocumentsLawful(i) && KernelPacksLawful(i.mandatory)
    ensures forall id :: id in SelectedMap(i) ==> PackLawful(SelectedMap(i)[id].value)
  {
    hide Index, NoDuplicates, PackIds, PackLawful, Selected, SelectionIds;
    SelectedMembers(i);
    IndexFacts(i.packs);
    IndexFacts(Selected(i));
    forall id | id in SelectedMap(i) ensures PackLawful(SelectedMap(i)[id].value) {
      assert SelectedMap(i)[id] in Selected(i);
    }
  }

  lemma SelectedIds(i: Inputs)
    ensures forall id :: id in SelectedMap(i) <==>
      id in PackIds(i.mandatory) || (id in SelectionIds(i.profile.packs) && id in PackIds(i.packs))
  {
    hide Index, Selected, SelectionIds;
    SelectedMembers(i);
    IndexFacts(i.packs);
    IndexFacts(Selected(i));
    forall id ensures id in SelectedMap(i) <==>
      id in PackIds(i.mandatory) || (id in SelectionIds(i.profile.packs) && id in PackIds(i.packs))
    {
      if id in SelectedMap(i) {
        var p := SelectedMap(i)[id];
        assert p in Selected(i) && p.value.packId == id;
        if p in i.mandatory {
          var k :| 0 <= k < |i.mandatory| && i.mandatory[k] == p;
          assert PackIds(i.mandatory)[k] == id;
        }
      }
      if id in PackIds(i.mandatory) {
        var p := PackOf(i.mandatory, id);
        assert p in Selected(i);
        var k :| 0 <= k < |Selected(i)| && Selected(i)[k] == p;
        assert PackIds(Selected(i))[k] == id;
      } else if id in SelectionIds(i.profile.packs) && id in PackIds(i.packs) {
        var p := Index(i.packs)[id];
        assert p in Selected(i);
        var k :| 0 <= k < |Selected(i)| && Selected(i)[k] == p;
        assert PackIds(Selected(i))[k] == id;
      }
    }
  }
}
