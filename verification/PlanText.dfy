/** The plan that a compilation promises, read off the documents: its head, its pins, its checks and their order. */
module PlanText {
  import opened Base
  import opened Ordering
  import opened Sorting
  import opened Plan
  import opened Packs
  import opened Kahn
  import opened KahnTheorems
  import opened Compilation
  import opened PlanSchedule
  import opened PlanSize
  import opened CompileText

  // ---------- head and pins ----------

  ghost predicate HasHead(i: Inputs, plan: Plan) {
    && plan.kernelRelease == i.kernelRelease && plan.repositoryId == i.contract.repositoryId
    && plan.baseCommit == i.contract.baseCommit && plan.candidate == i.contract.candidate
    && plan.profileId == i.profile.profileId && plan.sources.workContract == i.contract.digest
    && plan.sources.profile == i.profileDigest && plan.sources.capabilityIndex == i.capabilityIndex
  }

  /** One pin for each kernel pack and each selection, by ascending id. */
  ghost predicate HasPins(i: Inputs, pins: seq<PackPin>) {
    && (forall j, k :: 0 <= j < k < |pins| ==> UnitBefore(pins[j].packId, pins[k].packId))
    && forall pin :: pin in pins <==>
      || (exists p :: p in i.mandatory && pin.packId == p.value.packId && pin.version == p.value.version
                      && pin.digest == p.digest)
      || (exists s :: s in i.profile.packs && pin.packId == s.packId && pin.version == s.version && pin.digest == s.digest)
  }

  // ---------- the order of the packs ----------

  ghost predicate JoinsAs(i: Inputs, id: JsString) {
    exists p :: Joins(i, p) && p.value.packId == id
  }

  /** A pack that is not placed yet, while all it depends on is. */
  ghost predicate MayFollow(i: Inputs, done: seq<JsString>, id: JsString) {
    JoinsAs(i, id) && id !in done && forall dep :: Uses(i, id, dep) ==> dep in done
  }

  /** The next pack is always the one with the least id, until none may follow. */
  ghost predicate IsPackOrder(i: Inputs, order: seq<JsString>) {
    && (forall k :: 0 <= k < |order| ==> MayFollow(i, order[..k], order[k]))
    && (forall k, id :: 0 <= k < |order| && id != order[k] && MayFollow(i, order[..k], id) ==> UnitBefore(order[k], id))
    && forall id :: !MayFollow(i, order, id)
  }

  // ---------- the checks ----------

  ghost predicate IsDependency(i: Inputs, a: SuppliedPack, checkId: JsString) {
    exists d, b, c ::
      d in a.value.dependencies && Joins(i, b) && b.value.packId == d.packId && c in b.value.checks && c.checkId == checkId
  }

  /** The check as it is planned: its own members, those of its pack, and BLOCKING if the profile strengthens it. */
  ghost predicate Plans(i: Inputs, a: SuppliedPack, c: Check, pc: PlanCheck) {
    && Joins(i, a) && c in a.value.checks
    && pc.checkId == c.checkId && pc.packId == a.value.packId && pc.packVersion == a.value.version
    && pc.phase == c.phase && pc.validator == c.validator && pc.settings == c.settings && pc.consumer == c.consumer
    && (pc.effect == Blocking <==> c.effect == Blocking || c.checkId in i.profile.strengthen)
    && (forall j, k :: 0 <= j < k < |pc.dependsOn| ==> UnitBefore(pc.dependsOn[j], pc.dependsOn[k]))
    && forall id :: id in pc.dependsOn <==> IsDependency(i, a, id)
  }

  /** An earlier phase; or the same one, and a pack with an earlier place; or the same pack, and a lesser id. */
  ghost predicate ComesBefore(order: seq<JsString>, a: PlanCheck, b: PlanCheck) {
    || Later(b.phase, a.phase)
    || (a.phase == b.phase && exists j, k :: 0 <= j < k < |order| && order[j] == a.packId && order[k] == b.packId)
    || (a.phase == b.phase && a.packId == b.packId && UnitBefore(a.checkId, b.checkId))
  }

  ghost predicate HasChecks(i: Inputs, checks: seq<PlanCheck>) {
    && (forall pc :: pc in checks <==> exists a, c :: Plans(i, a, c, pc))
    && exists order ::
      IsPackOrder(i, order) && forall j, k :: 0 <= j < k < |checks| ==> ComesBefore(order, checks[j], checks[k])
  }

  ghost predicate IsPromised(i: Inputs, plan: Plan) {
    HasHead(i, plan) && HasPins(i, plan.sources.packs) && HasChecks(i, plan.checks)
  }

  // ---------- proofs ----------

  lemma PinsExactly(i: Inputs, pins: seq<PackPin>)
    ensures SortedBy(PinBefore, pins) && (forall pin :: pin in pins <==> IsPin(i, pin)) <==> HasPins(i, pins)
  {
    forall a: PackPin, b: PackPin ensures PinBefore(a, b) <==> UnitBefore(a.packId, b.packId) {
      LessIsUnitBefore(a.packId, b.packId);
    }
    hide Less, PinBefore, UnitBefore;
    forall pin ensures IsPin(i, pin) <==>
      || (exists p :: p in i.mandatory && pin.packId == p.value.packId && pin.version == p.value.version
                      && pin.digest == p.digest)
      || (exists s :: s in i.profile.packs && pin.packId == s.packId && pin.version == s.version && pin.digest == s.digest)
    {
      forall p ensures pin == PinOf(p) <==>
        pin.packId == p.value.packId && pin.version == p.value.version && pin.digest == p.digest {}
      forall s ensures pin == SelectionPin(s) <==>
        pin.packId == s.packId && pin.version == s.version && pin.digest == s.digest {}
      hide PinOf, SelectionPin;
    }
    hide IsPin;
  }

  lemma MayFollowExactly(i: Inputs, sel: PackMap, done: seq<JsString>, id: JsString)
    requires Taken(i, Selected(i), sel)
    ensures MayFollow(i, done, id) <==> id in Ready(DepGraph(sel), Elements(done))
  {
    hide Joins, Selected, Uses;
    var g := DepGraph(sel);
    forall dep ensures Uses(i, id, dep) <==> id in g && dep in g[id] {
      UsesExactly(i, Selected(i), sel, id, dep);
    }
    assert JoinsAs(i, id) <==> id in g by {
      if id in sel { assert Joins(i, sel[id]); }
    }
    hide DepGraph, JoinsAs;
    if MayFollow(i, done, id) {
      forall dep | dep in g[id] ensures dep in Elements(done) { assert Uses(i, id, dep); }
    }
  }

  lemma OrderExactly(i: Inputs, sel: PackMap, order: seq<JsString>)
    requires Taken(i, Selected(i), sel)
    ensures IsPackOrder(i, order) <==> Greedy(DepGraph(sel), order)
  {
    hide DepGraph, Elements, Less, MayFollow, Ready, Selected, Taken, UnitBefore;
    var g := DepGraph(sel);
    forall done, id ensures MayFollow(i, done, id) <==> id in Ready(g, Elements(done)) {
      MayFollowExactly(i, sel, done, id);
    }
    forall a, b ensures Less(a, b) <==> UnitBefore(a, b) { LessIsUnitBefore(a, b); }
    if Greedy(g, order) {
      forall k | 0 <= k < |order| ensures MayFollow(i, order[..k], order[k]) {
        assert IsLeast(order[k], Ready(g, Elements(order[..k])));
      }
      forall k, id | 0 <= k < |order| && id != order[k] && MayFollow(i, order[..k], id)
        ensures UnitBefore(order[k], id)
      {
        assert IsLeast(order[k], Ready(g, Elements(order[..k])));
      }
    }
    if IsPackOrder(i, order) {
      forall k | 0 <= k < |order| ensures IsLeast(order[k], Ready(g, Elements(order[..k]))) {
        assert MayFollow(i, order[..k], order[k]);
      }
      assert forall id :: id !in Ready(g, Elements(order));
    }
  }

  lemma SortedExactly(s: set<JsString>, xs: seq<JsString>)
    ensures xs == Sorted(s) <==>
      (forall j, k :: 0 <= j < k < |xs| ==> UnitBefore(xs[j], xs[k])) && forall x :: x in xs <==> x in s
  {
    hide Less, Sorted, UnitBefore;
    forall a, b ensures Less(a, b) <==> UnitBefore(a, b) { LessIsUnitBefore(a, b); }
    SortedFacts(s);
    assert forall x :: x in Sorted(s) <==> x in Elements(Sorted(s));
    if (forall j, k :: 0 <= j < k < |xs| ==> UnitBefore(xs[j], xs[k])) && forall x :: x in xs <==> x in s {
      IncreasingUnique(xs, Sorted(s));
    }
  }

  lemma DependencyIds(i: Inputs, sel: PackMap, a: SuppliedPack, checkId: JsString)
    requires Taken(i, Selected(i), sel) && Joins(i, a)
    ensures checkId in DepCheckIds(sel, a.value.packId) <==> IsDependency(i, a, checkId)
  {
    hide Joins, Selected;
    if checkId in DepCheckIds(sel, a.value.packId) {
      var d, c :| d in a.value.dependencies && d.packId in sel && c in sel[d.packId].value.checks && c.checkId == checkId;
      assert Joins(i, sel[d.packId]);
    }
  }

  lemma PlansExactly(i: Inputs, sel: PackMap, a: SuppliedPack, c: Check, pc: PlanCheck)
    requires Taken(i, Selected(i), sel) && Joins(i, a) && c in a.value.checks
    ensures Plans(i, a, c, pc) <==> pc == PlanCheckOf(sel, Elements(i.profile.strengthen), a.value.packId, c)
  {
    hide DepCheckIds, IsDependency, Joins, Selected, Sorted, UnitBefore;
    forall id ensures id in DepCheckIds(sel, a.value.packId) <==> IsDependency(i, a, id) {
      DependencyIds(i, sel, a, id);
    }
    SortedExactly(DepCheckIds(sel, a.value.packId), pc.dependsOn);
  }

  lemma PlannedExactly(i: Inputs, sel: PackMap, pc: PlanCheck)
    requires Taken(i, Selected(i), sel)
    ensures IsPlanned(sel, Elements(i.profile.strengthen), pc) <==> exists a, c :: Plans(i, a, c, pc)
  {
    hide Joins, Selected, PlanCheckOf;
    var strengthened := Elements(i.profile.strengthen);
    if IsPlanned(sel, strengthened, pc) {
      var id, c :| Declares(sel, id, c) && pc == PlanCheckOf(sel, strengthened, id, c);
      assert Joins(i, sel[id]);
      PlansExactly(i, sel, sel[id], c, pc);
    }
    if a, c :| Plans(i, a, c, pc) {
      PlansExactly(i, sel, a, c, pc);
      assert Declares(sel, a.value.packId, c);
    }
  }

  lemma PlacesExactly(order: seq<JsString>, a: JsString, b: JsString)
    requires NoDuplicates(order) && a in order && b in order
    ensures Rank(order, a) < Rank(order, b) <==> exists j, k :: 0 <= j < k < |order| && order[j] == a && order[k] == b
    ensures Rank(order, a) == Rank(order, b) <==> a == b
  {
    var j :| 0 <= j < |order| && order[j] == a;
    var k :| 0 <= k < |order| && order[k] == b;
    RankFinds(order, j);
    RankFinds(order, k);
  }

  lemma ComesBeforeExactly(order: seq<JsString>, a: PlanCheck, b: PlanCheck)
    requires NoDuplicates(order) && a.packId in order && b.packId in order
    ensures PlanBefore(order, a, b) <==> ComesBefore(order, a, b)
  {
    PlacesExactly(order, a.packId, b.packId);
    LessIsUnitBefore(a.checkId, b.checkId);
    LaterExactly(b.phase, a.phase);
    SamePhase(a.phase, b.phase);
    hide Later, Less, NoDuplicates, PhaseIndex, Rank, UnitBefore;
  }

  /** The planned checks are a schedule exactly when they come in plan order. */
  lemma ScheduleExactly(i: Inputs, sel: PackMap, order: seq<JsString>, checks: seq<PlanCheck>)
    requires Taken(i, Selected(i), sel) && Acyclic(DepGraph(sel))
    requires forall pc :: pc in checks <==> exists a, c :: Plans(i, a, c, pc)
    ensures IsSchedule(sel, Elements(i.profile.strengthen), order, checks) <==>
      IsPackOrder(i, order) && forall j, k :: 0 <= j < k < |checks| ==> ComesBefore(order, checks[j], checks[k])
  {
    hide Acyclic, ComesBefore, DepGraph, Greedy, IsPackOrder, IsPlanned, Plans, Selected, Taken;
    OrderExactly(i, sel, order);
    forall pc ensures IsPlanned(sel, Elements(i.profile.strengthen), pc) <==> exists a, c :: Plans(i, a, c, pc) {
      PlannedExactly(i, sel, pc);
    }
    if IsPackOrder(i, order) {
      CompleteOrder(i, sel, order);
      forall j, k | 0 <= j < k < |checks|
        ensures PlanBefore(order, checks[j], checks[k]) <==> ComesBefore(order, checks[j], checks[k])
      {
        assert checks[j] in checks && checks[k] in checks;
        PlannedPackIsPlaced(i, sel, order, checks[j]);
        PlannedPackIsPlaced(i, sel, order, checks[k]);
        ComesBeforeExactly(order, checks[j], checks[k]);
      }
    }
  }

  lemma CompleteOrder(i: Inputs, sel: PackMap, order: seq<JsString>)
    requires Greedy(DepGraph(sel), order) && Acyclic(DepGraph(sel))
    ensures NoDuplicates(order) && forall id :: id in sel ==> id in order
  {
    hide Acyclic, Greedy;
    DepGraphIsClosed(sel);
    CompleteExactlyWhenAcyclic(DepGraph(sel), order);
    assert DepGraph(sel).Keys == sel.Keys;
    assert forall id :: id in Elements(order) ==> id in order;
  }

  lemma PlannedPackIsPlaced(i: Inputs, sel: PackMap, order: seq<JsString>, pc: PlanCheck)
    requires Taken(i, Selected(i), sel) && (forall id :: id in sel ==> id in order)
    requires exists a, c :: Plans(i, a, c, pc)
    ensures pc.packId in order
  {
    hide Joins, Selected;
    var a, c :| Plans(i, a, c, pc);
  }

  /** The plan a compilation promises is the one that can be read off its documents. */
  lemma PromisedExactly(i: Inputs, plan: Plan)
    requires DocumentsLawful(i) && KernelPacksLawful(i.mandatory) && Compilable(i)
    ensures IsPlan(i, plan) <==> IsPromised(i, plan)
  {
    hide Acyclic, ChecksDistinct, DepsMet, DocumentsLawful, Elements, IsPackOrder, IsPin, IsSchedule, KernelPacksLawful,
      Listing, PackIds, PhasesAgree, PinBefore, PinsAgree, Plans, Selected, SelectedMap, SelectionAgrees, SortedBy,
      Strengthenable, Taken, UnitBefore, ValidatorsKnown;
    TakenExactly(i);
    PinsExactly(i, plan.sources.packs);
    ChecksExactly(i, plan.checks);
    hide HasChecks, HasPins;
  }

  lemma ChecksExactly(i: Inputs, checks: seq<PlanCheck>)
    requires Taken(i, Selected(i), SelectedMap(i)) && Acyclic(DepGraph(SelectedMap(i)))
    ensures (exists order :: IsSchedule(SelectedMap(i), Elements(i.profile.strengthen), order, checks)) <==>
      HasChecks(i, checks)
  {
    hide Acyclic, ComesBefore, DepGraph, IsPackOrder, Plans, Selected, SelectedMap, Taken;
    var sel := SelectedMap(i);
    if (forall pc :: pc in checks <==> exists a, c :: Plans(i, a, c, pc)) {
      forall order { ScheduleExactly(i, sel, order, checks); }
      hide IsSchedule;
    } else if order :| IsSchedule(sel, Elements(i.profile.strengthen), order, checks) {
      forall pc ensures pc in checks <==> exists a, c :: Plans(i, a, c, pc) { PlannedExactly(i, sel, pc); }
      assert false;
    }
  }

  /** The counts of a plan that its schema admits. */
  lemma CountsExactly(plan: Plan)
    ensures PlanCounts(plan) <==>
      && 1 <= |plan.checks| <= 4096 && 1 <= |plan.sources.packs| <= 128
      && forall c :: c in plan.checks ==> |c.dependsOn| <= 4096
  {
  }
}
