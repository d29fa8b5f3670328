/** What a compiled plan is, and why its own validator can never refuse it. */
module PlanSchedule {
  import opened Base
  import opened Ordering
  import opened Sorting
  import opened Plan
  import opened Packs
  import opened Kahn
  import opened KahnTheorems
  import opened Compilation

  /** The ids of all checks of the packs that a pack depends on. */
  function DepCheckIds(sel: PackMap, packId: JsString): set<JsString>
    requires packId in sel
  {
    set d, c | d in sel[packId].value.dependencies && d.packId in sel && c in sel[d.packId].value.checks :: c.checkId
  }

  /** The planned form of a check. */
  function PlanCheckOf(sel: PackMap, strengthened: set<JsString>, packId: JsString, c: Check): PlanCheck
    requires packId in sel
  {
    PlanCheck(
      c.checkId, packId, sel[packId].value.version, c.phase,
      if c.checkId in strengthened then Blocking else c.effect,
      c.validator, c.settings, c.consumer, Sorted(DepCheckIds(sel, packId)))
  }

  ghost predicate IsPlanned(sel: PackMap, strengthened: set<JsString>, pc: PlanCheck) {
    exists id, c :: Declares(sel, id, c) && pc == PlanCheckOf(sel, strengthened, id, c)
  }

  /** The place of a pack in the pack order. */
  function Rank(order: seq<JsString>, id: JsString): nat {
    if order == [] || order[0] == id then 0 else 1 + Rank(order[1..], id)
  }

  /** By phase, then by pack order, then by check id. */
  predicate PlanBefore(order: seq<JsString>, a: PlanCheck, b: PlanCheck) {
    || PhaseIndex(a.phase) < PhaseIndex(b.phase)
    || (a.phase == b.phase
        && (|| Rank(order, a.packId) < Rank(order, b.packId)
            || (Rank(order, a.packId) == Rank(order, b.packId) && Less(a.checkId, b.checkId))))
  }

  /** The comparator of the plan sort. */
  function PlanOrderBy(order: seq<JsString>): (PlanCheck, PlanCheck) -> bool {
    (a, b) => PlanBefore(order, a, b)
  }

  /** The planned checks of some packs, in plan order. */
  ghost predicate IsSchedule(sel: PackMap, strengthened: set<JsString>, order: seq<JsString>, checks: seq<PlanCheck>) {
    && Greedy(DepGraph(sel), order)
    && SortedBy(PlanOrderBy(order), checks)
    && forall pc :: pc in checks <==> IsPlanned(sel, strengthened, pc)
  }

  function PinOf(p: SuppliedPack): PackPin {
    PackPin(p.value.packId, p.value.version, p.digest)
  }

  function SelectionPin(s: Selection): PackPin {
    PackPin(s.packId, s.version, s.digest)
  }

  predicate PinBefore(a: PackPin, b: PackPin) {
    Less(a.packId, b.packId)
  }

  ghost predicate IsPin(i: Inputs, pin: PackPin) {
    (exists p :: p in i.mandatory && pin == PinOf(p)) || (exists s :: s in i.profile.packs && pin == SelectionPin(s))
  }

  /** The plan that a compilation of these inputs promises. */
  ghost predicate IsPlan(i: Inputs, plan: Plan) {
    && plan.kernelRelease == i.kernelRelease
    && plan.repositoryId == i.contract.repositoryId
    && plan.baseCommit == i.contract.baseCommit
    && plan.candidate == i.contract.candidate
    && plan.profileId == i.profile.profileId
    && plan.sources.workContract == i.contract.digest
    && plan.sources.profile == i.profileDigest
    && plan.sources.capabilityIndex == i.capabilityIndex
    && SortedBy(PinBefore, plan.sources.packs)
    && (forall pin :: pin in plan.sources.packs <==> IsPin(i, pin))
    && exists order :: IsSchedule(SelectedMap(i), Elements(i.profile.strengthen), order, plan.checks)
  }

  // ---------- the comparator ----------

  lemma PlanBeforeAsymmetric(order: seq<JsString>, a: PlanCheck, b: PlanCheck)
    requires PlanBefore(order, a, b)
    ensures !PlanBefore(order, b, a)
  {
    if Less(a.checkId, b.checkId) { LessAsymmetric(a.checkId, b.checkId); }
  }

  lemma PlanBeforeTransitive(order: seq<JsString>, a: PlanCheck, b: PlanCheck, c: PlanCheck)
    requires PlanBefore(order, a, b) && PlanBefore(order, b, c)
    ensures PlanBefore(order, a, c)
  {
    if Less(a.checkId, b.checkId) && Less(b.checkId, c.checkId) { LessTransitive(a.checkId, b.checkId, c.checkId); }
  }

  lemma SamePhase(p: Phase, q: Phase)
    ensures PhaseIndex(p) == PhaseIndex(q) <==> p == q
  {
  }

  /** On checks with distinct ids the comparator is a strict total order. */
  lemma PlanOrderIsStrict(order: seq<JsString>, s: set<PlanCheck>)
    requires forall x, y :: x in s && y in s && x.checkId == y.checkId ==> x == y
    ensures StrictOrder(PlanOrderBy(order), s)
  {
    var before := PlanOrderBy(order);
    forall x, y | x in s && y in s && before(x, y) ensures !before(y, x) { PlanBeforeAsymmetric(order, x, y); }
    forall x, y | x in s && y in s && x != y ensures before(x, y) || before(y, x) {
      LessTotal(x.checkId, y.checkId);
      SamePhase(x.phase, y.phase);
    }
    forall x, y, z | x in s && y in s && z in s && before(x, y) && before(y, z) ensures before(x, z) {
      PlanBeforeTransitive(order, x, y, z);
    }
  }

  lemma PinOrderIsStrict(s: set<PackPin>)
    requires forall x, y :: x in s && y in s && x.packId == y.packId ==> x == y
    ensures StrictOrder(PinBefore, s)
  {
    forall x, y | x in s && y in s && PinBefore(x, y) ensures !PinBefore(y, x) { LessAsymmetric(x.packId, y.packId); }
    forall x, y | x in s && y in s && x != y ensures PinBefore(x, y) || PinBefore(y, x) {
      LessTotal(x.packId, y.packId);
    }
    forall x, y, z | x in s && y in s && z in s && PinBefore(x, y) && PinBefore(y, z) ensures PinBefore(x, z) {
      LessTransitive(x.packId, y.packId, z.packId);
    }
  }

  // ---------- the pack order ----------

  lemma {:induction false} RankFinds(order: seq<JsString>, k: nat)
    requires NoDuplicates(order) && k < |order|
    ensures Rank(order, order[k]) == k
  {
    if k > 0 {
      assert order[1..][k - 1] == order[k];
      RankFinds(order[1..], k - 1);
    }
  }

  /** A pack comes before the packs that depend on it. */
  lemma DependencyRanksLower(g: Graph, order: seq<JsString>, x: JsString, d: JsString)
    requires IsTopological(g, order) && x in g && d in g[x]
    ensures Rank(order, d) < Rank(order, x)
  {
    assert x in Elements(order);
    var k :| 0 <= k < |order| && order[k] == x;
    assert order[k] in g && d in Elements(order[..k]);
    PrefixElements(order, k, d);
    var j :| 0 <= j < k && order[j] == d;
    RankFinds(order, k);
    RankFinds(order, j);
  }

  lemma DepGraphIsClosed(sel: PackMap)
    ensures Closed(DepGraph(sel))
  {
  }

  lemma DependencyIsEdge(sel: PackMap, id: JsString, d: Dep)
    requires id in sel && d in sel[id].value.dependencies && d.packId in sel && d.packId != id
    ensures id in DepGraph(sel) && d.packId in DepGraph(sel)[id]
  {
  }

  // ---------- the schedule ----------

  lemma PlannedChecksDiffer(sel: PackMap, strengthened: set<JsString>, order: seq<JsString>, checks: seq<PlanCheck>)
    requires IsSchedule(sel, strengthened, order, checks) && ChecksDistinct(sel)
    ensures forall x, y :: x in checks && y in checks && x.checkId == y.checkId ==> x == y
    ensures DistinctCheckIds(checks)
  {
    forall x, y | x in checks && y in checks && x.checkId == y.checkId ensures x == y {
      assert IsPlanned(sel, strengthened, x) && IsPlanned(sel, strengthened, y);
      var a, c :| Declares(sel, a, c) && x == PlanCheckOf(sel, strengthened, a, c);
      var b, d :| Declares(sel, b, d) && y == PlanCheckOf(sel, strengthened, b, d);
    }
    forall i, j | 0 <= i < j < |checks| ensures checks[i].checkId != checks[j].checkId {
      assert PlanOrderBy(order)(checks[i], checks[j]);
      assert checks[i] in checks && checks[j] in checks;
      if checks[i] == checks[j] { PlanBeforeAsymmetric(order, checks[i], checks[j]); }
    }
  }

  lemma SortedPlaces(order: seq<JsString>, checks: seq<PlanCheck>, j: nat, k: nat)
    requires SortedBy(PlanOrderBy(order), checks) && j < |checks| && k < |checks|
    requires PlanBefore(order, checks[j], checks[k])
    ensures j < k
  {
    PlanBeforeAsymmetric(order, checks[j], checks[k]);
    if k < j { SortedPair(order, checks, k, j); }
  }

  lemma SortedPair(order: seq<JsString>, checks: seq<PlanCheck>, i: int, j: int)
    requires SortedBy(PlanOrderBy(order), checks) && 0 <= i < j < |checks|
    ensures PlanBefore(order, checks[i], checks[j])
  {
    assert PlanOrderBy(order)(checks[i], checks[j]);
  }

  lemma PlannedFrom(sel: PackMap, strengthened: set<JsString>, pc: PlanCheck) returns (id: JsString, c: Check)
    requires IsPlanned(sel, strengthened, pc)
    ensures Declares(sel, id, c) && pc == PlanCheckOf(sel, strengthened, id, c)
  {
    id, c :| Declares(sel, id, c) && pc == PlanCheckOf(sel, strengthened, id, c);
  }

  lemma DependencyFrom(sel: PackMap, id: JsString, d: JsString) returns (dep: Dep, dc: Check)
    requires id in sel && d in Sorted(DepCheckIds(sel, id))
    ensures dep in sel[id].value.dependencies && Declares(sel, dep.packId, dc) && dc.checkId == d
  {
    SortedFacts(DepCheckIds(sel, id));
    assert d in Elements(Sorted(DepCheckIds(sel, id)));
    dep, dc :| dep in sel[id].value.dependencies && dep.packId in sel && dc in sel[dep.packId].value.checks
               && dc.checkId == d;
  }

  /** A planned check of a dependency sorts before the planned checks that depend on it. */
  lemma DependencySortsBefore(sel: PackMap, strengthened: set<JsString>, order: seq<JsString>,
      id: JsString, c: Check, d: Dep, dc: Check)
    requires IsTopological(DepGraph(sel), order) && PhasesAgree(sel)
    requires Declares(sel, id, c) && d in sel[id].value.dependencies && d.packId != id && Declares(sel, d.packId, dc)
    ensures PlanBefore(order, PlanCheckOf(sel, strengthened, d.packId, dc), PlanCheckOf(sel, strengthened, id, c))
  {
    DependencyIsEdge(sel, id, d);
    DependencyRanksLower(DepGraph(sel), order, id, d.packId);
    SamePhase(dc.phase, c.phase);
    assert PhaseIndex(dc.phase) <= PhaseIndex(c.phase);
  }

  ghost predicate NoSelfDependency(sel: PackMap) {
    forall id, d :: id in sel && d in sel[id].value.dependencies ==> d.packId != id
  }

  lemma LawfulHasNoSelfDependency(sel: PackMap)
    requires forall id :: id in sel ==> sel[id].value.packId == id && PackLawful(sel[id].value)
    ensures NoSelfDependency(sel)
  {
    forall id, d | id in sel && d in sel[id].value.dependencies ensures d.packId != id {
      var k :| 0 <= k < |sel[id].value.dependencies| && sel[id].value.dependencies[k] == d;
      assert DepIds(sel[id].value.dependencies)[k] == d.packId;
    }
  }

  /** Everything a planned check depends on is planned, and earlier. */
  lemma ScheduledDependency(sel: PackMap, strengthened: set<JsString>, order: seq<JsString>, checks: seq<PlanCheck>,
      k: nat, d: JsString)
    requires IsSchedule(sel, strengthened, order, checks) && IsTopological(DepGraph(sel), order)
    requires PhasesAgree(sel) && NoSelfDependency(sel)
    requires k < |checks| && d in checks[k].dependsOn
    ensures exists j :: 0 <= j < k && checks[j].checkId == d
  {
    assert checks[k] in checks && IsPlanned(sel, strengthened, checks[k]);
    hide PhasesAgree, Sorted, DepCheckIds, Greedy, IsTopological;
    var id, c := PlannedFrom(sel, strengthened, checks[k]);
    assert id in sel;
    var dep, dc := DependencyFrom(sel, id, d);
    assert dep.packId in sel;
    var earlier := PlanCheckOf(sel, strengthened, dep.packId, dc);
    assert IsPlanned(sel, strengthened, earlier);
    var j :| 0 <= j < |checks| && checks[j] == earlier;
    assert dep.packId != id;
    DependencySortsBefore(sel, strengthened, order, id, c, dep, dc);
    SortedPlaces(order, checks, j, k);
  }

  lemma ScheduleRespectsDependencies(sel: PackMap, strengthened: set<JsString>, order: seq<JsString>,
      checks: seq<PlanCheck>)
    requires IsSchedule(sel, strengthened, order, checks) && Acyclic(DepGraph(sel))
    requires PhasesAgree(sel) && NoSelfDependency(sel)
    ensures DependenciesPrecede(checks)
  {
    DepGraphIsClosed(sel);
    CompleteExactlyWhenAcyclic(DepGraph(sel), order);
    forall i, d | 0 <= i < |checks| && d in checks[i].dependsOn ensures d in PlanCheckIds(checks)[..i] {
      ScheduledDependency(sel, strengthened, order, checks, i, d);
      var j :| 0 <= j < i && checks[j].checkId == d;
      assert PlanCheckIds(checks)[..i][j] == d;
    }
  }

  // ---------- what compiled plans promise ----------

  /** The checks of the packs that the pack of a planned check declares as dependencies. */
  ghost predicate DependsOnCheck(i: Inputs, packId: JsString, checkId: JsString) {
    exists d, c ::
      && packId in SelectedMap(i) && d in SelectedMap(i)[packId].value.dependencies
      && Declares(SelectedMap(i), d.packId, c) && c.checkId == checkId
  }

  /** `dependsOn` lists exactly the checks of the declared dependencies, without repetition and in order. */
  lemma DependsOnIsExact(i: Inputs, plan: Plan, k: nat)
    requires IsPlan(i, plan) && k < |plan.checks|
    ensures Increasing(plan.checks[k].dependsOn)
    ensures forall id :: id in plan.checks[k].dependsOn <==> DependsOnCheck(i, plan.checks[k].packId, id)
  {
    var sel, strengthened := SelectedMap(i), Elements(i.profile.strengthen);
    var order :| IsSchedule(sel, strengthened, order, plan.checks);
    assert plan.checks[k] in plan.checks && IsPlanned(sel, strengthened, plan.checks[k]);
    var id, c :| Declares(sel, id, c) && plan.checks[k] == PlanCheckOf(sel, strengthened, id, c);
    SortedFacts(DepCheckIds(sel, id));
    assert forall x :: x in plan.checks[k].dependsOn <==> x in Elements(Sorted(DepCheckIds(sel, id)));
    forall x ensures x in DepCheckIds(sel, id) <==> DependsOnCheck(i, id, x) {
      if DependsOnCheck(i, id, x) {
        var d, c :| d in sel[id].value.dependencies && Declares(sel, d.packId, c) && c.checkId == x;
        assert c in sel[d.packId].value.checks;
      }
      if x in DepCheckIds(sel, id) {
        var d, c :| d in sel[id].value.dependencies && d.packId in sel && c in sel[d.packId].value.checks
                    && c.checkId == x;
        assert Declares(sel, d.packId, c);
      }
    }
  }

  /** DUPLICATE_CHECK_ID and PLAN_ORDER_VIOLATION have nothing to report on a compiled plan. */
  lemma PlanRulesNeverFire(i: Inputs, plan: Plan)
    requires DocumentsLawful(i) && KernelPacksLawful(i.mandatory) && Compilable(i) && IsPlan(i, plan)
    ensures DistinctCheckIds(plan.checks) && DependenciesPrecede(plan.checks)
  {
    var sel, strengthened := SelectedMap(i), Elements(i.profile.strengthen);
    var order :| IsSchedule(sel, strengthened, order, plan.checks);
    SelectedFacts(i);
    LawfulHasNoSelfDependency(sel);
    hide SelectedMap, IsSchedule;
    PlannedChecksDiffer(sel, strengthened, order, plan.checks);
    ScheduleRespectsDependencies(sel, strengthened, order, plan.checks);
  }
}
