/** What compiled plans have in common, and what they cannot depend on. */
module CompilerTheorems {
  import opened Base
  import opened Ordering
  import opened Sorting
  import opened Plan
  import opened Packs
  import opened Kahn
  import opened KahnTheorems
  import opened Compilation
  import opened PlanSchedule

  // ---------- what does not depend on the order of declarations ----------

  /** A pack without the order of its dependencies and checks. */
  datatype PackView = PackView(
    packId: JsString,
    version: JsString,
    digest: Digest,
    phases: set<Phase>,
    dependencies: multiset<Dep>,
    checks: multiset<Check>)

  function ViewOf(p: SuppliedPack): PackView {
    PackView(p.value.packId, p.value.version, p.digest, Elements(p.value.phases),
             multiset(p.value.dependencies), multiset(p.value.checks))
  }

  function Views(packs: seq<SuppliedPack>): seq<PackView> {
    seq(|packs|, k requires 0 <= k < |packs| => ViewOf(packs[k]))
  }

  /**
   The same inputs but for the order of the supplied packs, of the checks and dependencies in them, of the profile's
   selections and of its strengthened checks.
   */
  ghost predicate Reordered(i: Inputs, j: Inputs) {
    && j == i.(packs := j.packs, profile := i.profile.(packs := j.profile.packs, strengthen := j.profile.strengthen))
    && multiset(Views(i.packs)) == multiset(Views(j.packs))
    && multiset(i.profile.packs) == multiset(j.profile.packs)
    && multiset(i.profile.strengthen) == multiset(j.profile.strengthen)
  }

  lemma ReorderedBack(i: Inputs, j: Inputs)
    requires Reordered(i, j)
    ensures Reordered(j, i)
  {
  }

  // ---------- one pack ----------

  lemma CheckIdsDistinctBy(checks: seq<Check>)
    ensures NoDuplicates(CheckIds(checks)) <==> DistinctBy((c: Check) => c.checkId, checks)
  {
    if NoDuplicates(CheckIds(checks)) {
      forall i, j | 0 <= i < j < |checks| ensures checks[i].checkId != checks[j].checkId {
        assert CheckIds(checks)[i] != CheckIds(checks)[j];
      }
    }
  }

  lemma DepIdsDistinctBy(deps: seq<Dep>)
    ensures NoDuplicates(DepIds(deps)) <==> DistinctBy((d: Dep) => d.packId, deps)
  {
    if NoDuplicates(DepIds(deps)) {
      forall i, j | 0 <= i < j < |deps| ensures deps[i].packId != deps[j].packId {
        assert DepIds(deps)[i] != DepIds(deps)[j];
      }
    }
  }

  lemma DepIdMembers(deps: seq<Dep>, id: JsString)
    ensures id in DepIds(deps) <==> exists d :: d in deps && d.packId == id
  {
    if id in DepIds(deps) {
      var k :| 0 <= k < |deps| && DepIds(deps)[k] == id;
      assert deps[k] in deps;
    }
    if d :| d in deps && d.packId == id {
      var k :| 0 <= k < |deps| && deps[k] == d;
      assert DepIds(deps)[k] == id;
    }
  }

  lemma ViewMembers(p: SuppliedPack, q: SuppliedPack)
    requires ViewOf(p) == ViewOf(q)
    ensures p.value.packId == q.value.packId && p.value.version == q.value.version && p.digest == q.digest
    ensures forall c :: c in p.value.checks <==> c in q.value.checks
    ensures forall d :: d in p.value.dependencies <==> d in q.value.dependencies
    ensures forall ph :: ph in p.value.phases <==> ph in q.value.phases
  {
    SameMembers(p.value.checks, q.value.checks);
    SameMembers(p.value.dependencies, q.value.dependencies);
    assert forall ph :: ph in p.value.phases <==> ph in Elements(p.value.phases);
    assert forall ph :: ph in q.value.phases <==> ph in Elements(q.value.phases);
  }

  lemma ViewLawful(p: SuppliedPack, q: SuppliedPack)
    requires ViewOf(p) == ViewOf(q) && PackLawful(p.value)
    ensures PackLawful(q.value)
  {
    ViewMembers(p, q);
    CheckIdsDistinctBy(p.value.checks);
    CheckIdsDistinctBy(q.value.checks);
    DepIdsDistinctBy(p.value.dependencies);
    DepIdsDistinctBy(q.value.dependencies);
    DistinctByIgnoresOrder((c: Check) => c.checkId, q.value.checks, p.value.checks);
    DistinctByIgnoresOrder((d: Dep) => d.packId, q.value.dependencies, p.value.dependencies);
    DepIdMembers(p.value.dependencies, p.value.packId);
    DepIdMembers(q.value.dependencies, q.value.packId);
    assert |multiset(p.value.checks)| == |p.value.checks| && |multiset(q.value.checks)| == |q.value.checks|;
  }

  // ---------- lists of packs and selections ----------

  lemma ViewFor(xs: seq<SuppliedPack>, ys: seq<SuppliedPack>, p: SuppliedPack) returns (q: SuppliedPack)
    requires multiset(Views(xs)) == multiset(Views(ys)) && p in xs
    ensures q in ys && ViewOf(q) == ViewOf(p)
  {
    SameMembers(Views(xs), Views(ys));
    var k :| 0 <= k < |xs| && xs[k] == p;
    assert Views(xs)[k] == ViewOf(p) && ViewOf(p) in Views(ys);
    var m :| 0 <= m < |ys| && Views(ys)[m] == ViewOf(p);
    q := ys[m];
  }

  lemma PackIdsDistinctBy(packs: seq<SuppliedPack>)
    ensures NoDuplicates(PackIds(packs)) <==> DistinctBy((v: PackView) => v.packId, Views(packs))
  {
    if NoDuplicates(PackIds(packs)) {
      forall i, j | 0 <= i < j < |packs| ensures Views(packs)[i].packId != Views(packs)[j].packId {
        assert PackIds(packs)[i] != PackIds(packs)[j];
      }
    }
    if DistinctBy((v: PackView) => v.packId, Views(packs)) {
      forall i, j | 0 <= i < j < |packs| ensures PackIds(packs)[i] != PackIds(packs)[j] {
        assert Views(packs)[i].packId != Views(packs)[j].packId;
      }
    }
  }

  lemma PackIdMembers(packs: seq<SuppliedPack>, id: JsString)
    ensures id in PackIds(packs) <==> exists p :: p in packs && p.value.packId == id
  {
    if id in PackIds(packs) { var p := PackOf(packs, id); }
    if p :| p in packs && p.value.packId == id {
      var k :| 0 <= k < |packs| && packs[k] == p;
      assert PackIds(packs)[k] == id;
    }
  }

  lemma PackIdsIgnoreOrder(xs: seq<SuppliedPack>, ys: seq<SuppliedPack>)
    requires multiset(Views(xs)) == multiset(Views(ys))
    ensures forall id :: id in PackIds(xs) ==> id in PackIds(ys)
    ensures NoDuplicates(PackIds(xs)) ==> NoDuplicates(PackIds(ys))
  {
    forall id | id in PackIds(xs) ensures id in PackIds(ys) {
      var p := PackOf(xs, id);
      var q := ViewFor(xs, ys, p);
      PackIdMembers(ys, id);
    }
    PackIdsDistinctBy(xs);
    PackIdsDistinctBy(ys);
    if NoDuplicates(PackIds(xs)) {
      DistinctByIgnoresOrder((v: PackView) => v.packId, Views(ys), Views(xs));
    }
  }

  lemma SelectionIdsIgnoreOrder(xs: seq<Selection>, ys: seq<Selection>)
    requires multiset(xs) == multiset(ys)
    ensures forall id :: id in SelectionIds(xs) ==> id in SelectionIds(ys)
    ensures NoDuplicates(SelectionIds(xs)) ==> NoDuplicates(SelectionIds(ys))
  {
    SameMembers(xs, ys);
    forall id | id in SelectionIds(xs) ensures id in SelectionIds(ys) {
      var k :| 0 <= k < |xs| && SelectionIds(xs)[k] == id;
      assert xs[k] in ys;
      var m :| 0 <= m < |ys| && ys[m] == xs[k];
      assert SelectionIds(ys)[m] == id;
    }
    if NoDuplicates(SelectionIds(xs)) {
      forall i, j | 0 <= i < j < |xs| ensures xs[i].packId != xs[j].packId {
        assert SelectionIds(xs)[i] != SelectionIds(xs)[j];
      }
      DistinctByIgnoresOrder((s: Selection) => s.packId, ys, xs);
      forall i, j | 0 <= i < j < |ys| ensures SelectionIds(ys)[i] != SelectionIds(ys)[j] {
        assert ys[i].packId != ys[j].packId;
      }
    }
  }

  lemma ReorderedLawful(i: Inputs, j: Inputs)
    requires Reordered(i, j) && DocumentsLawful(i)
    ensures DocumentsLawful(j)
  {
    SelectionIdsIgnoreOrder(i.profile.packs, j.profile.packs);
    forall q | q in j.packs ensures PackLawful(q.value) {
      var p := ViewFor(j.packs, i.packs, q);
      ViewLawful(p, q);
    }
  }

  lemma ReorderedSelection(i: Inputs, j: Inputs)
    requires Reordered(i, j) && SelectionAgrees(i)
    ensures SelectionAgrees(j)
  {
    hide SelectionIds, PackIds, Views, NoDuplicates;
    PackIdsIgnoreOrder(i.packs, j.packs);
    PackIdsIgnoreOrder(j.packs, i.packs);
    SelectionIdsIgnoreOrder(j.profile.packs, i.profile.packs);
    SelectionIdsIgnoreOrder(i.profile.packs, j.profile.packs);
    SameMembers(i.profile.packs, j.profile.packs);
    forall s | s in j.profile.packs ensures Supplies(j.packs, s) {
      assert Supplies(i.packs, s);
      var p :| p in i.packs && p.value.packId == s.packId && p.value.version == s.version && p.digest == s.digest;
      var q := ViewFor(i.packs, j.packs, p);
      ViewMembers(q, p);
    }
  }

  // ---------- the selected packs ----------

  ghost predicate SameViews(sel: PackMap, tel: PackMap) {
    sel.Keys == tel.Keys && forall id :: id in sel ==> ViewOf(sel[id]) == ViewOf(tel[id])
  }

  lemma ReorderedMap(i: Inputs, j: Inputs)
    requires Reordered(i, j) && DocumentsLawful(i) && KernelPacksLawful(i.mandatory)
    requires NoDuplicates(PackIds(i.packs))
    ensures SameViews(SelectedMap(i), SelectedMap(j))
  {
    ReorderedLawful(i, j);
    ReorderedBack(i, j);
    PackIdsIgnoreOrder(i.packs, j.packs);
    hide DocumentsLawful, KernelPacksLawful, NoDuplicates, PackIds, Reordered, SelectedMap, ViewOf;
    forall id ensures id in SelectedMap(i) <==> id in SelectedMap(j) {
      ReorderedKey(i, j, id);
      ReorderedKey(j, i, id);
    }
    forall id | id in SelectedMap(i) ensures ViewOf(SelectedMap(i)[id]) == ViewOf(SelectedMap(j)[id]) {
      ReorderedEntry(i, j, id);
    }
  }

  lemma ReorderedKey(i: Inputs, j: Inputs, id: JsString)
    requires Reordered(i, j) && DocumentsLawful(i) && DocumentsLawful(j) && KernelPacksLawful(i.mandatory)
    ensures id in SelectedMap(i) ==> id in SelectedMap(j)
  {
    SelectedFacts(i);
    SelectedFacts(j);
    hide SelectedMap, Selected, Index;
    PackIdsIgnoreOrder(i.packs, j.packs);
    SelectionIdsIgnoreOrder(i.profile.packs, j.profile.packs);
  }

  lemma ReorderedEntry(i: Inputs, j: Inputs, id: JsString)
    requires Reordered(i, j) && DocumentsLawful(i) && KernelPacksLawful(i.mandatory)
    requires NoDuplicates(PackIds(i.packs)) && id in SelectedMap(i) && id in SelectedMap(j)
    ensures ViewOf(SelectedMap(i)[id]) == ViewOf(SelectedMap(j)[id])
  {
    ReorderedLawful(i, j);
    PackIdsIgnoreOrder(i.packs, j.packs);
    SelectedFrom(i, id);
    SelectedFrom(j, id);
    PackIdMembers(i.mandatory, id);
    var p, q := SelectedMap(i)[id], SelectedMap(j)[id];
    if p in i.mandatory && q in i.mandatory {
      OnePackPerId(i.mandatory, p, q);
    } else {
      assert p in i.packs && q in j.packs by {
        PackIdMembers(i.mandatory, id);
      }
      var r := ViewFor(i.packs, j.packs, p);
      ViewMembers(r, p);
      OnePackPerId(j.packs, q, r);
    }
  }

  /** A selected pack is the kernel's of that id, or else the supplied one. */
  lemma SelectedFrom(i: Inputs, id: JsString)
    requires DocumentsLawful(i) && KernelPacksLawful(i.mandatory) && id in SelectedMap(i)
    ensures SelectedMap(i)[id].value.packId == id
    ensures if id in PackIds(i.mandatory) then SelectedMap(i)[id] in i.mandatory else SelectedMap(i)[id] in i.packs
  {
    SelectedFacts(i);
    IndexFacts(i.packs);
    PackIdMembers(i.mandatory, id);
    var p := SelectedMap(i)[id];
    assert p in Selected(i);
    if id in PackIds(i.mandatory) {
      var m :| m in i.mandatory && m.value.packId == id;
      assert m in Selected(i);
    }
  }

  lemma OnePackPerId(packs: seq<SuppliedPack>, p: SuppliedPack, q: SuppliedPack)
    requires NoDuplicates(PackIds(packs)) && p in packs && q in packs && p.value.packId == q.value.packId
    ensures p == q
  {
    IndexFacts(packs);
  }

  // ---------- everything downstream of the selected packs ----------

  lemma SameViewsDeclare(sel: PackMap, tel: PackMap)
    requires SameViews(sel, tel)
    ensures forall id, c :: Declares(sel, id, c) <==> Declares(tel, id, c)
    ensures forall id, d :: id in sel ==> (d in sel[id].value.dependencies <==> d in tel[id].value.dependencies)
    ensures forall id :: id in sel ==> sel[id].value.version == tel[id].value.version && sel[id].digest == tel[id].digest
  {
    forall id | id in sel
      ensures forall c :: c in sel[id].value.checks <==> c in tel[id].value.checks
      ensures forall d :: d in sel[id].value.dependencies <==> d in tel[id].value.dependencies
      ensures sel[id].value.version == tel[id].value.version && sel[id].digest == tel[id].digest
    {
      ViewMembers(sel[id], tel[id]);
    }
  }

  lemma SameGraph(sel: PackMap, tel: PackMap)
    requires SameViews(sel, tel)
    ensures DepGraph(sel) == DepGraph(tel)
  {
    SameViewsDeclare(sel, tel);
    hide ViewOf;
    forall id | id in sel ensures DepGraph(sel)[id] == DepGraph(tel)[id] {
    }
  }

  lemma SameComposition(sel: PackMap, tel: PackMap, i: Inputs, j: Inputs)
    requires SameViews(sel, tel) && Composes(sel, i)
    requires i.builtinIds == j.builtinIds && i.admits == j.admits
    requires forall id :: id in j.profile.strengthen ==> id in i.profile.strengthen
    ensures Composes(tel, j)
  {
    SameGraph(sel, tel);
    SameViewsDeclare(sel, tel);
    assert DepsMet(tel) by {
      forall id, d | id in tel && d in tel[id].value.dependencies ensures DepMet(tel, d) {
        assert DepMet(sel, d);
      }
    }
    SamePhases(sel, tel);
    hide ViewOf, DepsMet, PhasesAgree, DepGraph, Known;
    assert ChecksDistinct(tel);
    forall id | id in j.profile.strengthen ensures Strengthenable(tel, id) {
      assert Strengthenable(sel, id);
      var a, c :| Declares(sel, a, c) && c.checkId == id && c.consumer.DispositionReducer?;
      assert Declares(tel, a, c);
    }
  }

  lemma SamePhases(sel: PackMap, tel: PackMap)
    requires SameViews(sel, tel) && PhasesAgree(sel)
    ensures PhasesAgree(tel)
  {
    SameViewsDeclare(sel, tel);
    hide ViewOf;
    forall id, d, mine, theirs |
      && id in tel && d in tel[id].value.dependencies && d.packId in tel
      && mine in tel[id].value.checks && theirs in tel[d.packId].value.checks
      ensures PhaseIndex(theirs.phase) <= PhaseIndex(mine.phase)
    {
      assert Declares(tel, id, mine) && Declares(tel, d.packId, theirs);
      assert Declares(sel, id, mine) && Declares(sel, d.packId, theirs);
    }
  }

  lemma SameDepChecks(sel: PackMap, tel: PackMap, id: JsString)
    requires SameViews(sel, tel) && id in sel
    ensures DepCheckIds(sel, id) == DepCheckIds(tel, id)
  {
    DepCheckIdsWithin(sel, tel, id);
    DepCheckIdsWithin(tel, sel, id);
  }

  lemma DepCheckIdsWithin(sel: PackMap, tel: PackMap, id: JsString)
    requires SameViews(sel, tel) && id in sel
    ensures DepCheckIds(sel, id) <= DepCheckIds(tel, id)
  {
    SameViewsDeclare(sel, tel);
    hide ViewOf;
    forall x | x in DepCheckIds(sel, id) ensures x in DepCheckIds(tel, id) {
      var d, c :| d in sel[id].value.dependencies && d.packId in sel && c in sel[d.packId].value.checks && c.checkId == x;
      assert Declares(sel, d.packId, c);
      assert Declares(tel, d.packId, c);
    }
  }

  lemma SamePlanned(sel: PackMap, tel: PackMap, strengthened: set<JsString>)
    requires SameViews(sel, tel)
    ensures forall pc :: IsPlanned(sel, strengthened, pc) ==> IsPlanned(tel, strengthened, pc)
  {
    SameViewsDeclare(sel, tel);
    hide ViewOf, Declares;
    forall pc | IsPlanned(sel, strengthened, pc) ensures IsPlanned(tel, strengthened, pc) {
      var id, c :| Declares(sel, id, c) && pc == PlanCheckOf(sel, strengthened, id, c);
      SameDepChecks(sel, tel, id);
      assert Declares(tel, id, c);
      assert pc == PlanCheckOf(tel, strengthened, id, c);
    }
  }

  lemma SameSchedule(sel: PackMap, tel: PackMap, strengthened: set<JsString>, order: seq<JsString>,
      checks: seq<PlanCheck>)
    requires SameViews(sel, tel) && IsSchedule(sel, strengthened, order, checks)
    ensures IsSchedule(tel, strengthened, order, checks)
  {
    SameGraph(sel, tel);
    SamePlanned(sel, tel, strengthened);
    SamePlanned(tel, sel, strengthened);
    hide ViewOf, IsPlanned, Greedy, SortedBy;
  }

  // ---------- reordering changes nothing ----------

  lemma ReorderedPlan(i: Inputs, j: Inputs, plan: Plan)
    requires Reordered(i, j) && SameViews(SelectedMap(i), SelectedMap(j)) && IsPlan(i, plan)
    ensures IsPlan(j, plan)
  {
    SameMembers(i.profile.packs, j.profile.packs);
    SameMembers(i.profile.strengthen, j.profile.strengthen);
    var sel, tel := SelectedMap(i), SelectedMap(j);
    var strengthened := Elements(i.profile.strengthen);
    assert strengthened == Elements(j.profile.strengthen);
    var order :| IsSchedule(sel, strengthened, order, plan.checks);
    SameSchedule(sel, tel, strengthened, order, plan.checks);
    hide SelectedMap, IsSchedule, SameViews, Views, SortedBy;
    forall pin ensures IsPin(i, pin) <==> IsPin(j, pin) {
    }
  }

  lemma ReorderedCompilable(i: Inputs, j: Inputs)
    requires Reordered(i, j) && DocumentsLawful(i) && KernelPacksLawful(i.mandatory) && Compilable(i)
    ensures Compilable(j) && SameViews(SelectedMap(i), SelectedMap(j))
  {
    ReorderedSelection(i, j);
    ReorderedMap(i, j);
    SameMembers(i.profile.strengthen, j.profile.strengthen);
    SameComposition(SelectedMap(i), SelectedMap(j), i, j);
  }

  /** Permuting what a profile or a pack lists changes neither success nor the plan. */
  lemma ReorderingChangesNothing(i: Inputs, j: Inputs)
    requires Reordered(i, j) && KernelPacksLawful(i.mandatory)
    ensures DocumentsLawful(i) <==> DocumentsLawful(j)
    ensures DocumentsLawful(i) ==> (Compilable(i) <==> Compilable(j))
    ensures DocumentsLawful(i) && Compilable(i) ==> forall plan :: IsPlan(i, plan) <==> IsPlan(j, plan)
  {
    ReorderedBack(i, j);
    if DocumentsLawful(i) { ReorderedLawful(i, j); }
    if DocumentsLawful(j) { ReorderedLawful(j, i); }
    if DocumentsLawful(i) && Compilable(i) {
      ReorderedCompilable(i, j);
      ReorderedCompilable(j, i);
      forall plan ensures IsPlan(i, plan) <==> IsPlan(j, plan) {
        if IsPlan(i, plan) { ReorderedPlan(i, j, plan); }
        if IsPlan(j, plan) { ReorderedPlan(j, i, plan); }
      }
    }
    if DocumentsLawful(j) && Compilable(j) { ReorderedCompilable(j, i); }
  }

  // ---------- one plan ----------

  lemma SchedulesAgree(sel: PackMap, strengthened: set<JsString>, o1: seq<JsString>, c1: seq<PlanCheck>,
      o2: seq<JsString>, c2: seq<PlanCheck>)
    requires IsSchedule(sel, strengthened, o1, c1) && IsSchedule(sel, strengthened, o2, c2) && ChecksDistinct(sel)
    ensures o1 == o2 && c1 == c2
  {
    GreedyIsUnique(DepGraph(sel), o1, o2);
    PlannedChecksDiffer(sel, strengthened, o1, c1);
    PlanOrderIsStrict(o1, Elements(c1));
    SortedUnique(PlanOrderBy(o1), c1, c2, Elements(c1));
  }

  lemma PinsAgreeById(i: Inputs, pins: seq<PackPin>)
    requires DocumentsLawful(i) && KernelPacksLawful(i.mandatory) && SelectionAgrees(i)
    requires forall pin :: pin in pins <==> IsPin(i, pin)
    ensures forall x, y :: x in pins && y in pins && x.packId == y.packId ==> x == y
  {
    forall x, y | x in pins && y in pins && x.packId == y.packId ensures x == y {
      assert IsPin(i, x) && IsPin(i, y);
      PackIdMembers(i.mandatory, x.packId);
      if p, q :| p in i.mandatory && q in i.mandatory && x == PinOf(p) && y == PinOf(q) {
        OnePackPerId(i.mandatory, p, q);
      } else {
        assert x.packId in SelectionIds(i.profile.packs) by {
          if s :| s in i.profile.packs && (x == SelectionPin(s) || y == SelectionPin(s)) {
            var k :| 0 <= k < |i.profile.packs| && i.profile.packs[k] == s;
            assert SelectionIds(i.profile.packs)[k] == s.packId;
          }
        }
        var s :| s in i.profile.packs && x == SelectionPin(s);
        var t :| t in i.profile.packs && y == SelectionPin(t);
        OneSelectionPerId(i.profile.packs, s, t);
      }
    }
  }

  lemma OneSelectionPerId(sels: seq<Selection>, s: Selection, t: Selection)
    requires NoDuplicates(SelectionIds(sels)) && s in sels && t in sels && s.packId == t.packId
    ensures s == t
  {
    var j :| 0 <= j < |sels| && sels[j] == s;
    var k :| 0 <= k < |sels| && sels[k] == t;
    assert SelectionIds(sels)[j] == SelectionIds(sels)[k];
  }

  /** Compilable inputs have one plan. */
  lemma PlanIsUnique(i: Inputs, p: Plan, q: Plan)
    requires DocumentsLawful(i) && KernelPacksLawful(i.mandatory) && Compilable(i)
    requires IsPlan(i, p) && IsPlan(i, q)
    ensures p == q
  {
    var sel, strengthened := SelectedMap(i), Elements(i.profile.strengthen);
    var o1 :| IsSchedule(sel, strengthened, o1, p.checks);
    var o2 :| IsSchedule(sel, strengthened, o2, q.checks);
    SchedulesAgree(sel, strengthened, o1, p.checks, o2, q.checks);
    PinsAgreeById(i, p.sources.packs);
    PinOrderIsStrict(Elements(p.sources.packs));
    SortedUnique(PinBefore, p.sources.packs, q.sources.packs, Elements(p.sources.packs));
  }
}
