/** Profiles can only strengthen: every check is planned once, never weakened, and strengthening only ever blocks more. */
module Strengthening {
  import opened Base
  import opened Sorting
  import opened Plan
  import opened Packs
  import opened Kahn
  import opened KahnTheorems
  import opened Compilation
  import opened PlanSchedule
  import opened CompilerTheorems
  import opened Reducer
  import opened Evaluator

  ghost predicate Compiles(i: Inputs) {
    DocumentsLawful(i) && KernelPacksLawful(i.mandatory) && Compilable(i)
  }

  /** A strengthened check reaches the reducer. */
  lemma StrengthenedReachesReducer(i: Inputs, id: JsString, c: Check)
    requires Compiles(i) && Declares(SelectedMap(i), id, c) && c.checkId in i.profile.strengthen
    ensures c.consumer.DispositionReducer?
  {
    hide SelectedMap, Declares;
    var sel := SelectedMap(i);
    assert Strengthenable(sel, c.checkId);
    var a, d :| Declares(sel, a, d) && d.checkId == c.checkId && d.consumer.DispositionReducer?;
  }

  /** The planned form of a check is BLOCKING exactly when the pack or the profile says so. */
  lemma PlannedEffect(i: Inputs, plan: Plan, k: nat) returns (id: JsString, c: Check)
    requires Compiles(i) && IsPlan(i, plan) && k < |plan.checks|
    ensures Declares(SelectedMap(i), id, c)
    ensures plan.checks[k] == PlanCheckOf(SelectedMap(i), Elements(i.profile.strengthen), id, c)
    ensures plan.checks[k].effect.Blocking? <==> c.effect.Blocking? || c.checkId in i.profile.strengthen
  {
    var sel, strengthened := SelectedMap(i), Elements(i.profile.strengthen);
    var order :| IsSchedule(sel, strengthened, order, plan.checks);
    assert plan.checks[k] in plan.checks;
    assert IsPlanned(sel, strengthened, plan.checks[k]);
    id, c := PlannedFrom(sel, strengthened, plan.checks[k]);
  }

  /** Compiled plans have distinct checks and no BLOCKING check whose result is only evidence. */
  lemma CompiledPlansHaveShape(i: Inputs, plan: Plan)
    requires Compiles(i) && IsPlan(i, plan)
    ensures CompiledShape(plan)
  {
    PlanRulesNeverFire(i, plan);
    SelectedFacts(i);
    hide SelectedMap, IsPlan;
    forall k | 0 <= k < |plan.checks| && plan.checks[k].effect.Blocking?
      ensures plan.checks[k].consumer.DispositionReducer?
    {
      var id, c := PlannedEffect(i, plan, k);
      if c.checkId in i.profile.strengthen {
        StrengthenedReachesReducer(i, id, c);
      } else {
        assert PackLawful(SelectedMap(i)[id].value);
      }
    }
  }

  /** A pack of the compilation: one of the kernel's, or one of the supplied ones. */
  ghost predicate TakesPart(i: Inputs, p: SuppliedPack) {
    p in i.mandatory || p in i.packs
  }

  lemma TakesPartIsSelected(i: Inputs, p: SuppliedPack)
    requires Compiles(i) && TakesPart(i, p)
    ensures p.value.packId in SelectedMap(i) && SelectedMap(i)[p.value.packId] == p
  {
    SelectedFacts(i);
    IndexFacts(i.packs);
    PackIdMembers(i.packs, p.value.packId);
    assert p in Selected(i);
  }

  /** Every check of every kernel pack and every selected pack is planned, once, at no weaker effect. */
  lemma EveryCheckIsPlannedOnce(i: Inputs, plan: Plan, p: SuppliedPack, c: Check)
    requires Compiles(i) && IsPlan(i, plan) && TakesPart(i, p) && c in p.value.checks
    ensures exists k :: 0 <= k < |plan.checks| && plan.checks[k].checkId == c.checkId
    ensures forall j, k :: (&& 0 <= j < |plan.checks| && plan.checks[j].checkId == c.checkId
                            && 0 <= k < |plan.checks| && plan.checks[k].checkId == c.checkId) ==> j == k
    ensures forall k :: 0 <= k < |plan.checks| && plan.checks[k].checkId == c.checkId ==>
      && plan.checks[k].packId == p.value.packId && plan.checks[k].packVersion == p.value.version
      && plan.checks[k].phase == c.phase && plan.checks[k].validator == c.validator
      && plan.checks[k].settings == c.settings && plan.checks[k].consumer == c.consumer
      && (c.effect.Blocking? ==> plan.checks[k].effect.Blocking?)
  {
    var sel, strengthened := SelectedMap(i), Elements(i.profile.strengthen);
    var id := p.value.packId;
    TakesPartIsSelected(i, p);
    PlanRulesNeverFire(i, plan);
    assert ChecksDistinct(sel);
    var order :| IsSchedule(sel, strengthened, order, plan.checks);
    hide SelectedMap;
    assert Declares(sel, id, c);
    var planned := PlanCheckOf(sel, strengthened, id, c);
    assert IsPlanned(sel, strengthened, planned);
    var k :| 0 <= k < |plan.checks| && plan.checks[k] == planned;
    forall j | 0 <= j < |plan.checks| && plan.checks[j].checkId == c.checkId ensures j == k {
      SamePlace(plan.checks, j, k);
    }
  }

  // ---------- a profile with more strengthened checks ----------

  /** The same packs are selected, and everything the first profile strengthens the second does too. */
  ghost predicate StrengthensMore(i: Inputs, j: Inputs) {
    SelectedMap(i) == SelectedMap(j) && forall id :: id in i.profile.strengthen ==> id in j.profile.strengthen
  }

  function WithoutEffect(pc: PlanCheck): PlanCheck {
    pc.(effect := Advisory)
  }

  function WithoutEffects(checks: seq<PlanCheck>): seq<PlanCheck> {
    seq(|checks|, k requires 0 <= k < |checks| => WithoutEffect(checks[k]))
  }

  lemma EffectsDoNotSort(order: seq<JsString>, checks: seq<PlanCheck>)
    requires SortedBy(PlanOrderBy(order), checks)
    ensures SortedBy(PlanOrderBy(order), WithoutEffects(checks))
  {
    var bare := WithoutEffects(checks);
    forall j, k | 0 <= j < k < |bare| ensures PlanOrderBy(order)(bare[j], bare[k]) {
      assert PlanOrderBy(order)(checks[j], checks[k]);
    }
  }

  lemma BareMembers(sel: PackMap, s: set<JsString>, t: set<JsString>, order: seq<JsString>,
      p: seq<PlanCheck>, q: seq<PlanCheck>)
    requires IsSchedule(sel, s, order, p) && IsSchedule(sel, t, order, q)
    ensures forall x :: x in WithoutEffects(p) ==> x in WithoutEffects(q)
  {
    hide SortedBy, Greedy;
    forall x | x in WithoutEffects(p) ensures x in WithoutEffects(q) {
      var k :| 0 <= k < |p| && WithoutEffects(p)[k] == x;
      assert p[k] in p && IsPlanned(sel, s, p[k]);
      var id, c := PlannedFrom(sel, s, p[k]);
      var other := PlanCheckOf(sel, t, id, c);
      assert IsPlanned(sel, t, other);
      var m :| 0 <= m < |q| && q[m] == other;
      assert WithoutEffects(q)[m] == x;
    }
  }

  /** Strengthening changes effects in place: the two plans list the same checks in the same order. */
  lemma StrengtheningKeepsPlaces(i: Inputs, j: Inputs, p: Plan, q: Plan)
    requires Compiles(i) && Compiles(j) && StrengthensMore(i, j) && IsPlan(i, p) && IsPlan(j, q)
    ensures WithoutEffects(p.checks) == WithoutEffects(q.checks)
  {
    var sel, s, t := SelectedMap(i), Elements(i.profile.strengthen), Elements(j.profile.strengthen);
    var o1 :| IsSchedule(sel, s, o1, p.checks);
    var o2 :| IsSchedule(sel, t, o2, q.checks);
    GreedyIsUnique(DepGraph(sel), o1, o2);
    PlanRulesNeverFire(i, p);
    BareMembers(sel, s, t, o1, p.checks, q.checks);
    BareMembers(sel, t, s, o1, q.checks, p.checks);
    EffectsDoNotSort(o1, p.checks);
    EffectsDoNotSort(o1, q.checks);
    var bare := WithoutEffects(p.checks);
    hide SelectedMap, IsSchedule, IsPlan, SortedBy, PlanOrderBy, Compiles, StrengthensMore;
    forall x, y | x in Elements(bare) && y in Elements(bare) && x.checkId == y.checkId ensures x == y {
      var j :| 0 <= j < |bare| && bare[j] == x;
      var k :| 0 <= k < |bare| && bare[k] == y;
      SamePlace(p.checks, j, k);
    }
    PlanOrderIsStrict(o1, Elements(bare));
    SortedUnique(PlanOrderBy(o1), bare, WithoutEffects(q.checks), Elements(bare));
  }

  lemma SameCheckStrongerEffect(i: Inputs, j: Inputs, p: Plan, q: Plan, k: nat)
    requires Compiles(i) && Compiles(j) && StrengthensMore(i, j) && IsPlan(i, p) && IsPlan(j, q)
    requires k < |p.checks|
    ensures |p.checks| == |q.checks| && q.checks[k].validator == p.checks[k].validator
    ensures q.checks[k].phase == p.checks[k].phase && q.checks[k].checkId == p.checks[k].checkId
    ensures p.checks[k].effect.Blocking? ==> q.checks[k].effect.Blocking?
  {
    StrengtheningKeepsPlaces(i, j, p, q);
    assert |WithoutEffects(p.checks)| == |WithoutEffects(q.checks)|;
    assert WithoutEffects(p.checks)[k] == WithoutEffects(q.checks)[k];
    hide SelectedMap, IsPlan;
    var a, c := PlannedEffect(i, p, k);
    var b, d := PlannedEffect(j, q, k);
    assert ChecksDistinct(SelectedMap(i));
    assert c.checkId == d.checkId;
    assert c == d;
  }

  lemma SameOutcome(p: Plan, pd: Digest, q: Plan, qd: Digest, c: PlanCheck, d: PlanCheck, step: Step)
    requires c.validator == d.validator
    ensures RanResult(p, pd, c, step).outcome == RanResult(q, qd, d, step).outcome
  {
  }

  /** A blocking check of the weaker plan that ran passed, if every blocking check of the stronger plan did. */
  lemma PassesAlike(p: Plan, pd: Digest, q: Plan, qd: Digest, steps: seq<Step>, r: Run, s: Run, m: nat)
    requires |p.checks| == |q.checks| == |steps| && IsRun(p, pd, steps, r) && IsRun(q, qd, steps, s)
    requires m < r.ran && m < s.ran && p.checks[m].validator == q.checks[m].validator && s.results[m].outcome.Pass?
    ensures r.results[m].outcome.Pass?
  {
    hide RanResult;
    SameOutcome(p, pd, q, qd, p.checks[m], q.checks[m], steps[m]);
  }

  /** If every blocking check of the stronger plan ran and passed, the weaker plan's run got at least as far. */
  lemma WeakerRunReaches(p: Plan, pd: Digest, q: Plan, qd: Digest, steps: seq<Step>, r: Run, s: Run, k: nat)
    requires |p.checks| == |q.checks| == |steps| && IsRun(p, pd, steps, r) && IsRun(q, qd, steps, s)
    requires forall m :: 0 <= m < |steps| ==>
      p.checks[m].validator == q.checks[m].validator
      && (p.checks[m].effect.Blocking? ==> q.checks[m].effect.Blocking?)
    requires forall m :: 0 <= m < |steps| && q.checks[m].effect.Blocking? ==> m < s.ran && s.results[m].outcome.Pass?
    requires k < |steps| && p.checks[k].effect.Blocking?
    ensures k < r.ran && r.results[k].outcome.Pass?
  {
    assert k < s.ran;
    hide RanResult;
    if 0 < r.ran && p.checks[r.ran - 1].effect.Blocking? { PassesAlike(p, pd, q, qd, steps, r, s, r.ran - 1); }
    if k < r.ran { PassesAlike(p, pd, q, qd, steps, r, s, k); }
  }

  /**
   Strengthening is monotone end to end: what is PROMOTABLE under a profile that strengthens more is PROMOTABLE
   without the extra strengthening, for the same outcomes and deadline readings of the checks.
   */
  lemma StrengtheningIsMonotone(i: Inputs, j: Inputs, p: Plan, q: Plan, pd: Digest, qd: Digest,
      steps: seq<Step>, r: Run, s: Run)
    requires Compiles(i) && Compiles(j) && StrengthensMore(i, j) && IsPlan(i, p) && IsPlan(j, q)
    requires |steps| == |p.checks| == |q.checks| && IsRun(p, pd, steps, r) && IsRun(q, qd, steps, s)
    requires Reduce(q, qd, Supply(s.results)).disposition.Promotable?
    ensures Reduce(p, pd, Supply(r.results)).disposition.Promotable?
  {
    CompiledPlansHaveShape(i, p);
    CompiledPlansHaveShape(j, q);
    CompiledRunPromotableExactly(p, pd, steps, r);
    CompiledRunPromotableExactly(q, qd, steps, s);
    hide *;
    forall m | 0 <= m < |steps|
      ensures p.checks[m].validator == q.checks[m].validator
      ensures p.checks[m].effect.Blocking? ==> q.checks[m].effect.Blocking?
    {
      SameCheckStrongerEffect(i, j, p, q, m);
    }
    forall k | 0 <= k < |p.checks| && p.checks[k].effect.Blocking? ensures k < r.ran && r.results[k].outcome.Pass? {
      WeakerRunReaches(p, pd, q, qd, steps, r, s, k);
    }
  }
}
