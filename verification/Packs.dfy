/** Policy packs, profiles and work contracts, and the rules their documents obey beyond their schemas. */
module Packs {
  import opened Base
  import opened Plan

  datatype Dep = Dep(packId: JsString, version: JsString, digest: Digest)

  /** A check as a pack declares it. */
  datatype Check = Check(
    checkId: JsString,
    phase: Phase,
    effect: Effect,
    validator: Validator,
    settings: Settings,
    consumer: Consumer)

  datatype Pack = Pack(
    packId: JsString,
    version: JsString,
    phases: seq<Phase>,
    dependencies: seq<Dep>,
    checks: seq<Check>)

  /** A pack document together with the digest of its bytes. */
  datatype SuppliedPack = SuppliedPack(value: Pack, digest: Digest)

  datatype Selection = Selection(packId: JsString, version: JsString, digest: Digest)

  datatype Profile = Profile(profileId: JsString, packs: seq<Selection>, strengthen: seq<JsString>)

  datatype WorkContract = WorkContract(
    digest: Digest,
    repositoryId: JsString,
    baseCommit: JsString,
    candidate: Candidate,
    profileId: JsString,
    profileDigest: Digest,
    capabilityIndex: Option<Digest>)

  // ---------- errors gathered over a list ----------

  /** The errors are those that the first `n` items give. */
  ghost predicate Gathered<A, E(!new)>(errors: seq<E>, items: seq<A>, n: nat, gives: (A, E) -> bool)
    requires n <= |items|
  {
    forall e :: e in errors <==> GivenBy(items, n, gives, e)
  }

  ghost predicate GivenBy<A, E>(items: seq<A>, n: nat, gives: (A, E) -> bool, e: E)
    requires n <= |items|
  {
    exists k :: 0 <= k < n && gives(items[k], e)
  }

  lemma GatherStep<A, E(!new)>(errors: seq<E>, more: seq<E>, items: seq<A>, n: nat, gives: (A, E) -> bool)
    requires n < |items| && Gathered(errors, items, n, gives)
    requires forall e :: e in more <==> gives(items[n], e)
    ensures Gathered(errors + more, items, n + 1, gives)
  {
    forall e ensures e in errors + more <==> GivenBy(items, n + 1, gives, e) {
      assert e in errors + more <==> e in errors || e in more;
      if GivenBy(items, n, gives, e) {
        var k :| 0 <= k < n && gives(items[k], e);
        assert GivenBy(items, n + 1, gives, e);
      }
    }
  }

  // ---------- repeated identifiers ----------

  ghost predicate Repeats<T>(xs: seq<T>, x: T) {
    exists i, j :: 0 <= i < j < |xs| && xs[i] == x && xs[j] == x
  }

  lemma RepeatsSnoc<T>(xs: seq<T>, last: T, x: T)
    ensures Repeats(xs + [last], x) <==> Repeats(xs, x) || (last == x && x in xs)
  {
    var all := xs + [last];
    if Repeats(xs, x) {
      var i, j :| 0 <= i < j < |xs| && xs[i] == x && xs[j] == x;
      assert all[i] == x && all[j] == x;
    }
    if last == x && x in xs {
      var i :| 0 <= i < |xs| && xs[i] == x;
      assert all[i] == x && all[|xs|] == x;
    }
    if Repeats(all, x) {
      var i, j :| 0 <= i < j < |all| && all[i] == x && all[j] == x;
      assert xs[i] == x;
      if j < |xs| { assert xs[j] == x; }
    }
  }

  lemma NothingRepeats<T>(xs: seq<T>)
    ensures NoDuplicates(xs) <==> forall x :: !Repeats(xs, x)
  {
    if !NoDuplicates(xs) {
      var i, j :| 0 <= i < j < |xs| && xs[i] == xs[j];
      assert Repeats(xs, xs[i]);
    }
  }

  /** The identifiers that occur more than once. */
  method DuplicateIds(ids: seq<JsString>) returns (dups: seq<JsString>)
    ensures forall x :: x in dups <==> Repeats(ids, x)
    ensures dups == [] <==> NoDuplicates(ids)
  {
    var seen: set<JsString> := {};
    dups := [];
    for k := 0 to |ids|
      invariant forall x :: x in seen <==> x in ids[..k]
      invariant forall x :: x in dups <==> Repeats(ids[..k], x)
    {
      var id := ids[k];
      assert ids[..k + 1] == ids[..k] + [id];
      forall x ensures Repeats(ids[..k + 1], x) <==> Repeats(ids[..k], x) || (id == x && x in ids[..k]) {
        RepeatsSnoc(ids[..k], id, x);
      }
      if id in seen && id !in dups { dups := dups + [id]; }
      seen := seen + {id};
    }
    assert ids[..|ids|] == ids;
    NothingRepeats(ids);
    if dups != [] { assert dups[0] in dups; }
  }

  // ---------- policy-pack@1 ----------

  datatype PackError =
    | RepeatedCheck(checkId: JsString)
    | RepeatedDependency(packId: JsString)
    | SelfDependency
    | PhaseNotDeclared(checkId: JsString)
    | BlockingIsEvidenceOnly(checkId: JsString)

  function CheckIds(checks: seq<Check>): seq<JsString> {
    seq(|checks|, i requires 0 <= i < |checks| => checks[i].checkId)
  }

  function DepIds(deps: seq<Dep>): seq<JsString> {
    seq(|deps|, i requires 0 <= i < |deps| => deps[i].packId)
  }

  /** What a pack may not do, error by error. */
  ghost predicate PackViolates(p: Pack, e: PackError) {
    match e
    case RepeatedCheck(id) => Repeats(CheckIds(p.checks), id)
    case RepeatedDependency(id) => Repeats(DepIds(p.dependencies), id)
    case SelfDependency => p.packId in DepIds(p.dependencies)
    case PhaseNotDeclared(id) => exists c :: c in p.checks && c.checkId == id && c.phase !in p.phases
    case BlockingIsEvidenceOnly(id) =>
      exists c :: c in p.checks && c.checkId == id && c.effect.Blocking? && c.consumer.EvidenceOnly?
  }

  /** The rules of a policy pack: its schema wants a check, the others are stated on the document. */
  ghost predicate PackLawful(p: Pack) {
    && p.checks != []
    && NoDuplicates(CheckIds(p.checks))
    && NoDuplicates(DepIds(p.dependencies))
    && p.packId !in DepIds(p.dependencies)
    && forall c :: c in p.checks ==> c.phase in p.phases && (c.effect.Blocking? ==> c.consumer.DispositionReducer?)
  }

  lemma LawfulExactly(p: Pack)
    requires p.checks != []
    ensures PackLawful(p) <==> forall e :: !PackViolates(p, e)
  {
    NothingRepeats(CheckIds(p.checks));
    NothingRepeats(DepIds(p.dependencies));
    if forall e :: !PackViolates(p, e) {
      forall x ensures !Repeats(CheckIds(p.checks), x) && !Repeats(DepIds(p.dependencies), x) {
        assert !PackViolates(p, RepeatedCheck(x)) && !PackViolates(p, RepeatedDependency(x));
      }
      assert !PackViolates(p, SelfDependency);
      forall c | c in p.checks
        ensures c.phase in p.phases && (c.effect.Blocking? ==> c.consumer.DispositionReducer?)
      {
        assert !PackViolates(p, PhaseNotDeclared(c.checkId));
        assert !PackViolates(p, BlockingIsEvidenceOnly(c.checkId));
      }
    }
  }

  ghost predicate CheckGives(p: Pack, c: Check, e: PackError) {
    match e
    case PhaseNotDeclared(id) => c.checkId == id && c.phase !in p.phases
    case BlockingIsEvidenceOnly(id) => c.checkId == id && c.effect.Blocking? && c.consumer.EvidenceOnly?
    case _ => false
  }

  /** The semantic rules of policy-pack@1. */
  method PackErrors(p: Pack) returns (errors: seq<PackError>)
    requires p.checks != []
    ensures forall e :: e in errors <==> PackViolates(p, e)
    ensures errors == [] <==> PackLawful(p)
  {
    var repeatedChecks := DuplicateIds(CheckIds(p.checks));
    var repeatedDeps := DuplicateIds(DepIds(p.dependencies));
    errors := [];
    for k := 0 to |repeatedChecks|
      invariant forall e :: e in errors <==> e.RepeatedCheck? && e.checkId in repeatedChecks[..k]
    {
      errors := errors + [RepeatedCheck(repeatedChecks[k])];
    }
    for k := 0 to |repeatedDeps|
      invariant forall e :: e in errors <==>
        || (e.RepeatedCheck? && e.checkId in repeatedChecks)
        || (e.RepeatedDependency? && e.packId in repeatedDeps[..k])
    {
      errors := errors + [RepeatedDependency(repeatedDeps[k])];
    }
    ghost var repeated := errors;
    ghost var depIds := DepIds(p.dependencies);
    for k := 0 to |p.dependencies|
      invariant forall e :: e in errors <==> e in repeated || (e.SelfDependency? && p.packId in depIds[..k])
    {
      assert depIds[..k + 1] == depIds[..k] + [p.dependencies[k].packId];
      if p.dependencies[k].packId == p.packId { errors := errors + [SelfDependency]; }
    }
    assert depIds[..|p.dependencies|] == depIds;
    ghost var before := errors;
    var checkErrors: seq<PackError> := [];
    ghost var gives: (Check, PackError) -> bool := (c, e) => CheckGives(p, c, e);
    for k := 0 to |p.checks|
      invariant Gathered(checkErrors, p.checks, k, gives)
    {
      var c := p.checks[k];
      var more: seq<PackError> := [];
      if c.phase !in p.phases { more := more + [PhaseNotDeclared(c.checkId)]; }
      if c.effect.Blocking? && !c.consumer.DispositionReducer? { more := more + [BlockingIsEvidenceOnly(c.checkId)]; }
      GatherStep(checkErrors, more, p.checks, k, gives);
      checkErrors := checkErrors + more;
    }
    errors := errors + checkErrors;
    CheckErrorsExact(p, checkErrors, gives);
    LawfulExactly(p);
    if errors != [] { assert errors[0] in errors; }
  }

  lemma CheckErrorsExact(p: Pack, errors: seq<PackError>, gives: (Check, PackError) -> bool)
    requires forall c, e :: gives(c, e) <==> CheckGives(p, c, e)
    requires Gathered(errors, p.checks, |p.checks|, gives)
    ensures forall e :: e in errors <==> (e.PhaseNotDeclared? || e.BlockingIsEvidenceOnly?) && PackViolates(p, e)
  {
    forall e ensures e in errors <==> (e.PhaseNotDeclared? || e.BlockingIsEvidenceOnly?) && PackViolates(p, e) {
      if e in errors {
        var k :| 0 <= k < |p.checks| && gives(p.checks[k], e);
        assert CheckGives(p, p.checks[k], e) && p.checks[k] in p.checks;
      }
    }
  }

  // ---------- compiled-policy-plan@1 ----------

  datatype PlanError = RepeatedPlanCheck(checkId: JsString) | OrderViolation(checkId: JsString, dep: JsString)

  function PlanCheckIds(checks: seq<PlanCheck>): seq<JsString> {
    seq(|checks|, i requires 0 <= i < |checks| => checks[i].checkId)
  }

  /** Everything a check depends on has an earlier place in the plan. */
  ghost predicate DependenciesPrecede(checks: seq<PlanCheck>) {
    forall i, d :: 0 <= i < |checks| && d in checks[i].dependsOn ==> d in PlanCheckIds(checks)[..i]
  }

  /** The check at place `i` depends on something without an earlier place. */
  ghost predicate OrderGives(checks: seq<PlanCheck>, i: nat, e: PlanError)
    requires i < |checks|
  {
    e.OrderViolation? && e.checkId == checks[i].checkId && e.dep in checks[i].dependsOn
    && e.dep !in PlanCheckIds(checks)[..i]
  }

  /** What a plan may not do, error by error. */
  ghost predicate PlanViolates(checks: seq<PlanCheck>, e: PlanError) {
    || (e.RepeatedPlanCheck? && Repeats(PlanCheckIds(checks), e.checkId))
    || (exists i :: 0 <= i < |checks| && OrderGives(checks, i, e))
  }

  /** The dependencies of one check that have no earlier place. */
  method CheckOrderErrors(checks: seq<PlanCheck>, i: nat, seen: set<JsString>) returns (errors: seq<PlanError>)
    requires i < |checks| && forall x :: x in seen <==> x in PlanCheckIds(checks)[..i]
    ensures forall e :: e in errors <==> OrderGives(checks, i, e)
  {
    var check := checks[i];
    errors := [];
    for j := 0 to |check.dependsOn|
      invariant forall e :: e in errors <==>
        e.OrderViolation? && e.checkId == check.checkId && e.dep in check.dependsOn[..j] && e.dep !in seen
    {
      var dep := check.dependsOn[j];
      assert check.dependsOn[..j + 1] == check.dependsOn[..j] + [dep];
      if dep !in seen { errors := errors + [OrderViolation(check.checkId, dep)]; }
    }
    assert check.dependsOn[..|check.dependsOn|] == check.dependsOn;
  }

  /** The semantic rules of compiled-policy-plan@1. */
  method PlanErrors(checks: seq<PlanCheck>) returns (errors: seq<PlanError>)
    ensures forall e :: e in errors <==> PlanViolates(checks, e)
    ensures errors == [] <==> DistinctCheckIds(checks) && DependenciesPrecede(checks)
  {
    var ids := PlanCheckIds(checks);
    var dups := DuplicateIds(ids);
    errors := [];
    for k := 0 to |dups|
      invariant forall e :: e in errors <==> e.RepeatedPlanCheck? && e.checkId in dups[..k]
    {
      errors := errors + [RepeatedPlanCheck(dups[k])];
    }
    var seen: set<JsString> := {};
    var orderErrors: seq<PlanError> := [];
    for i := 0 to |checks|
      invariant forall x :: x in seen <==> x in ids[..i]
      invariant forall e :: e in orderErrors <==> exists k :: 0 <= k < i && OrderGives(checks, k, e)
    {
      var more := CheckOrderErrors(checks, i, seen);
      orderErrors := orderErrors + more;
      assert ids[..i + 1] == ids[..i] + [checks[i].checkId];
      seen := seen + {checks[i].checkId};
    }
    errors := errors + orderErrors;
    PlanErrorsDecide(checks, errors);
  }

  lemma PlanErrorsDecide(checks: seq<PlanCheck>, errors: seq<PlanError>)
    requires forall e :: e in errors <==> PlanViolates(checks, e)
    ensures errors == [] <==> DistinctCheckIds(checks) && DependenciesPrecede(checks)
  {
    var ids := PlanCheckIds(checks);
    DistinctIdsAreIds(checks);
    NothingRepeats(ids);
    if errors == [] {
      forall x ensures !Repeats(ids, x) { assert RepeatedPlanCheck(x) !in errors; }
      forall i, d | 0 <= i < |checks| && d in checks[i].dependsOn ensures d in ids[..i] {
        assert !OrderGives(checks, i, OrderViolation(checks[i].checkId, d)) by {
          assert OrderViolation(checks[i].checkId, d) !in errors;
        }
      }
    } else {
      assert errors[0] in errors;
    }
  }

  lemma DistinctIdsAreIds(checks: seq<PlanCheck>)
    ensures DistinctCheckIds(checks) <==> NoDuplicates(PlanCheckIds(checks))
  {
    var ids := PlanCheckIds(checks);
    if NoDuplicates(ids) {
      forall i, j | 0 <= i < j < |checks| ensures checks[i].checkId != checks[j].checkId {
        assert ids[i] != ids[j];
      }
    }
  }
}
