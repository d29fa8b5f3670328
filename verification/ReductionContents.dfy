/** Everything a reduction lists, and exactly when: its reason codes, its entries in plan order, and its problems. */
module ReductionContents {
  import opened Base
  import opened Ordering
  import opened Plan
  import opened Reducer

  // ---------- which result answers a check ----------

  /** The result answers the plan's last check of its id with its pack and effect, for this plan and candidate. */
  ghost predicate AnswersPlan(r: CheckResult, plan: Plan, planDigest: Digest) {
    exists k ::
      && 0 <= k < |plan.checks| && plan.checks[k].checkId == r.checkId
      && (forall j :: k < j < |plan.checks| ==> plan.checks[j].checkId != r.checkId)
      && plan.checks[k].packId == r.packId && plan.checks[k].effect == r.effect
      && r.planDigest == planDigest && r.candidateId == plan.candidate.id
  }

  lemma {:induction false} CheckNamedIsLast(checks: seq<PlanCheck>, id: JsString, k: nat)
    requires k < |checks| && checks[k].checkId == id && forall j :: k < j < |checks| ==> checks[j].checkId != id
    ensures CheckNamed(checks, id) == Some(checks[k])
  {
    var last := |checks| - 1;
    if k < last {
      assert checks[..last][k] == checks[k];
      CheckNamedIsLast(checks[..last], id, k);
    }
  }

  lemma {:induction false} LastOfId(checks: seq<PlanCheck>, id: JsString) returns (k: nat)
    requires CheckNamed(checks, id).Some?
    ensures k < |checks| && checks[k].checkId == id && forall j :: k < j < |checks| ==> checks[j].checkId != id
  {
    var last := |checks| - 1;
    if checks[last].checkId == id {
      k := last;
    } else {
      k := LastOfId(checks[..last], id);
      assert forall j :: 0 <= j < last ==> checks[j] == checks[..last][j];
    }
  }

  lemma BindsExactly(r: CheckResult, plan: Plan, planDigest: Digest)
    ensures Binds(r, plan, planDigest) <==> AnswersPlan(r, plan, planDigest)
  {
    if Binds(r, plan, planDigest) {
      var k := LastOfId(plan.checks, r.checkId);
      CheckNamedIsLast(plan.checks, r.checkId, k);
    }
    if AnswersPlan(r, plan, planDigest) {
      var k :|
        && 0 <= k < |plan.checks| && plan.checks[k].checkId == r.checkId
        && (forall j :: k < j < |plan.checks| ==> plan.checks[j].checkId != r.checkId)
        && plan.checks[k].packId == r.packId && plan.checks[k].effect == r.effect
        && r.planDigest == planDigest && r.candidateId == plan.candidate.id;
      CheckNamedIsLast(plan.checks, r.checkId, k);
    }
  }

  ghost predicate SameId(results: seq<RawResult>, i: int, j: int)
    requires 0 <= i < |results| && 0 <= j < |results|
  {
    results[i].Shaped? && results[j].Shaped? && results[i].result.checkId == results[j].result.checkId
  }

  /** The result counts: it answers the plan, and is the first of its check to do so. */
  ghost predicate FiledAt(results: seq<RawResult>, plan: Plan, planDigest: Digest, i: int)
    requires 0 <= i < |results|
  {
    && results[i].Shaped? && AnswersPlan(results[i].result, plan, planDigest)
    && forall j :: 0 <= j < i ==> !(SameId(results, j, i) && AnswersPlan(results[j].result, plan, planDigest))
  }

  /** A result after the one that counts for its check. */
  ghost predicate DuplicateAt(results: seq<RawResult>, plan: Plan, planDigest: Digest, j: int)
    requires 0 <= j < |results|
  {
    exists i :: 0 <= i < j && SameId(results, i, j) && AnswersPlan(results[i].result, plan, planDigest)
  }

  /** What is no check result, or answers nothing of the plan. */
  ghost predicate MismatchAt(results: seq<RawResult>, plan: Plan, planDigest: Digest, j: int)
    requires 0 <= j < |results|
  {
    || results[j].Malformed?
    || (!AnswersPlan(results[j].result, plan, planDigest) && !DuplicateAt(results, plan, planDigest, j))
  }

  /** The result that counts for a check id. */
  ghost predicate Counts(results: seq<RawResult>, plan: Plan, planDigest: Digest, id: JsString, r: CheckResult) {
    exists i :: 0 <= i < |results| && FiledAt(results, plan, planDigest, i) && results[i].result == r && r.checkId == id
  }

  ghost predicate Answered(results: seq<RawResult>, plan: Plan, planDigest: Digest, id: JsString) {
    exists r :: Counts(results, plan, planDigest, id, r)
  }

  // ---------- receiving ----------

  /** What the first `n` results are complained about. */
  ghost function ResultProblems(results: seq<RawResult>, plan: Plan, planDigest: Digest, n: nat): seq<Problem>
    requires n <= |results|
  {
    if n == 0 then []
    else
      var j := n - 1;
      ResultProblems(results, plan, planDigest, j)
      + if MismatchAt(results, plan, planDigest, j) then
          [Problem(Ascii("RESULT_BINDING_MISMATCH"),
                   if results[j].Malformed? then None else Some(results[j].result.checkId))]
        else if DuplicateAt(results, plan, planDigest, j) then
          [Problem(Ascii("DUPLICATE_RESULT"), Some(results[j].result.checkId))]
        else []
  }

  ghost predicate SomeMismatch(results: seq<RawResult>, plan: Plan, planDigest: Digest, n: nat)
    requires n <= |results|
  {
    exists j :: 0 <= j < n && MismatchAt(results, plan, planDigest, j)
  }

  ghost predicate SomeDuplicate(results: seq<RawResult>, plan: Plan, planDigest: Digest, n: nat)
    requires n <= |results|
  {
    exists j :: 0 <= j < n && DuplicateAt(results, plan, planDigest, j)
  }

  /** The results that count among the first `n`, by check id. */
  ghost predicate Files(m: map<JsString, CheckResult>, results: seq<RawResult>, plan: Plan, planDigest: Digest, n: nat)
    requires n <= |results|
  {
    && (forall i :: 0 <= i < n && FiledAt(results, plan, planDigest, i) ==>
          results[i].result.checkId in m && m[results[i].result.checkId] == results[i].result)
    && forall id :: id in m ==>
         exists i :: 0 <= i < n && FiledAt(results, plan, planDigest, i) && results[i].result.checkId == id
  }

  /** The codes of what the first `n` results are complained about. */
  ghost predicate Complains(reasons: set<JsString>, results: seq<RawResult>, plan: Plan, planDigest: Digest, n: nat)
    requires n <= |results|
  {
    forall code :: code in reasons <==>
      || (code == Ascii("RESULT_BINDING_MISMATCH") && SomeMismatch(results, plan, planDigest, n))
      || (code == Ascii("DUPLICATE_RESULT") && SomeDuplicate(results, plan, planDigest, n))
  }

  /** The state after the first `n` results. */
  ghost predicate Received(s: State, results: seq<RawResult>, plan: Plan, planDigest: Digest, n: nat)
    requires n <= |results|
  {
    && Files(s.byCheckId, results, plan, planDigest, n) && Complains(s.reasons, results, plan, planDigest, n)
    && s.problems == ResultProblems(results, plan, planDigest, n)
    && s.consumed == [] && s.advisory == [] && s.evidenceOnly == []
  }

  /** An id that is filed is that of an earlier result that counts, and then the next of that id is a duplicate. */
  lemma FiledMeansDuplicate(m: map<JsString, CheckResult>, results: seq<RawResult>, plan: Plan, planDigest: Digest, n: nat)
    requires n < |results| && results[n].Shaped? && Files(m, results, plan, planDigest, n)
    ensures results[n].result.checkId in m <==> DuplicateAt(results, plan, planDigest, n)
  {
    hide AnswersPlan;
    var id := results[n].result.checkId;
    if id in m {
      var i :| 0 <= i < n && FiledAt(results, plan, planDigest, i) && results[i].result.checkId == id;
      assert SameId(results, i, n);
    }
    if DuplicateAt(results, plan, planDigest, n) {
      var i :| 0 <= i < n && SameId(results, i, n) && AnswersPlan(results[i].result, plan, planDigest);
      var k := FirstAnswer(results, plan, planDigest, i);
    }
  }

  /** The first answer for the check of an answer counts. */
  lemma {:induction false} FirstAnswer(results: seq<RawResult>, plan: Plan, planDigest: Digest, i: nat) returns (k: nat)
    requires i < |results| && results[i].Shaped? && AnswersPlan(results[i].result, plan, planDigest)
    ensures k <= i && FiledAt(results, plan, planDigest, k) && SameId(results, k, i)
  {
    hide AnswersPlan;
    if FiledAt(results, plan, planDigest, i) {
      k := i;
    } else {
      var j :| 0 <= j < i && SameId(results, j, i) && AnswersPlan(results[j].result, plan, planDigest);
      k := FirstAnswer(results, plan, planDigest, j);
    }
  }

  /** What the step does with result `n`. */
  ghost predicate StepIs(s: State, t: State, results: seq<RawResult>, plan: Plan, planDigest: Digest, n: nat)
    requires n < |results|
  {
    var mismatch, duplicate := MismatchAt(results, plan, planDigest, n), DuplicateAt(results, plan, planDigest, n);
    && (FiledAt(results, plan, planDigest, n) <==> !mismatch && !duplicate) && !(mismatch && duplicate)
    && (!mismatch ==> results[n].Shaped?)
    && (mismatch ==>
          t == Complain(s, Ascii("RESULT_BINDING_MISMATCH"),
                        if results[n].Malformed? then None else Some(results[n].result.checkId)))
    && (duplicate ==> t == Complain(s, Ascii("DUPLICATE_RESULT"), Some(results[n].result.checkId)))
    && (!mismatch && !duplicate ==> t == s.(byCheckId := s.byCheckId[results[n].result.checkId := results[n].result]))
  }

  lemma ReceiveSteps(s: State, results: seq<RawResult>, plan: Plan, planDigest: Digest, n: nat)
    requires n < |results| && Files(s.byCheckId, results, plan, planDigest, n)
    ensures StepIs(s, Receive(s, results[n], plan, planDigest), results, plan, planDigest, n)
  {
    hide AnswersPlan, Binds, Complain, DuplicateAt, DUPLICATE_RESULT, Files, RESULT_BINDING_MISMATCH;
    CodesAreNamed();
    var raw := results[n];
    if raw.Shaped? {
      FiledMeansDuplicate(s.byCheckId, results, plan, planDigest, n);
      BindsExactly(raw.result, plan, planDigest);
      CountsExactly(results, plan, planDigest, n);
    } else {
      MalformedIsNoDuplicate(results, plan, planDigest, n);
    }
  }

  lemma MalformedIsNoDuplicate(results: seq<RawResult>, plan: Plan, planDigest: Digest, n: nat)
    requires n < |results| && results[n].Malformed?
    ensures !DuplicateAt(results, plan, planDigest, n)
  {
  }

  lemma CountsExactly(results: seq<RawResult>, plan: Plan, planDigest: Digest, n: nat)
    requires n < |results| && results[n].Shaped?
    ensures FiledAt(results, plan, planDigest, n) <==>
      AnswersPlan(results[n].result, plan, planDigest) && !DuplicateAt(results, plan, planDigest, n)
  {
    hide AnswersPlan;
  }

  lemma FilesStep(m: map<JsString, CheckResult>, results: seq<RawResult>, plan: Plan, planDigest: Digest, n: nat)
    requires n < |results| && Files(m, results, plan, planDigest, n)
    ensures FiledAt(results, plan, planDigest, n) ==>
      Files(m[results[n].result.checkId := results[n].result], results, plan, planDigest, n + 1)
    ensures !FiledAt(results, plan, planDigest, n) ==> Files(m, results, plan, planDigest, n + 1)
  {
    hide AnswersPlan;
    if FiledAt(results, plan, planDigest, n) {
      FiledMeansDuplicate(m, results, plan, planDigest, n);
      CountsExactly(results, plan, planDigest, n);
      hide FiledAt, DuplicateAt;
      assert results[n].result.checkId !in m;
    }
  }

  lemma ComplainsStep(reasons: set<JsString>, results: seq<RawResult>, plan: Plan, planDigest: Digest, n: nat)
    requires n < |results| && Complains(reasons, results, plan, planDigest, n)
    ensures var mismatch, duplicate := MismatchAt(results, plan, planDigest, n), DuplicateAt(results, plan, planDigest, n);
      && (mismatch && !duplicate ==>
            Complains(reasons + {Ascii("RESULT_BINDING_MISMATCH")}, results, plan, planDigest, n + 1))
      && (duplicate && !mismatch ==> Complains(reasons + {Ascii("DUPLICATE_RESULT")}, results, plan, planDigest, n + 1))
      && (!duplicate && !mismatch ==> Complains(reasons, results, plan, planDigest, n + 1))
  {
    hide DuplicateAt, MismatchAt, SomeDuplicate, SomeMismatch;
    ReasonsStep(results, plan, planDigest, n);
  }

  lemma ReceivedStep(s: State, results: seq<RawResult>, plan: Plan, planDigest: Digest, n: nat)
    requires n < |results| && Received(s, results, plan, planDigest, n)
    ensures Received(Receive(s, results[n], plan, planDigest), results, plan, planDigest, n + 1)
  {
    hide Complains, DuplicateAt, FiledAt, Files, MismatchAt, Receive;
    ReceiveSteps(s, results, plan, planDigest, n);
    FilesStep(s.byCheckId, results, plan, planDigest, n);
    ComplainsStep(s.reasons, results, plan, planDigest, n);
  }

  lemma {:induction false} ReceivesAll(results: seq<RawResult>, plan: Plan, planDigest: Digest, n: nat)
    requires n <= |results|
    ensures Received(ReceiveAll(results[..n], plan, planDigest), results, plan, planDigest, n)
  {
    hide Receive;
    if n == 0 {
      assert results[..0] == [];
    } else {
      assert results[..n][..n - 1] == results[..n - 1];
      ReceivesAll(results, plan, planDigest, n - 1);
      ReceivedStep(ReceiveAll(results[..n - 1], plan, planDigest), results, plan, planDigest, n - 1);
    }
  }

  lemma CodesAreNamed()
    ensures DUPLICATE_RESULT == Ascii("DUPLICATE_RESULT")
    ensures RESULT_BINDING_MISMATCH == Ascii("RESULT_BINDING_MISMATCH")
  {
  }

  lemma ReasonsStep(results: seq<RawResult>, plan: Plan, planDigest: Digest, n: nat)
    requires n < |results|
    ensures SomeMismatch(results, plan, planDigest, n + 1) <==>
      SomeMismatch(results, plan, planDigest, n) || MismatchAt(results, plan, planDigest, n)
    ensures SomeDuplicate(results, plan, planDigest, n + 1) <==>
      SomeDuplicate(results, plan, planDigest, n) || DuplicateAt(results, plan, planDigest, n)
  {
    hide MismatchAt, DuplicateAt;
  }

  // ---------- consuming ----------

  /** What each check gives, check by check. */
  ghost function InOrder<T>(checks: seq<PlanCheck>, gives: PlanCheck -> seq<T>): seq<T> {
    if checks == [] then [] else InOrder(checks[..|checks| - 1], gives) + gives(checks[|checks| - 1])
  }

  /** The result filed under a check id, if any. */
  function Lookup(m: map<JsString, CheckResult>, id: JsString): Option<CheckResult> {
    if id in m then Some(m[id]) else None
  }

  ghost function ConsumedOf(m: map<JsString, CheckResult>): PlanCheck -> seq<Consumed> {
    (c: PlanCheck) => var r := Lookup(m, c.checkId);
      if c.consumer.DispositionReducer? && r.Some? then [Consumed(c.checkId, c.effect, r.value.outcome)] else []
  }

  ghost function AdvisoryOf(m: map<JsString, CheckResult>): PlanCheck -> seq<AdvisoryEntry> {
    (c: PlanCheck) => var r := Lookup(m, c.checkId);
      if c.consumer.DispositionReducer? && c.effect.Advisory? && r.Some? then
        [AdvisoryEntry(c.checkId, r.value.outcome, r.value.reasonCodes)]
      else []
  }

  ghost function RetainedOf(m: map<JsString, CheckResult>): PlanCheck -> seq<Retained> {
    (c: PlanCheck) => var r := Lookup(m, c.checkId);
      if c.consumer.EvidenceOnly? && r.Some? then [Retained(c.checkId, r.value.outcome)] else []
  }

  ghost function MissingOf(m: map<JsString, CheckResult>): PlanCheck -> seq<Problem> {
    (c: PlanCheck) => if c.consumer.DispositionReducer? && c.effect.Blocking? && Lookup(m, c.checkId).None? then
           [Problem(Ascii("MISSING_REQUIRED_RESULT"), Some(c.checkId))]
         else []
  }

  /** A deciding check gives a code: it has no result, or one that is no PASS. */
  ghost predicate Gives(c: PlanCheck, r: Option<CheckResult>, code: JsString) {
    && c.consumer.DispositionReducer? && c.effect.Blocking?
    && match r
       case None => code == Ascii("MISSING_REQUIRED_RESULT")
       case Some(x) =>
         || (x.outcome.Fired? && code == Ascii("CHECK_FIRED"))
         || (x.outcome.InfraFailure? && code == Ascii("INFRASTRUCTURE_FAILURE"))
         || (x.outcome.Skipped? && code == Ascii("CHECK_SKIPPED"))
         || (!x.outcome.Pass? && code in x.reasonCodes)
  }

  ghost predicate SomeGives(m: map<JsString, CheckResult>, checks: seq<PlanCheck>, code: JsString) {
    exists c :: c in checks && Gives(c, Lookup(m, c.checkId), code)
  }

  ghost predicate ConsumedAll(s: State, t: State, checks: seq<PlanCheck>) {
    && t.byCheckId == s.byCheckId
    && t.consumed == s.consumed + InOrder(checks, ConsumedOf(s.byCheckId))
    && t.advisory == s.advisory + InOrder(checks, AdvisoryOf(s.byCheckId))
    && t.evidenceOnly == s.evidenceOnly + InOrder(checks, RetainedOf(s.byCheckId))
    && t.problems == s.problems + InOrder(checks, MissingOf(s.byCheckId))
    && forall code :: code in t.reasons <==> code in s.reasons || SomeGives(s.byCheckId, checks, code)
  }

  lemma OutcomeCodesAreNamed()
    ensures MISSING_REQUIRED_RESULT == Ascii("MISSING_REQUIRED_RESULT") && CHECK_FIRED == Ascii("CHECK_FIRED")
    ensures INFRASTRUCTURE_FAILURE == Ascii("INFRASTRUCTURE_FAILURE") && CHECK_SKIPPED == Ascii("CHECK_SKIPPED")
  {
  }

  /** One check: what it adds. */
  lemma ConsumesOne(s: State, c: PlanCheck)
    ensures var t := Consume(s, c);
      && t.byCheckId == s.byCheckId
      && t.consumed == s.consumed + ConsumedOf(s.byCheckId)(c)
      && t.advisory == s.advisory + AdvisoryOf(s.byCheckId)(c)
      && t.evidenceOnly == s.evidenceOnly + RetainedOf(s.byCheckId)(c)
      && t.problems == s.problems + MissingOf(s.byCheckId)(c)
      && forall code :: code in t.reasons <==> code in s.reasons || Gives(c, Lookup(s.byCheckId, c.checkId), code)
  {
    hide CHECK_FIRED, CHECK_SKIPPED, INFRASTRUCTURE_FAILURE, MISSING_REQUIRED_RESULT;
    OutcomeCodesAreNamed();
  }

  lemma SomeGivesSnoc(m: map<JsString, CheckResult>, checks: seq<PlanCheck>, code: JsString)
    requires checks != []
    ensures var last := |checks| - 1;
      SomeGives(m, checks, code) <==>
      SomeGives(m, checks[..last], code) || Gives(checks[last], Lookup(m, checks[last].checkId), code)
  {
    hide Gives, Lookup;
    var last := |checks| - 1;
    assert checks == checks[..last] + [checks[last]];
  }

  lemma {:induction false} ConsumesAll(s: State, checks: seq<PlanCheck>)
    ensures ConsumedAll(s, ConsumeAll(s, checks), checks)
  {
    hide AdvisoryOf, ConsumedOf, Gives, Lookup, MissingOf, RetainedOf, Consume;
    if checks == [] {
      assert s.consumed + [] == s.consumed && s.advisory + [] == s.advisory;
      assert s.evidenceOnly + [] == s.evidenceOnly && s.problems + [] == s.problems;
    } else {
      var last := |checks| - 1;
      ConsumesAll(s, checks[..last]);
      ConsumesOne(ConsumeAll(s, checks[..last]), checks[last]);
      forall code { SomeGivesSnoc(s.byCheckId, checks, code); }
      hide SomeGives;
    }
  }

  // ---------- the reduction ----------

  /** The result filed under an id is the one that counts for it. */
  lemma FiledCounts(m: map<JsString, CheckResult>, results: seq<RawResult>, plan: Plan, planDigest: Digest, id: JsString,
      r: CheckResult)
    requires Files(m, results, plan, planDigest, |results|)
    ensures Lookup(m, id) == Some(r) <==> Counts(results, plan, planDigest, id, r)
  {
    hide AnswersPlan;
    if id in m {
      var i :| 0 <= i < |results| && FiledAt(results, plan, planDigest, i) && results[i].result.checkId == id;
      assert m[id] == results[i].result;
    }
  }

  /** The codes of a reduction, ascending. */
  ghost predicate ListsCodes(codes: seq<JsString>, m: map<JsString, CheckResult>, plan: Plan, planDigest: Digest,
      results: seq<RawResult>)
  {
    && (forall code :: code in codes <==>
          || (code == Ascii("RESULT_BINDING_MISMATCH") && SomeMismatch(results, plan, planDigest, |results|))
          || (code == Ascii("DUPLICATE_RESULT") && SomeDuplicate(results, plan, planDigest, |results|))
          || SomeGives(m, plan.checks, code))
    && forall i, j :: 0 <= i < j < |codes| ==> UnitBefore(codes[i], codes[j])
  }

  /** What a reduction lists, given the results that count by their check ids. */
  ghost predicate Lists(r: Reduction, m: map<JsString, CheckResult>, plan: Plan, planDigest: Digest,
      results: seq<RawResult>)
  {
    && r.consumed == InOrder(plan.checks, ConsumedOf(m))
    && r.advisory == InOrder(plan.checks, AdvisoryOf(m))
    && r.evidenceOnly == InOrder(plan.checks, RetainedOf(m))
    && r.problems == ResultProblems(results, plan, planDigest, |results|) + InOrder(plan.checks, MissingOf(m))
    && ListsCodes(r.reasonCodes, m, plan, planDigest, results)
    && (r.disposition.Promotable? <==> r.reasonCodes == [])
  }

  /**
   Every code, every entry and every problem of a reduction, and none but these: the codes ascending, the entries of
   the checks in plan order with what the result that counts for each says.
   */
  lemma ReductionListsExactly(plan: Plan, planDigest: Digest, results: seq<RawResult>)
    returns (m: map<JsString, CheckResult>)
    ensures Files(m, results, plan, planDigest, |results|)
    ensures Lists(Reduce(plan, planDigest, results), m, plan, planDigest, results)
  {
    hide AdvisoryOf, Consume, ConsumedOf, Files, MissingOf, ReceiveAll, ResultProblems, RetainedOf, SomeDuplicate,
      SomeGives, SomeMismatch, Sorted, UnitBefore;
    assert results[..|results|] == results;
    ReceivesAll(results, plan, planDigest, |results|);
    var s := ReceiveAll(results, plan, planDigest);
    ConsumesAll(s, plan.checks);
    var t := ConsumeAll(s, plan.checks);
    m := s.byCheckId;
    CodesAreSorted(t.reasons);
    EmptyFirst(InOrder(plan.checks, ConsumedOf(m)), InOrder(plan.checks, AdvisoryOf(m)),
               InOrder(plan.checks, RetainedOf(m)));
  }

  lemma EmptyFirst(a: seq<Consumed>, b: seq<AdvisoryEntry>, c: seq<Retained>)
    ensures [] + a == a && [] + b == b && [] + c == c
  {
  }

  lemma CodesAreSorted(reasons: set<JsString>)
    ensures forall code :: code in Sorted(reasons) <==> code in reasons
    ensures forall i, j :: 0 <= i < j < |Sorted(reasons)| ==> UnitBefore(Sorted(reasons)[i], Sorted(reasons)[j])
    ensures reasons == {} <==> Sorted(reasons) == []
  {
    SortedFacts(reasons);
    SortedAscends(reasons);
    assert forall code :: code in Sorted(reasons) <==> code in Elements(Sorted(reasons));
  }
}
