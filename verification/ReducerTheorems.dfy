/** What the disposition means, and what it cannot depend on. */
module ReducerTheorems {
  import opened Base
  import opened Ordering
  import opened Plan
  import opened Reducer

  // ---------- the declarative verdict ----------

  ghost predicate BoundResult(raw: RawResult, plan: Plan, planDigest: Digest) {
    raw.Shaped? && Binds(raw.result, plan, planDigest)
  }

  ghost predicate AllBound(results: seq<RawResult>, plan: Plan, planDigest: Digest) {
    forall i :: 0 <= i < |results| ==> BoundResult(results[i], plan, planDigest)
  }

  ghost predicate SameCheck(a: RawResult, b: RawResult) {
    a.Shaped? && b.Shaped? && a.result.checkId == b.result.checkId
  }

  ghost predicate DistinctIds(results: seq<RawResult>) {
    forall i, j :: 0 <= i < j < |results| ==> !SameCheck(results[i], results[j])
  }

  ghost predicate PassedBy(c: PlanCheck, results: seq<RawResult>) {
    exists i :: 0 <= i < |results| && results[i].Shaped?
      && results[i].result.checkId == c.checkId && results[i].result.outcome.Pass?
  }

  /** Some result answers the check. */
  ghost predicate AnsweredBy(c: PlanCheck, results: seq<RawResult>) {
    exists k :: 0 <= k < |results| && results[k].Shaped? && results[k].result.checkId == c.checkId
  }

  /** Every result is a bound answer, no check is answered twice, and every deciding check passed. */
  ghost predicate EveryDecidingCheckPassed(plan: Plan, planDigest: Digest, results: seq<RawResult>) {
    && AllBound(results, plan, planDigest)
    && DistinctIds(results)
    && forall i :: 0 <= i < |plan.checks| && Decides(plan.checks[i]) ==> PassedBy(plan.checks[i], results)
  }

  // ---------- receiving ----------

  /** What filing a list of results establishes. */
  ghost predicate Filed(s: State, results: seq<RawResult>, plan: Plan, planDigest: Digest) {
    && (forall k :: k in s.byCheckId ==>
          && s.byCheckId[k].checkId == k
          && Shaped(s.byCheckId[k]) in results
          && Binds(s.byCheckId[k], plan, planDigest))
    && (forall i :: 0 <= i < |results| && BoundResult(results[i], plan, planDigest) ==>
          results[i].result.checkId in s.byCheckId)
    && s.consumed == [] && s.advisory == [] && s.evidenceOnly == []
  }

  lemma {:induction false} ReceiveFiles(results: seq<RawResult>, plan: Plan, planDigest: Digest)
    ensures Filed(ReceiveAll(results, plan, planDigest), results, plan, planDigest)
  {
    if results != [] {
      var last := |results| - 1;
      var front := results[..last];
      ReceiveFiles(front, plan, planDigest);
      FiledStep(ReceiveAll(front, plan, planDigest), front, results[last], plan, planDigest);
      assert results == front + [results[last]];
    }
  }

  lemma FiledStep(s: State, front: seq<RawResult>, raw: RawResult, plan: Plan, planDigest: Digest)
    requires Filed(s, front, plan, planDigest)
    ensures Filed(Receive(s, raw, plan, planDigest), front + [raw], plan, planDigest)
  {
    hide Binds;
    var results := front + [raw];
    var t := Receive(s, raw, plan, planDigest);
    assert forall x :: x in results <==> x in front || x == raw;
    forall i | 0 <= i < |results| && BoundResult(results[i], plan, planDigest)
      ensures results[i].result.checkId in t.byCheckId
    {
      if i < |front| { assert results[i] == front[i]; } else { assert results[i] == raw; }
    }
  }

  lemma CleanStep(s: State, front: seq<RawResult>, raw: RawResult, plan: Plan, planDigest: Digest)
    requires Filed(s, front, plan, planDigest)
    requires s.reasons == {} ==> AllBound(front, plan, planDigest)
    ensures Receive(s, raw, plan, planDigest).reasons == {}
            <==> s.reasons == {} && BoundResult(raw, plan, planDigest)
                 && forall k :: 0 <= k < |front| ==> !SameCheck(front[k], raw)
  {
    hide Binds;
    if s.reasons == {} && BoundResult(raw, plan, planDigest) {
      var id := raw.result.checkId;
      if id in s.byCheckId {
        var k :| 0 <= k < |front| && front[k] == Shaped(s.byCheckId[id]);
        assert SameCheck(front[k], raw);
      } else {
        forall k | 0 <= k < |front| ensures !SameCheck(front[k], raw) {
          assert BoundResult(front[k], plan, planDigest);
        }
      }
    }
  }

  /** No complaint while receiving exactly when every result is bound and no two answer the same check. */
  lemma {:induction false} ReceiveCleanly(results: seq<RawResult>, plan: Plan, planDigest: Digest)
    ensures ReceiveAll(results, plan, planDigest).reasons == {}
            <==> AllBound(results, plan, planDigest) && DistinctIds(results)
  {
    hide Receive, Filed, BoundResult, SameCheck;
    if results != [] {
      var last := |results| - 1;
      var front := results[..last];
      ReceiveCleanly(front, plan, planDigest);
      ReceiveFiles(front, plan, planDigest);
      SnocBound(results, plan, planDigest);
      CleanStep(ReceiveAll(front, plan, planDigest), front, results[last], plan, planDigest);
      assert forall k :: 0 <= k < last ==> results[k] == front[k];
    }
  }

  lemma SnocBound(results: seq<RawResult>, plan: Plan, planDigest: Digest)
    requires results != []
    ensures var last := |results| - 1;
            var front := results[..last];
            && (AllBound(results, plan, planDigest) <==>
                  AllBound(front, plan, planDigest) && BoundResult(results[last], plan, planDigest))
            && (DistinctIds(results) <==>
                  DistinctIds(front) && forall k :: 0 <= k < last ==> !SameCheck(results[k], results[last]))
  {
    hide Binds;
    var last := |results| - 1;
    var front := results[..last];
    assert forall i :: 0 <= i < last ==> results[i] == front[i];
    if AllBound(front, plan, planDigest) && BoundResult(results[last], plan, planDigest) {
      forall i | 0 <= i < |results| ensures BoundResult(results[i], plan, planDigest) {
        if i < last { assert BoundResult(front[i], plan, planDigest); }
      }
    }
    if DistinctIds(front) && forall k :: 0 <= k < last ==> !SameCheck(results[k], results[last]) {
      forall i, j | 0 <= i < j < |results| ensures !SameCheck(results[i], results[j]) {
        if j < last { assert !SameCheck(front[i], front[j]); }
      }
    }
    if DistinctIds(results) {
      forall i, j | 0 <= i < j < last ensures !SameCheck(front[i], front[j]) {
        assert !SameCheck(results[i], results[j]);
      }
    }
  }

  // ---------- consuming ----------

  ghost predicate Passed(s: State, c: PlanCheck) {
    c.checkId in s.byCheckId && s.byCheckId[c.checkId].outcome.Pass?
  }

  /** Consuming adds a reason exactly for the deciding checks without a PASS. */
  lemma {:induction false} ConsumeBlocks(s: State, checks: seq<PlanCheck>)
    ensures ConsumeAll(s, checks).byCheckId == s.byCheckId
    ensures ConsumeAll(s, checks).reasons == {} <==>
      s.reasons == {} && forall i :: 0 <= i < |checks| && Decides(checks[i]) ==> Passed(s, checks[i])
  {
    if checks != [] {
      var last := |checks| - 1;
      ConsumeBlocks(s, checks[..last]);
      assert forall i :: 0 <= i < last ==> checks[i] == checks[..last][i];
    }
  }

  /** PROMOTABLE means exactly: all results bound, none repeated, every deciding check answered with PASS. */
  lemma PromotableExactly(plan: Plan, planDigest: Digest, results: seq<RawResult>)
    ensures Reduce(plan, planDigest, results).disposition.Promotable?
            <==> EveryDecidingCheckPassed(plan, planDigest, results)
  {
    var s := ReceiveAll(results, plan, planDigest);
    ReceiveCleanly(results, plan, planDigest);
    ReceiveFiles(results, plan, planDigest);
    ConsumeBlocks(s, plan.checks);
    if s.reasons == {} {
      forall i | 0 <= i < |plan.checks| ensures Passed(s, plan.checks[i]) <==> PassedBy(plan.checks[i], results) {
        PassedIsPassedBy(s, plan.checks[i], results, plan, planDigest);
      }
    }
  }

  lemma PassedIsPassedBy(s: State, c: PlanCheck, results: seq<RawResult>, plan: Plan, planDigest: Digest)
    requires Filed(s, results, plan, planDigest) && AllBound(results, plan, planDigest) && DistinctIds(results)
    ensures Passed(s, c) <==> PassedBy(c, results)
  {
    hide Binds;
    if Passed(s, c) {
      var k :| 0 <= k < |results| && results[k] == Shaped(s.byCheckId[c.checkId]);
      assert results[k].result.checkId == c.checkId;
    }
    if PassedBy(c, results) {
      var i :| 0 <= i < |results| && results[i].Shaped?
        && results[i].result.checkId == c.checkId && results[i].result.outcome.Pass?;
      assert BoundResult(results[i], plan, planDigest);
      var k :| 0 <= k < |results| && results[k] == Shaped(s.byCheckId[c.checkId]);
      SameCheckSamePlace(results, i, k);
    }
  }

  lemma SameCheckSamePlace(results: seq<RawResult>, i: int, k: int)
    requires DistinctIds(results) && 0 <= i < |results| && 0 <= k < |results| && SameCheck(results[i], results[k])
    ensures i == k
  {
  }

  // ---------- order ----------

  lemma DistinctIdsIgnoreOrder(results: seq<RawResult>, shuffled: seq<RawResult>)
    requires multiset(results) == multiset(shuffled) && DistinctIds(shuffled)
    ensures DistinctIds(results)
  {
    forall i, j | 0 <= i < j < |results| ensures !SameCheck(results[i], results[j]) {
      ResultsStayApart(results, shuffled, i, j);
    }
  }

  lemma ResultsStayApart(results: seq<RawResult>, shuffled: seq<RawResult>, i: nat, j: nat)
    requires multiset(results) == multiset(shuffled) && DistinctIds(shuffled) && i < j < |results|
    ensures !SameCheck(results[i], results[j])
  {
    hide DistinctIds;
    SameMembers(results, shuffled);
    var a, b := results[i], results[j];
    if SameCheck(a, b) {
      if a == b {
        RepeatsCount(results, i, j);
        TwoOccurrences(shuffled, a);
        var p, q :| 0 <= p < q < |shuffled| && shuffled[p] == a && shuffled[q] == a;
        SameCheckSamePlace(shuffled, p, q);
      } else {
        assert a in shuffled && b in shuffled;
        var p :| 0 <= p < |shuffled| && shuffled[p] == a;
        var q :| 0 <= q < |shuffled| && shuffled[q] == b;
        SameCheckSamePlace(shuffled, p, q);
      }
    }
  }

  lemma VerdictIgnoresOrder(plan: Plan, planDigest: Digest, results: seq<RawResult>, shuffled: seq<RawResult>)
    requires multiset(results) == multiset(shuffled)
    requires EveryDecidingCheckPassed(plan, planDigest, shuffled)
    ensures EveryDecidingCheckPassed(plan, planDigest, results)
  {
    SameMembers(results, shuffled);
    DistinctIdsIgnoreOrder(results, shuffled);
    forall i | 0 <= i < |results| ensures BoundResult(results[i], plan, planDigest) {
      assert results[i] in shuffled;
      var k :| 0 <= k < |shuffled| && shuffled[k] == results[i];
      assert BoundResult(shuffled[k], plan, planDigest);
    }
    forall i | 0 <= i < |plan.checks| && Decides(plan.checks[i]) ensures PassedBy(plan.checks[i], results) {
      var c := plan.checks[i];
      assert PassedBy(c, shuffled);
      var k :| 0 <= k < |shuffled| && shuffled[k].Shaped?
        && shuffled[k].result.checkId == c.checkId && shuffled[k].result.outcome.Pass?;
      assert shuffled[k] in results;
      var m :| 0 <= m < |results| && results[m] == shuffled[k];
    }
  }

  /** The order in which results arrive never changes the disposition, duplicates and forgeries included. */
  lemma DispositionIgnoresOrder(plan: Plan, planDigest: Digest, results: seq<RawResult>, shuffled: seq<RawResult>)
    requires multiset(results) == multiset(shuffled)
    ensures Reduce(plan, planDigest, results).disposition == Reduce(plan, planDigest, shuffled).disposition
  {
    PromotableExactly(plan, planDigest, results);
    PromotableExactly(plan, planDigest, shuffled);
    if EveryDecidingCheckPassed(plan, planDigest, results) { VerdictIgnoresOrder(plan, planDigest, shuffled, results); }
    if EveryDecidingCheckPassed(plan, planDigest, shuffled) { VerdictIgnoresOrder(plan, planDigest, results, shuffled); }
  }

  // ---------- everything but the problem list ----------

  ghost predicate HasUnbound(results: seq<RawResult>, plan: Plan, planDigest: Digest) {
    exists i :: 0 <= i < |results| && !BoundResult(results[i], plan, planDigest)
  }

  /** With distinct checkIds, what is filed is just the bound results, and the only complaint is an unbound one. */
  lemma {:induction false} DistinctReceive(results: seq<RawResult>, plan: Plan, planDigest: Digest)
    requires DistinctIds(results)
    ensures var s := ReceiveAll(results, plan, planDigest);
      && (forall i :: 0 <= i < |results| && BoundResult(results[i], plan, planDigest) ==>
            results[i].result.checkId in s.byCheckId
            && s.byCheckId[results[i].result.checkId] == results[i].result)
      && s.reasons == if HasUnbound(results, plan, planDigest) then {RESULT_BINDING_MISMATCH} else {}
  {
    hide Binds, BoundResult, Receive, SameCheck;
    if results != [] {
      var last := |results| - 1;
      var front := results[..last];
      var s := ReceiveAll(front, plan, planDigest);
      SnocBound(results, plan, planDigest);
      DistinctReceive(front, plan, planDigest);
      ReceiveFiles(front, plan, planDigest);
      if results[last].Shaped? { NotFiledYet(s, front, results[last].result, plan, planDigest); }
      UnboundSnoc(results, plan, planDigest);
      ReceiveNew(s, front, results[last], plan, planDigest);
    }
  }

  /** Receiving a result whose id is not filed yet: it is filed if it is bound, and else it is the one complaint. */
  lemma ReceiveNew(s: State, front: seq<RawResult>, raw: RawResult, plan: Plan, planDigest: Digest)
    requires raw.Shaped? ==> raw.result.checkId !in s.byCheckId
    ensures var t := Receive(s, raw, plan, planDigest);
      && (BoundResult(raw, plan, planDigest) ==>
            raw.result.checkId in t.byCheckId && t.byCheckId[raw.result.checkId] == raw.result)
      && (forall id :: id in s.byCheckId ==> id in t.byCheckId && t.byCheckId[id] == s.byCheckId[id])
      && t.reasons == if BoundResult(raw, plan, planDigest) then s.reasons else s.reasons + {RESULT_BINDING_MISMATCH}
  {
    hide Binds;
  }

  lemma NotFiledYet(s: State, front: seq<RawResult>, r: CheckResult, plan: Plan, planDigest: Digest)
    requires Filed(s, front, plan, planDigest)
    requires forall k :: 0 <= k < |front| ==> !SameCheck(front[k], Shaped(r))
    ensures r.checkId !in s.byCheckId
  {
    hide Binds, SameCheck;
    if r.checkId in s.byCheckId {
      var k :| 0 <= k < |front| && front[k] == Shaped(s.byCheckId[r.checkId]);
      SameIdSameCheck(s.byCheckId[r.checkId], r);
    }
  }

  lemma SameIdSameCheck(a: CheckResult, b: CheckResult)
    ensures SameCheck(Shaped(a), Shaped(b)) <==> a.checkId == b.checkId
  {
  }

  lemma UnboundSnoc(results: seq<RawResult>, plan: Plan, planDigest: Digest)
    requires results != []
    ensures var last := |results| - 1;
      HasUnbound(results, plan, planDigest)
      <==> HasUnbound(results[..last], plan, planDigest) || !BoundResult(results[last], plan, planDigest)
  {
    hide BoundResult;
    var last := |results| - 1;
    var front := results[..last];
    if HasUnbound(front, plan, planDigest) {
      var i :| 0 <= i < last && !BoundResult(front[i], plan, planDigest);
      assert !BoundResult(results[i], plan, planDigest);
    }
    if HasUnbound(results, plan, planDigest) {
      var i :| 0 <= i < |results| && !BoundResult(results[i], plan, planDigest);
      if i < last { assert !BoundResult(front[i], plan, planDigest); }
    }
  }

  lemma DistinctReceiveIgnoresOrder(
      plan: Plan, planDigest: Digest, results: seq<RawResult>, shuffled: seq<RawResult>)
    requires multiset(results) == multiset(shuffled) && DistinctIds(results)
    ensures ReceiveAll(results, plan, planDigest).(problems := [])
            == ReceiveAll(shuffled, plan, planDigest).(problems := [])
  {
    hide Binds, BoundResult, SameCheck, ReceiveAll, HasUnbound;
    DistinctIdsIgnoreOrder(shuffled, results);
    SameMembers(results, shuffled);
    DistinctFiledInto(results, shuffled, plan, planDigest);
    DistinctFiledInto(shuffled, results, plan, planDigest);
    DistinctReceive(results, plan, planDigest);
    DistinctReceive(shuffled, plan, planDigest);
    UnboundIgnoresOrder(results, shuffled, plan, planDigest);
    UnboundIgnoresOrder(shuffled, results, plan, planDigest);
    var s, t := ReceiveAll(results, plan, planDigest), ReceiveAll(shuffled, plan, planDigest);
    SameMaps(s.byCheckId, t.byCheckId);
  }

  lemma SameMaps<K, V>(m: map<K, V>, n: map<K, V>)
    requires forall k :: k in m ==> k in n && n[k] == m[k]
    requires forall k :: k in n ==> k in m
    ensures m == n
  {
  }

  lemma DistinctFiledInto(a: seq<RawResult>, b: seq<RawResult>, plan: Plan, planDigest: Digest)
    requires DistinctIds(b) && forall x :: x in a ==> x in b
    ensures var s, t := ReceiveAll(a, plan, planDigest), ReceiveAll(b, plan, planDigest);
      && (forall k :: k in s.byCheckId ==> k in t.byCheckId && t.byCheckId[k] == s.byCheckId[k])
      && s.consumed == [] && s.advisory == [] && s.evidenceOnly == []
  {
    hide Binds;
    ReceiveFiles(a, plan, planDigest);
    DistinctReceive(b, plan, planDigest);
    SubFiled(ReceiveAll(a, plan, planDigest), ReceiveAll(b, plan, planDigest), a, b, plan, planDigest);
  }

  lemma UnboundIgnoresOrder(a: seq<RawResult>, b: seq<RawResult>, plan: Plan, planDigest: Digest)
    requires forall x :: x in a ==> x in b
    ensures HasUnbound(a, plan, planDigest) ==> HasUnbound(b, plan, planDigest)
  {
    hide BoundResult;
    if HasUnbound(a, plan, planDigest) {
      var i :| 0 <= i < |a| && !BoundResult(a[i], plan, planDigest);
      assert a[i] in b;
      var k :| 0 <= k < |b| && b[k] == a[i];
    }
  }

  lemma SubFiled(s: State, t: State, a: seq<RawResult>, b: seq<RawResult>, plan: Plan, planDigest: Digest)
    requires Filed(s, a, plan, planDigest)
    requires forall x :: x in a ==> x in b
    requires forall i :: 0 <= i < |b| && BoundResult(b[i], plan, planDigest) ==>
      b[i].result.checkId in t.byCheckId && t.byCheckId[b[i].result.checkId] == b[i].result
    ensures forall k :: k in s.byCheckId ==> k in t.byCheckId && t.byCheckId[k] == s.byCheckId[k]
  {
    hide Binds;
    forall k | k in s.byCheckId ensures k in t.byCheckId && t.byCheckId[k] == s.byCheckId[k] {
      var raw := Shaped(s.byCheckId[k]);
      assert raw in b;
      var i :| 0 <= i < |b| && b[i] == raw;
      assert BoundResult(b[i], plan, planDigest);
    }
  }

  lemma {:induction false} ConsumeIgnoresProblems(s: State, t: State, checks: seq<PlanCheck>)
    requires s.(problems := []) == t.(problems := [])
    ensures ConsumeAll(s, checks).(problems := []) == ConsumeAll(t, checks).(problems := [])
  {
    if checks != [] { ConsumeIgnoresProblems(s, t, checks[..|checks| - 1]); }
  }

  /**
   With distinct checkIds the order of arrival changes nothing but the order of the problem list: reason codes,
   consumed, advisory and evidence-only entries all follow the plan.
   */
  lemma ReductionIgnoresOrder(plan: Plan, planDigest: Digest, results: seq<RawResult>, shuffled: seq<RawResult>)
    requires multiset(results) == multiset(shuffled) && DistinctIds(results)
    ensures Reduce(plan, planDigest, results).(problems := []) == Reduce(plan, planDigest, shuffled).(problems := [])
  {
    DistinctReceiveIgnoresOrder(plan, planDigest, results, shuffled);
    var s, t := ReceiveAll(results, plan, planDigest), ReceiveAll(shuffled, plan, planDigest);
    ConsumeIgnoresProblems(s, t, plan.checks);
  }

  /** No outcome of an advisory or evidence-only check can change the disposition. */
  lemma NonDecidingResultsNeverBlock(
      plan: Plan, planDigest: Digest, results: seq<RawResult>, i: nat, other: CheckResult)
    requires i < |results| && results[i].Shaped? && Binds(results[i].result, plan, planDigest)
    requires other.checkId == results[i].result.checkId && Binds(other, plan, planDigest)
    requires forall k :: 0 <= k < |plan.checks| && plan.checks[k].checkId == other.checkId ==> !Decides(plan.checks[k])
    ensures Reduce(plan, planDigest, results).disposition
            == Reduce(plan, planDigest, results[i := Shaped(other)]).disposition
  {
    var changed := results[i := Shaped(other)];
    PromotableExactly(plan, planDigest, results);
    PromotableExactly(plan, planDigest, changed);
    assert changed[i := results[i]] == results;
    if EveryDecidingCheckPassed(plan, planDigest, results) {
      SwapKeepsVerdict(plan, planDigest, results, i, Shaped(other));
    }
    if EveryDecidingCheckPassed(plan, planDigest, changed) {
      SwapKeepsVerdict(plan, planDigest, changed, i, results[i]);
    }
  }

  lemma SwapKeepsVerdict(plan: Plan, planDigest: Digest, results: seq<RawResult>, i: nat, raw: RawResult)
    requires i < |results| && SameCheck(results[i], raw) && Binds(raw.result, plan, planDigest)
    requires forall k :: 0 <= k < |plan.checks| && plan.checks[k].checkId == raw.result.checkId ==> !Decides(plan.checks[k])
    requires EveryDecidingCheckPassed(plan, planDigest, results)
    ensures EveryDecidingCheckPassed(plan, planDigest, results[i := raw])
  {
    hide Binds;
    var changed := results[i := raw];
    forall p, q | 0 <= p < q < |changed| ensures !SameCheck(changed[p], changed[q]) {
      assert !SameCheck(results[p], results[q]);
    }
    forall k | 0 <= k < |changed| ensures BoundResult(changed[k], plan, planDigest) {
      assert BoundResult(results[k], plan, planDigest);
    }
    forall k | 0 <= k < |plan.checks| && Decides(plan.checks[k]) ensures PassedBy(plan.checks[k], changed) {
      var c := plan.checks[k];
      assert PassedBy(c, results);
      var m :| 0 <= m < |results| && results[m].Shaped?
        && results[m].result.checkId == c.checkId && results[m].result.outcome.Pass?;
      assert changed[m] == results[m];
    }
  }
}
