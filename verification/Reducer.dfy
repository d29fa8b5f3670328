/** The disposition reducer: a pure verdict from a plan and the results it was answered with. */
module Reducer {
  import opened Base
  import opened Ordering
  import opened Plan

  /** A supplied result: a valid check-result@1, or something else that may still carry a checkId. */
  datatype RawResult = Malformed(checkId: Option<JsString>) | Shaped(result: CheckResult)

  datatype Disposition = Promotable | Blocked

  datatype Consumed = Consumed(checkId: JsString, effect: Effect, outcome: Outcome)

  datatype AdvisoryEntry = AdvisoryEntry(checkId: JsString, outcome: Outcome, reasonCodes: seq<JsString>)

  datatype Retained = Retained(checkId: JsString, outcome: Outcome)

  datatype Problem = Problem(reasonCode: JsString, checkId: Option<JsString>)

  datatype Reduction = Reduction(
    disposition: Disposition,
    reasonCodes: seq<JsString>,
    consumed: seq<Consumed>,
    advisory: seq<AdvisoryEntry>,
    evidenceOnly: seq<Retained>,
    problems: seq<Problem>)

  // ---------- what the two loops have gathered ----------

  /** Everything the reducer accumulates. */
  datatype State = State(
    reasons: set<JsString>,
    byCheckId: map<JsString, CheckResult>,
    consumed: seq<Consumed>,
    advisory: seq<AdvisoryEntry>,
    evidenceOnly: seq<Retained>,
    problems: seq<Problem>)

  const START: State := State({}, map[], [], [], [], [])

  function Complain(s: State, code: JsString, checkId: Option<JsString>): State {
    s.(reasons := s.reasons + {code}, problems := s.problems + [Problem(code, checkId)])
  }

  /** One supplied result: refuse it, or file it under its checkId. */
  function Receive(s: State, raw: RawResult, plan: Plan, planDigest: Digest): State {
    match raw
    case Malformed(_) => Complain(s, RESULT_BINDING_MISMATCH, None)
    case Shaped(r) =>
      if r.checkId in s.byCheckId then Complain(s, DUPLICATE_RESULT, Some(r.checkId))
      else if !Binds(r, plan, planDigest) then Complain(s, RESULT_BINDING_MISMATCH, Some(r.checkId))
      else s.(byCheckId := s.byCheckId[r.checkId := r])
  }

  function ReceiveAll(results: seq<RawResult>, plan: Plan, planDigest: Digest): State {
    if results == [] then START
    else
      var last := |results| - 1;
      Receive(ReceiveAll(results[..last], plan, planDigest), results[last], plan, planDigest)
  }

  /** The reasons an outcome other than PASS gives. */
  function OutcomeReasons(r: CheckResult): set<JsString> {
    match r.outcome
    case Pass => {}
    case Fired => {CHECK_FIRED} + Elements(r.reasonCodes)
    case InfraFailure => {INFRASTRUCTURE_FAILURE} + Elements(r.reasonCodes)
    case Skipped => {CHECK_SKIPPED} + Elements(r.reasonCodes)
  }

  /** One plan check: consume its result, if it has one. */
  function Consume(s: State, c: PlanCheck): State {
    var answered := c.checkId in s.byCheckId;
    if c.consumer.EvidenceOnly? then
      if answered then s.(evidenceOnly := s.evidenceOnly + [Retained(c.checkId, s.byCheckId[c.checkId].outcome)]) else s
    else if c.effect.Blocking? then
      if !answered then Complain(s, MISSING_REQUIRED_RESULT, Some(c.checkId))
      else
        var r := s.byCheckId[c.checkId];
        s.(consumed := s.consumed + [Consumed(c.checkId, c.effect, r.outcome)],
           reasons := s.reasons + OutcomeReasons(r))
    else if answered then
      var r := s.byCheckId[c.checkId];
      s.(consumed := s.consumed + [Consumed(c.checkId, c.effect, r.outcome)],
         advisory := s.advisory + [AdvisoryEntry(c.checkId, r.outcome, r.reasonCodes)])
    else s
  }

  function ConsumeAll(s: State, checks: seq<PlanCheck>): State {
    if checks == [] then s
    else
      var last := |checks| - 1;
      Consume(ConsumeAll(s, checks[..last]), checks[last])
  }

  function Conclude(s: State): Reduction {
    Reduction(
      if s.reasons == {} then Promotable else Blocked,
      Sorted(s.reasons), s.consumed, s.advisory, s.evidenceOnly, s.problems)
  }

  /** `reduceDisposition`, as the composition of its steps. */
  function Reduce(plan: Plan, planDigest: Digest, results: seq<RawResult>): Reduction {
    Conclude(ConsumeAll(ReceiveAll(results, plan, planDigest), plan.checks))
  }

  /** The loop over the results. */
  method ReceiveResults(plan: Plan, planDigest: Digest, results: seq<RawResult>)
    returns (blockingReasons: set<JsString>, byCheckId: map<JsString, CheckResult>, problems: seq<Problem>)
    ensures ReceiveAll(results, plan, planDigest) == State(blockingReasons, byCheckId, [], [], [], problems)
  {
    hide Binds;
    blockingReasons, byCheckId, problems := {}, map[], [];
    for i := 0 to |results|
      invariant ReceiveAll(results[..i], plan, planDigest) == State(blockingReasons, byCheckId, [], [], [], problems)
    {
      assert results[..i + 1][..i] == results[..i];
      match results[i] {
        case Malformed(_) =>
          blockingReasons := blockingReasons + {RESULT_BINDING_MISMATCH};
          problems := problems + [Problem(RESULT_BINDING_MISMATCH, None)];
        case Shaped(r) =>
          if r.checkId in byCheckId {
            blockingReasons := blockingReasons + {DUPLICATE_RESULT};
            problems := problems + [Problem(DUPLICATE_RESULT, Some(r.checkId))];
          } else if !Binds(r, plan, planDigest) {
            blockingReasons := blockingReasons + {RESULT_BINDING_MISMATCH};
            problems := problems + [Problem(RESULT_BINDING_MISMATCH, Some(r.checkId))];
          } else {
            byCheckId := byCheckId[r.checkId := r];
          }
      }
    }
    assert results[..|results|] == results;
  }

  /** The loop over the checks of the plan, from what the results gave. */
  method ConsumeChecks(checks: seq<PlanCheck>, reasons: set<JsString>, byCheckId: map<JsString, CheckResult>,
      complaints: seq<Problem>)
    returns (blockingReasons: set<JsString>, problems: seq<Problem>, consumed: seq<Consumed>,
             advisory: seq<AdvisoryEntry>, evidenceOnly: seq<Retained>)
    ensures ConsumeAll(State(reasons, byCheckId, [], [], [], complaints), checks)
            == State(blockingReasons, byCheckId, consumed, advisory, evidenceOnly, problems)
  {
    hide Elements;
    blockingReasons, problems, consumed, advisory, evidenceOnly := reasons, complaints, [], [], [];
    ghost var received := State(reasons, byCheckId, [], [], [], complaints);
    for i := 0 to |checks|
      invariant ConsumeAll(received, checks[..i])
                == State(blockingReasons, byCheckId, consumed, advisory, evidenceOnly, problems)
    {
      assert checks[..i + 1][..i] == checks[..i];
      var c := checks[i];
      var answered := c.checkId in byCheckId;
      if c.consumer.EvidenceOnly? {
        if answered { evidenceOnly := evidenceOnly + [Retained(c.checkId, byCheckId[c.checkId].outcome)]; }
      } else if c.effect.Blocking? {
        if !answered {
          blockingReasons := blockingReasons + {MISSING_REQUIRED_RESULT};
          problems := problems + [Problem(MISSING_REQUIRED_RESULT, Some(c.checkId))];
        } else {
          var r := byCheckId[c.checkId];
          consumed := consumed + [Consumed(c.checkId, c.effect, r.outcome)];
          if r.outcome.Fired? {
            blockingReasons := blockingReasons + {CHECK_FIRED} + Elements(r.reasonCodes);
          } else if r.outcome.InfraFailure? {
            blockingReasons := blockingReasons + {INFRASTRUCTURE_FAILURE} + Elements(r.reasonCodes);
          } else if r.outcome.Skipped? {
            blockingReasons := blockingReasons + {CHECK_SKIPPED} + Elements(r.reasonCodes);
          }
        }
      } else if answered {
        var r := byCheckId[c.checkId];
        consumed := consumed + [Consumed(c.checkId, c.effect, r.outcome)];
        advisory := advisory + [AdvisoryEntry(c.checkId, r.outcome, r.reasonCodes)];
      }
    }
    assert checks[..|checks|] == checks;
  }

  /** `reduceDisposition`. */
  method ReduceDisposition(plan: Plan, planDigest: Digest, results: seq<RawResult>) returns (reduction: Reduction)
    ensures reduction == Reduce(plan, planDigest, results)
  {
    hide ConsumeAll, ReceiveAll, Sorted;
    var reasons, byCheckId, complaints := ReceiveResults(plan, planDigest, results);
    var blockingReasons, problems, consumed, advisory, evidenceOnly :=
      ConsumeChecks(plan.checks, reasons, byCheckId, complaints);
    reduction := Reduction(
      if blockingReasons == {} then Promotable else Blocked,
      Sorted(blockingReasons), consumed, advisory, evidenceOnly, problems);
  }
}
