/** A census over a plan and its results says what the reducer says. */
module CensusTheorems {
  import opened Base
  import opened Patterns
  import opened Text
  import opened Json
  import opened CanonicalJson
  import opened MemberNames
  import opened Records
  import opened ShortRecords
  import opened Plan
  import opened Reducer
  import opened ReducerTheorems
  import opened Documents
  import opened Census

  // ---------- a plan's entries, and those of its results ----------

  /** A check as the plan's schema admits it, with an id for its validator. */
  ghost predicate Nameable(hash: Hash, c: PlanCheck) {
    && IsKebab(c.checkId) && |c.checkId| <= MAX_ID_LENGTH
    && ValidatorId(hash, c.validator).Some?
    && IsValidatorId(ValidatorId(hash, c.validator).value)
    && ValidatorId(hash, c.validator).value != UNRESOLVED_VALIDATOR
    && |ValidatorId(hash, c.validator).value| <= MAX_VALIDATOR_ID_LENGTH
  }

  /** `planEntry`; None where naming the validator throws. */
  function PlanEntry(hash: Hash, c: PlanCheck): Option<Entry> {
    match ValidatorId(hash, c.validator)
    case None => None
    case Some(v) => Some(Entry(c.checkId, v, PhaseName(c.phase), EffectName(c.effect), ConsumerName(c.consumer)))
  }

  /** `dispatchedFromPlan`, for one effect or, with None, for all checks; None where it throws. */
  function DispatchedFromPlan(hash: Hash, checks: seq<PlanCheck>, effect: Option<Effect>): Option<seq<Entry>> {
    if checks == [] then Some([])
    else
      var last := checks[|checks| - 1];
      match DispatchedFromPlan(hash, checks[..|checks| - 1], effect)
      case None => None
      case Some(front) =>
        if effect.Some? && last.effect != effect.value then Some(front)
        else
          match PlanEntry(hash, last)
          case None => None
          case Some(e) => Some(front + [e])
  }

  const UNBOUND_ID: JsString := Ascii("unbound-result")

  function ClaimedId(raw: RawResult): Option<JsString> {
    match raw
    case Malformed(id) => id
    case Shaped(r) => Some(r.checkId)
  }

  /** The tuple of a result that could not be bound to the plan. */
  function UnresolvedEntry(raw: RawResult): Entry {
    var id := ClaimedId(raw);
    Entry(if id.Some? && IsKebab(id.value) && |id.value| <= MAX_ID_LENGTH then id.value else UNBOUND_ID,
          UNRESOLVED_VALIDATOR, UNRESOLVED, UNRESOLVED, UNRESOLVED)
  }

  function EmittedEntry(hash: Hash, raw: RawResult, plan: Plan, planDigest: Digest): Option<Entry> {
    if raw.Shaped? && Binds(raw.result, plan, planDigest) then
      PlanEntry(hash, CheckNamed(plan.checks, raw.result.checkId).value)
    else Some(UnresolvedEntry(raw))
  }

  function EmittedEntries(hash: Hash, results: seq<RawResult>, plan: Plan, planDigest: Digest): Option<seq<Entry>> {
    if results == [] then Some([])
    else
      var last := results[|results| - 1];
      match (EmittedEntries(hash, results[..|results| - 1], plan, planDigest), EmittedEntry(hash, last, plan, planDigest))
      case (Some(front), Some(e)) => Some(front + [e])
      case _ => None
  }

  /** `emittedFromResults`; None where it throws, as it does for a digest that is not the plan's. */
  function EmittedFromResults(hash: Hash, results: seq<RawResult>, plan: Plan, planDigest: Digest): Option<seq<Entry>> {
    if Some(planDigest) != CanonicalDigest(hash, PlanJson(plan)) then None
    else EmittedEntries(hash, results, plan, planDigest)
  }

  // ---------- all these entries are readable ----------

  lemma KebabIsAscii(s: JsString)
    requires IsKebab(s)
    ensures IsAscii(s)
  {
  }

  lemma ValidatorIdIsAscii(s: JsString)
    requires IsValidatorId(s)
    ensures IsAscii(s)
  {
    if IsVersioned(s) {
      var k :| 0 <= k < |s| && s[k] == 0x40 && IsKebab(s[..k]) && IsVersionNumber(s[k + 1..]);
      forall j | 0 <= j < |s| ensures s[j] < 0x80 {
        if j < k { assert s[j] == s[..k][j]; }
        if j > k { assert s[j] == s[k + 1..][j - k - 1]; }
      }
    } else if s != UNRESOLVED_VALIDATOR {
      forall j | 0 <= j < |s| ensures s[j] < 0x80 {
        if j < |TARGET_DIGEST_PREFIX| { assert s[j] == s[..|TARGET_DIGEST_PREFIX|][j] == TARGET_DIGEST_PREFIX[j]; }
      }
    }
  }

  ghost predicate ShortAscii(s: JsString) {
    IsAscii(s) && |s| <= MAX_ID_LENGTH
  }

  lemma PhaseIsShort(p: Phase)
    ensures ShortAscii(PhaseName(p)) && PhaseName(p) in PHASE_VALUES && PhaseName(p) != UNRESOLVED
  {
    assert |UNRESOLVED| == 10 && |PhaseName(p)| > 10;
  }

  lemma EffectIsShort(e: Effect)
    ensures ShortAscii(EffectName(e)) && EffectName(e) in EFFECT_VALUES && EffectName(e) != UNRESOLVED
  {
    assert |UNRESOLVED| == 10 && |EffectName(e)| == 8;
  }

  lemma ConsumerIsShort(c: Consumer)
    ensures ShortAscii(ConsumerName(c)) && ConsumerName(c) in CONSUMER_VALUES && ConsumerName(c) != UNRESOLVED
  {
    assert |UNRESOLVED| == 10 && |ConsumerName(c)| > 10;
  }

  lemma SentinelIsShort()
    ensures ShortAscii(UNRESOLVED) && ShortAscii(UNRESOLVED_VALIDATOR)
    ensures UNRESOLVED in PHASE_VALUES && UNRESOLVED in EFFECT_VALUES && UNRESOLVED in CONSUMER_VALUES
  {
  }

  lemma ShortMember(name: JsString, s: JsString)
    requires IsAscii(name) && |name| <= 16 && ShortAscii(s)
    ensures ScalarField(Field(name, Str(s)))
    ensures 6 * |name| + 4 + ScalarBound(Str(s)) <= 1_024
  {
    AsciiText(name);
    AsciiText(s);
  }

  lemma EntryNamesAreShort()
    ensures IsAscii(K_ID) && |K_ID| <= 16 && IsAscii(K_VALIDATOR_ID) && |K_VALIDATOR_ID| <= 16
    ensures IsAscii(K_PHASE) && |K_PHASE| <= 16 && IsAscii(K_EFFECT) && |K_EFFECT| <= 16
    ensures IsAscii(K_RESULT_CONSUMER) && |K_RESULT_CONSUMER| <= 16
  {
  }

  ghost predicate ShortEntry(e: Entry) {
    ShortAscii(e.id) && ShortAscii(e.validatorId) && ShortAscii(e.phase) && ShortAscii(e.effect) && ShortAscii(e.consumer)
  }

  lemma {:induction false} BoundFields(fields: seq<Field>)
    requires forall k :: 0 <= k < |fields| ==> 6 * |fields[k].name| + 4 + ScalarBound(fields[k].value) <= 1_024
    ensures FieldsBound(fields) <= 1_024 * |fields|
  {
    if fields != [] { BoundFields(fields[1..]); }
  }

  lemma EntryFieldsShort(e: Entry)
    requires ShortEntry(e)
    ensures ScalarFields(EntryFields(e)) && FieldsBound(EntryFields(e)) <= 8_192
  {
    EntryNamesAreShort();
    hide ShortAscii, ScalarField, IsAscii;
    ShortMember(K_ID, e.id);
    ShortMember(K_VALIDATOR_ID, e.validatorId);
    ShortMember(K_PHASE, e.phase);
    ShortMember(K_EFFECT, e.effect);
    ShortMember(K_RESULT_CONSUMER, e.consumer);
    BoundFields(EntryFields(e));
  }

  /** An entry of short members has a key. */
  lemma ShortEntryHasKey(e: Entry)
    requires ShortEntry(e)
    ensures KeyOf(e).Some?
  {
    EntryFieldsShort(e);
    EntryNamesDistinct(e);
    hide ScalarFields, Canonicalize, DistinctNames;
    assert EntryFields(e) != [] && |EntryFields(e)| == 5;
    ShortRecordPrints(EntryFields(e));
  }

  lemma EntryNamesDistinct(e: Entry)
    ensures DistinctNames(EntryFields(e))
  {
    hide DistinctNames, Tag;
    NameTags();
    RisingNamesAreDistinct(EntryFields(e));
  }

  /** Plan entries can be read at every stage, and never look unresolved. */
  lemma PlanEntryReads(hash: Hash, c: PlanCheck, stage: Stage)
    requires Nameable(hash, c)
    ensures PlanEntry(hash, c).Some?
    ensures var e := PlanEntry(hash, c).value;
            Normalize(RawOf(e), stage) == Some(e) && KeyOf(e).Some? && e.validatorId != UNRESOLVED_VALIDATOR
  {
    PhaseIsShort(c.phase);
    EffectIsShort(c.effect);
    ConsumerIsShort(c.consumer);
    KebabIsAscii(c.checkId);
    ValidatorIdIsAscii(ValidatorId(hash, c.validator).value);
    hide ValidatorId, PhaseName, EffectName, ConsumerName, IsKebab, KeyOf, PHASE_VALUES, EFFECT_VALUES, CONSUMER_VALUES;
    var e := PlanEntry(hash, c).value;
    ShortEntryHasKey(e);
    NonEmptyMembers(e);
    assert SentinelCount(e) == 0;
  }

  lemma NonEmptyMembers(e: Entry)
    requires IsKebab(e.id) && IsValidatorId(e.validatorId)
    requires e.phase in PHASE_VALUES && e.effect in EFFECT_VALUES && e.consumer in CONSUMER_VALUES
    ensures e.id != [] && e.validatorId != [] && e.phase != [] && e.effect != [] && e.consumer != []
  {
    assert |UNRESOLVED| == 10 && |UNRESOLVED_VALIDATOR| == 10;
    assert |PhaseName(ContractAdmission)| == 18 && |PhaseName(CandidateValidation)| == 20;
    assert |PhaseName(PromotionFinalization)| == 22 && |EffectName(Blocking)| == 8 && |EffectName(Advisory)| == 8;
    assert |ConsumerName(DispositionReducer)| == 19 && |ConsumerName(EvidenceOnly)| == 13;
  }

  lemma UnboundIdIsKebab()
    ensures IsKebab(UNBOUND_ID) && |UNBOUND_ID| <= MAX_ID_LENGTH
  {
    assert |UNBOUND_ID| == 14 && UNBOUND_ID[0] == 0x75 && UNBOUND_ID[13] == 0x74 && UNBOUND_ID[7] == 0x2D;
    assert UNBOUND_ID[6] == 0x64 && UNBOUND_ID[8] == 0x72;
  }

  /** The entry of an unbound result can be read where results are. */
  lemma UnresolvedEntryReads(raw: RawResult, stage: Stage)
    requires stage.Emitted? || stage.Consumed?
    ensures var e := UnresolvedEntry(raw); Normalize(RawOf(e), stage) == Some(e) && KeyOf(e).Some?
  {
    SentinelIsShort();
    UnboundIdIsKebab();
    var e := UnresolvedEntry(raw);
    KebabIsAscii(e.id);
    hide IsKebab, KeyOf, PHASE_VALUES, EFFECT_VALUES, CONSUMER_VALUES, UNRESOLVED, UNRESOLVED_VALIDATOR;
    ShortEntryHasKey(e);
    NonEmptyMembers(e);
    assert SentinelCount(e) == 4;
  }

  function RawsFor(entries: seq<Entry>): seq<RawEntry> {
    seq(|entries|, k requires 0 <= k < |entries| => RawOf(entries[k]))
  }

  lemma RawsRead(entries: seq<Entry>, stage: Stage)
    requires forall e :: e in entries ==> Normalize(RawOf(e), stage) == Some(e) && KeyOf(e).Some?
    ensures Readable(RawsFor(entries), stage) && Entries(RawsFor(entries), stage) == entries
  {
    hide KeyOf, Normalize, RawOf;
    forall k | 0 <= k < |entries| ensures Normalize(RawsFor(entries)[k], stage) == Some(entries[k]) {
      assert entries[k] in entries;
    }
  }

  // ---------- the lists ----------

  lemma {:induction false} DispatchedAll(hash: Hash, checks: seq<PlanCheck>)
    requires forall c :: c in checks ==> Nameable(hash, c)
    ensures DispatchedFromPlan(hash, checks, None).Some?
    ensures var entries := DispatchedFromPlan(hash, checks, None).value;
            |entries| == |checks| && forall k :: 0 <= k < |checks| ==> PlanEntry(hash, checks[k]) == Some(entries[k])
  {

    if checks != [] {
      var front, last := checks[..|checks| - 1], checks[|checks| - 1];
      assert checks == front + [last];
      DispatchedAll(hash, front);
      assert last in checks;
      assert PlanEntry(hash, last).Some?;
    }
  }

  lemma {:induction false} EmittedAll(hash: Hash, results: seq<RawResult>, plan: Plan, planDigest: Digest)
    requires forall c :: c in plan.checks ==> Nameable(hash, c)
    ensures EmittedEntries(hash, results, plan, planDigest).Some?
    ensures var entries := EmittedEntries(hash, results, plan, planDigest).value;
            && |entries| == |results|
            && forall k :: 0 <= k < |results| ==> EmittedEntry(hash, results[k], plan, planDigest) == Some(entries[k])
  {
    hide Nameable, EmittedEntry;
    if results != [] {
      var front, last := results[..|results| - 1], results[|results| - 1];
      assert results == front + [last];
      EmittedAll(hash, front, plan, planDigest);
      EmittedOne(hash, last, plan, planDigest);
    }
  }

  lemma EmittedOne(hash: Hash, raw: RawResult, plan: Plan, planDigest: Digest)
    requires forall c :: c in plan.checks ==> Nameable(hash, c)
    ensures EmittedEntry(hash, raw, plan, planDigest).Some?
  {
    hide ValidatorId;
    if raw.Shaped? { CheckNamedIsMember(plan.checks, raw.result.checkId); }
  }

  // ---------- agreement ----------

  /** The reducer reports a problem for each unbound or repeated result and each unanswered deciding check, only. */
  lemma {:induction false} ReceiveProblems(results: seq<RawResult>, plan: Plan, planDigest: Digest)
    ensures ReceiveAll(results, plan, planDigest).problems == [] <==> ReceiveAll(results, plan, planDigest).reasons == {}
  {
    hide Binds;
    if results != [] { ReceiveProblems(results[..|results| - 1], plan, planDigest); }
  }

  lemma {:induction false} ConsumeProblems(s: State, checks: seq<PlanCheck>)
    ensures ConsumeAll(s, checks).byCheckId == s.byCheckId
    ensures ConsumeAll(s, checks).problems == [] <==>
      s.problems == [] && forall k :: 0 <= k < |checks| && Decides(checks[k]) ==> checks[k].checkId in s.byCheckId
  {
    if checks != [] {
      var last := |checks| - 1;
      ConsumeProblems(s, checks[..last]);
      assert forall k :: 0 <= k < last ==> checks[k] == checks[..last][k];
    }
  }

  lemma FiledIsAnswered(plan: Plan, planDigest: Digest, results: seq<RawResult>, c: PlanCheck)
    requires AllBound(results, plan, planDigest)
    ensures c.checkId in ReceiveAll(results, plan, planDigest).byCheckId <==> AnsweredBy(c, results)
  {
    ReceiveFiles(results, plan, planDigest);
    hide Binds, ReceiveAll;
    var s := ReceiveAll(results, plan, planDigest);
    if c.checkId in s.byCheckId {
      var m :| 0 <= m < |results| && results[m] == Shaped(s.byCheckId[c.checkId]);
    }
    if AnsweredBy(c, results) {
      var m :| 0 <= m < |results| && results[m].Shaped? && results[m].result.checkId == c.checkId;
      assert BoundResult(results[m], plan, planDigest);
    }
  }

  lemma ProblemsExactly(plan: Plan, planDigest: Digest, results: seq<RawResult>)
    ensures Reduce(plan, planDigest, results).problems == [] <==>
      && AllBound(results, plan, planDigest) && DistinctIds(results)
      && forall k :: 0 <= k < |plan.checks| && Decides(plan.checks[k]) ==> AnsweredBy(plan.checks[k], results)
  {
    var s := ReceiveAll(results, plan, planDigest);
    ReceiveProblems(results, plan, planDigest);
    ReceiveCleanly(results, plan, planDigest);
    ConsumeProblems(s, plan.checks);
    hide ReceiveAll, ConsumeAll;
    if AllBound(results, plan, planDigest) {
      forall k | 0 <= k < |plan.checks|
        ensures plan.checks[k].checkId in s.byCheckId <==> AnsweredBy(plan.checks[k], results)
      {
        FiledIsAnswered(plan, planDigest, results, plan.checks[k]);
      }
    }
  }

  /** The input of a census over a plan: its checks in the first three stages, its results in the last two. */
  function PlanCensus(dispatched: seq<Entry>, emitted: seq<Entry>): Input {
    Input(RawsFor(dispatched), RawsFor(dispatched), RawsFor(dispatched), RawsFor(emitted), RawsFor(emitted), [])
  }

  lemma PlanCensusReads(hash: Hash, results: seq<RawResult>, plan: Plan, planDigest: Digest,
      dispatched: seq<Entry>, emitted: seq<Entry>)
    requires forall c :: c in plan.checks ==> Nameable(hash, c)
    requires |dispatched| == |plan.checks|
    requires forall k :: 0 <= k < |plan.checks| ==> PlanEntry(hash, plan.checks[k]) == Some(dispatched[k])
    requires |emitted| == |results|
    requires forall k :: 0 <= k < |results| ==> EmittedEntry(hash, results[k], plan, planDigest) == Some(emitted[k])
    ensures AllReadable(PlanCensus(dispatched, emitted))
    ensures forall stage :: StageEntries(PlanCensus(dispatched, emitted), stage)
                            == if stage.Emitted? || stage.Consumed? then emitted else dispatched
  {
    hide KeyOf, Normalize, RawOf, Nameable, PlanEntry, Readable, RawsFor;
    var i := PlanCensus(dispatched, emitted);
    forall stage: Stage, e | e in dispatched ensures Normalize(RawOf(e), stage) == Some(e) && KeyOf(e).Some? {
      var k :| 0 <= k < |dispatched| && dispatched[k] == e;
      PlanEntryReads(hash, plan.checks[k], stage);
    }
    forall stage: Stage, e | (stage.Emitted? || stage.Consumed?) && e in emitted
      ensures Normalize(RawOf(e), stage) == Some(e) && KeyOf(e).Some?
    {
      var k :| 0 <= k < |emitted| && emitted[k] == e;
      EmittedReads(hash, results[k], plan, planDigest, stage);
    }
    forall stage ensures Readable(RawsOf(i, stage), stage)
      && Entries(RawsOf(i, stage), stage) == if stage.Emitted? || stage.Consumed? then emitted else dispatched
    {
      if stage.Emitted? || stage.Consumed? { RawsRead(emitted, stage); } else { RawsRead(dispatched, stage); }
    }
  }

  lemma EmittedReads(hash: Hash, raw: RawResult, plan: Plan, planDigest: Digest, stage: Stage)
    requires forall c :: c in plan.checks ==> Nameable(hash, c)
    requires stage.Emitted? || stage.Consumed?
    requires EmittedEntry(hash, raw, plan, planDigest).Some?
    ensures var e := EmittedEntry(hash, raw, plan, planDigest).value;
            Normalize(RawOf(e), stage) == Some(e) && KeyOf(e).Some?
  {
    hide KeyOf, Normalize, RawOf, Nameable, PlanEntry, UnresolvedEntry;
    if raw.Shaped? && Binds(raw.result, plan, planDigest) {
      CheckNamedIsMember(plan.checks, raw.result.checkId);
      PlanEntryReads(hash, CheckNamed(plan.checks, raw.result.checkId).value, stage);
    } else {
      UnresolvedEntryReads(raw, stage);
    }
  }

  /** An emitted entry is a plan entry exactly when its result is bound. */
  lemma EmittedIsPlanned(hash: Hash, raw: RawResult, plan: Plan, planDigest: Digest, dispatched: seq<Entry>)
    requires forall c :: c in plan.checks ==> Nameable(hash, c)
    requires |dispatched| == |plan.checks|
    requires forall k :: 0 <= k < |plan.checks| ==> PlanEntry(hash, plan.checks[k]) == Some(dispatched[k])
    requires EmittedEntry(hash, raw, plan, planDigest).Some?
    ensures var e := EmittedEntry(hash, raw, plan, planDigest).value;
            && (e in dispatched <==> BoundResult(raw, plan, planDigest))
            && (BoundResult(raw, plan, planDigest) ==> e.id == raw.result.checkId)
  {
    hide KeyOf, Normalize, RawOf, Nameable;
    var e := EmittedEntry(hash, raw, plan, planDigest).value;
    if BoundResult(raw, plan, planDigest) {
      CheckNamedIsMember(plan.checks, raw.result.checkId);
      var c := CheckNamed(plan.checks, raw.result.checkId).value;
      var k :| 0 <= k < |plan.checks| && plan.checks[k] == c;
      assert dispatched[k] == e;
    } else {
      forall k | 0 <= k < |dispatched| ensures dispatched[k] != e {
        PlanEntryReads(hash, plan.checks[k], Registered);
      }
    }
  }

  /** Every plan check is answered by some result. */
  ghost predicate EveryCheckAnswered(plan: Plan, results: seq<RawResult>) {
    forall k :: 0 <= k < |plan.checks| ==> AnsweredBy(plan.checks[k], results)
  }

  /**
   A census fed a plan's full dispatch set and its results is complete exactly when the reducer reports no problem and
   every check of the plan, deciding or not, has a result.
   */
  lemma CensusAgreesWithReducer(hash: Hash, plan: Plan, planDigest: Digest, results: seq<RawResult>)
    requires DistinctCheckIds(plan.checks) && forall c :: c in plan.checks ==> Nameable(hash, c)
    requires Some(planDigest) == CanonicalDigest(hash, PlanJson(plan))
    ensures DispatchedFromPlan(hash, plan.checks, None).Some?
    ensures EmittedFromResults(hash, results, plan, planDigest).Some?
    ensures var i := PlanCensus(DispatchedFromPlan(hash, plan.checks, None).value,
                                EmittedFromResults(hash, results, plan, planDigest).value);
            && AllReadable(i)
            && (IsComplete(i) <==>
                  Reduce(plan, planDigest, results).problems == [] && EveryCheckAnswered(plan, results))
  {
    hide CanonicalDigest, PlanJson, Nameable, DispatchedFromPlan, EmittedEntries, Reduce;
    DispatchedAll(hash, plan.checks);
    EmittedAll(hash, results, plan, planDigest);
    var dispatched := DispatchedFromPlan(hash, plan.checks, None).value;
    var emitted := EmittedFromResults(hash, results, plan, planDigest).value;
    var i := PlanCensus(dispatched, emitted);
    PlanCensusReads(hash, results, plan, planDigest, dispatched, emitted);
    CompleteMeansEqualStages(i);
    ProblemsExactly(plan, planDigest, results);
    hide AllBound, AllReadable, AnsweredBy, CanonicalDigest, DispatchedFromPlan, DistinctCheckIds, DistinctIds,
      Elements, EmittedEntries, EmittedFromResults, IsComplete, Nameable, NoDuplicates, PlanCensus, PlanJson, Reduce;
    StagesAgree(i, dispatched, emitted);
    DispatchedDistinct(hash, plan.checks, dispatched);
    if Elements(dispatched) == Elements(emitted) && NoDuplicates(emitted) {
      EqualStagesMeanNoProblem(hash, plan, planDigest, results, dispatched, emitted);
    }
    if AllBound(results, plan, planDigest) && DistinctIds(results) && EveryCheckAnswered(plan, results) {
      NoProblemMeansEqualStages(hash, plan, planDigest, results, dispatched, emitted);
    }
  }

  lemma StagesAgree(i: Input, dispatched: seq<Entry>, emitted: seq<Entry>)
    requires AllReadable(i)
    requires forall stage :: StageEntries(i, stage) == if stage.Emitted? || stage.Consumed? then emitted else dispatched
    ensures (forall stage :: NoDuplicates(StageEntries(i, stage))) <==> NoDuplicates(dispatched) && NoDuplicates(emitted)
    ensures (forall a, b :: Elements(StageEntries(i, a)) == Elements(StageEntries(i, b)))
            <==> Elements(dispatched) == Elements(emitted)
  {
    hide AllReadable, NoDuplicates, Elements;
    assert StageEntries(i, Registered) == dispatched && StageEntries(i, Emitted) == emitted;
    hide StageEntries;
  }

  lemma DispatchedDistinct(hash: Hash, checks: seq<PlanCheck>, dispatched: seq<Entry>)
    requires DistinctCheckIds(checks) && |dispatched| == |checks|
    requires forall k :: 0 <= k < |checks| ==> PlanEntry(hash, checks[k]) == Some(dispatched[k])
    ensures NoDuplicates(dispatched)
  {
    hide ValidatorId;
    forall j, k | 0 <= j < k < |dispatched| ensures dispatched[j] != dispatched[k] {
      assert dispatched[j].id == checks[j].checkId && dispatched[k].id == checks[k].checkId;
    }
  }

  lemma EqualStagesMeanNoProblem(hash: Hash, plan: Plan, planDigest: Digest, results: seq<RawResult>,
      dispatched: seq<Entry>, emitted: seq<Entry>)
    requires DistinctCheckIds(plan.checks) && forall c :: c in plan.checks ==> Nameable(hash, c)
    requires |dispatched| == |plan.checks| && |emitted| == |results|
    requires forall k :: 0 <= k < |plan.checks| ==> PlanEntry(hash, plan.checks[k]) == Some(dispatched[k])
    requires forall k :: 0 <= k < |results| ==> EmittedEntry(hash, results[k], plan, planDigest) == Some(emitted[k])
    requires Elements(dispatched) == Elements(emitted) && NoDuplicates(emitted)
    ensures AllBound(results, plan, planDigest) && DistinctIds(results) && EveryCheckAnswered(plan, results)
  {
    hide Nameable, Binds;
    forall k | 0 <= k < |results| ensures BoundResult(results[k], plan, planDigest) {
      assert emitted[k] in Elements(emitted);
      EmittedIsPlanned(hash, results[k], plan, planDigest, dispatched);
    }
    forall j, k | 0 <= j < k < |results| ensures !SameCheck(results[j], results[k]) {
      assert emitted[j] != emitted[k];
      assert BoundResult(results[j], plan, planDigest) && BoundResult(results[k], plan, planDigest);
    }
    forall k | 0 <= k < |plan.checks| ensures AnsweredBy(plan.checks[k], results) {
      assert dispatched[k] in Elements(emitted);
      var m :| 0 <= m < |emitted| && emitted[m] == dispatched[k];
      EmittedIsPlanned(hash, results[m], plan, planDigest, dispatched);
      assert results[m].Shaped? && results[m].result.checkId == plan.checks[k].checkId;
    }
  }

  lemma NoProblemMeansEqualStages(hash: Hash, plan: Plan, planDigest: Digest, results: seq<RawResult>,
      dispatched: seq<Entry>, emitted: seq<Entry>)
    requires DistinctCheckIds(plan.checks) && forall c :: c in plan.checks ==> Nameable(hash, c)
    requires |dispatched| == |plan.checks| && |emitted| == |results|
    requires forall k :: 0 <= k < |plan.checks| ==> PlanEntry(hash, plan.checks[k]) == Some(dispatched[k])
    requires forall k :: 0 <= k < |results| ==> EmittedEntry(hash, results[k], plan, planDigest) == Some(emitted[k])
    requires AllBound(results, plan, planDigest) && DistinctIds(results) && EveryCheckAnswered(plan, results)
    ensures Elements(dispatched) == Elements(emitted) && NoDuplicates(emitted)
  {
    hide Nameable, Binds;
    forall k | 0 <= k < |results|
      ensures emitted[k] in dispatched && results[k].Shaped? && emitted[k].id == results[k].result.checkId
    {
      assert BoundResult(results[k], plan, planDigest);
      EmittedIsPlanned(hash, results[k], plan, planDigest, dispatched);
    }
    forall j, k | 0 <= j < k < |emitted| ensures emitted[j] != emitted[k] {
      assert !SameCheck(results[j], results[k]);
    }
    forall e | e in dispatched ensures e in emitted {
      var k :| 0 <= k < |dispatched| && dispatched[k] == e;
      assert AnsweredBy(plan.checks[k], results);
      var m :| 0 <= m < |results| && results[m].Shaped? && results[m].result.checkId == plan.checks[k].checkId;
      CheckNamedFinds(plan.checks, k);
      assert BoundResult(results[m], plan, planDigest);
      assert emitted[m] == e;
    }
  }
}
