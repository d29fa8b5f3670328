/** What a census reads, compares and lists: entries, gaps, exclusions and their order, spelled out. */
module CensusText {
  import opened Base
  import opened Ordering
  import opened Sorting
  import opened Text
  import opened Patterns
  import opened PatternText
  import opened Json
  import opened CanonicalJson
  import opened Plan
  import opened Reducer
  import opened Documents
  import opened DocumentText
  import opened ReductionContents
  import opened Census
  import opened CensusTheorems

  // ---------- entries ----------

  ghost predicate ValidatorFits(s: JsString) {
    || s == Ascii("unresolved")
    || (exists name, number :: VersionedAs(s, name, number))
    || (exists hex :: HexOfLength(hex, 64) && s == Ascii("target:sha256:") + hex)
  }

  ghost predicate VocabularyFits(e: Entry) {
    && (|| e.phase == Ascii("CONTRACT_ADMISSION") || e.phase == Ascii("CANDIDATE_VALIDATION")
        || e.phase == Ascii("PROMOTION_FINALIZATION") || e.phase == Ascii("UNRESOLVED"))
    && (e.effect == Ascii("BLOCKING") || e.effect == Ascii("ADVISORY") || e.effect == Ascii("UNRESOLVED"))
    && (|| e.consumer == Ascii("DISPOSITION_REDUCER") || e.consumer == Ascii("EVIDENCE_ONLY")
        || e.consumer == Ascii("UNRESOLVED"))
  }

  /** All of an entry says unresolved, but its id. */
  ghost predicate AllUnresolved(e: Entry) {
    && e.validatorId == Ascii("unresolved") && e.phase == Ascii("UNRESOLVED") && e.effect == Ascii("UNRESOLVED")
    && e.consumer == Ascii("UNRESOLVED")
  }

  ghost predicate NoneUnresolved(e: Entry) {
    && e.validatorId != Ascii("unresolved") && e.phase != Ascii("UNRESOLVED") && e.effect != Ascii("UNRESOLVED")
    && e.consumer != Ascii("UNRESOLVED")
  }

  /** An entry that a stage may hold: of the vocabulary, and unresolved as a whole, where results are, or not at all. */
  ghost predicate EntryFits(e: Entry, stage: Stage) {
    && Words(e.id, {0x2D}) && |e.id| <= 128
    && ValidatorFits(e.validatorId) && VocabularyFits(e)
    && (NoneUnresolved(e) || (AllUnresolved(e) && (stage.Emitted? || stage.Consumed?)))
  }

  lemma ValidatorFitsExactly(s: JsString)
    ensures IsValidatorId(s) <==> ValidatorFits(s)
  {
    hide IsTargetId, IsVersioned, VersionedAs, HexOfLength;
    VersionedExactly(s);
    TargetExactly(s);
  }

  lemma AdmissibleExactly(e: Entry, stage: Stage)
    ensures Admissible(e, stage) <==> EntryFits(e, stage)
  {
    hide IsKebab, IsValidatorId, ValidatorFits, Words;
    KebabExactly(e.id);
    ValidatorFitsExactly(e.validatorId);
  }

  lemma FittingIsNotEmpty(e: Entry, stage: Stage)
    requires EntryFits(e, stage)
    ensures e.id != [] && e.validatorId != [] && e.phase != [] && e.effect != [] && e.consumer != []
  {
    hide AllUnresolved, HexOfLength, NoneUnresolved, Positive, VocabularyFits;
    VocabularyIsNotEmpty(e);
    assert |Ascii("unresolved")| == 10;
  }

  lemma VocabularyIsNotEmpty(e: Entry)
    requires VocabularyFits(e)
    ensures e.phase != [] && e.effect != [] && e.consumer != []
  {
    assert |Ascii("UNRESOLVED")| == 10;
    assert |Ascii("CONTRACT_ADMISSION")| == 18 && |Ascii("CANDIDATE_VALIDATION")| == 20;
    assert |Ascii("PROMOTION_FINALIZATION")| == 22 && |Ascii("BLOCKING")| == 8 && |Ascii("ADVISORY")| == 8;
    assert |Ascii("DISPOSITION_REDUCER")| == 19 && |Ascii("EVIDENCE_ONLY")| == 13;
  }

  /** A supplied entry is read as a tuple exactly when it has those members, all strings, and the tuple fits its stage. */
  lemma EntryReadsExactly(raw: RawEntry, stage: Stage, e: Entry)
    ensures Normalize(raw, stage) == Some(e) <==>
      EntryFits(e, stage)
      && raw == Members(Some(e.id), Some(e.validatorId), Some(e.phase), Some(e.effect), Some(e.consumer))
  {
    hide Admissible, EntryFits;
    AdmissibleExactly(e, stage);
    if EntryFits(e, stage) { FittingIsNotEmpty(e, stage); }
  }

  // ---------- gaps and exclusions ----------

  function StageNumber(s: Stage): int {
    match s
    case Registered => 1
    case Implemented => 2
    case Dispatched => 3
    case Emitted => 4
    case Consumed => 5
  }

  /** A gap lies between neighbouring stages: the entry is in the one and not in the other. */
  lemma GapExactly(i: Input, o: Orphan)
    requires AllReadable(i)
    ensures Gap(i, o) <==>
      && (StageNumber(o.present) == StageNumber(o.missing) + 1 || StageNumber(o.missing) == StageNumber(o.present) + 1)
      && o.entry in StageEntries(i, o.present) && o.entry !in StageEntries(i, o.missing)
  {
    hide StageEntries;
  }

  /** The stages are read from the input's members of the same names. */
  lemma StagesAreRead(i: Input)
    ensures RawsOf(i, Registered) == i.registered && RawsOf(i, Implemented) == i.implemented
    ensures RawsOf(i, Dispatched) == i.dispatched && RawsOf(i, Emitted) == i.emitted
    ensures RawsOf(i, Stage.Consumed) == i.consumed
  {
  }

  /** An exclusion with an id, some stages, all of them known, and a reason excuses the gaps of its id in its stages. */
  lemma ExcusesExactly(x: RawExclusion, o: Orphan)
    ensures Excuses(x, o) <==>
      exists id, stages: seq<Option<Stage>>, reason ::
        && x == RawExclusion(Some(id), Some(stages), Some(reason)) && id != [] && reason != [] && stages != []
        && None !in stages && o.entry.id == id && Some(o.missing) in stages
  {
    if Excuses(x, o) {
      assert x == RawExclusion(Some(x.id.value), Some(x.stages.value), Some(x.reason.value));
    }
  }

  // ---------- order ----------

  lemma StagesAreNamed()
    ensures StageName(Registered) == Ascii("REGISTERED") && StageName(Implemented) == Ascii("IMPLEMENTED")
    ensures StageName(Dispatched) == Ascii("DISPATCHED") && StageName(Emitted) == Ascii("EMITTED")
    ensures StageName(Stage.Consumed) == Ascii("CONSUMED")
  {
  }

  /** The name of an orphan's class. */
  function ClassText(o: Orphan): JsString {
    Ascii("ORPHAN_") + StageName(o.present) + Ascii("_NOT_") + StageName(o.missing)
  }

  /** Orphans come by id, then by class name, then by the text of their key. */
  lemma OrphansInOrder(a: Orphan, b: Orphan)
    requires KeyOf(a.entry).Some? && KeyOf(b.entry).Some?
    ensures OrphanBefore(a, b) <==>
      || UnitBefore(a.entry.id, b.entry.id)
      || (a.entry.id == b.entry.id && UnitBefore(ClassText(a), ClassText(b)))
      || (a.entry.id == b.entry.id && ClassText(a) == ClassText(b)
          && UnitBefore(KeyOf(a.entry).value, KeyOf(b.entry).value))
  {
    hide ClassName, ClassText, KeyOf, Less, UnitBefore;
    ClassIsNamed(a);
    ClassIsNamed(b);
    LessIsUnitBefore(a.entry.id, b.entry.id);
    LessIsUnitBefore(ClassName(a), ClassName(b));
    LessIsUnitBefore(KeyOf(a.entry).value, KeyOf(b.entry).value);
  }

  lemma ClassIsNamed(o: Orphan)
    ensures ClassName(o) == ClassText(o)
  {
  }

  /** A kept exclusion repeats id and reason, and its stages in the order of their names. */
  lemma KeptExactly(x: RawExclusion, v: Exclusion)
    requires Kept(x, v)
    ensures x.id == Some(v.id) && x.reason == Some(v.reason) && x.stages.Some? && None !in x.stages.value
    ensures multiset(v.stages) == multiset(StagesOf(x.stages.value))
    ensures forall j, k :: 0 <= j < k < |v.stages| ==>
      !UnitBefore(StageName(v.stages[k]), StageName(v.stages[j]))
  {
    hide StageBefore, StageName, UnitBefore;
    var stages := StagesOf(x.stages.value);
    SortKeeps(StageBefore, stages);
    StagesInOrder(stages);
    forall j, k | 0 <= j < k < |v.stages| ensures !UnitBefore(StageName(v.stages[k]), StageName(v.stages[j])) {
      LessIsUnitBefore(StageName(v.stages[k]), StageName(v.stages[j]));
      NameBefore(v.stages[k], v.stages[j]);
    }
  }

  lemma NameBefore(a: Stage, b: Stage)
    ensures StageBefore(a, b) <==> Less(StageName(a), StageName(b))
  {
  }

  /** No stage comes before one with a smaller name. */
  ghost predicate InNameOrder(stages: seq<Stage>) {
    forall j, k :: 0 <= j < k < |stages| ==> !StageBefore(stages[k], stages[j])
  }

  lemma {:induction false} StagesInOrder(stages: seq<Stage>)
    ensures InNameOrder(Sort(StageBefore, stages))
  {
    hide Less, StageName;
    if stages != [] {
      StagesInOrder(stages[1..]);
      InsertInOrder(stages[0], Sort(StageBefore, stages[1..]));
    }
  }

  lemma BeforeIsStrict(a: Stage, b: Stage, c: Stage)
    ensures StageBefore(a, b) ==> !StageBefore(b, a)
    ensures !StageBefore(b, a) && !StageBefore(c, b) ==> !StageBefore(c, a)
  {
    hide StageName;
    var x, y, z := StageName(a), StageName(b), StageName(c);
    if Less(x, y) { LessAsymmetric(x, y); }
    LessTotal(x, y);
    LessTotal(y, z);
    if Less(x, y) && Less(y, z) { LessTransitive(x, y, z); LessAsymmetric(x, z); }
    if Less(x, y) { LessAsymmetric(x, y); }
    if Less(y, z) { LessAsymmetric(y, z); }
    LessIrreflexive(x);
  }

  lemma {:induction false} InsertInOrder(x: Stage, xs: seq<Stage>)
    requires InNameOrder(xs)
    ensures InNameOrder(Insert(StageBefore, x, xs))
  {
    hide Less, StageName;
    if xs != [] {
      if StageBefore(x, xs[0]) {
        forall k | 0 <= k < |xs| ensures !StageBefore(xs[k], x) { BeforeIsStrict(x, xs[0], xs[k]); }
      } else {
        InsertInOrder(x, xs[1..]);
        var more := Insert(StageBefore, x, xs[1..]);
        forall k | 0 <= k < |more| ensures !StageBefore(more[k], xs[0]) { InsertedFrom(x, xs[1..], k); }
      }
    }
  }

  lemma InsertedFrom(x: Stage, xs: seq<Stage>, k: nat)
    requires k < |Insert(StageBefore, x, xs)|
    ensures Insert(StageBefore, x, xs)[k] == x || exists i :: 0 <= i < |xs| && xs[i] == Insert(StageBefore, x, xs)[k]
  {
    var ys := Insert(StageBefore, x, xs);
    InsertKeeps(StageBefore, x, xs);
    assert ys[k] in multiset(ys);
    assert ys[k] == x || ys[k] in multiset(xs);
  }

  // ---------- where entries come from ----------

  /** A validator's name: the builtin's own, or `target:` and the digest of the canonical bytes of its argv. */
  ghost predicate IsNamed(hash: Hash, v: Validator, id: JsString) {
    match v
    case Builtin(builtinId) => id == builtinId
    case TargetCommand(argv, _) =>
      exists j, text ::
        && IsStrings(j, argv) && Canonicalize(j, CANONICAL_BOUNDS) == Ok(text)
        && id == Ascii("target:") + hash(Encode(text))
  }

  lemma ValidatorIsNamed(hash: Hash, v: Validator, id: JsString)
    ensures ValidatorId(hash, v) == Some(id) <==> IsNamed(hash, v, id)
  {
    hide Canonicalize, Encode;
    if v.TargetCommand? {
      var j := Strings(v.argv);
      StringsAre(v.argv);
      forall k | IsStrings(k, v.argv) ensures k == j { assert k.items == j.items; }
      hide Strings;
      TargetIsNamed(hash, v, id, j);
    }
  }

  lemma TargetIsNamed(hash: Hash, v: Validator, id: JsString, j: Json)
    requires v.TargetCommand? && j == Strings(v.argv)
    ensures ValidatorId(hash, v) == Some(id) <==>
      Canonicalize(j, CANONICAL_BOUNDS).Ok?
      && id == Ascii("target:") + hash(Encode(Canonicalize(j, CANONICAL_BOUNDS).value))
  {
    hide Canonicalize, Encode, Strings;
  }

  /** A plan check's entry: its id, its validator's name, and the words for its phase, effect and consumer. */
  lemma PlanEntryExactly(hash: Hash, c: PlanCheck, e: Entry)
    ensures PlanEntry(hash, c) == Some(e) <==>
      && e.id == c.checkId && IsNamed(hash, c.validator, e.validatorId)
      && e.phase == PhaseName(c.phase) && e.effect == EffectName(c.effect) && e.consumer == ConsumerName(c.consumer)
  {
    hide ConsumerName, EffectName, IsNamed, PhaseName, ValidatorId;
    ValidatorIsNamed(hash, c.validator, e.validatorId);
    if PlanEntry(hash, c).Some? { ValidatorIsNamed(hash, c.validator, PlanEntry(hash, c).value.validatorId); }
  }

  /** The entry of a result that answers its plan is that of the check it answers; any other result's is unresolved. */
  lemma EmittedExactly(hash: Hash, raw: RawResult, plan: Plan, planDigest: Digest)
    ensures raw.Shaped? && AnswersPlan(raw.result, plan, planDigest) ==>
      exists k ::
        && 0 <= k < |plan.checks| && plan.checks[k].checkId == raw.result.checkId
        && (forall j :: k < j < |plan.checks| ==> plan.checks[j].checkId != raw.result.checkId)
        && EmittedEntry(hash, raw, plan, planDigest) == PlanEntry(hash, plan.checks[k])
    ensures !(raw.Shaped? && AnswersPlan(raw.result, plan, planDigest)) ==>
      EmittedEntry(hash, raw, plan, planDigest).Some?
      && AllUnresolved(EmittedEntry(hash, raw, plan, planDigest).value)
  {
    hide AnswersPlan, Binds, PlanEntry;
    if raw.Shaped? {
      BindsExactly(raw.result, plan, planDigest);
      if Binds(raw.result, plan, planDigest) {
        BoundIsPlanned(raw.result, plan, planDigest);
        var k := LastOfId(plan.checks, raw.result.checkId);
        CheckNamedIsLast(plan.checks, raw.result.checkId, k);
      }
    }
  }

  lemma BoundIsPlanned(r: CheckResult, plan: Plan, planDigest: Digest)
    requires Binds(r, plan, planDigest)
    ensures CheckNamed(plan.checks, r.checkId).Some?
  {
  }

  /** The id of an unresolved entry: the one the result claims, if it is a name, and else a fixed one. */
  lemma UnresolvedIsNamed(raw: RawResult)
    ensures var claimed := if raw.Shaped? then Some(raw.result.checkId) else raw.checkId;
      UnresolvedEntry(raw).id ==
        if claimed.Some? && IsKebabId(claimed.value) then claimed.value else Ascii("unbound-result")
  {
  }

  /** A plan's dispatch set: the entries of its checks, or of those with one effect, in plan order. */
  lemma {:induction false} DispatchedExactly(hash: Hash, checks: seq<PlanCheck>, effect: Option<Effect>)
    ensures checks == [] ==> DispatchedFromPlan(hash, checks, effect) == Some([])
    ensures forall front, c :: checks == front + [c] ==>
      var before, e := DispatchedFromPlan(hash, front, effect), PlanEntry(hash, c);
      DispatchedFromPlan(hash, checks, effect) ==
        if before.None? then None
        else if effect.Some? && c.effect != effect.value then before
        else if e.None? then None
        else Some(before.value + [e.value])
  {
    hide PlanEntry;
    forall front, c | checks == front + [c] ensures checks[..|checks| - 1] == front && checks[|checks| - 1] == c {}
  }

  // ---------- the report ----------

  /** The counts and lengths of a report that its schema admits. */
  lemma FitsReportExactly(orphans: seq<Orphan>, exclusions: seq<Exclusion>, errors: seq<CensusError>)
    ensures FitsReport(orphans, exclusions, errors) <==>
      && |orphans| <= 8192 && |exclusions| <= 1024 && |errors| <= 1024
      && (forall o :: o in orphans ==> |o.entry.validatorId| <= 128)
      && forall x :: x in exclusions ==> |x.reason| <= 512 && NoDuplicates(x.stages)
  {
  }
}
