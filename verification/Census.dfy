/** The two-way census over the registered, implemented, dispatched, emitted and consumed checks. */
module Census {
  import opened Base
  import opened Ordering
  import opened Patterns
  import opened Sorting
  import opened Json
  import opened CanonicalJson
  import opened CanonicalTheorems
  import opened MemberNames
  import opened Records
  import opened Packs
  import opened Documents

  // ---------- entries ----------

  datatype Stage = Registered | Implemented | Dispatched | Emitted | Consumed

  /** The typed tuple that identifies a check. */
  datatype Entry = Entry(id: JsString, validatorId: JsString, phase: JsString, effect: JsString, consumer: JsString)

  /** A supplied entry; None stands for a member that is not a string. */
  datatype RawEntry =
    | NotAnObject
    | Members(
        id: Option<JsString>,
        validatorId: Option<JsString>,
        phase: Option<JsString>,
        effect: Option<JsString>,
        consumer: Option<JsString>)

  const UNRESOLVED: JsString := Ascii("UNRESOLVED")
  const UNRESOLVED_VALIDATOR: JsString := Ascii("unresolved")

  /** A versioned builtin id, a digest-qualified target, or the sentinel. */
  predicate IsValidatorId(s: JsString) {
    s == UNRESOLVED_VALIDATOR || IsVersioned(s) || IsTargetId(s)
  }

  const PHASE_VALUES: set<JsString> := {
    Ascii("CONTRACT_ADMISSION"), Ascii("CANDIDATE_VALIDATION"), Ascii("PROMOTION_FINALIZATION"), UNRESOLVED }
  const EFFECT_VALUES: set<JsString> := { Ascii("BLOCKING"), Ascii("ADVISORY"), UNRESOLVED }
  const CONSUMER_VALUES: set<JsString> := { Ascii("DISPOSITION_REDUCER"), Ascii("EVIDENCE_ONLY"), UNRESOLVED }

  /** How many members of an entry are the sentinel. */
  function SentinelCount(e: Entry): nat {
    (if e.validatorId == UNRESOLVED_VALIDATOR then 1 else 0) + (if e.phase == UNRESOLVED then 1 else 0)
    + (if e.effect == UNRESOLVED then 1 else 0) + (if e.consumer == UNRESOLVED then 1 else 0)
  }

  /** Every member from its closed vocabulary, and the sentinel all-or-nothing and only where results are. */
  predicate Admissible(e: Entry, stage: Stage) {
    && IsKebab(e.id) && |e.id| <= MAX_ID_LENGTH
    && IsValidatorId(e.validatorId)
    && e.phase in PHASE_VALUES && e.effect in EFFECT_VALUES && e.consumer in CONSUMER_VALUES
    && (SentinelCount(e) > 0 ==> SentinelCount(e) == 4 && (stage.Emitted? || stage.Consumed?))
  }

  /** `normalizeEntry`; None where it throws. */
  function Normalize(raw: RawEntry, stage: Stage): Option<Entry> {
    match raw
    case NotAnObject => None
    case Members(Some(id), Some(validatorId), Some(phase), Some(effect), Some(consumer)) =>
      if id == [] || validatorId == [] || phase == [] || effect == [] || consumer == [] then None
      else
        var e := Entry(id, validatorId, phase, effect, consumer);
        if Admissible(e, stage) then Some(e) else None
    case _ => None
  }

  function RawOf(e: Entry): RawEntry {
    Members(Some(e.id), Some(e.validatorId), Some(e.phase), Some(e.effect), Some(e.consumer))
  }

  function EntryFields(x: Entry): seq<Field> {
    [ Field(K_ID, Str(x.id)),
      Field(K_PHASE, Str(x.phase)),
      Field(K_EFFECT, Str(x.effect)),
      Field(K_VALIDATOR_ID, Str(x.validatorId)),
      Field(K_RESULT_CONSUMER, Str(x.consumer)) ]
  }

  function EntryJson(x: Entry): Json {
    Record(EntryFields(x))
  }

  /** The map key of an entry; None where `canonicalize` throws. */
  function KeyOf(x: Entry): Option<JsString> {
    match Canonicalize(EntryJson(x), CANONICAL_BOUNDS)
    case Err(_) => None
    case Ok(text) => Some(text)
  }

  lemma EntryFieldsAgree(x: Entry, y: Entry)
    requires EntryJson(x) == EntryJson(y)
    ensures EntryFields(x) == EntryFields(y)
  {
    hide Record, Tag;
    NameTags();
    TaggedRecordsAreInjective(EntryFields(x), EntryFields(y));
  }

  /** Different entries have different keys. */
  lemma KeysIdentifyEntries(x: Entry, y: Entry)
    requires KeyOf(x).Some? && KeyOf(x) == KeyOf(y)
    ensures x == y
  {
    CanonicalizeIsInjective(EntryJson(x), EntryJson(y), CANONICAL_BOUNDS);
    EntryFieldsAgree(x, y);
    hide EntryJson, Canonicalize;
    var a, b := EntryFields(x), EntryFields(y);
    assert a[0] == b[0] && a[1] == b[1] && a[2] == b[2] && a[3] == b[3] && a[4] == b[4];
  }

  // ---------- stages ----------

  /** Every entry of the stage is admissible and has a key. */
  ghost predicate Readable(raws: seq<RawEntry>, stage: Stage) {
    forall k :: 0 <= k < |raws| ==> Normalize(raws[k], stage).Some? && KeyOf(Normalize(raws[k], stage).value).Some?
  }

  /** The entries of a readable stage, repetitions included. */
  ghost function Entries(raws: seq<RawEntry>, stage: Stage): seq<Entry>
    requires Readable(raws, stage)
  {
    seq(|raws|, k requires 0 <= k < |raws| => Normalize(raws[k], stage).value)
  }

  /** A stage's map: entries in insertion order, and their keys. */
  datatype StageMap = StageMap(entries: seq<Entry>, keys: set<JsString>)

  /** The keys are those of the entries, and no entry is there twice. */
  ghost predicate Keyed(m: StageMap) {
    && NoDuplicates(m.entries)
    && (forall e :: e in m.entries ==> KeyOf(e).Some? && KeyOf(e).value in m.keys)
    && forall key :: key in m.keys ==> exists e :: e in m.entries && KeyOf(e) == Some(key)
  }

  lemma KeyedHas(m: StageMap, e: Entry)
    requires Keyed(m) && KeyOf(e).Some?
    ensures KeyOf(e).value in m.keys <==> e in m.entries
  {
    hide KeyOf;
    if KeyOf(e).value in m.keys {
      var f :| f in m.entries && KeyOf(f) == Some(KeyOf(e).value);
      KeysIdentifyEntries(e, f);
    }
  }

  lemma KeyedGrows(m: StageMap, e: Entry)
    requires Keyed(m) && KeyOf(e).Some? && e !in m.entries
    ensures Keyed(StageMap(m.entries + [e], m.keys + {KeyOf(e).value}))
  {
    hide KeyOf;
    var grown := StageMap(m.entries + [e], m.keys + {KeyOf(e).value});
    forall key | key in grown.keys ensures exists f :: f in grown.entries && KeyOf(f) == Some(key) {
      if key in m.keys {
        var f :| f in m.entries && KeyOf(f) == Some(key);
        assert f in grown.entries;
      } else {
        assert e in grown.entries;
      }
    }
  }

  /** One stage read into its map; `ok` is false where reading the stage throws. */
  method CollectStage(raws: seq<RawEntry>, stage: Stage) returns (ok: bool, m: StageMap, duplicates: seq<Entry>)
    ensures ok <==> Readable(raws, stage)
    ensures ok ==> Keyed(m) && (forall e :: e in m.entries <==> e in Entries(raws, stage))
    ensures ok ==> forall e :: e in duplicates <==> Repeats(Entries(raws, stage), e)
  {
    m, duplicates := StageMap([], {}), [];
    ghost var seen: seq<Entry> := [];
    hide Normalize, KeyOf;
    for k := 0 to |raws|
      invariant Keyed(m) && |seen| == k
      invariant forall j :: 0 <= j < k ==>
        Normalize(raws[j], stage) == Some(seen[j]) && KeyOf(seen[j]).Some?
      invariant forall e :: e in m.entries <==> e in seen
      invariant forall e :: e in duplicates <==> Repeats(seen, e)
    {
      var entry := Normalize(raws[k], stage);
      if entry.None? { return false, m, duplicates; }
      var key := KeyOf(entry.value);
      if key.None? { return false, m, duplicates; }
      KeyedHas(m, entry.value);
      forall e ensures Repeats(seen + [entry.value], e) <==> Repeats(seen, e) || (entry.value == e && e in seen) {
        RepeatsSnoc(seen, entry.value, e);
      }
      if key.value in m.keys {
        duplicates := duplicates + [entry.value];
      } else {
        KeyedGrows(m, entry.value);
        m := StageMap(m.entries + [entry.value], m.keys + {key.value});
      }
      seen := seen + [entry.value];
    }
    assert seen == Entries(raws, stage);
    ok := true;
  }

  // ---------- gaps ----------

  /** An entry present in one stage and missing from an adjacent one. */
  datatype Orphan = Orphan(entry: Entry, present: Stage, missing: Stage)

  /** Entries of one stage that the other lacks. */
  method MissingFrom(a: StageMap, b: StageMap, present: Stage, missing: Stage) returns (orphans: seq<Orphan>)
    requires Keyed(a) && Keyed(b)
    ensures forall o :: o in orphans <==>
      o.present == present && o.missing == missing && o.entry in a.entries && o.entry !in b.entries
    ensures NoDuplicates(orphans)
  {
    hide KeyOf;
    orphans := [];
    for k := 0 to |a.entries|
      invariant forall o :: o in orphans <==>
        o.present == present && o.missing == missing && o.entry in a.entries[..k] && o.entry !in b.entries
      invariant NoDuplicates(orphans)
    {
      var e := a.entries[k];
      assert a.entries[..k + 1] == a.entries[..k] + [e] && e in a.entries;
      KeyedHas(b, e);
      assert e !in a.entries[..k];
      if KeyOf(e).value !in b.keys { orphans := orphans + [Orphan(e, present, missing)]; }
    }
    assert a.entries[..|a.entries|] == a.entries;
  }

  /** What a census is given, stage by stage. */
  datatype Input = Input(
    registered: seq<RawEntry>,
    implemented: seq<RawEntry>,
    dispatched: seq<RawEntry>,
    emitted: seq<RawEntry>,
    consumed: seq<RawEntry>,
    exclusions: seq<RawExclusion>)

  /** A supplied exclusion; None stands for a member of the wrong type, or for a stage name that does not exist. */
  datatype RawExclusion = RawExclusion(
    id: Option<JsString>,
    stages: Option<seq<Option<Stage>>>,
    reason: Option<JsString>)

  function RawsOf(i: Input, stage: Stage): seq<RawEntry> {
    match stage
    case Registered => i.registered
    case Implemented => i.implemented
    case Dispatched => i.dispatched
    case Emitted => i.emitted
    case Consumed => i.consumed
  }

  predicate Adjacent(a: Stage, b: Stage) {
    || (a.Registered? && b.Implemented?) || (a.Implemented? && b.Registered?)
    || (a.Implemented? && b.Dispatched?) || (a.Dispatched? && b.Implemented?)
    || (a.Dispatched? && b.Emitted?) || (a.Emitted? && b.Dispatched?)
    || (a.Emitted? && b.Consumed?) || (a.Consumed? && b.Emitted?)
  }

  ghost predicate AllReadable(i: Input) {
    forall stage :: Readable(RawsOf(i, stage), stage)
  }

  ghost function StageEntries(i: Input, stage: Stage): seq<Entry>
    requires AllReadable(i)
  {
    Entries(RawsOf(i, stage), stage)
  }

  /** A concrete gap between adjacent stages. */
  ghost predicate Gap(i: Input, o: Orphan)
    requires AllReadable(i)
  {
    Adjacent(o.present, o.missing) && o.entry in StageEntries(i, o.present) && o.entry !in StageEntries(i, o.missing)
  }

  predicate WellFormedExclusion(x: RawExclusion) {
    && x.id.Some? && x.id.value != []
    && x.stages.Some? && x.stages.value != [] && None !in x.stages.value
    && x.reason.Some? && x.reason.value != []
  }

  /** The exclusion names the entry's id and the stage it is missing from. */
  predicate Excuses(x: RawExclusion, o: Orphan) {
    WellFormedExclusion(x) && o.entry.id == x.id.value && Some(o.missing) in x.stages.value
  }

  /** Nothing repeated, nothing wrongly excused, nothing missing without excuse. */
  ghost predicate IsComplete(i: Input)
    requires AllReadable(i)
  {
    && (forall stage :: NoDuplicates(StageEntries(i, stage)))
    && (forall x :: x in i.exclusions ==> exists o :: Gap(i, o) && Excuses(x, o))
    && forall o :: Gap(i, o) ==> exists x :: x in i.exclusions && Excuses(x, o)
  }

  // ---------- the census ----------

  datatype CensusError = DuplicateEntry(stage: Stage, entry: Entry) | InvalidExclusion(index: nat)

  datatype Exclusion = Exclusion(id: JsString, stages: seq<Stage>, reason: JsString)

  datatype Report = Report(
    complete: bool, orphans: seq<Orphan>, exclusions: seq<Exclusion>, errors: seq<CensusError>)

  /** An entry it cannot read makes the census throw, and so does a report its schema refuses. */
  datatype Outcome = Unreadable | Unfit(report: Report) | Reported(report: Report)

  /** `ORPHAN_<present>_NOT_<missing>`. */
  function ClassName(o: Orphan): JsString {
    Ascii("ORPHAN_") + StageName(o.present) + Ascii("_NOT_") + StageName(o.missing)
  }

  function StageName(s: Stage): JsString {
    match s
    case Registered => Ascii("REGISTERED")
    case Implemented => Ascii("IMPLEMENTED")
    case Dispatched => Ascii("DISPATCHED")
    case Emitted => Ascii("EMITTED")
    case Consumed => Ascii("CONSUMED")
  }

  /** The report's order: by id, then by class, then by the entry's canonical form. */
  predicate OrphanBefore(a: Orphan, b: Orphan) {
    || Less(a.entry.id, b.entry.id)
    || (a.entry.id == b.entry.id
        && (|| Less(ClassName(a), ClassName(b))
            || (ClassName(a) == ClassName(b)
                && KeyOf(a.entry).Some? && KeyOf(b.entry).Some? && Less(KeyOf(a.entry).value, KeyOf(b.entry).value))))
  }

  const MAX_ORPHANS := 8_192
  const MAX_EXCLUSIONS := 1_024
  const MAX_ERRORS := 1_024
  const MAX_REASON_LENGTH := 512
  const MAX_VALIDATOR_ID_LENGTH := 128

  /** The bounds of orphan-census@1 that an otherwise finished report can break. */
  predicate FitsReport(orphans: seq<Orphan>, exclusions: seq<Exclusion>, errors: seq<CensusError>) {
    && |orphans| <= MAX_ORPHANS && |exclusions| <= MAX_EXCLUSIONS && |errors| <= MAX_ERRORS
    && (forall o :: o in orphans ==> |o.entry.validatorId| <= MAX_VALIDATOR_ID_LENGTH)
    && forall x :: x in exclusions ==>
         |x.reason| <= MAX_REASON_LENGTH && forall j, k :: 0 <= j < k < |x.stages| ==> x.stages[j] != x.stages[k]
  }

  function StagesOf(stages: seq<Option<Stage>>): seq<Stage>
    requires None !in stages
  {
    seq(|stages|, k requires 0 <= k < |stages| => assert stages[k] in stages; stages[k].value)
  }

  predicate StageBefore(a: Stage, b: Stage) {
    Less(StageName(a), StageName(b))
  }

  /** The exclusion as the report repeats it, its stages sorted by name. */
  predicate Kept(x: RawExclusion, v: Exclusion) {
    WellFormedExclusion(x)
    && v == Exclusion(x.id.value, Sort(StageBefore, StagesOf(x.stages.value)), x.reason.value)
  }

  /** Which gaps one exclusion excuses. */
  method Matched(rawOrphans: seq<Orphan>, x: RawExclusion) returns (matched: seq<Orphan>)
    ensures forall o :: o in matched <==> o in rawOrphans && Excuses(x, o)
  {
    matched := [];
    for k := 0 to |rawOrphans|
      invariant forall o :: o in matched <==> o in rawOrphans[..k] && Excuses(x, o)
    {
      assert rawOrphans[..k + 1] == rawOrphans[..k] + [rawOrphans[k]];
      if Excuses(x, rawOrphans[k]) { matched := matched + [rawOrphans[k]]; }
    }
    assert rawOrphans[..|rawOrphans|] == rawOrphans;
  }

  ghost predicate Excusing(rawOrphans: seq<Orphan>, x: RawExclusion) {
    exists o :: o in rawOrphans && Excuses(x, o)
  }

  method Keep(x: RawExclusion) returns (v: Exclusion)
    requires WellFormedExclusion(x)
    ensures forall w :: Kept(x, w) <==> w == v
  {
    v := Exclusion(x.id.value, Sort(StageBefore, StagesOf(x.stages.value)), x.reason.value);
  }

  /** The exclusion loop: which gaps are suppressed, and which exclusions are invalid or stale. */
  method ApplyExclusions(rawOrphans: seq<Orphan>, exclusions: seq<RawExclusion>)
    returns (suppressed: set<Orphan>, valid: seq<Exclusion>, errors: seq<CensusError>)
    ensures forall o :: o in suppressed <==> o in rawOrphans && exists x :: x in exclusions && Excuses(x, o)
    ensures forall e :: e in errors <==>
      e.InvalidExclusion? && e.index < |exclusions| && !Excusing(rawOrphans, exclusions[e.index])
    ensures forall v :: v in valid <==> exists x :: x in exclusions && Excusing(rawOrphans, x) && Kept(x, v)
  {
    hide WellFormedExclusion, Kept, Sort;
    suppressed, valid, errors := {}, [], [];
    for k := 0 to |exclusions|
      invariant forall o :: o in suppressed <==> o in rawOrphans && exists x :: x in exclusions[..k] && Excuses(x, o)
      invariant forall e :: e in errors <==>
        e.InvalidExclusion? && e.index < k && !Excusing(rawOrphans, exclusions[e.index])
      invariant forall v :: v in valid <==> exists x :: x in exclusions[..k] && Excusing(rawOrphans, x) && Kept(x, v)
    {
      var x := exclusions[k];
      assert exclusions[..k + 1] == exclusions[..k] + [x];
      assert forall y :: y in exclusions[..k + 1] <==> y in exclusions[..k] || y == x;
      var matched := Matched(rawOrphans, x);
      if !WellFormedExclusion(x) || matched == [] {
        assert !Excusing(rawOrphans, x);
        errors := errors + [InvalidExclusion(k)];
      } else {
        assert matched[0] in matched;
        suppressed := suppressed + Elements(matched);
        var kept := Keep(x);
        valid := valid + [kept];
      }
    }
    assert exclusions[..|exclusions|] == exclusions;
  }

  /** `rawOrphans.filter((o) => !suppressed.has(o))`. */
  method Unsuppressed(rawOrphans: seq<Orphan>, suppressed: set<Orphan>) returns (orphans: seq<Orphan>)
    requires NoDuplicates(rawOrphans)
    ensures forall o :: o in orphans <==> o in rawOrphans && o !in suppressed
    ensures NoDuplicates(orphans)
  {
    orphans := [];
    for k := 0 to |rawOrphans|
      invariant forall o :: o in orphans <==> o in rawOrphans[..k] && o !in suppressed
      invariant NoDuplicates(orphans)
    {
      assert rawOrphans[..k + 1] == rawOrphans[..k] + [rawOrphans[k]];
      assert rawOrphans[k] !in rawOrphans[..k];
      if rawOrphans[k] !in suppressed { orphans := orphans + [rawOrphans[k]]; }
    }
    assert rawOrphans[..|rawOrphans|] == rawOrphans;
  }

  /** The five stages read into their maps, and the entries repeated in them. */
  datatype Maps = Maps(
    registered: StageMap, implemented: StageMap, dispatched: StageMap, emitted: StageMap, consumed: StageMap)

  function MapOf(m: Maps, stage: Stage): StageMap {
    match stage
    case Registered => m.registered
    case Implemented => m.implemented
    case Dispatched => m.dispatched
    case Emitted => m.emitted
    case Consumed => m.consumed
  }

  ghost predicate MapsFor(i: Input, m: Maps)
    requires AllReadable(i)
  {
    forall stage :: Keyed(MapOf(m, stage)) && forall e :: e in MapOf(m, stage).entries <==> e in StageEntries(i, stage)
  }

  method DuplicateErrors(stage: Stage, duplicates: seq<Entry>) returns (errors: seq<CensusError>)
    ensures forall e :: e in errors <==> e.DuplicateEntry? && e.stage == stage && e.entry in duplicates
  {
    errors := [];
    for k := 0 to |duplicates|
      invariant forall e :: e in errors <==> e.DuplicateEntry? && e.stage == stage && e.entry in duplicates[..k]
    {
      assert duplicates[..k + 1] == duplicates[..k] + [duplicates[k]];
      errors := errors + [DuplicateEntry(stage, duplicates[k])];
    }
    assert duplicates[..|duplicates|] == duplicates;
  }

  method CollectStages(i: Input) returns (ok: bool, m: Maps, errors: seq<CensusError>)
    ensures ok <==> AllReadable(i)
    ensures ok ==> MapsFor(i, m)
    ensures ok ==> forall e :: e in errors <==> e.DuplicateEntry? && Repeats(StageEntries(i, e.stage), e.entry)
  {
    hide Readable, Entries, Keyed, Repeats;
    var ok1, m1, d1 := CollectStage(i.registered, Registered);
    var ok2, m2, d2 := CollectStage(i.implemented, Implemented);
    var ok3, m3, d3 := CollectStage(i.dispatched, Dispatched);
    var ok4, m4, d4 := CollectStage(i.emitted, Emitted);
    var ok5, m5, d5 := CollectStage(i.consumed, Consumed);
    m := Maps(m1, m2, m3, m4, m5);
    ok := ok1 && ok2 && ok3 && ok4 && ok5;
    assert RawsOf(i, Registered) == i.registered && RawsOf(i, Implemented) == i.implemented;
    assert RawsOf(i, Dispatched) == i.dispatched && RawsOf(i, Emitted) == i.emitted;
    assert RawsOf(i, Consumed) == i.consumed;
    var e1 := DuplicateErrors(Registered, d1);
    var e2 := DuplicateErrors(Implemented, d2);
    var e3 := DuplicateErrors(Dispatched, d3);
    var e4 := DuplicateErrors(Emitted, d4);
    var e5 := DuplicateErrors(Consumed, d5);
    errors := e1 + e2 + e3 + e4 + e5;
  }

  /** The gaps in one direction between two adjacent stages. */
  method PairOrphans(i: Input, m: Maps, a: Stage, b: Stage) returns (orphans: seq<Orphan>)
    requires AllReadable(i) && MapsFor(i, m) && Adjacent(a, b)
    ensures forall o :: o in orphans <==> Gap(i, o) && o.present == a && o.missing == b
    ensures NoDuplicates(orphans)
  {
    assert Keyed(MapOf(m, a)) && Keyed(MapOf(m, b));
    hide AllReadable, Keyed, StageEntries;
    orphans := MissingFrom(MapOf(m, a), MapOf(m, b), a, b);
  }

  lemma GapsAreAdjacent(i: Input, o: Orphan)
    requires AllReadable(i) && Gap(i, o)
    ensures Adjacent(o.present, o.missing)
  {
  }

  lemma OrphansJoin(xs: seq<Orphan>, ys: seq<Orphan>)
    requires NoDuplicates(xs) && NoDuplicates(ys) && forall o :: o in xs ==> o !in ys
    ensures NoDuplicates(xs + ys)
  {
    var all := xs + ys;
    forall j, k | 0 <= j < k < |all| ensures all[j] != all[k] {
      if j < |xs| <= k { assert all[j] in xs && all[k] in ys; }
    }
  }

  /** All gaps between adjacent stages, pair by pair and both ways. */
  method RawOrphans(i: Input, m: Maps) returns (orphans: seq<Orphan>)
    requires AllReadable(i) && MapsFor(i, m)
    ensures forall o :: o in orphans <==> Gap(i, o)
    ensures NoDuplicates(orphans)
  {
    hide AllReadable, MapsFor, Gap, NoDuplicates;
    var o1 := PairOrphans(i, m, Registered, Implemented);
    var o2 := PairOrphans(i, m, Implemented, Registered);
    var o3 := PairOrphans(i, m, Implemented, Dispatched);
    var o4 := PairOrphans(i, m, Dispatched, Implemented);
    var o5 := PairOrphans(i, m, Dispatched, Emitted);
    var o6 := PairOrphans(i, m, Emitted, Dispatched);
    var o7 := PairOrphans(i, m, Emitted, Consumed);
    var o8 := PairOrphans(i, m, Consumed, Emitted);
    OrphansJoin(o1, o2);
    OrphansJoin(o1 + o2, o3);
    OrphansJoin(o1 + o2 + o3, o4);
    OrphansJoin(o1 + o2 + o3 + o4, o5);
    OrphansJoin(o1 + o2 + o3 + o4 + o5, o6);
    OrphansJoin(o1 + o2 + o3 + o4 + o5 + o6, o7);
    OrphansJoin(o1 + o2 + o3 + o4 + o5 + o6 + o7, o8);
    orphans := o1 + o2 + o3 + o4 + o5 + o6 + o7 + o8;
    forall o | Gap(i, o) ensures o in orphans { GapsAreAdjacent(i, o); }
  }

  lemma VerdictDecides(i: Input, rawOrphans: seq<Orphan>, suppressed: set<Orphan>, orphans: seq<Orphan>,
      duplicates: seq<CensusError>, invalid: seq<CensusError>)
    requires AllReadable(i) && forall o :: o in rawOrphans <==> Gap(i, o)
    requires forall e :: e in duplicates <==> e.DuplicateEntry? && Repeats(StageEntries(i, e.stage), e.entry)
    requires forall o :: o in suppressed <==> o in rawOrphans && exists x :: x in i.exclusions && Excuses(x, o)
    requires forall e :: e in invalid <==>
      e.InvalidExclusion? && e.index < |i.exclusions| && !Excusing(rawOrphans, i.exclusions[e.index])
    requires forall o :: o in orphans <==> o in rawOrphans && o !in suppressed
    ensures orphans == [] && duplicates + invalid == [] <==> IsComplete(i)
  {
    hide AllReadable, StageEntries, Gap, Excuses;
    EmptyBySearch(orphans);
    EmptyBySearch(duplicates);
    EmptyBySearch(invalid);
    forall stage ensures NoDuplicates(StageEntries(i, stage)) <==> forall e :: !Repeats(StageEntries(i, stage), e) {
      NothingRepeats(StageEntries(i, stage));
    }
    DuplicatesDecide(i, duplicates);
    ExclusionsDecide(i, rawOrphans, invalid);
    hide Repeats, NoDuplicates, Excusing;
  }

  lemma EmptyBySearch<T>(xs: seq<T>)
    ensures xs == [] <==> forall x :: x !in xs
  {
    if xs != [] { assert xs[0] in xs; }
  }

  lemma DuplicatesDecide(i: Input, duplicates: seq<CensusError>)
    requires AllReadable(i)
    requires forall e :: e in duplicates <==> e.DuplicateEntry? && Repeats(StageEntries(i, e.stage), e.entry)
    ensures duplicates == [] <==> forall stage :: NoDuplicates(StageEntries(i, stage))
  {
    hide AllReadable, StageEntries;
    EmptyBySearch(duplicates);
    if duplicates == [] {
      forall stage ensures NoDuplicates(StageEntries(i, stage)) {
        NothingRepeats(StageEntries(i, stage));
        forall e ensures !Repeats(StageEntries(i, stage), e) {
          assert DuplicateEntry(stage, e) !in duplicates;
        }
      }
    } else {
      NothingRepeats(StageEntries(i, duplicates[0].stage));
      assert duplicates[0] in duplicates;
    }
  }

  lemma ExclusionsDecide(i: Input, rawOrphans: seq<Orphan>, invalid: seq<CensusError>)
    requires AllReadable(i) && forall o :: o in rawOrphans <==> Gap(i, o)
    requires forall e :: e in invalid <==>
      e.InvalidExclusion? && e.index < |i.exclusions| && !Excusing(rawOrphans, i.exclusions[e.index])
    ensures invalid == [] <==> forall x :: x in i.exclusions ==> exists o :: Gap(i, o) && Excuses(x, o)
  {
    hide AllReadable, Gap, Excuses;
    EmptyBySearch(invalid);
    if invalid == [] {
      forall x | x in i.exclusions ensures exists o :: Gap(i, o) && Excuses(x, o) {
        var k :| 0 <= k < |i.exclusions| && i.exclusions[k] == x;
        assert InvalidExclusion(k) !in invalid;
        assert Excusing(rawOrphans, x);
        var o :| o in rawOrphans && Excuses(x, o);
        assert Gap(i, o);
      }
    } else {
      assert invalid[0] in invalid;
      var x := i.exclusions[invalid[0].index];
      assert x in i.exclusions && !Excusing(rawOrphans, x);
    }
  }

  lemma StageLetters(s: Stage)
    ensures |StageName(s)| > 0
    ensures StageName(s)[0] == match s
      case Registered => 0x52
      case Implemented => 0x49
      case Dispatched => 0x44
      case Emitted => 0x45
      case Consumed => 0x43
  {
  }

  /** A class name tells both stages. */
  lemma ClassNamesDiffer(a: Orphan, b: Orphan)
    requires ClassName(a) == ClassName(b)
    ensures a.present == b.present && a.missing == b.missing
  {
    StageLetters(a.present);
    StageLetters(b.present);
    StageLetters(a.missing);
    StageLetters(b.missing);
    assert |Ascii("ORPHAN_")| == 7 && |Ascii("_NOT_")| == 5;
    hide StageName;
    assert ClassName(a)[7] == StageName(a.present)[0] && ClassName(b)[7] == StageName(b.present)[0];
    assert a.present == b.present;
    var k := 12 + |StageName(a.present)|;
    assert ClassName(a)[k] == StageName(a.missing)[0] && ClassName(b)[k] == StageName(b.missing)[0];
  }

  lemma OrphanOrderIsStrict(s: set<Orphan>)
    requires forall o :: o in s ==> KeyOf(o.entry).Some?
    ensures StrictOrder(OrphanBefore, s)
  {
    hide KeyOf, ClassName;
    forall x, y | x in s && y in s && OrphanBefore(x, y) ensures !OrphanBefore(y, x) { OrphanBeforeAsymmetric(x, y); }
    forall x, y | x in s && y in s && x != y ensures OrphanBefore(x, y) || OrphanBefore(y, x) {
      LessTotal(x.entry.id, y.entry.id);
      LessTotal(ClassName(x), ClassName(y));
      LessTotal(KeyOf(x.entry).value, KeyOf(y.entry).value);
      if ClassName(x) == ClassName(y) { ClassNamesDiffer(x, y); }
      if KeyOf(x.entry) == KeyOf(y.entry) { KeysIdentifyEntries(x.entry, y.entry); }
    }
    forall x, y, z | x in s && y in s && z in s && OrphanBefore(x, y) && OrphanBefore(y, z)
      ensures OrphanBefore(x, z)
    {
      OrphanBeforeTransitive(x, y, z);
    }
  }

  lemma OrphanBeforeAsymmetric(x: Orphan, y: Orphan)
    requires OrphanBefore(x, y)
    ensures !OrphanBefore(y, x)
  {
    hide KeyOf, ClassName;
    if Less(x.entry.id, y.entry.id) {
      LessAsymmetric(x.entry.id, y.entry.id);
    } else {
      LessIrreflexive(x.entry.id);
      if Less(ClassName(x), ClassName(y)) {
        LessAsymmetric(ClassName(x), ClassName(y));
      } else {
        LessIrreflexive(ClassName(x));
        LessAsymmetric(KeyOf(x.entry).value, KeyOf(y.entry).value);
      }
    }
  }

  lemma OrphanBeforeTransitive(x: Orphan, y: Orphan, z: Orphan)
    requires OrphanBefore(x, y) && OrphanBefore(y, z)
    ensures OrphanBefore(x, z)
  {
    hide KeyOf, ClassName;
    if Less(x.entry.id, y.entry.id) && Less(y.entry.id, z.entry.id) {
      LessTransitive(x.entry.id, y.entry.id, z.entry.id);
    } else if x.entry.id == y.entry.id == z.entry.id {
      if Less(ClassName(x), ClassName(y)) && Less(ClassName(y), ClassName(z)) {
        LessTransitive(ClassName(x), ClassName(y), ClassName(z));
      } else if ClassName(x) == ClassName(y) == ClassName(z) {
        LessTransitive(KeyOf(x.entry).value, KeyOf(y.entry).value, KeyOf(z.entry).value);
      }
    }
  }

  lemma GapHasKey(i: Input, o: Orphan)
    requires AllReadable(i) && Gap(i, o)
    ensures KeyOf(o.entry).Some?
  {
    assert Readable(RawsOf(i, o.present), o.present);
  }

  /** What a report says about its inputs. */
  ghost predicate IsReportOf(i: Input, r: Report)
    requires AllReadable(i)
  {
    && (r.complete <==> IsComplete(i))
    && (r.complete <==> r.orphans == [] && r.errors == [])
    && (forall o :: o in r.orphans <==> Gap(i, o) && !exists x :: x in i.exclusions && Excuses(x, o))
    && SortedBy(OrphanBefore, r.orphans)
    && (forall v :: v in r.exclusions <==>
          exists x :: x in i.exclusions && Kept(x, v) && exists o :: Gap(i, o) && Excuses(x, o))
    && forall e :: e in r.errors <==>
         match e
         case DuplicateEntry(stage, entry) => Repeats(StageEntries(i, stage), entry)
         case InvalidExclusion(k) => k < |i.exclusions| && !exists o :: Gap(i, o) && Excuses(i.exclusions[k], o)
  }

  lemma ErrorsSayWhy(i: Input, rawOrphans: seq<Orphan>, duplicates: seq<CensusError>, invalid: seq<CensusError>)
    requires AllReadable(i) && forall o :: o in rawOrphans <==> Gap(i, o)
    requires forall e :: e in duplicates <==> e.DuplicateEntry? && Repeats(StageEntries(i, e.stage), e.entry)
    requires forall e :: e in invalid <==>
      e.InvalidExclusion? && e.index < |i.exclusions| && !Excusing(rawOrphans, i.exclusions[e.index])
    ensures forall e :: e in duplicates + invalid <==>
      match e
      case DuplicateEntry(stage, entry) => Repeats(StageEntries(i, stage), entry)
      case InvalidExclusion(k) => k < |i.exclusions| && !exists o :: Gap(i, o) && Excuses(i.exclusions[k], o)
  {
    hide AllReadable, StageEntries, Gap, Excuses, Repeats;
    forall k | 0 <= k < |i.exclusions|
      ensures Excusing(rawOrphans, i.exclusions[k]) <==> exists o :: Gap(i, o) && Excuses(i.exclusions[k], o)
    {
    }
    hide Excusing;
  }

  lemma KeptSayWhich(i: Input, rawOrphans: seq<Orphan>, valid: seq<Exclusion>)
    requires AllReadable(i) && forall o :: o in rawOrphans <==> Gap(i, o)
    requires forall v :: v in valid <==> exists x :: x in i.exclusions && Excusing(rawOrphans, x) && Kept(x, v)
    ensures forall v :: v in valid <==>
      exists x :: x in i.exclusions && Kept(x, v) && exists o :: Gap(i, o) && Excuses(x, o)
  {
    hide AllReadable, Gap, Excuses, Kept;
    forall x ensures Excusing(rawOrphans, x) <==> exists o :: Gap(i, o) && Excuses(x, o) {
    }
  }

  /** Gathering the orphans one at a time leaves each of them once. */
  lemma OrphansSort(i: Input, orphans: seq<Orphan>)
    requires AllReadable(i) && NoDuplicates(orphans) && forall o :: o in orphans ==> Gap(i, o)
    ensures SortedBy(OrphanBefore, Sort(OrphanBefore, orphans))
    ensures forall o :: o in Sort(OrphanBefore, orphans) <==> o in orphans
    ensures |Sort(OrphanBefore, orphans)| == |orphans|
  {
    hide AllReadable, Gap, OrphanBefore, KeyOf;
    forall o | o in Elements(orphans) ensures KeyOf(o.entry).Some? { GapHasKey(i, o); }
    OrphanOrderIsStrict(Elements(orphans));
    SortSorts(OrphanBefore, orphans, Elements(orphans));
    SortMembers(OrphanBefore, orphans);
    SortKeeps(OrphanBefore, orphans);
  }

  /** `runOrphanCensus`. */
  method RunOrphanCensus(i: Input) returns (r: Outcome)
    ensures r.Unreadable? <==> !AllReadable(i)
    ensures !r.Unreadable? ==> IsReportOf(i, r.report)
    ensures !r.Unreadable? ==>
      (r.Reported? <==> FitsReport(r.report.orphans, r.report.exclusions, r.report.errors))
  {
    hide AllReadable, Excuses, FitsReport, Gap, IsComplete, Kept, OrphanBefore, Repeats, Sort, SortedBy, StageEntries;
    var ok, m, duplicates := CollectStages(i);
    if !ok { return Unreadable; }
    var rawOrphans := RawOrphans(i, m);
    var suppressed, valid, invalid := ApplyExclusions(rawOrphans, i.exclusions);
    var orphans := Unsuppressed(rawOrphans, suppressed);
    var errors := duplicates + invalid;
    VerdictDecides(i, rawOrphans, suppressed, orphans, duplicates, invalid);
    ErrorsSayWhy(i, rawOrphans, duplicates, invalid);
    KeptSayWhich(i, rawOrphans, valid);
    OrphansSort(i, orphans);
    var report := Report(orphans == [] && errors == [], Sort(OrphanBefore, orphans), valid, errors);
    assert IsReportOf(i, report);
    if !FitsReport(report.orphans, valid, errors) { return Unfit(report); }
    return Reported(report);
  }

  // ---------- without exclusions ----------

  lemma SameAcross(i: Input, a: Stage, b: Stage)
    requires AllReadable(i) && Adjacent(a, b) && forall o :: !Gap(i, o)
    ensures Elements(StageEntries(i, a)) == Elements(StageEntries(i, b))
  {
    hide StageEntries;
    forall e | e in StageEntries(i, a) ensures e in StageEntries(i, b) { assert !Gap(i, Orphan(e, a, b)); }
    forall e | e in StageEntries(i, b) ensures e in StageEntries(i, a) { assert !Gap(i, Orphan(e, b, a)); }
  }

  /** With nothing excluded, the census is complete exactly when no stage repeats an entry and all five sets are equal. */
  lemma CompleteMeansEqualStages(i: Input)
    requires AllReadable(i) && i.exclusions == []
    ensures IsComplete(i) <==>
      && (forall stage :: NoDuplicates(StageEntries(i, stage)))
      && forall a, b :: Elements(StageEntries(i, a)) == Elements(StageEntries(i, b))
  {
    hide StageEntries, AllReadable;
    if IsComplete(i) {
      assert forall o :: !Gap(i, o);
      SameAcross(i, Registered, Implemented);
      SameAcross(i, Implemented, Dispatched);
      SameAcross(i, Dispatched, Emitted);
      SameAcross(i, Emitted, Consumed);
      forall a ensures Elements(StageEntries(i, a)) == Elements(StageEntries(i, Registered)) {
        match a
        case Registered =>
        case Implemented =>
        case Dispatched =>
        case Emitted =>
        case Consumed =>
      }
    }
    if forall a, b :: Elements(StageEntries(i, a)) == Elements(StageEntries(i, b)) {
      forall o ensures !Gap(i, o) {
        assert Elements(StageEntries(i, o.present)) == Elements(StageEntries(i, o.missing));
        assert o.entry in StageEntries(i, o.present) <==> o.entry in Elements(StageEntries(i, o.present));
      }
    }
  }
}
