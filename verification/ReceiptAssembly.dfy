/** The end of an evaluation: anchor every result, finalize the evidence, assemble the receipt, and verify it. */
module ReceiptAssembly {
  import opened Base
  import opened Ordering
  import opened Sorting
  import opened Text
  import opened Json
  import opened CanonicalJson
  import opened Subvalues
  import opened MemberNames
  import opened Records
  import opened Plan
  import opened Reducer
  import opened Evaluator
  import opened Documents
  import opened EvidenceDocument
  import opened EvidenceStore
  import opened EvidenceVerifier
  import opened Receipt

  // ---------- anchoring ----------

  const JSON_MEDIA: JsString := Ascii("application/json")

  /** Some artifact carries the anchor id of the result and the digest of its canonical bytes. */
  ghost predicate HasAnchor(hash: Hash, artifacts: seq<Artifact>, x: CheckResult) {
    exists a :: a in artifacts && a.artifactId == ANCHOR_PREFIX + x.checkId
                && Some(a.digest) == CanonicalDigest(hash, ResultJson(x))
  }

  /** A result that can be anchored: its check is planned, and the result and the validator's argv can be printed. */
  predicate Anchorable(hash: Hash, plan: Plan, x: CheckResult) {
    && CheckNamed(plan.checks, x.checkId).Some?
    && ValidatorId(hash, CheckNamed(plan.checks, x.checkId).value.validator).Some?
    && Canonicalize(ResultJson(x), CANONICAL_BOUNDS).Ok?
  }

  /** The anchor of a result: an artifact that holds its canonical bytes. */
  function AnchorOf(hash: Hash, plan: Plan, x: CheckResult): (a: Artifact)
    requires Anchorable(hash, plan, x)
    ensures a.artifactId == ANCHOR_PREFIX + x.checkId && a.checkId == x.checkId
  {
    var bytes := CanonicalBytes(ResultJson(x));
    Artifact(ANCHOR_PREFIX + x.checkId, x.checkId,
             ValidatorId(hash, CheckNamed(plan.checks, x.checkId).value.validator).value,
             hash(bytes), |bytes|, JSON_MEDIA)
  }

  predicate AllAnchorable(hash: Hash, plan: Plan, results: seq<CheckResult>) {
    forall k :: 0 <= k < |results| ==> Anchorable(hash, plan, results[k])
  }

  function AnchorsOf(hash: Hash, plan: Plan, results: seq<CheckResult>): seq<Artifact>
    requires AllAnchorable(hash, plan, results)
  {
    seq(|results|, k requires 0 <= k < |results| => AnchorOf(hash, plan, results[k]))
  }

  /**
   Every result can be anchored: printable, about a planned check, each under an id of its own that is not taken yet, in
   writable files, and within what is left of the ceiling.
   */
  ghost predicate CanAnchor(hash: Hash, plan: Plan, results: seq<CheckResult>, writable: nat -> bool,
      finalized: bool, seenIds: set<JsString>, room: int)
  {
    && (results != [] ==> !finalized) && AllAnchorable(hash, plan, results)
    && (forall k :: 0 <= k < |results| ==> writable(k))
    && (forall a :: a in AnchorsOf(hash, plan, results) ==> a.artifactId !in seenIds)
    && DistinctArtifactIds(AnchorsOf(hash, plan, results))
    && TotalLength(AnchorsOf(hash, plan, results)) <= room
  }

  /** The ids of the anchors are the check ids under a common prefix, so they differ exactly when those do. */
  lemma AnchorIdsDiffer(hash: Hash, plan: Plan, results: seq<CheckResult>)
    requires AllAnchorable(hash, plan, results)
    ensures DistinctArtifactIds(AnchorsOf(hash, plan, results)) <==>
      forall j, k :: 0 <= j < k < |results| ==> results[j].checkId != results[k].checkId
  {
    hide AnchorOf, Anchorable, ANCHOR_PREFIX;
    forall j, k | 0 <= j < k < |results|
      ensures AnchorsOf(hash, plan, results)[j].artifactId == AnchorsOf(hash, plan, results)[k].artifactId <==>
        results[j].checkId == results[k].checkId
    {
      PrefixCancels(ANCHOR_PREFIX, results[j].checkId, results[k].checkId);
    }
  }

  lemma PrefixCancels(p: JsString, a: JsString, b: JsString)
    ensures p + a == p + b <==> a == b
  {
    assert (p + a)[|p|..] == a && (p + b)[|p|..] == b;
  }

  // ---------- the books of a store ----------

  /** What a store indexes, the ids taken and the bytes charged. */
  datatype Books = Books(artifacts: seq<Artifact>, seenIds: set<JsString>, totalBytes: nat)

  /** The books with one more artifact. */
  function Entered(a: Artifact, now: Books): Books {
    Books(now.artifacts + [a], now.seenIds + {a.artifactId}, now.totalBytes + a.byteLength)
  }

  /** Whether one more artifact can be entered. */
  ghost predicate Enterable(a: Artifact, max: nat, now: Books) {
    a.artifactId !in now.seenIds && now.totalBytes + a.byteLength <= max
  }

  function ArtifactIds(xs: seq<Artifact>): set<JsString> {
    set a | a in xs :: a.artifactId
  }

  /** The books hold some artifacts besides what they held before, and stay within the ceiling. */
  ghost predicate Booked(xs: seq<Artifact>, max: nat, before: Books, now: Books) {
    && now.artifacts == before.artifacts + xs
    && now.seenIds == before.seenIds + ArtifactIds(xs)
    && now.totalBytes == before.totalBytes + TotalLength(xs)
    && now.totalBytes <= max
    && DistinctArtifactIds(xs) && forall a :: a in xs ==> a.artifactId !in before.seenIds
  }

  lemma ArtifactIdsGrow(xs: seq<Artifact>, a: Artifact)
    ensures ArtifactIds(xs + [a]) == ArtifactIds(xs) + {a.artifactId}
  {
    assert forall b :: b in xs + [a] <==> b in xs || b == a;
  }

  lemma BookedGoesOn(xs: seq<Artifact>, a: Artifact, max: nat, before: Books, now: Books)
    requires Booked(xs, max, before, now) && Enterable(a, max, now)
    ensures Booked(xs + [a], max, before, Entered(a, now))
  {
    ArtifactIdsGrow(xs, a);
    TotalLengthSnoc(xs, a);
    hide ArtifactIds, TotalLength;
    assert (before.artifacts + xs) + [a] == before.artifacts + (xs + [a]);
    assert DistinctArtifactIds(xs + [a]) by { IdsStayDistinct(xs, a); }
    assert a.artifactId !in before.seenIds;
  }

  lemma IdsStayDistinct(xs: seq<Artifact>, a: Artifact)
    requires DistinctArtifactIds(xs)
    ensures DistinctArtifactIds(xs + [a]) <==> a.artifactId !in ArtifactIds(xs)
  {
    var all := xs + [a];
    if a.artifactId in ArtifactIds(xs) {
      var k :| 0 <= k < |xs| && xs[k].artifactId == a.artifactId;
      assert all[k].artifactId == all[|xs|].artifactId;
    }
  }

  /** An id that occurs among the artifacts entered so far occurs twice in the whole list. */
  lemma RepeatedIdStops(xs: seq<Artifact>, all: seq<Artifact>)
    requires |xs| < |all| && xs == all[..|xs|] && all[|xs|].artifactId in ArtifactIds(xs)
    ensures !DistinctArtifactIds(all)
  {
    var k :| 0 <= k < |xs| && xs[k].artifactId == all[|xs|].artifactId;
    assert all[k] == xs[k];
  }

  lemma ExcessStops(xs: seq<Artifact>, all: seq<Artifact>)
    requires |xs| < |all| && xs == all[..|xs|]
    ensures TotalLength(xs) + all[|xs|].byteLength <= TotalLength(all)
  {
    assert all[..|xs| + 1] == xs + [all[|xs|]];
    TotalLengthSnoc(xs, all[|xs|]);
    PrefixTotalsGrow(all, |xs| + 1);
  }

  /** An artifact that cannot be entered next cannot be entered with the rest either. */
  lemma BookedStops(xs: seq<Artifact>, all: seq<Artifact>, max: nat, before: Books, now: Books)
    requires Booked(xs, max, before, now) && |xs| < |all| && xs == all[..|xs|] && !Enterable(all[|xs|], max, now)
    ensures !(DistinctArtifactIds(all) && (forall a :: a in all ==> a.artifactId !in before.seenIds)
              && TotalLength(all) <= max - before.totalBytes)
  {
    hide TotalLength, ArtifactIds, DistinctArtifactIds;
    ExcessStops(xs, all);
    if all[|xs|].artifactId in ArtifactIds(xs) { RepeatedIdStops(xs, all); }
    assert all[|xs|] in all;
  }

  // ---------- the anchoring loop ----------

  /** All bytes that a store holds or that anchoring some results can put into it. */
  ghost function BytesAtHand(objects: map<JsString, Bytes>, results: seq<CheckResult>): set<Bytes> {
    objects.Values
    + set x | x in results && Canonicalize(ResultJson(x), CANONICAL_BOUNDS).Ok? :: CanonicalBytes(ResultJson(x))
  }

  ghost predicate CollisionFree(hash: Hash, all: set<Bytes>) {
    forall a, b :: a in all && b in all ==> !Collides(hash, a, b)
  }

  lemma BytesAreAtHand(objects: map<JsString, Bytes>, results: seq<CheckResult>)
    ensures objects.Values <= BytesAtHand(objects, results)
    ensures WritesIn(results, BytesAtHand(objects, results))
  {
    hide ResultJson, Canonicalize, CanonicalBytes;
  }

  lemma WriteStaysAtHand(hash: Hash, objects: map<JsString, Bytes>, all: set<Bytes>, bytes: Bytes)
    requires CollisionFree(hash, all) && objects.Values <= all && bytes in all
    ensures NoCollision(hash, objects, bytes) && objects[ObjectName(hash(bytes)) := bytes].Values <= all
  {
    hide ObjectName;
    forall n | n in objects ensures objects[n] in all { assert objects[n] in objects.Values; }
  }

  ghost function BooksOf(e: EvidenceIndex): Books
    reads e
  {
    Books(e.artifacts, e.seenIds, e.totalBytes)
  }

  /** Nothing is taken out of a store or moved. */
  ghost predicate Extends(before: seq<Artifact>, now: seq<Artifact>) {
    |before| <= |now| && now[..|before|] == before
  }

  lemma ExtendsIsTransitive(a: seq<Artifact>, b: seq<Artifact>, c: seq<Artifact>)
    requires Extends(a, b) && Extends(b, c)
    ensures Extends(a, c)
  {
    assert c[..|a|] == c[..|b|][..|a|];
  }

  lemma ExtendsItself(a: seq<Artifact>)
    ensures Extends(a, a)
  {
  }

  /** One turn of the anchoring loop. */
  method AnchorResult(e: EvidenceIndex, plan: Plan, x: CheckResult, writable: bool, ghost all: set<Bytes>)
    returns (ok: bool)
    requires e.Valid()
    requires Canonicalize(ResultJson(x), CANONICAL_BOUNDS).Ok? ==> CanonicalBytes(ResultJson(x)) in all
    modifies e
    ensures e.Valid() && e.finalized == old(e.finalized) && e.indexFile == old(e.indexFile)
    ensures ok <==>
      && Anchorable(e.hash, plan, x) && !old(e.finalized) && writable
      && Enterable(AnchorOf(e.hash, plan, x), e.maxTotalBytes, old(BooksOf(e)))
    ensures ok ==> BooksOf(e) == Entered(AnchorOf(e.hash, plan, x), old(BooksOf(e)))
    ensures Extends(old(e.artifacts), e.artifacts)
    ensures CollisionFree(e.hash, all) && old(e.Sound() && e.objects.Values <= all) ==>
      e.Sound() && e.objects.Values <= all
  {
    hide ResultJson, Strings, Canonicalize, Encode, EvidenceIndex.Valid, EvidenceIndex.Sound, ObjectName, Stored,
      CollisionFree, NoCollision, ANCHOR_PREFIX;
    var check := CheckNamed(plan.checks, x.checkId);
    if check.None? { return false; }
    var validatorId := ValidatorId(e.hash, check.value.validator);
    if validatorId.None? { return false; }
    var text := Canonicalize(ResultJson(x), CANONICAL_BOUNDS);
    if text.Err? { return false; }
    var bytes := Encode(text.value);
    if CollisionFree(e.hash, all) && e.objects.Values <= all { WriteStaysAtHand(e.hash, e.objects, all, bytes); }
    var put := e.Put(ANCHOR_PREFIX + x.checkId, x.checkId, validatorId.value, bytes, JSON_MEDIA, writable);
    return put.Ok?;
  }

  /** The state after `k` turns. */
  ghost predicate Anchoring(hash: Hash, plan: Plan, results: seq<CheckResult>, writable: nat -> bool, finalized: bool,
      max: nat, before: Books, k: nat, now: Books)
  {
    && k <= |results| && AllAnchorable(hash, plan, results[..k])
    && (k > 0 ==> !finalized) && (forall j :: 0 <= j < k ==> writable(j))
    && Booked(AnchorsOf(hash, plan, results[..k]), max, before, now)
  }

  lemma AnchorsGrow(hash: Hash, plan: Plan, results: seq<CheckResult>, k: nat)
    requires k < |results| && AllAnchorable(hash, plan, results[..k]) && Anchorable(hash, plan, results[k])
    ensures AllAnchorable(hash, plan, results[..k + 1])
    ensures AnchorsOf(hash, plan, results[..k + 1])
            == AnchorsOf(hash, plan, results[..k]) + [AnchorOf(hash, plan, results[k])]
  {
    hide Anchorable, AnchorOf;
    assert results[..k + 1] == results[..k] + [results[k]];
  }

  lemma AnchoringStarts(hash: Hash, plan: Plan, results: seq<CheckResult>, writable: nat -> bool, finalized: bool,
      max: nat, before: Books)
    requires before.totalBytes <= max
    ensures Anchoring(hash, plan, results, writable, finalized, max, before, 0, before)
  {
    assert results[..0] == [] && AnchorsOf(hash, plan, results[..0]) == [];
    assert ArtifactIds([]) == {};
  }

  lemma AnchoringGoesOn(hash: Hash, plan: Plan, results: seq<CheckResult>, writable: nat -> bool, finalized: bool,
      max: nat, before: Books, k: nat, now: Books)
    requires k < |results| && Anchoring(hash, plan, results, writable, finalized, max, before, k, now)
    requires Anchorable(hash, plan, results[k]) && !finalized && writable(k)
    requires Enterable(AnchorOf(hash, plan, results[k]), max, now)
    ensures Anchoring(hash, plan, results, writable, finalized, max, before, k + 1,
                      Entered(AnchorOf(hash, plan, results[k]), now))
  {
    hide Anchorable, AnchorOf, AnchorsOf, AllAnchorable, Booked, Enterable, Entered;
    AnchorsGrow(hash, plan, results, k);
    BookedGoesOn(AnchorsOf(hash, plan, results[..k]), AnchorOf(hash, plan, results[k]), max, before, now);
  }

  lemma AnchoringStops(hash: Hash, plan: Plan, results: seq<CheckResult>, writable: nat -> bool, finalized: bool,
      max: nat, before: Books, k: nat, now: Books)
    requires k < |results| && Anchoring(hash, plan, results, writable, finalized, max, before, k, now)
    requires !(Anchorable(hash, plan, results[k]) && !finalized && writable(k)
               && Enterable(AnchorOf(hash, plan, results[k]), max, now))
    ensures !CanAnchor(hash, plan, results, writable, finalized, before.seenIds, max - before.totalBytes)
  {
    hide Anchorable, AnchorOf, Booked, Enterable, TotalLength, DistinctArtifactIds;
    if AllAnchorable(hash, plan, results) && !finalized && writable(k) {
      assert AnchorsOf(hash, plan, results[..k]) == AnchorsOf(hash, plan, results)[..k];
      BookedStops(AnchorsOf(hash, plan, results[..k]), AnchorsOf(hash, plan, results), max, before, now);
    }
  }

  lemma AnchoringEnds(hash: Hash, plan: Plan, results: seq<CheckResult>, writable: nat -> bool, finalized: bool,
      max: nat, before: Books, now: Books)
    requires Anchoring(hash, plan, results, writable, finalized, max, before, |results|, now)
    ensures CanAnchor(hash, plan, results, writable, finalized, before.seenIds, max - before.totalBytes)
    ensures AllAnchorable(hash, plan, results) && now.artifacts == before.artifacts + AnchorsOf(hash, plan, results)
  {
    hide Anchorable, AnchorOf, TotalLength, DistinctArtifactIds, AnchorsOf;
    assert results[..|results|] == results;
  }

  lemma ValidBooks(e: EvidenceIndex)
    requires e.Valid()
    ensures BooksOf(e).totalBytes <= e.maxTotalBytes
  {
  }

  /** Every write of a result belongs to `all`. */
  ghost predicate WritesIn(results: seq<CheckResult>, all: set<Bytes>) {
    forall x :: x in results && Canonicalize(ResultJson(x), CANONICAL_BOUNDS).Ok? ==>
      CanonicalBytes(ResultJson(x)) in all
  }

  /** The body of the loop, from one state to the next. */
  method AnchorNext(e: EvidenceIndex, plan: Plan, results: seq<CheckResult>, writable: nat -> bool, k: nat,
      ghost before: Books, ghost all: set<Bytes>)
    returns (ok: bool)
    requires e.Valid() && WritesIn(results, all) && k < |results|
    requires Anchoring(e.hash, plan, results, writable, e.finalized, e.maxTotalBytes, before, k, BooksOf(e))
    modifies e
    ensures e.Valid() && e.finalized == old(e.finalized) && e.indexFile == old(e.indexFile)
    ensures Extends(old(e.artifacts), e.artifacts)
    ensures ok ==> Anchoring(e.hash, plan, results, writable, e.finalized, e.maxTotalBytes, before, k + 1, BooksOf(e))
    ensures !ok ==> !CanAnchor(e.hash, plan, results, writable, e.finalized, before.seenIds,
                               e.maxTotalBytes - before.totalBytes)
    ensures CollisionFree(e.hash, all) && old(e.Sound() && e.objects.Values <= all) ==>
      e.Sound() && e.objects.Values <= all
  {
    ghost var now := BooksOf(e);
    assert results[k] in results;
    hide AnchorOf, Anchorable, Anchoring, BooksOf, CanAnchor, CanonicalBytes, Canonicalize, CollisionFree, Enterable,
      Entered, EvidenceIndex.Sound, EvidenceIndex.Valid, Extends, ResultJson;
    ok := AnchorResult(e, plan, results[k], writable(k), all);
    if ok {
      AnchoringGoesOn(e.hash, plan, results, writable, e.finalized, e.maxTotalBytes, before, k, now);
    } else {
      AnchoringStops(e.hash, plan, results, writable, e.finalized, e.maxTotalBytes, before, k, now);
    }
  }

  /** The loop that anchors every result; `all` is a set of bytes to which every write belongs. */
  method AnchorEach(e: EvidenceIndex, plan: Plan, results: seq<CheckResult>, writable: nat -> bool,
      ghost before: Books, ghost all: set<Bytes>)
    returns (ok: bool)
    requires e.Valid() && before == BooksOf(e) && WritesIn(results, all)
    modifies e
    ensures e.Valid() && e.finalized == old(e.finalized) && e.indexFile == old(e.indexFile)
    ensures Extends(old(e.artifacts), e.artifacts)
    ensures ok ==> Anchoring(e.hash, plan, results, writable, e.finalized, e.maxTotalBytes, before, |results|, BooksOf(e))
    ensures !ok ==> !CanAnchor(e.hash, plan, results, writable, e.finalized, before.seenIds,
                               e.maxTotalBytes - before.totalBytes)
    ensures CollisionFree(e.hash, all) && old(e.Sound() && e.objects.Values <= all) ==> e.Sound()
  {
    hide *;
    ValidBooks(e);
    AnchoringStarts(e.hash, plan, results, writable, e.finalized, e.maxTotalBytes, before);
    ExtendsItself(e.artifacts);
    ghost var first := e.artifacts;
    ghost var safe := CollisionFree(e.hash, all) && e.Sound() && e.objects.Values <= all;
    for k := 0 to |results|
      invariant e.Valid() && e.finalized == old(e.finalized) && e.indexFile == old(e.indexFile)
      invariant Anchoring(e.hash, plan, results, writable, e.finalized, e.maxTotalBytes, before, k, BooksOf(e))
      invariant Extends(first, e.artifacts)
      invariant safe ==> e.Sound() && e.objects.Values <= all
    {
      ghost var last := e.artifacts;
      ok := AnchorNext(e, plan, results, writable, k, before, all);
      ExtendsIsTransitive(first, last, e.artifacts);
      if !ok { return; }
    }
    return true;
  }

  /** Every result is anchored in the store, exactly when all of them can be. */
  method AnchorResults(e: EvidenceIndex, plan: Plan, results: seq<CheckResult>, writable: nat -> bool)
    returns (ok: bool)
    requires e.Valid()
    modifies e
    ensures e.Valid() && e.finalized == old(e.finalized) && e.indexFile == old(e.indexFile)
    ensures Extends(old(e.artifacts), e.artifacts)
    ensures ok <==> CanAnchor(e.hash, plan, results, writable, old(e.finalized), old(e.seenIds),
                              e.maxTotalBytes - old(e.totalBytes))
    ensures ok ==> e.artifacts == old(e.artifacts) + AnchorsOf(e.hash, plan, results)
    ensures ok ==> forall x :: x in results ==> HasAnchor(e.hash, e.artifacts, x)
    ensures old(e.Sound()) && CollisionFree(e.hash, BytesAtHand(old(e.objects), results)) ==> e.Sound()
  {
    ghost var before := BooksOf(e);
    assert before == Books(e.artifacts, e.seenIds, e.totalBytes);
    ghost var all := BytesAtHand(e.objects, results);
    hide Anchoring, CanAnchor, AnchorsOf, AllAnchorable, HasAnchor, CollisionFree, BytesAtHand, Canonicalize, ResultJson,
      CanonicalBytes, EvidenceIndex.Valid, EvidenceIndex.Sound;
    BytesAreAtHand(e.objects, results);
    ok := AnchorEach(e, plan, results, writable, before, all);
    if ok {
      AnchoringEnds(e.hash, plan, results, writable, e.finalized, e.maxTotalBytes, before, BooksOf(e));
      AnchorsAreThere(e.hash, plan, results, before.artifacts);
    }
  }

  lemma AnchorsAreThere(hash: Hash, plan: Plan, results: seq<CheckResult>, before: seq<Artifact>)
    requires AllAnchorable(hash, plan, results)
    ensures forall x :: x in results ==> HasAnchor(hash, before + AnchorsOf(hash, plan, results), x)
  {
    hide ResultJson, Canonicalize, Encode;
    forall x | x in results ensures HasAnchor(hash, before + AnchorsOf(hash, plan, results), x) {
      var k :| 0 <= k < |results| && results[k] == x;
      var a := (before + AnchorsOf(hash, plan, results))[|before| + k];
      assert a == AnchorOf(hash, plan, x) && a in before + AnchorsOf(hash, plan, results);
    }
  }

  /** With distinct ids, being there and being looked up are the same. */
  lemma {:induction false} NamedFinds(artifacts: seq<Artifact>, a: Artifact)
    requires DistinctArtifactIds(artifacts) && a in artifacts
    ensures ArtifactNamed(artifacts, a.artifactId) == Some(a)
  {
    ArtifactNamedIsMember(artifacts, a.artifactId);
    var b := ArtifactNamed(artifacts, a.artifactId).value;
    var j :| 0 <= j < |artifacts| && artifacts[j] == a;
    var k :| 0 <= k < |artifacts| && artifacts[k] == b;
    SameArtifactPlace(artifacts, j, k);
  }

  lemma HasAnchorIsAnchored(hash: Hash, artifacts: seq<Artifact>, sorted: seq<Artifact>, x: CheckResult)
    requires DistinctArtifactIds(sorted) && multiset(sorted) == multiset(artifacts) && HasAnchor(hash, artifacts, x)
    ensures Anchored(hash, sorted, x)
  {
    hide CanonicalDigest, ResultJson;
    SameMembers(sorted, artifacts);
    var a :| a in artifacts && a.artifactId == ANCHOR_PREFIX + x.checkId
             && Some(a.digest) == CanonicalDigest(hash, ResultJson(x));
    NamedFinds(sorted, a);
  }

  // ---------- the receipt ----------

  /** The receipt that an evaluation assembles from its plan, results and reduction. */
  function Assembled(plan: Plan, planDigest: Digest, results: seq<CheckResult>, capabilityIndex: Option<Digest>,
      artifactRoot: JsString, validators: seq<ValidatorPin>, indexDigest: Digest): Receipt
  {
    var reduced := Reduce(plan, planDigest, Supply(results));
    Receipt(
      plan.kernelRelease, plan.repositoryId, plan.baseCommit, plan.candidate, artifactRoot,
      ReceiptDigests(plan.sources.workContract, plan.sources.profile, plan.sources.packs, validators, planDigest,
                     capabilityIndex, Some(indexDigest)),
      results, reduced.disposition, reduced.reasonCodes, None)
  }

  lemma PlanParts(plan: Plan)
    ensures PlanJson(plan).Obj? && K_SOURCE_DIGESTS in PlanJson(plan).members
    ensures PlanJson(plan).members[K_SOURCE_DIGESTS] == SourcesJson(plan.sources)
  {
    hide ArrayOf, CandidateJson, FieldMap, PlanCheckJson, SourcesJson, Tag;
    NameTags();
    RisingNamesAreDistinct(PlanFields(plan));
    FieldLookUp(PlanFields(plan));
    var fields := PlanFields(plan);
    var k :| 0 <= k < |fields| && fields[k] == Field(K_SOURCE_DIGESTS, SourcesJson(plan.sources));
    assert fields[k].name in FieldMap(fields);
  }

  lemma SourceParts(s: SourceDigests)
    ensures SourcesJson(s).Obj? && K_PACKS in SourcesJson(s).members && K_CAPABILITY_INDEX in SourcesJson(s).members
    ensures SourcesJson(s).members[K_PACKS] == ArrayOf(PinJson, s.packs)
    ensures SourcesJson(s).members[K_CAPABILITY_INDEX] == OptionalDigest(s.capabilityIndex)
  {
    hide ArrayOf, FieldMap, OptionalDigest, PinJson, Tag;
    NameTags();
    RisingNamesAreDistinct(SourcesFields(s));
    FieldLookUp(SourcesFields(s));
    var fields := SourcesFields(s);
    var j :| 0 <= j < |fields| && fields[j] == Field(K_PACKS, ArrayOf(PinJson, s.packs));
    var k :| 0 <= k < |fields| && fields[k] == Field(K_CAPABILITY_INDEX, OptionalDigest(s.capabilityIndex));
    assert fields[j].name in FieldMap(fields) && fields[k].name in FieldMap(fields);
  }

  /** The parts of a plan that a verifier compares have a canonical form when the plan has one. */
  lemma PlanPartsPrint(plan: Plan)
    requires Canonicalize(PlanJson(plan), CANONICAL_BOUNDS).Ok?
    ensures Canonicalize(ArrayOf(PinJson, plan.sources.packs), CANONICAL_BOUNDS).Ok?
    ensures Canonicalize(OptionalDigest(plan.sources.capabilityIndex), CANONICAL_BOUNDS).Ok?
  {
    PlanParts(plan);
    SourceParts(plan.sources);
    hide *;
    ChildHasCanonicalForm(SourcesJson(plan.sources), PlanJson(plan), CANONICAL_BOUNDS);
    ChildHasCanonicalForm(ArrayOf(PinJson, plan.sources.packs), SourcesJson(plan.sources), CANONICAL_BOUNDS);
    ChildHasCanonicalForm(OptionalDigest(plan.sources.capabilityIndex), SourcesJson(plan.sources), CANONICAL_BOUNDS);
  }

  lemma RunResultsBind(plan: Plan, planDigest: Digest, steps: seq<Step>, run: Run)
    requires |steps| == |plan.checks| && IsRun(plan, planDigest, steps, run)
    ensures forall x :: x in run.results ==> x.planDigest == planDigest && x.candidateId == plan.candidate.id
  {
    forall x | x in run.results ensures x.planDigest == planDigest && x.candidateId == plan.candidate.id {
      var k :| 0 <= k < |run.results| && run.results[k] == x;
      if k >= run.ran { assert run.haltCode.Some?; }
    }
  }

  /**
   Every receipt the evaluator assembles from a run, printable as any canonical document is, passes the bare verifier,
   whatever happened in the run.
   */
  lemma AssembledReceiptVerifies(hash: Hash, plan: Plan, planDigest: Digest, steps: seq<Step>, run: Run,
      artifactRoot: JsString, validators: seq<ValidatorPin>, indexDigest: Digest, signatureValid: bool)
    requires |steps| == |plan.checks| && IsRun(plan, planDigest, steps, run)
    requires Canonicalize(PlanJson(plan), CANONICAL_BOUNDS).Ok?
    requires Canonicalize(Strings(Reduce(plan, planDigest, Supply(run.results)).reasonCodes), CANONICAL_BOUNDS).Ok?
    ensures Accepts(hash,
                    Assembled(plan, planDigest, run.results, plan.sources.capabilityIndex, artifactRoot, validators,
                              indexDigest),
                    plan, planDigest, signatureValid, None, None)
  {
    hide Assembled, BindsPlan, Canonicalize, EvidenceAgrees, IsRun, PlanJson, Printable, Reduce, Reproduces,
      SignatureAgrees, Strings, Supply;
    PlanPartsPrint(plan);
    RunResultsBind(plan, planDigest, steps, run);
    AssembledParts(plan, planDigest, run.results, artifactRoot, validators, indexDigest, signatureValid);
  }

  lemma AssembledParts(plan: Plan, planDigest: Digest, results: seq<CheckResult>, artifactRoot: JsString,
      validators: seq<ValidatorPin>, indexDigest: Digest, signatureValid: bool)
    requires Canonicalize(ArrayOf(PinJson, plan.sources.packs), CANONICAL_BOUNDS).Ok?
    requires Canonicalize(OptionalDigest(plan.sources.capabilityIndex), CANONICAL_BOUNDS).Ok?
    requires Canonicalize(Strings(Reduce(plan, planDigest, Supply(results)).reasonCodes), CANONICAL_BOUNDS).Ok?
    ensures var r := Assembled(plan, planDigest, results, plan.sources.capabilityIndex, artifactRoot, validators,
                               indexDigest);
            && Printable(r, plan, planDigest) && BindsPlan(r, plan, planDigest) && Reproduces(r, plan, planDigest)
            && SignatureAgrees(r, signatureValid, None) && r.results == results && r.candidate == plan.candidate
  {
    hide ArrayOf, Canonicalize, OptionalDigest, PinJson, Reduce, Strings, Supply;
  }

  /** An evidence reference that names an artifact the same check put into the store. */
  ghost predicate RefIndexed(artifacts: seq<Artifact>, checkId: JsString, ref: EvidenceRef) {
    exists a :: a in artifacts && a.artifactId == ref.artifactId && a.digest == ref.digest && a.checkId == checkId
  }

  ghost predicate RefsIndexed(artifacts: seq<Artifact>, x: CheckResult) {
    forall ref :: ref in x.evidence ==> RefIndexed(artifacts, x.checkId, ref)
  }

  lemma RefExactly(artifacts: seq<Artifact>, sorted: seq<Artifact>, checkId: JsString, ref: EvidenceRef)
    requires DistinctArtifactIds(sorted) && multiset(sorted) == multiset(artifacts)
    ensures RefHolds(sorted, checkId, ref) <==> RefIndexed(artifacts, checkId, ref)
  {
    SameMembers(sorted, artifacts);
    ArtifactNamedIsMember(sorted, ref.artifactId);
    if RefIndexed(artifacts, checkId, ref) {
      var a :| a in artifacts && a.artifactId == ref.artifactId && a.digest == ref.digest && a.checkId == checkId;
      NamedFinds(sorted, a);
    }
  }

  lemma ResultExactly(hash: Hash, artifacts: seq<Artifact>, sorted: seq<Artifact>, x: CheckResult)
    requires DistinctArtifactIds(sorted) && multiset(sorted) == multiset(artifacts) && HasAnchor(hash, artifacts, x)
    ensures ResultHolds(hash, sorted, x) <==> RefsIndexed(artifacts, x)
  {
    HasAnchorIsAnchored(hash, artifacts, sorted, x);
    forall ref ensures RefHolds(sorted, x.checkId, ref) <==> RefIndexed(artifacts, x.checkId, ref) {
      RefExactly(artifacts, sorted, x.checkId, ref);
    }
    hide RefHolds, RefIndexed, Anchored, HasAnchor;
  }

  /**
   With its finalized store, such a receipt verifies exactly when every evidence reference names an artifact of its own
   check: the anchors, the pinned index digest and the index binding always agree.
   */
  lemma AssembledReceiptVerifiesWithStore(e: EvidenceIndex, f: Finalized, plan: Plan, planDigest: Digest,
      steps: seq<Step>, run: Run, artifactRoot: JsString, validators: seq<ValidatorPin>, signatureValid: bool)
    requires e.Valid() && IsFinalized(e.hash, IndexDoc(e.binding, Sort(ArtifactBefore, e.artifacts)), f)
    requires e.binding == Binding(plan.repositoryId, plan.baseCommit, plan.candidate.id, plan.sources.workContract,
                                  plan.sources.profile, plan.sources.packs, planDigest)
    requires forall x :: x in run.results ==> HasAnchor(e.hash, e.artifacts, x)
    requires |steps| == |plan.checks| && IsRun(plan, planDigest, steps, run)
    requires Canonicalize(PlanJson(plan), CANONICAL_BOUNDS).Ok?
    requires Canonicalize(Strings(Reduce(plan, planDigest, Supply(run.results)).reasonCodes), CANONICAL_BOUNDS).Ok?
    ensures Accepts(e.hash,
                    Assembled(plan, planDigest, run.results, plan.sources.capabilityIndex, artifactRoot, validators,
                              f.indexDigest),
                    plan, planDigest, signatureValid, None, Some(Checked([], f.index, f.indexBytes)))
            <==> forall x :: x in run.results ==> RefsIndexed(e.artifacts, x)
  {
    var sorted := Sort(ArtifactBefore, e.artifacts);
    var r := Assembled(plan, planDigest, run.results, plan.sources.capabilityIndex, artifactRoot, validators,
                       f.indexDigest);
    SortedArtifactsLawful(e.artifacts);
    AssembledReceiptVerifies(e.hash, plan, planDigest, steps, run, artifactRoot, validators, f.indexDigest, signatureValid);
    forall x | x in run.results ensures ResultHolds(e.hash, sorted, x) <==> RefsIndexed(e.artifacts, x) {
      ResultExactly(e.hash, e.artifacts, sorted, x);
    }
    FinalizedAgrees(e.hash, IndexDoc(e.binding, sorted), f);
    hide Accepts, ArtifactBefore, Canonicalize, HasAnchor, IsFinalized, IsRun, PlanJson, Reduce, RefsIndexed,
      ResultHolds, Sort, Strings, Supply;
    StoreDecides(e.hash, r, plan, planDigest, signatureValid, f);
    assert IndexBinds(f.index, r, planDigest);
  }

  lemma FinalizedAgrees(hash: Hash, index: IndexDoc, f: Finalized)
    requires IsFinalized(hash, index, f)
    ensures f.index == index && f.indexDigest == hash(f.indexBytes)
  {
  }

  /** Once a receipt passes the bare verifier, only the store is left to decide. */
  lemma StoreDecides(hash: Hash, r: Receipt, plan: Plan, planDigest: Digest, signatureValid: bool, f: Finalized)
    requires Accepts(hash, r, plan, planDigest, signatureValid, None, None)
    requires r.digests.evidenceIndex == Some(hash(f.indexBytes))
    ensures IndexBinds(f.index, r, planDigest) ==>
      (Accepts(hash, r, plan, planDigest, signatureValid, None, Some(Checked([], f.index, f.indexBytes)))
       <==> forall x :: x in r.results ==> ResultHolds(hash, f.index.artifacts, x))
  {
    hide BindsPlan, IndexBinds, Printable, Reproduces, ResultHolds, ResultsBind, SignatureAgrees;
  }
}
