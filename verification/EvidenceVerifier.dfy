/** `verifyEvidenceDir`: it accepts exactly the stores their index describes. */
module EvidenceVerifier {
  import opened Base
  import opened Patterns
  import opened Ordering
  import opened Sorting
  import opened Text
  import opened Json
  import opened StrictJson
  import opened CanonicalJson
  import opened CanonicalTheorems
  import opened EvidenceDocument
  import opened EvidenceStore

  datatype Entry = RegularFile(bytes: Bytes) | NotRegular

  /** An evidence directory: whether root and objects directory are concrete, the index file, the object entries. */
  datatype EvidenceDir = EvidenceDir(concrete: bool, indexFile: Option<Bytes>, entries: map<JsString, Entry>)

  const MAX_INDEX_BYTES := 1_048_576

  datatype EvidenceError =
    | OverCeiling
    | ObjectMissing(artifactId: JsString)
    | NotDeclaredFile(artifactId: JsString)
    | DigestMismatch(artifactId: JsString)
    | LengthDrift(artifactId: JsString)
    | MalformedObject(name: JsString)
    | UndeclaredObject(name: JsString)

  datatype Verification =
    | BadCeiling
    | Unreadable
    | IndexRejected
    | Checked(errors: seq<EvidenceError>, index: IndexDoc, indexBytes: Bytes)

  /** Reading an evidence-index@1: strict JSON, the schema, and its rules. */
  ghost predicate Decodes(decode: Bytes -> Option<IndexDoc>) {
    forall b, x :: decode(b) == Some(x) <==>
      ParseBytes(b, CANONICAL_BOUNDS) == Ok(IndexJson(x)) && IndexShaped(x) && IndexLawful(x)
  }

  // ---------- what is to be accepted ----------

  /** The artifact's object is a regular file with the declared digest and length. */
  ghost predicate Intact(hash: Hash, entries: map<JsString, Entry>, a: Artifact) {
    && ObjectName(a.digest) in entries
    && entries[ObjectName(a.digest)].RegularFile?
    && hash(entries[ObjectName(a.digest)].bytes) == a.digest
    && |entries[ObjectName(a.digest)].bytes| == a.byteLength
  }

  /** The objects are exactly the declared ones, all intact, and together within the ceiling. */
  ghost predicate Matches(hash: Hash, artifacts: seq<Artifact>, entries: map<JsString, Entry>, ceiling: nat) {
    && TotalLength(artifacts) <= ceiling
    && (forall a :: a in artifacts ==> Intact(hash, entries, a))
    && forall name :: name in entries ==> DeclaredBy(artifacts, name)
  }

  ghost predicate Describes(hash: Hash, decode: Bytes -> Option<IndexDoc>, dir: EvidenceDir, ceiling: nat) {
    && dir.concrete && dir.indexFile.Some? && |dir.indexFile.value| <= MAX_INDEX_BYTES
    && decode(dir.indexFile.value).Some?
    && Matches(hash, decode(dir.indexFile.value).value.artifacts, dir.entries, ceiling)
  }

  // ---------- what is found ----------

  /** The error of an artifact whose object is missing, not the declared bounded file, or not the declared bytes. */
  ghost predicate ArtifactGives(hash: Hash, entries: map<JsString, Entry>, a: Artifact, e: EvidenceError) {
    var name := ObjectName(a.digest);
    if name !in entries then e == ObjectMissing(a.artifactId)
    else if entries[name].NotRegular? || |entries[name].bytes| > a.byteLength then e == NotDeclaredFile(a.artifactId)
    else
      || (e == DigestMismatch(a.artifactId) && hash(entries[name].bytes) != a.digest)
      || (e == LengthDrift(a.artifactId) && |entries[name].bytes| < a.byteLength)
  }

  /** One of the first `n` artifacts gives the error. */
  ghost predicate GivenUpTo(hash: Hash, artifacts: seq<Artifact>, entries: map<JsString, Entry>, n: nat, e: EvidenceError)
    requires n <= |artifacts|
  {
    exists k :: 0 <= k < n && ArtifactGives(hash, entries, artifacts[k], e)
  }

  /** The error of what the objects directory holds, given the names that were declared. */
  predicate EntryGives(entries: map<JsString, Entry>, declared: set<JsString>, e: EvidenceError) {
    || (e.MalformedObject? && e.name in entries && (entries[e.name].NotRegular? || !IsObjectName(e.name)))
    || (e.UndeclaredObject? && e.name in entries && entries[e.name].RegularFile? && IsObjectName(e.name)
        && e.name !in declared)
  }

  /** How many artifacts are inspected: those before the first one that takes the sum over the ceiling. */
  ghost predicate Reaches(artifacts: seq<Artifact>, ceiling: nat, n: nat) {
    && n <= |artifacts| && TotalLength(artifacts[..n]) <= ceiling
    && (n < |artifacts| ==> TotalLength(artifacts[..n + 1]) > ceiling)
  }

  /** The names declared by the artifacts that are inspected, and by the one that stops the pass. */
  function DeclaredNames(artifacts: seq<Artifact>, n: nat): set<JsString>
    requires n <= |artifacts|
  {
    set a | a in artifacts[..if n < |artifacts| then n + 1 else n] :: ObjectName(a.digest)
  }

  /** Every error that the verification lists. */
  ghost predicate Finds(hash: Hash, artifacts: seq<Artifact>, entries: map<JsString, Entry>, ceiling: nat, n: nat,
      e: EvidenceError)
    requires n <= |artifacts|
  {
    || GivenUpTo(hash, artifacts, entries, n, e)
    || (e == OverCeiling && TotalLength(artifacts) > ceiling)
    || EntryGives(entries, DeclaredNames(artifacts, n), e)
  }

  // ---------- the verifier ----------

  /** The errors of one artifact's object. */
  method InspectArtifact(hash: Hash, entries: map<JsString, Entry>, a: Artifact) returns (errors: seq<EvidenceError>)
    ensures forall e :: e in errors <==> ArtifactGives(hash, entries, a, e)
    ensures errors == [] <==> Intact(hash, entries, a)
  {
    var name := ObjectName(a.digest);
    if name !in entries { return [ObjectMissing(a.artifactId)]; }
    if !entries[name].RegularFile? || |entries[name].bytes| > a.byteLength { return [NotDeclaredFile(a.artifactId)]; }
    errors := [];
    if hash(entries[name].bytes) != a.digest { errors := errors + [DigestMismatch(a.artifactId)]; }
    if |entries[name].bytes| != a.byteLength { errors := errors + [LengthDrift(a.artifactId)]; }
  }

  /** What the pass over the first `k` artifacts has established. */
  ghost predicate Passed(hash: Hash, artifacts: seq<Artifact>, entries: map<JsString, Entry>, k: nat,
      declared: set<JsString>, errors: seq<EvidenceError>)
    requires k <= |artifacts|
  {
    && (forall name :: name in declared <==> DeclaredBy(artifacts[..k], name))
    && (forall e :: e in errors <==> GivenUpTo(hash, artifacts, entries, k, e))
    && (errors == [] <==> forall a :: a in artifacts[..k] ==> Intact(hash, entries, a))
  }

  lemma PassedStep(hash: Hash, artifacts: seq<Artifact>, entries: map<JsString, Entry>, k: nat,
      declared: set<JsString>, errors: seq<EvidenceError>, more: seq<EvidenceError>)
    requires k < |artifacts| && Passed(hash, artifacts, entries, k, declared, errors)
    requires forall e :: e in more <==> ArtifactGives(hash, entries, artifacts[k], e)
    requires more == [] <==> Intact(hash, entries, artifacts[k])
    ensures Passed(hash, artifacts, entries, k + 1, declared + {ObjectName(artifacts[k].digest)}, errors + more)
  {
    hide ArtifactGives, Intact, ObjectName;
    assert artifacts[..k + 1] == artifacts[..k] + [artifacts[k]];
    forall name ensures DeclaredBy(artifacts[..k + 1], name)
                        <==> DeclaredBy(artifacts[..k], name) || name == ObjectName(artifacts[k].digest) {
    }
    assert forall a :: a in artifacts[..k + 1] <==> a in artifacts[..k] || a == artifacts[k];
  }

  /** The pass over the declared artifacts; it stops at the artifact that breaks the ceiling. */
  method InspectArtifacts(hash: Hash, artifacts: seq<Artifact>, entries: map<JsString, Entry>, ceiling: nat)
    returns (declared: set<JsString>, errors: seq<EvidenceError>, ghost n: nat)
    requires ceiling <= MAX_SAFE_INTEGER
    ensures Reaches(artifacts, ceiling, n) && declared == DeclaredNames(artifacts, n)
    ensures TotalLength(artifacts) <= ceiling <==> n == |artifacts|
    ensures n == |artifacts| ==> Passed(hash, artifacts, entries, n, declared, errors)
    ensures forall e :: e in errors <==>
      GivenUpTo(hash, artifacts, entries, n, e) || (e == OverCeiling && TotalLength(artifacts) > ceiling)
  {
    hide ArtifactGives, DeclaredNames, GivenUpTo, Intact, ObjectName, Passed, Reaches, TotalLength;
    declared, errors := {}, [];
    var totalBytes := 0;
    PassedStart(hash, artifacts, entries);
    for k := 0 to |artifacts|
      invariant totalBytes == TotalLength(artifacts[..k]) <= ceiling
      invariant declared == set a | a in artifacts[..k] :: ObjectName(a.digest)
      invariant Passed(hash, artifacts, entries, k, declared, errors)
    {
      var a := artifacts[k];
      TotalLengthSnoc(artifacts[..k], a);
      assert artifacts[..k + 1] == artifacts[..k] + [a];
      ghost var before := declared;
      declared := declared + {ObjectName(a.digest)};
      totalBytes := totalBytes + a.byteLength;
      if totalBytes > MAX_SAFE_INTEGER || totalBytes > ceiling {
        PassedOver(artifacts, ceiling, k, before);
        PassedErrors(hash, artifacts, entries, k, before, errors);
        errors := errors + [OverCeiling];
        n := k;
        return;
      }
      var more := InspectArtifact(hash, entries, a);
      PassedStep(hash, artifacts, entries, k, before, errors, more);
      errors := errors + more;
    }
    n := |artifacts|;
    PassedWhole(hash, artifacts, entries, ceiling, declared, errors);
  }

  lemma PassedStart(hash: Hash, artifacts: seq<Artifact>, entries: map<JsString, Entry>)
    ensures Passed(hash, artifacts, entries, 0, {}, []) && TotalLength(artifacts[..0]) == 0
  {
  }

  lemma PassedErrors(hash: Hash, artifacts: seq<Artifact>, entries: map<JsString, Entry>, k: nat,
      declared: set<JsString>, errors: seq<EvidenceError>)
    requires k <= |artifacts| && Passed(hash, artifacts, entries, k, declared, errors)
    ensures forall e :: e in errors <==> GivenUpTo(hash, artifacts, entries, k, e)
  {
    hide DeclaredBy, GivenUpTo, Intact;
  }

  lemma PassedOver(artifacts: seq<Artifact>, ceiling: nat, k: nat, declared: set<JsString>)
    requires k < |artifacts| && declared == set a | a in artifacts[..k] :: ObjectName(a.digest)
    requires TotalLength(artifacts[..k]) <= ceiling < TotalLength(artifacts[..k + 1])
    ensures Reaches(artifacts, ceiling, k) && TotalLength(artifacts) > ceiling
    ensures DeclaredNames(artifacts, k) == declared + {ObjectName(artifacts[k].digest)}
  {
    hide ObjectName, TotalLength;
    PrefixTotalsGrow(artifacts, k + 1);
    assert artifacts[..k + 1] == artifacts[..k] + [artifacts[k]];
  }

  lemma PassedWhole(hash: Hash, artifacts: seq<Artifact>, entries: map<JsString, Entry>, ceiling: nat,
      declared: set<JsString>, errors: seq<EvidenceError>)
    requires Passed(hash, artifacts, entries, |artifacts|, declared, errors)
    requires declared == set a | a in artifacts[..|artifacts|] :: ObjectName(a.digest)
    requires TotalLength(artifacts[..|artifacts|]) <= ceiling
    ensures Reaches(artifacts, ceiling, |artifacts|) && TotalLength(artifacts) <= ceiling
    ensures declared == DeclaredNames(artifacts, |artifacts|)
    ensures forall e :: e in errors <==> GivenUpTo(hash, artifacts, entries, |artifacts|, e)
  {
    assert artifacts[..|artifacts|] == artifacts;
    hide GivenUpTo, Intact, ObjectName, TotalLength;
  }

  /** The pass over what the objects directory really holds. */
  method InspectEntries(entries: map<JsString, Entry>, declared: set<JsString>) returns (errors: seq<EvidenceError>)
    ensures forall e :: e in errors <==> EntryGives(entries, declared, e)
    ensures errors == [] <==>
      forall name :: name in entries ==> entries[name].RegularFile? && IsObjectName(name) && name in declared
  {
    hide IsObjectName;
    var names := Sorted(entries.Keys);
    SortedFacts(entries.Keys);
    assert forall name :: name in names <==> name in Elements(names);
    errors := [];
    for k := 0 to |names|
      invariant forall e :: e in errors <==> EntryGives(entries, declared, e) && e.name in names[..k]
    {
      var name := names[k];
      assert names[..k + 1] == names[..k] + [name];
      if !entries[name].RegularFile? || !IsObjectName(name) {
        errors := errors + [MalformedObject(name)];
      } else if name !in declared {
        errors := errors + [UndeclaredObject(name)];
      }
    }
    assert names[..|names|] == names;
    EntriesDecide(entries, declared, errors);
  }

  lemma EntriesDecide(entries: map<JsString, Entry>, declared: set<JsString>, errors: seq<EvidenceError>)
    requires forall e :: e in errors <==> EntryGives(entries, declared, e)
    ensures errors == [] <==>
      forall name :: name in entries ==> entries[name].RegularFile? && IsObjectName(name) && name in declared
  {
    hide IsObjectName;
    if errors != [] { assert EntryGives(entries, declared, errors[0]); }
    if errors == [] {
      forall name | name in entries ensures entries[name].RegularFile? && IsObjectName(name) && name in declared {
        assert MalformedObject(name) !in errors && UndeclaredObject(name) !in errors;
      }
    }
  }

  lemma PassesDecide(hash: Hash, artifacts: seq<Artifact>, entries: map<JsString, Entry>, ceiling: nat,
      declared: set<JsString>, errors: seq<EvidenceError>, stored: seq<EvidenceError>)
    requires TotalLength(artifacts) <= ceiling && forall a :: a in artifacts ==> IsDigest(a.digest)
    requires Passed(hash, artifacts, entries, |artifacts|, declared, errors)
    requires stored == [] <==>
      forall name :: name in entries ==> entries[name].RegularFile? && IsObjectName(name) && name in declared
    ensures errors + stored == [] <==> Matches(hash, artifacts, entries, ceiling)
  {
    PassedAll(hash, artifacts, entries, declared, errors);
    hide *;
    if errors == [] && stored == [] {
      NothingFoundMatches(hash, artifacts, entries, ceiling, declared);
    }
    if Matches(hash, artifacts, entries, ceiling) {
      MatchFindsNothing(hash, artifacts, entries, ceiling, declared);
    }
  }

  lemma NothingFoundMatches(hash: Hash, artifacts: seq<Artifact>, entries: map<JsString, Entry>, ceiling: nat,
      declared: set<JsString>)
    requires TotalLength(artifacts) <= ceiling && forall a :: a in artifacts ==> Intact(hash, entries, a)
    requires forall name :: name in declared <==> DeclaredBy(artifacts, name)
    requires forall name :: name in entries ==> name in declared
    ensures Matches(hash, artifacts, entries, ceiling)
  {
    hide TotalLength, Intact, DeclaredBy;
  }

  lemma MatchFindsNothing(hash: Hash, artifacts: seq<Artifact>, entries: map<JsString, Entry>, ceiling: nat,
      declared: set<JsString>)
    requires Matches(hash, artifacts, entries, ceiling) && forall a :: a in artifacts ==> IsDigest(a.digest)
    requires forall name :: name in declared <==> DeclaredBy(artifacts, name)
    ensures forall a :: a in artifacts ==> Intact(hash, entries, a)
    ensures forall name :: name in entries ==> entries[name].RegularFile? && IsObjectName(name) && name in declared
  {
    hide TotalLength, Intact, DeclaredBy, IsDigest, IsObjectName;
    forall name | name in entries ensures entries[name].RegularFile? && IsObjectName(name) && name in declared {
      DeclaredEntry(hash, artifacts, entries, name);
    }
  }

  lemma PassedAll(hash: Hash, artifacts: seq<Artifact>, entries: map<JsString, Entry>,
      declared: set<JsString>, errors: seq<EvidenceError>)
    requires Passed(hash, artifacts, entries, |artifacts|, declared, errors)
    ensures forall name :: name in declared <==> DeclaredBy(artifacts, name)
    ensures errors == [] <==> forall a :: a in artifacts ==> Intact(hash, entries, a)
  {
    assert artifacts[..|artifacts|] == artifacts;
    hide GivenUpTo, Intact, DeclaredBy;
  }

  lemma DeclaredEntry(hash: Hash, artifacts: seq<Artifact>, entries: map<JsString, Entry>, name: JsString)
    requires forall a :: a in artifacts ==> IsDigest(a.digest) && Intact(hash, entries, a)
    requires DeclaredBy(artifacts, name) && name in entries
    ensures entries[name].RegularFile? && IsObjectName(name)
  {
    var a :| a in artifacts && ObjectName(a.digest) == name;
    assert Intact(hash, entries, a) && IsDigest(a.digest);
  }

  /** `verifyEvidenceDir`. */
  method VerifyEvidenceDir(hash: Hash, decode: Bytes -> Option<IndexDoc>, dir: EvidenceDir, maxTotalBytes: int)
    returns (r: Verification, ghost n: nat)
    requires Decodes(decode)
    ensures r.BadCeiling? <==> !(0 <= maxTotalBytes <= MAX_SAFE_INTEGER)
    ensures r.Unreadable? <==> 0 <= maxTotalBytes <= MAX_SAFE_INTEGER && !IsReadable(dir)
    ensures r.IndexRejected? <==>
      0 <= maxTotalBytes <= MAX_SAFE_INTEGER && IsReadable(dir) && decode(dir.indexFile.value).None?
    ensures r.Checked? ==>
      && IsReadable(dir) && dir.indexFile == Some(r.indexBytes) && decode(r.indexBytes) == Some(r.index)
      && 0 <= maxTotalBytes && Reaches(r.index.artifacts, maxTotalBytes, n)
      && forall e :: e in r.errors <==> Finds(hash, r.index.artifacts, dir.entries, maxTotalBytes, n, e)
    ensures r.Checked? && r.errors == [] <==>
      0 <= maxTotalBytes <= MAX_SAFE_INTEGER && Describes(hash, decode, dir, maxTotalBytes)
  {
    n := 0;
    if !(0 <= maxTotalBytes <= MAX_SAFE_INTEGER) { return BadCeiling, n; }
    if !dir.concrete || dir.indexFile.None? || |dir.indexFile.value| > MAX_INDEX_BYTES { return Unreadable, n; }
    var index := decode(dir.indexFile.value);
    if index.None? { return IndexRejected, n; }
    var artifacts := index.value.artifacts;
    assert IndexShaped(index.value);
    assert forall a :: a in artifacts ==> ArtifactShaped(a) && IsDigest(a.digest);
    hide Decodes, DeclaredNames, EntryGives, GivenUpTo, IsDigest, Matches, Passed, Reaches, TotalLength;
    var declared, errors;
    declared, errors, n := InspectArtifacts(hash, artifacts, dir.entries, maxTotalBytes);
    var stored := InspectEntries(dir.entries, declared);
    if TotalLength(artifacts) <= maxTotalBytes {
      PassesDecide(hash, artifacts, dir.entries, maxTotalBytes, declared, errors, stored);
    } else {
      OverCeilingNeverMatches(hash, artifacts, dir.entries, maxTotalBytes);
      assert OverCeiling in errors;
    }
    return Checked(errors + stored, index.value, dir.indexFile.value), n;
  }

  /** The directories are concrete, and the index file is there and small enough to be read. */
  predicate IsReadable(dir: EvidenceDir) {
    dir.concrete && dir.indexFile.Some? && |dir.indexFile.value| <= MAX_INDEX_BYTES
  }

  lemma OverCeilingNeverMatches(hash: Hash, artifacts: seq<Artifact>, entries: map<JsString, Entry>, ceiling: nat)
    requires TotalLength(artifacts) > ceiling
    ensures !Matches(hash, artifacts, entries, ceiling)
  {
  }

  // ---------- a finalized store verifies ----------

  function AsEntries(objects: map<JsString, Bytes>): map<JsString, Entry> {
    map name | name in objects :: RegularFile(objects[name])
  }

  /** The directory that an index and its objects make. */
  function DirOf(indexBytes: Bytes, objects: map<JsString, Bytes>): EvidenceDir {
    EvidenceDir(true, Some(indexBytes), AsEntries(objects))
  }

  /** An objects directory matches its artifacts, in any order, exactly when it holds what they say. */
  lemma StoredMatches(hash: Hash, artifacts: seq<Artifact>, sorted: seq<Artifact>, objects: map<JsString, Bytes>,
      ceiling: nat)
    requires multiset(sorted) == multiset(artifacts) && TotalLength(artifacts) <= ceiling
    requires forall a :: a in sorted ==> IsDigest(a.digest)
    ensures Matches(hash, sorted, AsEntries(objects), ceiling) <==> Stored(hash, artifacts, objects)
  {
    TotalIgnoresOrder(sorted, artifacts);
    SameMembers(sorted, artifacts);
    assert forall a :: a in sorted <==> a in artifacts;
    hide TotalLength, ObjectName, IsDigest;
    assert forall a :: a in artifacts ==> (Intact(hash, AsEntries(objects), a) <==> Holds(hash, objects, a));
    assert forall name :: DeclaredBy(sorted, name) <==> DeclaredBy(artifacts, name);
    assert AsEntries(objects).Keys == objects.Keys;
    hide Intact, Holds, DeclaredBy, AsEntries;
    assert forall name :: name in AsEntries(objects) <==> name in AsEntries(objects).Keys;
  }

  /**
   What a finalized index wrote is a store that the offline verifier accepts, at any ceiling its bytes fit, exactly when
   the objects directory is sound.
   */
  lemma FinalizedStoreVerifies(e: EvidenceIndex, f: Finalized, decode: Bytes -> Option<IndexDoc>, ceiling: nat)
    requires e.Valid() && Decodes(decode)
    requires IsFinalized(e.hash, IndexDoc(e.binding, Sort(ArtifactBefore, e.artifacts)), f)
    requires IndexLawful(f.index) && IndexShaped(f.index)
    requires e.totalBytes <= ceiling <= MAX_SAFE_INTEGER
    ensures Describes(e.hash, decode, DirOf(f.indexBytes, e.objects), ceiling) <==> e.Sound()
  {
    FinalizedIndexDecodes(e.hash, f, decode);
    SortKeeps(ArtifactBefore, e.artifacts);
    assert forall a :: a in f.index.artifacts ==> ArtifactShaped(a) && IsDigest(a.digest);
    hide Decodes, IndexLawful, IndexShaped, Matches, Stored, Sort, Indexed, AsEntries, IsDigest;
    StoredMatches(e.hash, e.artifacts, f.index.artifacts, e.objects, ceiling);
  }

  lemma FinalizedIndexDecodes(hash: Hash, f: Finalized, decode: Bytes -> Option<IndexDoc>)
    requires Decodes(decode) && IsFinalized(hash, f.index, f)
    requires IndexLawful(f.index) && IndexShaped(f.index)
    ensures decode(f.indexBytes) == Some(f.index) && |f.indexBytes| <= MAX_INDEX_BYTES
  {
    hide IndexLawful, IndexShaped, IndexJson, ParseBytes;
    ParseInvertsCanonicalize(IndexJson(f.index), CANONICAL_BOUNDS);
    EncodeLength(Canonicalize(IndexJson(f.index), CANONICAL_BOUNDS).value);
  }
}
