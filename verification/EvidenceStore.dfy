/** The evidence store: indexing under a byte ceiling, finalization, and the offline verification of a store. */
module EvidenceStore {
  import opened Base
  import opened Patterns
  import opened Ordering
  import opened Sorting
  import opened Text
  import opened Json
  import opened CanonicalJson
  import opened Plan
  import opened EvidenceDocument
  import opened IndexSize

  // ---------- digests and object names ----------

  /** `digest.slice("sha256:".length)`, the file name of an object. */
  function ObjectName(d: Digest): JsString {
    if |d| < |DIGEST_PREFIX| then [] else d[|DIGEST_PREFIX|..]
  }

  lemma ObjectNamesDiffer(a: Digest, b: Digest)
    requires IsDigest(a) && IsDigest(b) && ObjectName(a) == ObjectName(b)
    ensures a == b
  {
    assert a == a[..|DIGEST_PREFIX|] + a[|DIGEST_PREFIX|..];
    assert b == b[..|DIGEST_PREFIX|] + b[|DIGEST_PREFIX|..];
  }

  /** A hash whose values are printed SHA-256 digests. */
  ghost predicate PrintsDigests(h: Hash) {
    forall b :: IsDigest(h(b))
  }

  // ---------- lengths ----------

  /** The sum of the declared lengths. */
  function TotalLength(artifacts: seq<Artifact>): nat {
    if artifacts == [] then 0
    else TotalLength(artifacts[..|artifacts| - 1]) + artifacts[|artifacts| - 1].byteLength
  }

  lemma TotalLengthSnoc(artifacts: seq<Artifact>, a: Artifact)
    ensures TotalLength(artifacts + [a]) == TotalLength(artifacts) + a.byteLength
  {
    assert (artifacts + [a])[..|artifacts|] == artifacts;
  }

  lemma {:induction false} PrefixTotalsGrow(artifacts: seq<Artifact>, k: nat)
    requires k <= |artifacts|
    ensures TotalLength(artifacts[..k]) <= TotalLength(artifacts)
    decreases |artifacts|
  {
    if k == |artifacts| {
      assert artifacts[..k] == artifacts;
    } else {
      var front := artifacts[..|artifacts| - 1];
      assert front[..k] == artifacts[..k];
      PrefixTotalsGrow(front, k);
    }
  }

  lemma {:induction false} TotalIsSum(artifacts: seq<Artifact>)
    ensures TotalLength(artifacts) == SumOf(artifacts, (a: Artifact) => a.byteLength)
  {
    if artifacts != [] {
      var front, last := artifacts[..|artifacts| - 1], artifacts[|artifacts| - 1];
      TotalIsSum(front);
      assert artifacts == front + [last];
      SumOfConcat(front, [last], (a: Artifact) => a.byteLength);
      assert [last][1..] == [];
    }
  }

  /** The order of the artifacts does not change their sum. */
  lemma TotalIgnoresOrder(xs: seq<Artifact>, ys: seq<Artifact>)
    requires multiset(xs) == multiset(ys)
    ensures TotalLength(xs) == TotalLength(ys)
  {
    TotalIsSum(xs);
    TotalIsSum(ys);
    SumOfPermutation(xs, ys, (a: Artifact) => a.byteLength);
  }

  // ---------- the index ----------

  predicate ArtifactBefore(a: Artifact, b: Artifact) {
    Less(a.artifactId, b.artifactId)
  }

  /** The rules of evidence-index@1 beyond its schema: no id twice, sorted by id. */
  ghost predicate IndexLawful(x: IndexDoc) {
    && (forall j, k :: 0 <= j < k < |x.artifacts| ==> x.artifacts[j].artifactId != x.artifacts[k].artifactId)
    && forall k :: 0 < k < |x.artifacts| ==> !Less(x.artifacts[k].artifactId, x.artifacts[k - 1].artifactId)
  }

  // ---------- what a store holds ----------

  /** The object of an artifact is there, under its digest and at its length. */
  ghost predicate Holds(hash: Hash, objects: map<JsString, Bytes>, a: Artifact) {
    && IsDigest(a.digest) && ObjectName(a.digest) in objects
    && hash(objects[ObjectName(a.digest)]) == a.digest && |objects[ObjectName(a.digest)]| == a.byteLength
  }

  ghost predicate DeclaredBy(artifacts: seq<Artifact>, name: JsString) {
    exists a :: a in artifacts && ObjectName(a.digest) == name
  }

  ghost predicate DistinctArtifactIds(artifacts: seq<Artifact>) {
    forall j, k :: 0 <= j < k < |artifacts| ==> artifacts[j].artifactId != artifacts[k].artifactId
  }

  /** Every artifact has an id of its own, and that id is taken. */
  ghost predicate Indexed(artifacts: seq<Artifact>, seenIds: set<JsString>) {
    DistinctArtifactIds(artifacts) && forall a :: a in artifacts ==> a.artifactId in seenIds
  }

  /** The objects directory holds the object of every artifact, and nothing else. */
  ghost predicate Stored(hash: Hash, artifacts: seq<Artifact>, objects: map<JsString, Bytes>) {
    && (forall a :: a in artifacts ==> Holds(hash, objects, a))
    && forall name :: name in objects ==> DeclaredBy(artifacts, name)
  }

  lemma IndexedKeeps(artifacts: seq<Artifact>, seenIds: set<JsString>, id: JsString)
    requires Indexed(artifacts, seenIds)
    ensures Indexed(artifacts, seenIds + {id})
  {
  }

  lemma IndexedGrows(artifacts: seq<Artifact>, seenIds: set<JsString>, a: Artifact)
    requires Indexed(artifacts, seenIds) && a.artifactId !in seenIds
    ensures Indexed(artifacts + [a], seenIds + {a.artifactId})
  {
    forall k | 0 <= k < |artifacts| ensures artifacts[k].artifactId != a.artifactId {
      assert artifacts[k] in artifacts;
    }
  }

  /** No artifact of another length has this digest. */
  ghost predicate SameLengths(artifacts: seq<Artifact>, digest: Digest, length: nat) {
    forall a :: a in artifacts && a.digest == digest ==> a.byteLength == length
  }

  /** Whether the object under a digest may be written over: an artifact keeps its object as long as the lengths agree. */
  lemma HoldsAfterWrite(hash: Hash, objects: map<JsString, Bytes>, a: Artifact, bytes: Bytes)
    requires PrintsDigests(hash) && Holds(hash, objects, a)
    ensures Holds(hash, objects[ObjectName(hash(bytes)) := bytes], a) <==>
      (a.digest == hash(bytes) ==> a.byteLength == |bytes|)
  {
    assert IsDigest(hash(bytes));
    if ObjectName(a.digest) == ObjectName(hash(bytes)) { ObjectNamesDiffer(a.digest, hash(bytes)); }
    hide IsDigest;
  }

  /**
   Writing an object under its digest keeps every indexed object intact exactly when no artifact of another length has
   the same digest.
   */
  lemma StoredGrows(hash: Hash, artifacts: seq<Artifact>, objects: map<JsString, Bytes>, a: Artifact, bytes: Bytes)
    requires PrintsDigests(hash) && Stored(hash, artifacts, objects)
    requires a.digest == hash(bytes) && a.byteLength == |bytes|
    ensures Stored(hash, artifacts + [a], objects[ObjectName(a.digest) := bytes]) <==>
      SameLengths(artifacts, hash(bytes), |bytes|)
  {
    var after := objects[ObjectName(a.digest) := bytes];
    assert IsDigest(a.digest);
    hide ObjectName, IsDigest, PrintsDigests;
    forall b | b in artifacts
      ensures Holds(hash, after, b) <==> (b.digest == hash(bytes) ==> b.byteLength == |bytes|)
    {
      HoldsAfterWrite(hash, objects, b, bytes);
    }
    assert forall b :: b in artifacts ==> b in artifacts + [a];
    assert a in artifacts + [a] && Holds(hash, after, a);
    forall name | name in after ensures DeclaredBy(artifacts + [a], name) {
      if name != ObjectName(a.digest) {
        assert DeclaredBy(artifacts, name);
        var b :| b in artifacts && ObjectName(b.digest) == name;
        assert b in artifacts + [a];
      }
    }
    hide Holds;
  }

  /** The bytes collide with no object of the store. */
  ghost predicate NoCollision(hash: Hash, objects: map<JsString, Bytes>, bytes: Bytes) {
    forall name :: name in objects ==> !Collides(hash, objects[name], bytes)
  }

  /** Only a collision with an object of the store can give two artifacts one digest and two lengths. */
  lemma NoCollisionNoClash(hash: Hash, artifacts: seq<Artifact>, objects: map<JsString, Bytes>, bytes: Bytes)
    requires Stored(hash, artifacts, objects)
    requires NoCollision(hash, objects, bytes)
    ensures SameLengths(artifacts, hash(bytes), |bytes|)
  {
    hide ObjectName;
    forall a | a in artifacts && a.digest == hash(bytes) ensures a.byteLength == |bytes| {
      assert Holds(hash, objects, a);
      assert !Collides(hash, objects[ObjectName(a.digest)], bytes);
    }
  }

  lemma ArtifactOrderIsStrict(s: set<Artifact>)
    requires forall x, y :: x in s && y in s && x.artifactId == y.artifactId ==> x == y
    ensures StrictOrder(ArtifactBefore, s)
  {
    forall x, y | x in s && y in s && ArtifactBefore(x, y) ensures !ArtifactBefore(y, x) {
      LessAsymmetric(x.artifactId, y.artifactId);
    }
    forall x, y | x in s && y in s && x != y ensures ArtifactBefore(x, y) || ArtifactBefore(y, x) {
      LessTotal(x.artifactId, y.artifactId);
    }
    forall x, y, z | x in s && y in s && z in s && ArtifactBefore(x, y) && ArtifactBefore(y, z)
      ensures ArtifactBefore(x, z)
    {
      LessTransitive(x.artifactId, y.artifactId, z.artifactId);
    }
  }

  lemma SameArtifactPlace(artifacts: seq<Artifact>, j: int, k: int)
    requires DistinctArtifactIds(artifacts) && 0 <= j < |artifacts| && 0 <= k < |artifacts|
    requires artifacts[j].artifactId == artifacts[k].artifactId
    ensures j == k
  {
  }

  /** Sorting distinct artifacts satisfies the index rules, so they can never be what stops a finalization. */
  lemma SortedArtifactsLawful(artifacts: seq<Artifact>)
    requires DistinctArtifactIds(artifacts)
    ensures var sorted := Sort(ArtifactBefore, artifacts);
      && DistinctArtifactIds(sorted) && multiset(sorted) == multiset(artifacts) && |sorted| == |artifacts|
      && forall k :: 0 < k < |sorted| ==> !Less(sorted[k].artifactId, sorted[k - 1].artifactId)
  {
    var sorted := Sort(ArtifactBefore, artifacts);
    forall x, y | x in Elements(artifacts) && y in Elements(artifacts) && x.artifactId == y.artifactId ensures x == y {
      var j :| 0 <= j < |artifacts| && artifacts[j] == x;
      var k :| 0 <= k < |artifacts| && artifacts[k] == y;
      SameArtifactPlace(artifacts, j, k);
    }
    ArtifactOrderIsStrict(Elements(artifacts));
    assert NoDuplicates(artifacts) by {
      forall j, k | 0 <= j < k < |artifacts| ensures artifacts[j] != artifacts[k] {
        assert artifacts[j].artifactId != artifacts[k].artifactId;
      }
    }
    SortSorts(ArtifactBefore, artifacts, Elements(artifacts));
    SortKeeps(ArtifactBefore, artifacts);
    forall j, k | 0 <= j < k < |sorted|
      ensures sorted[j].artifactId != sorted[k].artifactId && !Less(sorted[k].artifactId, sorted[j].artifactId)
    {
      assert ArtifactBefore(sorted[j], sorted[k]);
      LessAsymmetric(sorted[j].artifactId, sorted[k].artifactId);
    }
  }

  lemma SortedIndexLawful(index: IndexDoc, artifacts: seq<Artifact>, seenIds: set<JsString>)
    requires Indexed(artifacts, seenIds) && index.artifacts == Sort(ArtifactBefore, artifacts)
    ensures |index.artifacts| == |artifacts| && IndexLawful(index)
  {
    SortedArtifactsLawful(artifacts);
  }

  // ---------- putting ----------

  datatype PutError = IndexIsFinalized | AlreadyIndexed | CeilingExceeded | WriteFailed

  datatype FinalizeError = AlreadyFinalized | InvalidIndex | NotCanonical

  datatype Finalized = Finalized(index: IndexDoc, indexBytes: Bytes, indexDigest: Digest)

  /** The index document, its canonical bytes, and their digest. */
  ghost predicate IsFinalized(hash: Hash, index: IndexDoc, f: Finalized) {
    && f.index == index
    && Canonicalize(IndexJson(index), CANONICAL_BOUNDS).Ok?
    && f.indexBytes == Encode(Canonicalize(IndexJson(index), CANONICAL_BOUNDS).value)
    && f.indexDigest == hash(f.indexBytes)
  }

  /** What `createEvidenceIndex` closes over, the objects directory and the index file included. */
  class EvidenceIndex {
    const hash: Hash
    const binding: Binding
    const maxTotalBytes: nat

    var artifacts: seq<Artifact>
    var seenIds: set<JsString>
    var finalized: bool
    var totalBytes: nat
    var objects: map<JsString, Bytes>
    var indexFile: Option<Bytes>
    /** Bytes charged by writes that failed after they were accounted for. */
    ghost var lost: nat

    /** The books are in order: what every call keeps, whatever the hash does. */
    ghost predicate Valid()
      reads this
    {
      && PrintsDigests(hash)
      && totalBytes == TotalLength(artifacts) + lost
      && totalBytes <= maxTotalBytes
      && Indexed(artifacts, seenIds)
    }

    /** The objects directory is what the artifacts say. */
    ghost predicate Sound()
      reads this
    {
      Stored(hash, artifacts, objects)
    }

    constructor (hash: Hash, binding: Binding, maxTotalBytes: nat)
      requires PrintsDigests(hash)
      ensures Valid() && Sound()
      ensures artifacts == [] && seenIds == {} && !finalized && totalBytes == 0 && lost == 0
      ensures objects == map[] && indexFile == None
      ensures this.hash == hash && this.binding == binding && this.maxTotalBytes == maxTotalBytes
    {
      this.hash, this.binding, this.maxTotalBytes := hash, binding, maxTotalBytes;
      artifacts, seenIds, finalized, totalBytes, objects, indexFile, lost := [], {}, false, 0, map[], None, 0;
    }

    /** `put`; `writable` says whether the object file can be written. */
    method Put(artifactId: JsString, checkId: JsString, validatorId: JsString, bytes: Bytes, mediaType: JsString,
        writable: bool)
      returns (r: Result<EvidenceRef, PutError>)
      requires Valid()
      modifies this
      ensures Valid() && finalized == old(finalized) && indexFile == old(indexFile)
      ensures r == Err(IndexIsFinalized) <==> old(finalized)
      ensures r == Err(AlreadyIndexed) <==> !old(finalized) && artifactId in old(seenIds)
      ensures r == Err(CeilingExceeded) <==>
        !old(finalized) && artifactId !in old(seenIds) && old(totalBytes) + |bytes| > maxTotalBytes
      ensures r == Err(WriteFailed) <==>
        !old(finalized) && artifactId !in old(seenIds) && old(totalBytes) + |bytes| <= maxTotalBytes && !writable
      ensures r.Ok? <==>
        !old(finalized) && artifactId !in old(seenIds) && old(totalBytes) + |bytes| <= maxTotalBytes && writable
      ensures r.Err? && r != Err(WriteFailed) ==>
        && artifacts == old(artifacts) && seenIds == old(seenIds) && totalBytes == old(totalBytes)
        && objects == old(objects) && lost == old(lost)
      ensures r == Err(WriteFailed) ==>
        && artifacts == old(artifacts) && objects == old(objects)
        && seenIds == old(seenIds) + {artifactId} && totalBytes == old(totalBytes) + |bytes|
        && lost == old(lost) + |bytes|
      ensures r.Ok? ==>
        && r.value == EvidenceRef(artifactId, hash(bytes))
        && artifacts == old(artifacts) + [Artifact(artifactId, checkId, validatorId, hash(bytes), |bytes|, mediaType)]
        && seenIds == old(seenIds) + {artifactId} && totalBytes == old(totalBytes) + |bytes| && lost == old(lost)
        && objects == old(objects)[ObjectName(hash(bytes)) := bytes]
      ensures old(Sound()) && r.Err? ==> Sound()
      ensures old(Sound()) && r.Ok? ==> (Sound() <==> SameLengths(old(artifacts), hash(bytes), |bytes|))
      ensures old(Sound()) && r.Ok? && NoCollision(hash, old(objects), bytes) ==> Sound()
    {
      hide TotalLength, Indexed, Stored, ObjectName, PrintsDigests;
      if finalized { return Err(IndexIsFinalized); }
      if artifactId in seenIds { return Err(AlreadyIndexed); }
      if totalBytes + |bytes| > maxTotalBytes { return Err(CeilingExceeded); }
      IndexedKeeps(artifacts, seenIds, artifactId);
      totalBytes := totalBytes + |bytes|;
      seenIds := seenIds + {artifactId};
      if !writable {
        lost := lost + |bytes|;
        return Err(WriteFailed);
      }
      var digest := hash(bytes);
      var artifact := Artifact(artifactId, checkId, validatorId, digest, |bytes|, mediaType);
      TotalLengthSnoc(artifacts, artifact);
      IndexedGrows(artifacts, old(seenIds), artifact);
      if Sound() {
        StoredGrows(hash, artifacts, objects, artifact, bytes);
        if NoCollision(hash, objects, bytes) {
          NoCollisionNoClash(hash, artifacts, objects, bytes);
        }
      }
      hide SameLengths;
      objects := objects[ObjectName(digest) := bytes];
      artifacts := artifacts + [artifact];
      return Ok(EvidenceRef(artifactId, digest));
    }

    /** `finalize`. */
    method Finalize() returns (r: Result<Finalized, FinalizeError>)
      requires Valid()
      modifies this
      ensures Valid() && finalized && (old(Sound()) ==> Sound())
      ensures artifacts == old(artifacts) && seenIds == old(seenIds) && totalBytes == old(totalBytes)
      ensures objects == old(objects) && lost == old(lost)
      ensures var index := IndexDoc(binding, Sort(ArtifactBefore, artifacts));
        && (r == Err(AlreadyFinalized) <==> old(finalized))
        && (r == Err(InvalidIndex) <==> !old(finalized) && !IndexShaped(index))
        && (r == Err(NotCanonical) <==>
              !old(finalized) && IndexShaped(index) && !IndexFits(index))
        && (r.Ok? ==> IsFinalized(hash, index, r.value) && IndexLawful(index) && IndexShaped(index))
      ensures r.Ok? ==> indexFile == Some(r.value.indexBytes)
      ensures r.Err? ==> indexFile == old(indexFile)
    {
      hide Canonicalize, Encode, IndexFits, IndexJson, IndexLawful, IndexShaped, Indexed, PrintsDigests, Sort, Stored,
        TotalLength;
      if finalized { return Err(AlreadyFinalized); }
      finalized := true;
      var index := IndexDoc(binding, Sort(ArtifactBefore, artifacts));
      SortedIndexLawful(index, artifacts, seenIds);
      if !IndexShaped(index) { return Err(InvalidIndex); }
      IndexPrintsExactly(index);
      var text := Canonicalize(IndexJson(index), CANONICAL_BOUNDS);
      if text.Err? { return Err(NotCanonical); }
      var indexBytes := Encode(text.value);
      indexFile := Some(indexBytes);
      return Ok(Finalized(index, indexBytes, hash(indexBytes)));
    }
  }

  /** A write that failed is never made up for: its id stays taken, so the same put is refused from then on. */
  method FailedWriteCannotBeRepeated(store: EvidenceIndex, artifactId: JsString, checkId: JsString,
      validatorId: JsString, bytes: Bytes, mediaType: JsString)
    returns (first: Result<EvidenceRef, PutError>, second: Result<EvidenceRef, PutError>)
    requires store.Valid() && !store.finalized && artifactId !in store.seenIds
    requires store.totalBytes + |bytes| <= store.maxTotalBytes
    modifies store
    ensures first == Err(WriteFailed) && second == Err(AlreadyIndexed)
    ensures store.Valid() && store.artifacts == old(store.artifacts) && store.objects == old(store.objects)
    ensures store.totalBytes == old(store.totalBytes) + |bytes|
  {
    first := store.Put(artifactId, checkId, validatorId, bytes, mediaType, false);
    second := store.Put(artifactId, checkId, validatorId, bytes, mediaType, true);
  }
}
