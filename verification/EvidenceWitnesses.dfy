/** Evidence stores built from nothing: one that is finalized, and two that no finalization can print. */
module EvidenceWitnesses {
  import opened Base
  import opened Patterns
  import opened Ordering
  import opened Sorting
  import opened Json
  import opened Plan
  import opened EvidenceDocument
  import opened EvidenceStore
  import opened PrintCost
  import opened IndexSize
  import opened Samples
  import opened Sealing

  // ---------- sample artifacts ----------

  const TEXT_MEDIA: JsString := Ascii("text/plain")

  /** The artifact number `k`, with an id of `letters` letters. */
  function SampleArtifact(k: nat, letters: nat, digest: Digest, byteLength: nat): Artifact
    requires k < 0x1_0000 && letters >= 4
  {
    Artifact(SampleId(k, letters), SampleId(0, letters), SAMPLE_VERSIONED, digest, byteLength, TEXT_MEDIA)
  }

  function SampleArtifacts(n: nat, letters: nat, digest: Digest, byteLength: nat): seq<Artifact>
    requires n <= 0x1_0000 && letters >= 4
  {
    seq(n, k requires 0 <= k < n => SampleArtifact(k, letters, digest, byteLength))
  }

  lemma SampleArtifactIsShaped(k: nat, letters: nat, digest: Digest, byteLength: nat)
    requires k < 0x1_0000 && 4 <= letters <= MAX_ID_LENGTH && IsDigest(digest)
    ensures ArtifactShaped(SampleArtifact(k, letters, digest, byteLength))
  {
    SampleIdFacts(k, letters);
    SampleIdFacts(0, letters);
    SampleVersionedIsShaped();
    hide SampleId, IsKebab, IsValidatorRef, IsDigest, SAMPLE_VERSIONED;
  }

  lemma SampleIndexIsShaped(binding: Binding, n: nat, letters: nat, digest: Digest, byteLength: nat)
    requires n <= MAX_INDEXED_ARTIFACTS && 4 <= letters <= MAX_ID_LENGTH && IsDigest(digest) && BindingShaped(binding)
    ensures IndexShaped(IndexDoc(binding, SampleArtifacts(n, letters, digest, byteLength)))
  {
    var xs := SampleArtifacts(n, letters, digest, byteLength);
    hide ArtifactShaped, BindingShaped, SampleArtifact, IsDigest;
    forall a | a in xs ensures ArtifactShaped(a) {
      var k :| 0 <= k < |xs| && xs[k] == a;
      SampleArtifactIsShaped(k, letters, digest, byteLength);
    }
  }

  // ---------- indexes that cannot be printed ----------

  /** An index the schema admits and the printer does not: 4097 artifacts, with ids of four letters. */
  lemma TooManyArtifacts(binding: Binding, digest: Digest, byteLength: nat)
    requires BindingShaped(binding) && IsDigest(digest)
    ensures var index := IndexDoc(binding, SampleArtifacts(4_097, 4, digest, byteLength));
            IndexShaped(index) && !IndexFits(index)
  {
    SampleIndexIsShaped(binding, 4_097, 4, digest, byteLength);
    hide SampleArtifact, IndexShaped;
  }

  /**
   Another one: 3200 artifacts, which is fewer than an array may have, with ids of the greatest length the schema
   admits. Its canonical form would be longer than a mebibyte.
   */
  lemma TooLongArtifacts(binding: Binding, digest: Digest, byteLength: nat)
    requires BindingShaped(binding) && IsDigest(digest)
    ensures var index := IndexDoc(binding, SampleArtifacts(3_200, 128, digest, byteLength));
            IndexShaped(index) && IndexCost(index) > CANONICAL_BOUNDS.maxDocumentBytes && !IndexFits(index)
  {
    SampleIndexIsShaped(binding, 3_200, 128, digest, byteLength);
    var xs := SampleArtifacts(3_200, 128, digest, byteLength);
    forall a | a in xs ensures ArtifactCost(a) >= 338 {
      var k :| 0 <= k < |xs| && xs[k] == a;
      SampleIdFacts(k, 128);
      SampleIdFacts(0, 128);
      StringCostsItsLength(a.artifactId);
      StringCostsItsLength(a.checkId);
    }
    hide SampleArtifacts, ArtifactCost, ArtifactOk, BindingOk, BindingCost, IndexShaped, SumOf;
    SumAtLeast(xs, ArtifactCost, 338);
  }

  // ---------- an index that can be printed ----------

  const SAMPLE_DIGEST: Digest := LengthDigest([])

  function SampleBinding(): Binding {
    Binding(SAMPLE_WORD, SAMPLE_COMMIT, SAMPLE_COMMIT, SAMPLE_DIGEST, SAMPLE_DIGEST,
            [PackPin(SAMPLE_WORD, SAMPLE_VERSION, SAMPLE_DIGEST)], SAMPLE_DIGEST)
  }

  lemma SampleDigestFacts()
    ensures IsDigest(SAMPLE_DIGEST) && TextOk(SAMPLE_DIGEST) && StringCost(SAMPLE_DIGEST) == 73
  {
    LengthDigestIsDigest([]);
    DigestFits(SAMPLE_DIGEST);
  }

  lemma DigestFits(d: Digest)
    requires IsDigest(d)
    ensures TextOk(d) && StringCost(d) == 73
  {
    DigestIsPlain(d);
    PlainTextFits(d);
  }

  lemma TextMediaIsPlain()
    ensures IsPlain(TEXT_MEDIA) && |TEXT_MEDIA| == 10
  {
  }

  lemma SampleWordsFit()
    ensures TextOk(SAMPLE_WORD) && StringCost(SAMPLE_WORD) == 8
    ensures TextOk(SAMPLE_VERSION) && StringCost(SAMPLE_VERSION) == 7
    ensures TextOk(SAMPLE_VERSIONED) && StringCost(SAMPLE_VERSIONED) == 10
    ensures TextOk(SAMPLE_COMMIT) && StringCost(SAMPLE_COMMIT) == 42
    ensures TextOk(TEXT_MEDIA) && StringCost(TEXT_MEDIA) == 12
  {
    hide IsCommitId, IsKebab, IsPlain, IsSemver, IsVersioned, SAMPLE_COMMIT, SAMPLE_VERSION, SAMPLE_VERSIONED,
      SAMPLE_WORD, StringCost, TEXT_MEDIA, TextOk;
    SampleWordIsKebab();
    SampleVersionIsShaped();
    SampleVersionedIsShaped();
    SampleCommitIsShaped();
    TextMediaIsPlain();
    PlainTextFits(SAMPLE_WORD);
    PlainTextFits(SAMPLE_VERSION);
    PlainTextFits(SAMPLE_VERSIONED);
    PlainTextFits(SAMPLE_COMMIT);
    PlainTextFits(TEXT_MEDIA);
  }

  lemma SampleBindingIsShaped()
    ensures BindingShaped(SampleBinding()) && BindingOk(SampleBinding()) && BindingCost(SampleBinding()) <= 1_000
  {
    SampleWordIsKebab();
    SampleVersionIsShaped();
    SampleCommitIsShaped();
    SampleDigestFacts();
    SampleWordsFit();
    hide SAMPLE_WORD, SAMPLE_VERSION, SAMPLE_COMMIT, SAMPLE_DIGEST, IsKebab, IsSemver, IsCommitId, IsDigest, TextOk,
      StringCost;
    var pin := PackPin(SAMPLE_WORD, SAMPLE_VERSION, SAMPLE_DIGEST);
    assert SampleBinding().packs == [pin] && [pin][1..] == [];
    assert SumOf([pin], PinCost) == PinCost(pin);
  }

  lemma SampleArtifactFits(digest: Digest, byteLength: nat)
    requires IsDigest(digest) && IsSafeInteger(byteLength)
    ensures ArtifactOk(SampleArtifact(0, 4, digest, byteLength))
    ensures ArtifactCost(SampleArtifact(0, 4, digest, byteLength)) <= 1_000
  {
    SampleIdFacts(0, 4);
    PlainTextFits(SampleId(0, 4));
    SampleWordsFit();
    DigestFits(digest);
    SafeDecimalIsShort(byteLength);
    hide SampleId, IsDigest, TextOk, StringCost, SAMPLE_VERSIONED, SAMPLE_VERSION, SAMPLE_WORD, SAMPLE_COMMIT,
      IsSafeInteger, TEXT_MEDIA, Decimal;
  }

  lemma OneArtifactCosts(x: Artifact)
    ensures ArrayCost([x], ArtifactCost) == ArtifactCost(x) + 2
  {
    hide ArtifactCost;
    assert [x][1..] == [];
    assert SumOf([x], ArtifactCost) == ArtifactCost(x);
  }

  lemma SmallIndexFits(binding: Binding, x: Artifact)
    requires BindingOk(binding) && BindingCost(binding) <= 1_000 && ArtifactOk(x) && ArtifactCost(x) <= 1_000
    ensures IndexFits(IndexDoc(binding, [x]))
  {
    OneArtifactCosts(x);
    hide BindingOk, BindingCost, ArtifactOk, ArtifactCost, ArrayCost;
  }

  /** An index of a single artifact is printed. */
  lemma SampleIndexFits(digest: Digest, byteLength: nat)
    requires IsDigest(digest) && IsSafeInteger(byteLength)
    ensures var index := IndexDoc(SampleBinding(), SampleArtifacts(1, 4, digest, byteLength));
            IndexShaped(index) && IndexFits(index)
  {
    assert SampleArtifacts(1, 4, digest, byteLength) == [SampleArtifact(0, 4, digest, byteLength)];
    assert 1 <= MAX_INDEXED_ARTIFACTS && 4 <= MAX_ID_LENGTH;
    hide *;
    SampleBindingIsShaped();
    SampleIndexIsShaped(SampleBinding(), 1, 4, digest, byteLength);
    SampleArtifactFits(digest, byteLength);
    SmallIndexFits(SampleBinding(), SampleArtifact(0, 4, digest, byteLength));
  }

  // ---------- the stores themselves ----------

  /** The ids of the first `n` sample artifacts. */
  ghost function SampleIds(n: nat, letters: nat): set<JsString>
    requires n <= 0x1_0000 && letters >= 4
  {
    set k | 0 <= k < n :: SampleId(k, letters)
  }

  lemma NextIdIsNew(n: nat, letters: nat)
    requires n < 0x1_0000 && letters >= 4
    ensures SampleId(n, letters) !in SampleIds(n, letters)
    ensures SampleIds(n + 1, letters) == SampleIds(n, letters) + {SampleId(n, letters)}
  {
    forall k | 0 <= k < n ensures SampleId(k, letters) != SampleId(n, letters) { SampleIdsDiffer(k, n, letters); }
    hide SampleId;
  }

  /** A store into which the same bytes were put `k` times, each time under an id of its own. */
  ghost predicate Filled(e: EvidenceIndex, k: nat, letters: nat, bytes: Bytes)
    reads e
    requires k <= 0x1_0000 && letters >= 4
  {
    && e.Valid() && e.Sound() && !e.finalized
    && e.artifacts == SampleArtifacts(k, letters, e.hash(bytes), |bytes|)
    && e.seenIds == SampleIds(k, letters) && e.totalBytes == k * |bytes|
    && forall name :: name in e.objects ==> e.objects[name] == bytes
  }

  method PutNext(e: EvidenceIndex, k: nat, letters: nat, bytes: Bytes)
    requires k < 0x1_0000 && letters >= 4 && Filled(e, k, letters, bytes) && (k + 1) * |bytes| <= e.maxTotalBytes
    modifies e
    ensures Filled(e, k + 1, letters, bytes)
  {
    hide SampleId, SampleIds, EvidenceIndex.Valid, EvidenceIndex.Sound, ObjectName, SAMPLE_VERSIONED, TEXT_MEDIA,
      SameLengths;
    NextIdIsNew(k, letters);
    assert k * |bytes| + |bytes| == (k + 1) * |bytes|;
    ghost var before := e.artifacts;
    var put := e.Put(SampleId(k, letters), SampleId(0, letters), SAMPLE_VERSIONED, bytes, TEXT_MEDIA, true);
    assert e.artifacts == before + [SampleArtifact(k, letters, e.hash(bytes), |bytes|)];
  }

  /** A new store into which the same bytes are put `n` times. */
  method FillStore(hash: Hash, binding: Binding, n: nat, letters: nat, bytes: Bytes) returns (e: EvidenceIndex)
    requires PrintsDigests(hash) && n <= 0x1_0000 && letters >= 4
    ensures fresh(e) && e.Valid() && e.Sound() && !e.finalized && e.hash == hash && e.binding == binding
    ensures e.artifacts == SampleArtifacts(n, letters, hash(bytes), |bytes|)
  {
    e := new EvidenceIndex(hash, binding, n * |bytes|);
    assert Filled(e, 0, letters, bytes);
    for k := 0 to n
      invariant Filled(e, k, letters, bytes)
    {
      hide Filled;
      ThisManyFit(k + 1, n, |bytes|);
      PutNext(e, k, letters, bytes);
    }
  }

  lemma ThisManyFit(k: nat, n: nat, size: nat)
    requires k <= n
    ensures k * size <= n * size
  {
  }

  /** Finalizing a filled store gives what its index allows. */
  method FinalizeFilled(e: EvidenceIndex, ghost xs: seq<Artifact>) returns (r: Result<Finalized, FinalizeError>)
    requires e.Valid() && e.Sound() && !e.finalized && e.artifacts == xs && IndexShaped(IndexDoc(e.binding, xs))
    modifies e
    ensures e.Valid() && e.Sound() && e.artifacts == xs
    ensures r.Ok? <==> IndexFits(IndexDoc(e.binding, xs))
    ensures r.Err? ==> r == Err(NotCanonical)
    ensures r.Ok? ==> IsFinalized(e.hash, IndexDoc(e.binding, Sort(ArtifactBefore, xs)), r.value)
  {
    hide IndexShaped, IndexFits, IsFinalized, IndexLawful, Sort, ArtifactBefore, EvidenceIndex.Valid,
      EvidenceIndex.Sound;
    SortKeeps(ArtifactBefore, xs);
    ArtifactOrderIsFree(e.binding, Sort(ArtifactBefore, xs), xs);
    r := e.Finalize();
    if r.Err? { assert r.error.AlreadyFinalized? || r.error.InvalidIndex? || r.error.NotCanonical?; }
  }

  /** Whatever the hash, a store of one artifact is finalized. */
  method SmallStoreIsFinalized(hash: Hash, bytes: Bytes)
    returns (e: EvidenceIndex, r: Result<Finalized, FinalizeError>)
    requires PrintsDigests(hash) && IsSafeInteger(|bytes|)
    ensures e.Valid() && e.Sound() && r.Ok? && |e.artifacts| == 1
  {
    SampleIndexFits(hash(bytes), |bytes|) by { assert IsDigest(hash(bytes)); }
    hide IndexFits, IndexShaped, EvidenceIndex.Valid, EvidenceIndex.Sound, SampleArtifact, SampleBinding;
    e := FillStore(hash, SampleBinding(), 1, 4, bytes);
    r := FinalizeFilled(e, e.artifacts);
  }

  /** There is a hash to do it with. */
  method SmallStoreExists() returns (e: EvidenceIndex, r: Result<Finalized, FinalizeError>)
    ensures e.Valid() && e.Sound() && r.Ok? && |e.artifacts| == 1
  {
    forall b ensures IsDigest(LengthDigest(b)) { LengthDigestIsDigest(b); }
    hide IsDigest, LengthDigest;
    e, r := SmallStoreIsFinalized(LengthDigest, []);
  }

  /** Whatever the hash, and for every run, a store of 4097 artifacts is refused by the printer and by nothing else. */
  method ManyArtifactsAreNotFinalized(hash: Hash, binding: Binding, bytes: Bytes)
    returns (e: EvidenceIndex, r: Result<Finalized, FinalizeError>)
    requires PrintsDigests(hash) && BindingShaped(binding)
    ensures e.Valid() && e.Sound() && e.binding == binding && |e.artifacts| == 4_097 && r == Err(NotCanonical)
  {
    TooManyArtifacts(binding, hash(bytes), |bytes|) by { assert IsDigest(hash(bytes)); }
    hide BindingShaped, EvidenceIndex.Sound, EvidenceIndex.Valid, IndexFits, IndexShaped, IsDigest, IsFinalized,
      PrintsDigests, SampleArtifact;
    e := FillStore(hash, binding, 4_097, 4, bytes);
    r := FinalizeFilled(e, e.artifacts);
  }

  /** And so is one of 3200 artifacts with ids of the greatest length. */
  method LongArtifactsAreNotFinalized(hash: Hash, binding: Binding, bytes: Bytes)
    returns (e: EvidenceIndex, r: Result<Finalized, FinalizeError>)
    requires PrintsDigests(hash) && BindingShaped(binding)
    ensures e.Valid() && e.Sound() && e.binding == binding && |e.artifacts| == 3_200 && r == Err(NotCanonical)
  {
    TooLongArtifacts(binding, hash(bytes), |bytes|) by { assert IsDigest(hash(bytes)); }
    hide BindingShaped, EvidenceIndex.Sound, EvidenceIndex.Valid, IndexCost, IndexFits, IndexShaped, IsDigest,
      IsFinalized, PrintsDigests, SampleArtifact;
    e := FillStore(hash, binding, 3_200, 128, bytes);
    r := FinalizeFilled(e, e.artifacts);
  }
}
