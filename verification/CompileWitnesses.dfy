/** Lawful inputs that compile without an error and whose compilation throws, one for each bound that matters. */
module CompileWitnesses {
  import opened Base
  import opened Ordering
  import opened Patterns
  import opened Plan
  import opened Packs
  import opened Kahn
  import opened Compilation
  import opened PlanSchedule
  import opened PrintCost
  import opened PlanSize
  import opened PlanDraft
  import opened InputShapes
  import opened CompileBounds
  import opened Samples

  // ---------- a family of inputs ----------

  const SAMPLE_SETTINGS: Settings := Settings([], SAMPLE_VERSIONED, 60, NETWORK_NONE, READ_ONLY, [])
  const COMMIT_KIND: JsString := Ascii("COMMIT")

  /**
   The size of a sample: how many packs, checks per pack, and letters per check id; whether one pack needs another; and
   the digest that stands for every digest in it.
   */
  datatype Size = Size(packs: nat, checks: nat, letters: nat, linked: bool, digest: Digest)

  predicate SizeOk(z: Size) {
    1 <= z.packs <= 64 && 1 <= z.checks <= 128 && 4 <= z.letters <= 128 && IsDigest(z.digest)
  }

  function PackName(k: nat): JsString
    requires k < 64
  {
    SampleId(k, 4)
  }

  function SampleCheck(z: Size, k: nat, q: nat): Check
    requires SizeOk(z) && k < 64 && q < 128
  {
    Check(SampleId(k * 256 + q, z.letters), CandidateValidation, Blocking, Builtin(SAMPLE_VERSIONED), SAMPLE_SETTINGS,
          DispositionReducer)
  }

  /** The checks of pack `k`; pack 1 depends on pack 0 if the sample is linked. */
  function SamplePack(z: Size, k: nat): Pack
    requires SizeOk(z) && k < 64
  {
    Pack(
      PackName(k), SAMPLE_VERSION, [CandidateValidation],
      if z.linked && k == 1 then [Dep(PackName(0), SAMPLE_VERSION, z.digest)] else [],
      seq(z.checks, q requires 0 <= q < z.checks => SampleCheck(z, k, q)))
  }

  function Supplied(z: Size, k: nat): SuppliedPack
    requires SizeOk(z) && k < 64
  {
    SuppliedPack(SamplePack(z, k), z.digest)
  }

  /** A contract and a profile that select `z.packs` packs, and the packs; the kernel adds none. */
  function SampleInputs(z: Size): Inputs
    requires SizeOk(z)
  {
    Inputs(
      SAMPLE_VERSIONED,
      WorkContract(z.digest, SAMPLE_WORD, SAMPLE_COMMIT, Candidate(COMMIT_KIND, SAMPLE_COMMIT), SAMPLE_WORD,
                   z.digest, None),
      Profile(SAMPLE_WORD, seq(z.packs, k requires 0 <= k < z.packs =>
        Selection(PackName(k), SAMPLE_VERSION, z.digest)), []),
      z.digest,
      seq(z.packs, k requires 0 <= k < z.packs => Supplied(z, k)),
      None, {SAMPLE_VERSIONED}, _ => false, [])
  }

  // ---------- it is shaped and lawful ----------

  lemma SampleIdIsKebab(k: nat, letters: nat)
    requires k < 0x1_0000 && 4 <= letters <= MAX_ID_LENGTH
    ensures IsKebabId(SampleId(k, letters))
  {
    SampleIdFacts(k, letters);
  }

  lemma SampleVersionFits()
    ensures VersionShaped(SAMPLE_VERSION)
  {
    hide IsSemver, SAMPLE_VERSION;
    SampleVersionIsShaped();
    PlainTextFits(SAMPLE_VERSION);
  }

  lemma CheckIsShaped(z: Size, k: nat, q: nat)
    requires SizeOk(z) && k < 64 && q < 128
    ensures CheckShaped(SampleCheck(z, k, q))
  {
    SampleVersionedIsShaped();
    SampleIdIsKebab(k * 256 + q, z.letters);
    hide IsKebabId, IsVersionedId, SampleId, SAMPLE_VERSIONED;
  }

  lemma CheckIdsDiffer(z: Size, k: nat)
    requires SizeOk(z) && k < 64
    ensures NoDuplicates(CheckIds(SamplePack(z, k).checks))
  {
    hide SampleId;
    var checks := SamplePack(z, k).checks;
    forall a, b | 0 <= a < b < |checks| ensures CheckIds(checks)[a] != CheckIds(checks)[b] {
      SampleIdsDiffer(k * 256 + a, k * 256 + b, z.letters);
    }
  }

  lemma PackIsShaped(z: Size, k: nat)
    requires SizeOk(z) && k < 64
    ensures PackShaped(SamplePack(z, k)) && PackLawful(SamplePack(z, k))
  {
    SampleVersionFits();
    NameIsKebab(k);
    NameIsKebab(0);
    NamesDiffer(0, 1);
    CheckIdsDiffer(z, k);
    hide CheckShaped, IsDigest, IsKebabId, PackName, SAMPLE_VERSION, VersionShaped;
    var p := SamplePack(z, k);
    forall c | c in p.checks ensures CheckShaped(c) && c.phase in p.phases && c.consumer.DispositionReducer? {
      var q :| 0 <= q < z.checks && c == SampleCheck(z, k, q);
      CheckIsShaped(z, k, q);
    }
    hide SampleCheck;
    assert p.packId !in DepIds(p.dependencies);
  }

  lemma SampleProfileIsShaped(z: Size)
    requires SizeOk(z)
    ensures ProfileShaped(SampleInputs(z).profile)
  {
    SampleVersionFits();
    SampleWordIsKebab();
    hide IsDigest, IsKebabId, PackName, Supplied, SAMPLE_VERSION, SAMPLE_WORD, VersionShaped;
    var p := SampleInputs(z).profile;
    forall s | s in p.packs ensures IsKebabId(s.packId) && VersionShaped(s.version) && IsDigest(s.digest) {
      var k :| 0 <= k < z.packs && s == Selection(PackName(k), SAMPLE_VERSION, z.digest);
      NameIsKebab(k);
    }
  }

  lemma SampleReleaseIsShaped()
    ensures ReleaseShaped(SAMPLE_VERSIONED)
  {
    hide IsVersionedId, SAMPLE_VERSIONED;
    SampleVersionedIsShaped();
    PlainTextFits(SAMPLE_VERSIONED);
  }

  lemma SampleIsShaped(z: Size)
    requires SizeOk(z)
    ensures InputsShaped(SampleInputs(z))
  {
    SampleReleaseIsShaped();
    SampleProfileIsShaped(z);
    SampleWordIsKebab();
    SampleCommitIsShaped();
    assert COMMIT_KIND in CANDIDATE_KINDS;
    hide CANDIDATE_KINDS, COMMIT_KIND, IsCommitId, IsDigest, IsKebabId, PackName, PackShaped, ProfileShaped,
      ReleaseShaped, SAMPLE_COMMIT, SAMPLE_VERSION, SAMPLE_VERSIONED, SAMPLE_WORD, SamplePack;
    var i := SampleInputs(z);
    forall p | p in i.packs ensures PackShaped(p.value) {
      var k :| 0 <= k < z.packs && p == Supplied(z, k);
      PackIsShaped(z, k);
    }
  }

  lemma NameIsKebab(k: nat)
    requires k < 64
    ensures IsKebabId(PackName(k))
  {
    SampleIdIsKebab(k, 4);
  }

  lemma NamesDiffer(j: nat, k: nat)
    requires j < 64 && k < 64
    ensures PackName(j) == PackName(k) ==> j == k
  {
    SampleIdsDiffer(j, k, 4);
  }

  lemma SampleIds(z: Size)
    requires SizeOk(z)
    ensures var i := SampleInputs(z);
      && NoDuplicates(PackIds(i.packs)) && SelectionIds(i.profile.packs) == PackIds(i.packs)
      && |i.packs| == z.packs && forall k :: 0 <= k < z.packs ==> PackIds(i.packs)[k] == PackName(k)
  {
    hide PackName, SampleCheck;
    var ids := PackIds(SampleInputs(z).packs);
    forall j, k | 0 <= j < k < |ids| ensures ids[j] != ids[k] { NamesDiffer(j, k); }
  }

  lemma SampleIsLawful(z: Size)
    requires SizeOk(z)
    ensures DocumentsLawful(SampleInputs(z)) && KernelPacksLawful(SampleInputs(z).mandatory)
  {
    hide PackLawful, PackName, SamplePack;
    SampleIds(z);
    forall p | p in SampleInputs(z).packs ensures PackLawful(p.value) {
      var k :| 0 <= k < z.packs && p == Supplied(z, k);
      PackIsShaped(z, k);
    }
  }

  // ---------- it compiles ----------

  /** The selected packs are the supplied ones. */
  lemma SampleSelected(z: Size)
    requires SizeOk(z)
    ensures var sel := SelectedMap(SampleInputs(z));
      && (forall k :: 0 <= k < z.packs ==> PackName(k) in sel && sel[PackName(k)] == Supplied(z, k))
      && forall id :: id in sel ==> exists k :: 0 <= k < z.packs && id == PackName(k)
  {
    hide DocumentsLawful, Index, KernelPacksLawful, NoDuplicates, PackLawful, PackName, SamplePack, Selected,
      SelectedMap;
    var i := SampleInputs(z);
    SampleIsLawful(z);
    SampleIds(z);
    SelectedFacts(i);
    IndexFacts(i.packs);
    forall k | 0 <= k < z.packs ensures PackName(k) in SelectedMap(i) && SelectedMap(i)[PackName(k)] == Supplied(z, k) {
      assert i.packs[k] == Supplied(z, k) && i.packs[k] in i.packs;
      assert PackIds(i.packs)[k] == PackName(k);
    }
  }

  lemma SampleAgrees(z: Size)
    requires SizeOk(z)
    ensures PinsAgree(SampleInputs(z)) && SelectionAgrees(SampleInputs(z))
  {
    var i := SampleInputs(z);
    SampleIds(z);
    hide PackName, SampleCheck;
    forall s | s in i.profile.packs ensures Supplies(i.packs, s) {
      var k :| 0 <= k < z.packs && s == Selection(PackName(k), SAMPLE_VERSION, z.digest);
      assert i.packs[k] == Supplied(z, k) && i.packs[k] in i.packs;
    }
  }

  /** The only dependency there can be is that of pack 1 on pack 0. */
  lemma SampleDependency(z: Size, id: JsString, d: Dep)
    requires SizeOk(z) && (z.linked ==> z.packs > 1)
    requires id in SelectedMap(SampleInputs(z)) && d in SelectedMap(SampleInputs(z))[id].value.dependencies
    ensures id == PackName(1) && d == Dep(PackName(0), SAMPLE_VERSION, z.digest)
    ensures DepMet(SelectedMap(SampleInputs(z)), d)
  {
    SampleSelected(z);
    hide SelectedMap, PackName, SampleCheck, SAMPLE_VERSION;
    var k :| 0 <= k < z.packs && id == PackName(k);
    assert SelectedMap(SampleInputs(z))[PackName(0)] == Supplied(z, 0);
  }

  lemma SampleIsAcyclic(z: Size)
    requires SizeOk(z) && (z.linked ==> z.packs > 1)
    ensures Acyclic(DepGraph(SelectedMap(SampleInputs(z))))
  {
    var g := DepGraph(SelectedMap(SampleInputs(z)));
    NamesDiffer(0, 1);
    forall x, y | x in g && y in g[x] ensures x == PackName(1) && y == PackName(0) {
      var d :| d in SelectedMap(SampleInputs(z))[x].value.dependencies && d.packId == y;
      SampleDependency(z, x, d);
    }
    hide DepGraph, SelectedMap, PackName, Acyclic;
    OneEdgeIsAcyclic(g, PackName(1), PackName(0));
  }

  lemma OneEdgeIsAcyclic(g: Graph, from: JsString, to: JsString)
    requires from != to && forall x, y :: x in g && y in g[x] ==> x == from && y == to
    ensures Acyclic(g)
  {
    forall walk ensures !IsCycle(g, walk) {
      if IsWalk(g, walk) && |walk| > 1 { WalkEnds(g, from, to, walk); }
    }
  }

  lemma WalkEnds(g: Graph, from: JsString, to: JsString, walk: seq<JsString>)
    requires forall x, y :: x in g && y in g[x] ==> x == from && y == to
    requires IsWalk(g, walk) && |walk| > 1
    ensures walk[0] == from && walk[|walk| - 1] == to
  {
    var last := |walk| - 2;
    assert walk[0 + 1] in g[walk[0]] && walk[last + 1] in g[walk[last]];
  }

  lemma SampleDeclares(z: Size, id: JsString, c: Check) returns (k: nat, q: nat)
    requires SizeOk(z) && Declares(SelectedMap(SampleInputs(z)), id, c)
    ensures k < z.packs && q < z.checks && id == PackName(k) && c == SampleCheck(z, k, q)
  {
    SampleSelected(z);
    hide SelectedMap, PackName, SampleCheck;
    k :| 0 <= k < z.packs && id == PackName(k);
    assert c in SamplePack(z, k).checks;
    q :| 0 <= q < z.checks && c == SampleCheck(z, k, q);
  }

  /** Places whose check ids are equal are equal. */
  lemma OnePlace(j: nat, p: nat, k: nat, q: nat, letters: nat)
    requires p < 256 && q < 256 && j < 256 && k < 256 && letters >= 4
    requires SampleId(j * 256 + p, letters) == SampleId(k * 256 + q, letters)
    ensures j == k && p == q
  {
    SampleIdsDiffer(j * 256 + p, k * 256 + q, letters);
    hide SampleId;
    assert j == (j * 256 + p) / 256 && k == (k * 256 + q) / 256;
  }

  lemma OnePlaceForAnId(z: Size, a: JsString, c: Check, b: JsString, d: Check)
    requires SizeOk(z) && c.checkId == d.checkId
    requires Declares(SelectedMap(SampleInputs(z)), a, c) && Declares(SelectedMap(SampleInputs(z)), b, d)
    ensures a == b && c == d
  {
    hide Declares, SelectedMap, SampleInputs, PackName, SampleId;
    var j, p := SampleDeclares(z, a, c);
    var k, q := SampleDeclares(z, b, d);
    OnePlace(j, p, k, q, z.letters);
  }

  lemma SampleChecksDistinct(z: Size)
    requires SizeOk(z)
    ensures ChecksDistinct(SelectedMap(SampleInputs(z)))
    ensures ValidatorsKnown(SelectedMap(SampleInputs(z)), {SAMPLE_VERSIONED}, _ => false)
  {
    var sel := SelectedMap(SampleInputs(z));
    hide SelectedMap, SampleInputs, Declares, PackName, SampleId, SAMPLE_VERSIONED;
    forall a, c, b, d | Declares(sel, a, c) && Declares(sel, b, d) && c.checkId == d.checkId ensures a == b && c == d {
      OnePlaceForAnId(z, a, c, b, d);
    }
    forall a, c | Declares(sel, a, c) ensures Known({SAMPLE_VERSIONED}, _ => false, c.validator) {
      var k, q := SampleDeclares(z, a, c);
    }
  }

  lemma SamplePhasesAgree(z: Size)
    requires SizeOk(z)
    ensures PhasesAgree(SelectedMap(SampleInputs(z)))
  {
    var sel := SelectedMap(SampleInputs(z));
    hide SelectedMap, PackName, SampleId;
    forall id, c | Declares(sel, id, c) ensures c.phase == CandidateValidation {
      var k, q := SampleDeclares(z, id, c);
    }
    forall id, d, mine, theirs |
      && id in sel && d in sel[id].value.dependencies && d.packId in sel
      && mine in sel[id].value.checks && theirs in sel[d.packId].value.checks
      ensures PhaseIndex(theirs.phase) <= PhaseIndex(mine.phase)
    {
      assert Declares(sel, id, mine) && Declares(sel, d.packId, theirs);
    }
  }

  lemma SampleCompiles(z: Size)
    requires SizeOk(z) && (z.linked ==> z.packs > 1)
    ensures Compilable(SampleInputs(z))
  {
    var i := SampleInputs(z);
    SampleAgrees(z);
    SampleIsAcyclic(z);
    SampleChecksDistinct(z);
    SamplePhasesAgree(z);
    hide SelectedMap, PinsAgree, SelectionAgrees, Acyclic, ChecksDistinct, ValidatorsKnown, PhasesAgree, DepMet;
    forall id, d | id in SelectedMap(i) && d in SelectedMap(i)[id].value.dependencies ensures DepMet(SelectedMap(i), d) {
      SampleDependency(z, id, d);
    }
  }

  // ---------- too many checks ----------

  lemma {:induction false} ChosenAll(supplied: PackMap, sels: seq<Selection>)
    requires forall s :: s in sels ==> s.packId in supplied
    ensures |Chosen({}, supplied, sels)| == |sels|
    ensures forall k :: 0 <= k < |sels| ==> Chosen({}, supplied, sels)[k] == supplied[sels[k].packId]
  {
    if sels != [] {
      var front := sels[..|sels| - 1];
      assert forall s :: s in front ==> s in sels;
      ChosenAll(supplied, front);
    }
  }

  lemma SampleIndex(z: Size)
    requires SizeOk(z)
    ensures var i := SampleInputs(z);
      && (forall k :: 0 <= k < z.packs ==>
            PackName(k) in Index(i.packs) && Index(i.packs)[PackName(k)] == Supplied(z, k))
      && forall s :: s in i.profile.packs ==> s.packId in Index(i.packs)
  {
    hide Index, PackName, SampleCheck, SamplePack;
    var i := SampleInputs(z);
    SampleIds(z);
    IndexFacts(i.packs);
    forall k | 0 <= k < z.packs ensures PackName(k) in Index(i.packs) && Index(i.packs)[PackName(k)] == Supplied(z, k) {
      assert i.packs[k] == Supplied(z, k) && i.packs[k] in i.packs;
      assert PackIds(i.packs)[k] == PackName(k);
    }
    forall s | s in i.profile.packs ensures s.packId in Index(i.packs) {
      var k :| 0 <= k < z.packs && s == Selection(PackName(k), SAMPLE_VERSION, z.digest);
    }
  }

  /** The packs are taken up in the order the profile lists them. */
  lemma SampleOrder(z: Size)
    requires SizeOk(z)
    ensures var packs := Selected(SampleInputs(z));
            |packs| == z.packs && forall k :: 0 <= k < z.packs ==> packs[k] == Supplied(z, k)
  {
    var i := SampleInputs(z);
    SampleIndex(z);
    hide PackName, SampleCheck, SamplePack, Index, Chosen;
    assert i.mandatory == [] && |i.profile.packs| == z.packs;
    assert forall k :: 0 <= k < z.packs ==> i.profile.packs[k].packId == PackName(k);
    hide Supplied;
    assert Elements(PackIds(i.mandatory)) == {};
    assert Selected(i) == Chosen({}, Index(i.packs), i.profile.packs);
    hide SampleInputs, Selected, Elements, PackIds, SizeOk;
    ChosenAll(Index(i.packs), i.profile.packs);
  }

  lemma {:induction false} EqualTotals(packs: seq<SuppliedPack>, size: nat)
    requires forall k :: 0 <= k < |packs| ==> ChecksOf(packs[k]) == size
    ensures CheckTotal(packs) == |packs| * size
  {
    if packs != [] { EqualTotals(packs[1..], size); }
  }

  /**
   Thirty-three packs of 128 checks, each with a four-letter id: within every schema, compilable without an error, and
   one check list too long for the plan.
   */
  lemma TooManyChecks(digest: Digest)
    requires IsDigest(digest)
    ensures var i := SampleInputs(Size(33, 128, 4, false, digest));
      && InputsShaped(i) && DocumentsLawful(i) && KernelPacksLawful(i.mandatory) && Compilable(i)
      && CheckTotal(Selected(i)) == 4_224 && !PlanFits(DraftPlan(i))
  {
    var z := Size(33, 128, 4, false, digest);
    var i := SampleInputs(z);
    SampleIsShaped(z);
    SampleIsLawful(z);
    SampleCompiles(z);
    SampleOrder(z);
    hide SampleInputs, Selected, CheckTotal, SampleCheck, PlanFits, DraftPlan, InputsShaped, DocumentsLawful,
      KernelPacksLawful, Compilable, PlanCost, IsDigest;
    EqualTotals(Selected(i), 128);
    OnlyCountAndLengthMatter(i);
  }

  // ---------- too long a plan ----------

  lemma LongListCost(ids: seq<JsString>)
    requires |ids| == 128 && forall x :: x in ids ==> |x| == 128
    ensures ArrayCost(ids, StringCost) >= 16_640
  {
    forall x | x in ids ensures StringCost(x) >= 130 { StringCostsItsLength(x); }
    hide StringCost;
    SumAtLeast(ids, StringCost, 130);
  }

  /** The sample whose second pack of 128 checks depends on the first, with ids of 128 letters. */
  function LongSize(digest: Digest): Size {
    Size(2, 128, 128, true, digest)
  }

  lemma OnlyDepIds(sel: PackMap, id: JsString, dep: Dep)
    requires id in sel && sel[id].value.dependencies == [dep] && dep.packId in sel
    ensures DepCheckIds(sel, id) == Elements(CheckIds(sel[dep.packId].value.checks))
  {
    var checks := sel[dep.packId].value.checks;
    assert dep in [dep];
    forall x ensures x in DepCheckIds(sel, id) <==> x in Elements(CheckIds(checks)) {
      if x in DepCheckIds(sel, id) {
        var c :| c in checks && c.checkId == x;
        var q :| 0 <= q < |checks| && checks[q] == c;
        assert CheckIds(checks)[q] == x;
      }
      if x in Elements(CheckIds(checks)) {
        var q :| 0 <= q < |checks| && CheckIds(checks)[q] == x;
        assert checks[q] in checks;
      }
    }
  }

  lemma SampleDepIds(digest: Digest)
    requires IsDigest(digest)
    ensures var z := LongSize(digest);
      && PackName(1) in SelectedMap(SampleInputs(z))
      && DepCheckIds(SelectedMap(SampleInputs(z)), PackName(1)) == Elements(CheckIds(SamplePack(z, 0).checks))
  {
    var z := LongSize(digest);
    var sel := SelectedMap(SampleInputs(z));
    SampleSelected(z);
    hide SelectedMap, SampleInputs, PackName, SampleCheck, DepCheckIds;
    assert sel[PackName(1)] == Supplied(z, 1) && sel[PackName(0)] == Supplied(z, 0);
    OnlyDepIds(sel, PackName(1), Dep(PackName(0), SAMPLE_VERSION, digest));
  }

  lemma SampleDependsOn(digest: Digest)
    requires IsDigest(digest)
    ensures var z := LongSize(digest);
      && PackName(1) in SelectedMap(SampleInputs(z))
      && ArrayCost(Sorted(DepCheckIds(SelectedMap(SampleInputs(z)), PackName(1))), StringCost) >= 16_640
  {
    var z := LongSize(digest);
    var ids := CheckIds(SamplePack(z, 0).checks);
    SampleDepIds(digest);
    CheckIdsDiffer(z, 0);
    hide SelectedMap, PackName, SampleId, StringCost, ArrayCost;
    forall q | 0 <= q < |ids| ensures |ids[q]| == 128 { SampleIdFacts(q, 128); }
    hide SamplePack;
    DistinctLength(ids);
    SortedFacts(Elements(ids));
    var sorted := Sorted(Elements(ids));
    IncreasingNoDuplicates(sorted);
    DistinctLength(sorted);
    forall x | x in sorted ensures |x| == 128 { assert x in Elements(sorted); }
    LongListCost(sorted);
  }

  lemma PlannedCost(sel: PackMap, strengthened: set<JsString>, id: JsString, c: Check)
    requires id in sel
    ensures CheckCost(PlanCheckOf(sel, strengthened, id, c)) >= ArrayCost(Sorted(DepCheckIds(sel, id)), StringCost)
  {
    hide ArrayCost, StringCost, DepCheckIds;
  }

  lemma SecondPackOffers(digest: Digest) returns (before: seq<Offer>, more: seq<Offer>)
    requires IsDigest(digest)
    ensures var z := LongSize(digest);
      && before + more == Offers(Selected(SampleInputs(z))) && more == OffersOf(Supplied(z, 1))
  {
    var z := LongSize(digest);
    SampleOrder(z);
    hide SampleInputs, PackName, SampleCheck;
    var packs := Selected(SampleInputs(z));
    before, more := Offers(packs[..1]), OffersOf(packs[1]);
    hide Selected;
    assert packs[..|packs| - 1] == packs[..1];
  }

  lemma SecondPackCosts(digest: Digest, sel: PackMap, more: seq<Offer>)
    requires IsDigest(digest) && sel == SelectedMap(SampleInputs(LongSize(digest)))
    requires more == OffersOf(Supplied(LongSize(digest), 1)) && Grounded(more, sel)
    ensures |more| == 128 && SumOf(PlannedOffers(sel, {}, more), CheckCost) >= 128 * 16_640
  {
    SampleDependsOn(digest);
    assert |more| == 128 && forall k :: 0 <= k < 128 ==> more[k].packId == PackName(1);
    hide SelectedMap, SampleInputs, PackName, CheckCost, SampleCheck, SamplePack, DepCheckIds, StringCost, ArrayCost,
      PlanCheckOf, IsDigest, Grounded, SumOf, OffersOf;
    var planned := PlannedOffers(sel, {}, more);
    forall pc | pc in planned ensures CheckCost(pc) >= 16_640 {
      var k :| 0 <= k < |planned| && planned[k] == pc;
      assert more[k].packId == PackName(1);
      PlannedCost(sel, {}, PackName(1), more[k].check);
    }
    SumAtLeast(planned, CheckCost, 16_640);
  }

  lemma PlannedInTwo(sel: PackMap, before: seq<Offer>, more: seq<Offer>)
    requires Grounded(before + more, sel)
    ensures Grounded(before, sel) && Grounded(more, sel)
    ensures SumOf(PlannedOffers(sel, {}, before + more), CheckCost) >= SumOf(PlannedOffers(sel, {}, more), CheckCost)
  {
    assert forall o :: o in before || o in more ==> o in before + more;
    hide CheckCost, PlanCheckOf, SumOf;
    assert PlannedOffers(sel, {}, before + more) == PlannedOffers(sel, {}, before) + PlannedOffers(sel, {}, more);
    SumOfConcat(PlannedOffers(sel, {}, before), PlannedOffers(sel, {}, more), CheckCost);
  }

  /** The planned checks of the second pack alone are longer than a mebibyte. */
  lemma SecondPackIsLong(digest: Digest)
    requires IsDigest(digest)
    ensures SumOf(DraftChecks(SampleInputs(LongSize(digest))), CheckCost) >= 128 * 16_640
  {
    var i := SampleInputs(LongSize(digest));
    OffersAreGrounded(i);
    assert Elements(i.profile.strengthen) == {};
    hide SelectedMap, SampleInputs, PackName, CheckCost, SampleCheck, Selected, PlannedOffers, SumOf, IsDigest;
    var before, more := SecondPackOffers(digest);
    PlannedInTwo(SelectedMap(i), before, more);
    SecondPackCosts(digest, SelectedMap(i), more);
  }

  /**
   Two packs of 128 checks with ids of the greatest length the schema admits, the second depending on the first: within
   every schema, compilable without an error, 256 checks in all, and a plan longer than a mebibyte.
   */
  lemma TooLongAPlan(digest: Digest)
    requires IsDigest(digest)
    ensures var i := SampleInputs(LongSize(digest));
      && InputsShaped(i) && DocumentsLawful(i) && KernelPacksLawful(i.mandatory) && Compilable(i)
      && CheckTotal(Selected(i)) == 256 && !PlanFits(DraftPlan(i))
  {
    var i := SampleInputs(LongSize(digest));
    LongSampleFacts(digest);
    SecondPackIsLong(digest);
    hide *;
    OnlyCountAndLengthMatter(i);
    ChecksCostLess(i);
  }

  lemma LongSampleFacts(digest: Digest)
    requires IsDigest(digest)
    ensures var i := SampleInputs(LongSize(digest));
      && InputsShaped(i) && DocumentsLawful(i) && KernelPacksLawful(i.mandatory) && Compilable(i)
      && CheckTotal(Selected(i)) == 256
  {
    var z := LongSize(digest);
    SampleIsShaped(z);
    SampleIsLawful(z);
    SampleCompiles(z);
    SampleOrder(z);
    hide SampleInputs, Selected, CheckTotal, SampleCheck, InputsShaped, DocumentsLawful, KernelPacksLawful, Compilable;
    EqualTotals(Selected(SampleInputs(z)), 128);
  }

  lemma ChecksCostLess(i: Inputs)
    ensures PlanCost(DraftPlan(i)) >= SumOf(DraftChecks(i), CheckCost)
  {
    hide CheckCost, StringCost, DraftChecks, DraftPins, CandidateCost, SourcesCost;
  }
}
