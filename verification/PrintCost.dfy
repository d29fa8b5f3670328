/** What canonical text costs in bytes, part by part: strings, arrays and records, with no text built. */
module PrintCost {
  import opened Base
  import opened Ordering
  import opened Text
  import opened Json
  import opened CanonicalJson
  import opened CanonicalTheorems
  import opened RoundTrip
  import opened Normalization
  import opened Records
  import opened MemberNames
  import opened Documents

  /** A string the printer prints. */
  predicate TextOk(s: JsString) {
    AcceptableString(s, CANONICAL_BOUNDS)
  }

  predicate TextsOk(xs: seq<JsString>) {
    forall i :: 0 <= i < |xs| ==> TextOk(xs[i])
  }

  // ---------- strings ----------

  /** The bytes of a printed string, quotes and escapes included. */
  function StringCost(s: JsString): nat {
    MinBytes(Stringify(s))
  }

  /** Text that is printed unit by unit. */
  predicate IsPlain(s: JsString) {
    forall i :: 0 <= i < |s| ==> 0x20 <= s[i] < 0x7F && s[i] != QUOTE && s[i] != BACKSLASH
  }

  lemma {:induction false} PlainEscapes(s: JsString)
    requires IsPlain(s)
    ensures EscapeAll(s) == s && IsAscii(s)
  {
    if s != [] {
      PlainEscapes(s[1..]);
      assert s == [s[0]] + s[1..];
    }
  }

  /** Plain text costs its length and two quotes. */
  lemma PlainCost(s: JsString)
    requires IsPlain(s)
    ensures StringCost(s) == |s| + 2 && WellFormed(s)
  {
    PlainEscapes(s);
    AsciiText(s);
    AsciiBytes(s);
    MinBytesAround(QUOTE, s, QUOTE);
  }

  lemma {:induction false} EscapesAreLonger(s: JsString)
    ensures |EscapeAll(s)| >= |s|
  {
    if s != [] { EscapesAreLonger(s[1..]); }
  }

  /** No string costs less than its length and two quotes. */
  lemma StringCostsItsLength(s: JsString)
    ensures StringCost(s) >= |s| + 2
  {
    EscapesAreLonger(s);
    MinBytesAtLeastLength(EscapeAll(s));
    MinBytesAround(QUOTE, EscapeAll(s), QUOTE);
  }

  lemma CostOfString(s: JsString)
    ensures CanonCost(Str(s)) == StringCost(s)
  {
    CanonSpellingsFacts(s);
  }

  lemma CostOfNumber(n: int)
    ensures CanonCost(Num(n)) == |Decimal(n)|
  {
    DecimalAscii(n);
    AsciiBytes(Decimal(n));
  }

  lemma CostOfNull()
    ensures CanonCost(Null) == 4
  {
    AsciiBytes(NULL_WORD);
  }

  // ---------- arrays ----------

  /** The bytes of a printed array: brackets, commas and items. */
  function ArrayCost<T>(xs: seq<T>, cost: T -> nat): nat {
    if xs == [] then 2 else |xs| + 1 + SumOf(xs, cost)
  }

  lemma {:induction false} ItemsCostSum<T>(f: T -> Json, xs: seq<T>, cost: T -> nat)
    requires xs != [] && forall x :: x in xs ==> CanonCost(f(x)) == cost(x)
    ensures ArrayOf(f, xs).items != [] && ItemsCost(ArrayOf(f, xs).items) == |xs| - 1 + SumOf(xs, cost)
  {
    hide CanonCost;
    var vs := ArrayOf(f, xs).items;
    assert vs[0] == f(xs[0]) && xs[0] in xs;
    if |xs| > 1 {
      assert vs[1..] == ArrayOf(f, xs[1..]).items;
      ItemsCostSum(f, xs[1..], cost);
    } else {
      assert xs[1..] == [];
    }
  }

  lemma CostOfArray<T>(f: T -> Json, xs: seq<T>, cost: T -> nat)
    requires forall x :: x in xs ==> CanonCost(f(x)) == cost(x)
    ensures CanonCost(ArrayOf(f, xs)) == ArrayCost(xs, cost)
  {
    var vs := ArrayOf(f, xs).items;
    if xs == [] {
      assert vs == [];
      MinBytesAround(OPEN_BRACKET, [], CLOSE_BRACKET);
    } else {
      ItemsCostSum(f, xs, cost);
      CanonItemsCost(vs);
      MinBytesAround(OPEN_BRACKET, RenderItems(CanonItems(vs)), CLOSE_BRACKET);
    }
  }

  /** A permutation costs the same. */
  lemma ArrayCostIgnoresOrder<T>(xs: seq<T>, ys: seq<T>, cost: T -> nat)
    requires multiset(xs) == multiset(ys)
    ensures ArrayCost(xs, cost) == ArrayCost(ys, cost)
  {
    assert |xs| == |multiset(xs)| == |ys|;
    SumOfPermutation(xs, ys, cost);
  }

  /** Items that each cost at least `least` cost that many times over. */
  lemma {:induction false} SumAtLeast<T>(xs: seq<T>, cost: T -> nat, least: nat)
    requires forall x :: x in xs ==> cost(x) >= least
    ensures SumOf(xs, cost) >= |xs| * least
  {
    if xs != [] {
      assert xs[0] in xs;
      SumAtLeast(xs[1..], cost, least);
    }
  }

  lemma PrintableArray<T>(f: T -> Json, xs: seq<T>, depth: nat, b: Bounds)
    ensures Acceptable(ArrayOf(f, xs), depth, b) <==>
      depth <= b.maxDepth && |xs| <= b.maxArrayItems && forall x :: x in xs ==> Acceptable(f(x), depth + 1, b)
  {
    var items := ArrayOf(f, xs).items;
    if Acceptable(ArrayOf(f, xs), depth, b) {
      forall x | x in xs ensures Acceptable(f(x), depth + 1, b) {
        var i :| 0 <= i < |xs| && xs[i] == x;
        assert items[i] == f(x);
      }
    }
    if forall x :: x in xs ==> Acceptable(f(x), depth + 1, b) {
      forall i | 0 <= i < |items| ensures Acceptable(items[i], depth + 1, b) {
        assert xs[i] in xs && items[i] == f(xs[i]);
      }
    }
  }

  lemma StringArray(xs: seq<JsString>, depth: nat)
    requires depth < CANONICAL_BOUNDS.maxDepth
    ensures CanonCost(Strings(xs)) == ArrayCost(xs, StringCost)
    ensures Acceptable(Strings(xs), depth, CANONICAL_BOUNDS) <==>
      |xs| <= CANONICAL_BOUNDS.maxArrayItems && TextsOk(xs)
  {
    hide CanonCost, WellFormed, ArrayOf;
    forall x ensures CanonCost(StringJson(x)) == StringCost(x) { CostOfString(x); }
    CostOfArray(StringJson, xs, StringCost);
    PrintableArray(StringJson, xs, depth, CANONICAL_BOUNDS);
    forall x ensures Acceptable(StringJson(x), depth + 1, CANONICAL_BOUNDS) <==> TextOk(x) {}
    hide Acceptable, TextOk, StringCost;
  }

  // ---------- records ----------

  /** The bytes of a printed member: name, colon, value, and the comma or brace after it. */
  function FieldCost(f: Field): nat {
    StringCost(f.name) + 2 + CanonCost(f.value)
  }

  function NamesOf(fields: seq<Field>): seq<JsString> {
    seq(|fields|, i requires 0 <= i < |fields| => fields[i].name)
  }

  lemma {:induction false} FieldsCostSum(fields: seq<Field>, m: map<JsString, Json>)
    requires forall i :: 0 <= i < |fields| ==> fields[i].name in m && m[fields[i].name] == fields[i].value
    ensures SumOf(NamesOf(fields), CostIn(m)) == SumOf(fields, FieldCost)
  {
    hide CanonCost;
    if fields != [] {
      assert NamesOf(fields)[1..] == NamesOf(fields[1..]);
      FieldsCostSum(fields[1..], m);
    }
  }

  lemma CostOfRecord(fields: seq<Field>)
    requires DistinctNames(fields) && fields != []
    ensures CanonCost(Record(fields)) == SumOf(fields, FieldCost) + 1
  {
    var m := FieldMap(fields);
    FieldLookUp(fields);
    FieldNames(fields);
    assert fields[0].name in m;
    CanonObjectCost(m);
    FieldsCostSum(fields, m);
    NamesPermute(fields);
    SumOfPermutation(Sorted(m.Keys), NamesOf(fields), CostIn(m));
  }

  lemma NamesPermute(fields: seq<Field>)
    requires DistinctNames(fields)
    ensures multiset(Sorted(FieldMap(fields).Keys)) == multiset(NamesOf(fields))
  {
    var m, names := FieldMap(fields), NamesOf(fields);
    FieldNames(fields);
    hide FieldMap;
    SortedFacts(m.Keys);
    IncreasingNoDuplicates(Sorted(m.Keys));
    forall k ensures k in m.Keys <==> k in Elements(names) {
      if k in m {
        var i :| 0 <= i < |fields| && fields[i].name == k;
        assert names[i] == k;
      }
      if k in Elements(names) {
        var i :| 0 <= i < |names| && names[i] == k;
        assert fields[i].name == k;
      }
    }
    assert m.Keys == Elements(names);
    SameMembersPermute(Sorted(m.Keys), names);
  }

  lemma PrintableRecord(fields: seq<Field>, depth: nat, b: Bounds)
    requires DistinctNames(fields) && |fields| <= b.maxObjectKeys && depth <= b.maxDepth
    ensures Acceptable(Record(fields), depth, b) <==> PrintableFields(fields, depth + 1, b)
  {
    if PrintableFields(fields, depth + 1, b) { FieldsMakePrintable(fields, depth, b); }
    if Acceptable(Record(fields), depth, b) { PrintableHasFields(fields, depth, b); }
  }

  lemma FieldsMakePrintable(fields: seq<Field>, depth: nat, b: Bounds)
    requires DistinctNames(fields) && |fields| <= b.maxObjectKeys && depth <= b.maxDepth
    requires PrintableFields(fields, depth + 1, b)
    ensures Acceptable(Record(fields), depth, b)
  {
    hide Acceptable, AcceptableString, DistinctNames, FieldMap;
    var m := FieldMap(fields);
    FieldLookUp(fields);
    FieldNames(fields);
    AcceptableObject(Record(fields), depth, b);
    forall k | k in m ensures AcceptableString(k, b) && Acceptable(m[k], depth + 1, b) {
      var i :| 0 <= i < |fields| && fields[i].name == k;
    }
  }

  lemma PrintableHasFields(fields: seq<Field>, depth: nat, b: Bounds)
    requires DistinctNames(fields) && Acceptable(Record(fields), depth, b)
    ensures PrintableFields(fields, depth + 1, b)
  {
    hide Acceptable, AcceptableString, DistinctNames, FieldMap;
    var m := FieldMap(fields);
    FieldLookUp(fields);
    AcceptableObject(Record(fields), depth, b);
    forall i | 0 <= i < |fields|
      ensures AcceptableString(fields[i].name, b) && Acceptable(fields[i].value, depth + 1, b)
    {
      assert fields[i].name in m;
    }
  }

  // ---------- the member names ----------

  /** A member name that is printed as it is. */
  predicate IsName(s: JsString, length: nat) {
    IsPlain(s) && |s| == length && length <= 64
  }

  lemma Names1()
    ensures IsName(K_ARGV, 4) && IsName(K_ARTIFACT_ID, 10) && IsName(K_ARTIFACTS, 9)
    ensures IsName(K_BASE_COMMIT, 10) && IsName(K_BINDING, 7) && IsName(K_BUILTIN_ID, 9)
  {
  }

  lemma Names2()
    ensures IsName(K_BYTE_LENGTH, 10) && IsName(K_CANDIDATE, 9) && IsName(K_CANDIDATE_ID, 11)
    ensures IsName(K_CAPABILITY_INDEX, 15) && IsName(K_CHECK_ID, 7) && IsName(K_CHECKS, 6)
  {
  }

  lemma Names3()
    ensures IsName(K_COMPILED_PLAN, 12) && IsName(K_DEPENDS_ON, 9) && IsName(K_DIGEST, 6)
    ensures IsName(K_EFFECT, 6) && IsName(K_ENV_ALLOWLIST, 12) && IsName(K_FILESYSTEM, 10)
  {
  }

  lemma Names4()
    ensures IsName(K_ID, 2) && IsName(K_INPUT_MANIFEST, 13) && IsName(K_INPUTS, 6)
    ensures IsName(K_KERNEL_RELEASE, 13) && IsName(K_KIND, 4) && IsName(K_MEDIA_TYPE, 9)
  {
  }

  lemma Names5()
    ensures IsName(K_NETWORK, 7) && IsName(K_OUTPUT_SCHEMA_ID, 14) && IsName(K_PACK_ID, 6)
    ensures IsName(K_PACK_VERSION, 11) && IsName(K_PACKS, 5) && IsName(K_PHASE, 5)
  {
  }

  lemma Names6()
    ensures IsName(K_PROFILE, 7) && IsName(K_PROFILE_ID, 9) && IsName(K_REPOSITORY_ID, 12)
    ensures IsName(K_RESULT_CONSUMER, 14) && IsName(K_SCHEMA_VERSION, 13) && IsName(K_SOURCE_DIGESTS, 13)
  {
  }

  lemma Names7()
    ensures IsName(K_TIMEOUT_SECONDS, 14) && IsName(K_VALIDATOR, 9) && IsName(K_VALIDATOR_ID, 11)
    ensures IsName(K_VERSION, 7) && IsName(K_WORK_CONTRACT, 12)
  {
  }

  lemma MemberNamesArePlain()
    ensures IsName(K_ARGV, 4) && IsName(K_ARTIFACT_ID, 10) && IsName(K_ARTIFACTS, 9)
    ensures IsName(K_BASE_COMMIT, 10) && IsName(K_BINDING, 7) && IsName(K_BUILTIN_ID, 9)
    ensures IsName(K_BYTE_LENGTH, 10) && IsName(K_CANDIDATE, 9) && IsName(K_CANDIDATE_ID, 11)
    ensures IsName(K_CAPABILITY_INDEX, 15) && IsName(K_CHECK_ID, 7) && IsName(K_CHECKS, 6)
    ensures IsName(K_COMPILED_PLAN, 12) && IsName(K_DEPENDS_ON, 9) && IsName(K_DIGEST, 6)
    ensures IsName(K_EFFECT, 6) && IsName(K_ENV_ALLOWLIST, 12) && IsName(K_FILESYSTEM, 10)
    ensures IsName(K_ID, 2) && IsName(K_INPUT_MANIFEST, 13) && IsName(K_INPUTS, 6)
    ensures IsName(K_KERNEL_RELEASE, 13) && IsName(K_KIND, 4) && IsName(K_MEDIA_TYPE, 9)
    ensures IsName(K_NETWORK, 7) && IsName(K_OUTPUT_SCHEMA_ID, 14) && IsName(K_PACK_ID, 6)
    ensures IsName(K_PACK_VERSION, 11) && IsName(K_PACKS, 5) && IsName(K_PHASE, 5)
    ensures IsName(K_PROFILE, 7) && IsName(K_PROFILE_ID, 9) && IsName(K_REPOSITORY_ID, 12)
    ensures IsName(K_RESULT_CONSUMER, 14) && IsName(K_SCHEMA_VERSION, 13) && IsName(K_SOURCE_DIGESTS, 13)
    ensures IsName(K_TIMEOUT_SECONDS, 14) && IsName(K_VALIDATOR, 9) && IsName(K_VALIDATOR_ID, 11)
    ensures IsName(K_VERSION, 7) && IsName(K_WORK_CONTRACT, 12)
  {
    hide IsName;
    Names1();
    Names2();
    Names3();
    Names4();
    Names5();
    Names6();
    Names7();
  }

  ghost predicate PlainNames(fields: seq<Field>) {
    forall i :: 0 <= i < |fields| ==> IsName(fields[i].name, |fields[i].name|)
  }

  function PlainFieldCost(f: Field): nat {
    |f.name| + 4 + CanonCost(f.value)
  }

  lemma {:induction false} PlainFieldsCost(fields: seq<Field>)
    requires PlainNames(fields)
    ensures SumOf(fields, FieldCost) == SumOf(fields, PlainFieldCost)
  {
    hide CanonCost, StringCost, IsPlain;
    if fields != [] {
      PlainCost(fields[0].name);
      PlainFieldsCost(fields[1..]);
    }
  }

  /** A record of plainly named members: what it costs, and when it can be printed. */
  lemma PlainRecord(fields: seq<Field>, depth: nat)
    requires PlainNames(fields) && DistinctNames(fields) && 0 < |fields| <= 64 && depth < CANONICAL_BOUNDS.maxDepth
    ensures CanonCost(Record(fields)) == SumOf(fields, PlainFieldCost) + 1
    ensures Acceptable(Record(fields), depth, CANONICAL_BOUNDS) <==>
      forall i :: 0 <= i < |fields| ==> Acceptable(fields[i].value, depth + 1, CANONICAL_BOUNDS)
  {
    CostOfRecord(fields);
    PlainFieldsCost(fields);
    PrintableRecord(fields, depth, CANONICAL_BOUNDS);
    forall i | 0 <= i < |fields| ensures AcceptableString(fields[i].name, CANONICAL_BOUNDS) {
      PlainCost(fields[i].name);
    }
    hide Acceptable, AcceptableString, IsPlain, CanonCost, FieldMap;
  }

  /** The cost of the first `n` members. */
  function CostUpTo(fields: seq<Field>, n: nat): nat
    requires n <= |fields|
    decreases n
  {
    if n == 0 then 0 else CostUpTo(fields, n - 1) + PlainFieldCost(fields[n - 1])
  }

  /** The values of the first `n` members can be printed. */
  ghost predicate OkUpTo(fields: seq<Field>, n: nat, depth: nat)
    requires n <= |fields|
    decreases n
  {
    n == 0 || (OkUpTo(fields, n - 1, depth) && Acceptable(fields[n - 1].value, depth, CANONICAL_BOUNDS))
  }

  lemma {:induction false} CostUpToIsSum(fields: seq<Field>, n: nat)
    requires n <= |fields|
    ensures CostUpTo(fields, n) == SumOf(fields[..n], PlainFieldCost)
  {
    hide CanonCost, PlainFieldCost;
    if n > 0 {
      CostUpToIsSum(fields, n - 1);
      var last := fields[n - 1];
      assert fields[..n] == fields[..n - 1] + [last] && [last][1..] == [];
      SumOfConcat(fields[..n - 1], [last], PlainFieldCost);
      assert SumOf([last], PlainFieldCost) == PlainFieldCost(last);
    }
  }

  lemma {:induction false} OkUpToIsAll(fields: seq<Field>, n: nat, depth: nat)
    requires n <= |fields|
    ensures OkUpTo(fields, n, depth) <==>
      forall i :: 0 <= i < n ==> Acceptable(fields[i].value, depth, CANONICAL_BOUNDS)
  {
    hide Acceptable;
    if n > 0 { OkUpToIsAll(fields, n - 1, depth); }
  }

  /** A record of `n` plainly named members, member by member. */
  lemma RecordParts(fields: seq<Field>, n: nat, depth: nat)
    requires |fields| == n && 0 < n <= 64 && PlainNames(fields) && DistinctNames(fields)
    requires depth < CANONICAL_BOUNDS.maxDepth
    ensures CanonCost(Record(fields)) == CostUpTo(fields, n) + 1
    ensures Acceptable(Record(fields), depth, CANONICAL_BOUNDS) <==> OkUpTo(fields, n, depth + 1)
  {
    hide *;
    PlainRecord(fields, depth);
    CostUpToIsSum(fields, n);
    OkUpToIsAll(fields, n, depth + 1);
    assert fields[..n] == fields;
  }

  // ---------- scalars ----------

  lemma TextExact(s: JsString, depth: nat)
    requires depth <= CANONICAL_BOUNDS.maxDepth
    ensures CanonCost(Str(s)) == StringCost(s)
    ensures Acceptable(Str(s), depth, CANONICAL_BOUNDS) <==> TextOk(s)
  {
    CostOfString(s);
    hide CanonCost, StringCost;
  }

  lemma NumberExact(n: int, depth: nat)
    requires depth <= CANONICAL_BOUNDS.maxDepth
    ensures CanonCost(Num(n)) == |Decimal(n)|
    ensures Acceptable(Num(n), depth, CANONICAL_BOUNDS) <==> IsSafeInteger(n)
  {
    CostOfNumber(n);
    hide CanonCost;
  }
}
