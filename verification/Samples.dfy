/** Names, versions and digests that the patterns admit, for inputs that show what happens. */
module Samples {
  import opened Base
  import opened Patterns
  import opened Json
  import opened PrintCost

  // ---------- identifiers ----------

  /** Distinct identifiers of a given length, all lower-case letters. */
  function SampleId(k: nat, length: nat): JsString
    requires k < 0x1_0000 && length >= 4
  {
    [0x61 + k / 16 / 16 / 16, 0x61 + k / 16 / 16 % 16, 0x61 + k / 16 % 16, 0x61 + k % 16] + seq(length - 4, _ => 0x61)
  }

  lemma SampleIdFacts(k: nat, length: nat)
    requires k < 0x1_0000 && length >= 4
    ensures |SampleId(k, length)| == length && IsPlain(SampleId(k, length)) && IsKebab(SampleId(k, length))
  {
  }

  lemma SampleIdsDiffer(j: nat, k: nat, length: nat)
    requires j < 0x1_0000 && k < 0x1_0000 && length >= 4
    ensures SampleId(j, length) == SampleId(k, length) ==> j == k
  {
    var a, b := SampleId(j, length), SampleId(k, length);
    assert a == b ==> a[0] == b[0] && a[1] == b[1] && a[2] == b[2] && a[3] == b[3];
    SameDigits(j / 16 / 16, k / 16 / 16);
    SameDigits(j / 16, k / 16);
    SameDigits(j, k);
  }

  lemma SameDigits(j: nat, k: nat)
    ensures j / 16 == k / 16 && j % 16 == k % 16 ==> j == k
  {
  }

  // ---------- words ----------

  const SAMPLE_WORD: JsString := Ascii("sample")
  const SAMPLE_VERSIONED: JsString := Ascii("sample@1")
  const SAMPLE_VERSION: JsString := Ascii("1.0.0")
  const SAMPLE_COMMIT: JsString := Hex(0x0123_4567_89AB_CDEF, 40)

  lemma SampleWordIsKebab()
    ensures IsKebab(SAMPLE_WORD) && IsKebabId(SAMPLE_WORD) && IsPlain(SAMPLE_WORD) && |SAMPLE_WORD| == 6
  {
  }

  lemma SampleVersionedIsShaped()
    ensures IsVersionedId(SAMPLE_VERSIONED) && IsValidatorRef(SAMPLE_VERSIONED) && IsPlain(SAMPLE_VERSIONED)
    ensures |SAMPLE_VERSIONED| == 8
  {
    var s := SAMPLE_VERSIONED;
    assert s[6] == 0x40 && s[..6] == SAMPLE_WORD && s[7..] == [0x31];
    SampleWordIsKebab();
  }

  lemma SampleVersionIsShaped()
    ensures IsSemver(SAMPLE_VERSION) && IsPlain(SAMPLE_VERSION) && |SAMPLE_VERSION| == 5
  {
    var s := SAMPLE_VERSION;
    assert s[1] == 0x2E && s[3] == 0x2E && s[..1] == [0x31] && s[1 + 1..3] == [0x30] && s[3 + 1..] == [0x30];
  }

  lemma SampleCommitIsShaped()
    ensures IsCommitId(SAMPLE_COMMIT) && IsPlain(SAMPLE_COMMIT) && |SAMPLE_COMMIT| == 40
  {
    hide Hex;
    HexIsPlain(SAMPLE_COMMIT);
  }

  lemma HexIsPlain(s: JsString)
    ensures AllLowerHex(s) ==> IsPlain(s)
  {
  }

  // ---------- digests ----------

  /** `n` in hexadecimal, its last `digits` digits. */
  function Hex(n: nat, digits: nat): (s: JsString)
    ensures |s| == digits && AllLowerHex(s)
  {
    if digits == 0 then []
    else Hex(n / 16, digits - 1) + [if n % 16 < 10 then 0x30 + n % 16 else 0x57 + n % 16]
  }

  /** A hash that prints digests: it tells byte strings apart by their lengths only. */
  function LengthDigest(b: Bytes): Digest {
    DIGEST_PREFIX + Hex(|b|, 64)
  }

  lemma LengthDigestIsDigest(b: Bytes)
    ensures IsDigest(LengthDigest(b))
  {
    var d := LengthDigest(b);
    assert d[..|DIGEST_PREFIX|] == DIGEST_PREFIX && d[|DIGEST_PREFIX|..] == Hex(|b|, 64);
  }

  /** A printed digest is plain text. */
  lemma DigestIsPlain(d: Digest)
    requires IsDigest(d)
    ensures IsPlain(d) && |d| == 71
  {
    assert |DIGEST_PREFIX| == 7 && IsPlain(DIGEST_PREFIX);
    forall k | 0 <= k < |d| ensures d[k] == if k < 7 then DIGEST_PREFIX[k] else d[7..][k - 7] {
      if k < 7 { assert d[..7][k] == d[k]; }
    }
  }

  // ---------- what they cost ----------

  lemma PlainTextFits(s: JsString)
    requires IsPlain(s) && |s| <= 128
    ensures TextOk(s) && StringCost(s) == |s| + 2
  {
    PlainCost(s);
  }

  function PowerOfTen(k: nat): nat {
    if k == 0 then 1 else 10 * PowerOfTen(k - 1)
  }

  lemma {:induction false} DigitsWithin(n: nat, k: nat)
    requires 1 <= k && n < PowerOfTen(k)
    ensures |NatDigits(n)| <= k
  {
    if n >= 10 { DigitsWithin(n / 10, k - 1); }
  }

  lemma SafeDecimalIsShort(n: nat)
    requires IsSafeInteger(n)
    ensures |Decimal(n)| <= 16
  {
    assert PowerOfTen(2) == 100 && PowerOfTen(4) == 10_000 && PowerOfTen(6) == 1_000_000;
    assert PowerOfTen(8) == 100_000_000 && PowerOfTen(10) == 10_000_000_000;
    assert PowerOfTen(12) == 1_000_000_000_000 && PowerOfTen(14) == 100_000_000_000_000;
    assert PowerOfTen(16) == 10_000_000_000_000_000;
    DigitsWithin(n, 16);
  }
}
