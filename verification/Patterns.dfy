/** The patterns that the schemas put on identifiers, versions, commits, digests, paths and names. */
module Patterns {
  import opened Base

  const MAX_ID_LENGTH := 128

  predicate IsLowerAlnum(u: Unit) {
    0x30 <= u <= 0x39 || 0x61 <= u <= 0x7A
  }

  /** `/^[a-z0-9]+(-[a-z0-9]+)*$/` */
  predicate IsKebab(s: JsString) {
    && s != []
    && (forall k :: 0 <= k < |s| ==> IsLowerAlnum(s[k]) || s[k] == 0x2D)
    && s[0] != 0x2D && s[|s| - 1] != 0x2D
    && forall k :: 0 <= k < |s| - 1 ==> !(s[k] == 0x2D && s[k + 1] == 0x2D)
  }

  /** kebabId: a kebab-case name of at most 128 characters. */
  predicate IsKebabId(s: JsString) {
    IsKebab(s) && |s| <= MAX_ID_LENGTH
  }

  /** `[1-9][0-9]*` */
  predicate IsVersionNumber(s: JsString) {
    s != [] && 0x31 <= s[0] <= 0x39 && forall k :: 0 <= k < |s| ==> 0x30 <= s[k] <= 0x39
  }

  /** A kebab-case name, `@`, and a version number. */
  predicate IsVersioned(s: JsString) {
    exists k :: 0 <= k < |s| && s[k] == 0x40 && IsKebab(s[..k]) && IsVersionNumber(s[k + 1..])
  }

  predicate IsVersionedId(s: JsString) {
    IsVersioned(s) && |s| <= MAX_ID_LENGTH
  }

  /** `0|[1-9][0-9]*` */
  predicate IsNumber(s: JsString) {
    s == [0x30] || IsVersionNumber(s)
  }

  /** Three numbers with two dots between them. */
  predicate IsSemver(s: JsString) {
    exists i, j ::
      && 0 <= i < j < |s| && s[i] == 0x2E && s[j] == 0x2E
      && IsNumber(s[..i]) && IsNumber(s[i + 1..j]) && IsNumber(s[j + 1..])
  }

  predicate AllLowerHex(s: JsString) {
    forall k :: 0 <= k < |s| ==> IsLowerHex(s[k])
  }

  /** `/^([0-9a-f]{40}|[0-9a-f]{64})$/` */
  predicate IsCommitId(s: JsString) {
    (|s| == 40 || |s| == 64) && AllLowerHex(s)
  }

  /** `/^[0-9a-f]{64}$/` */
  predicate IsObjectName(name: JsString) {
    |name| == 64 && AllLowerHex(name)
  }

  const DIGEST_PREFIX: JsString := Ascii("sha256:")

  /** A printed SHA-256 digest. */
  predicate IsDigest(d: Digest) {
    |DIGEST_PREFIX| <= |d| && d[..|DIGEST_PREFIX|] == DIGEST_PREFIX && IsObjectName(d[|DIGEST_PREFIX|..])
  }

  const TARGET_DIGEST_PREFIX: JsString := Ascii("target:sha256:")

  /** A target command named by the digest of its argv. */
  predicate IsTargetId(s: JsString) {
    && |s| == |TARGET_DIGEST_PREFIX| + 64 && s[..|TARGET_DIGEST_PREFIX|] == TARGET_DIGEST_PREFIX
    && forall k :: |TARGET_DIGEST_PREFIX| <= k < |s| ==> IsLowerHex(s[k])
  }

  /** validatorId of an evidence index: a versioned builtin id or a digest-qualified target. */
  predicate IsValidatorRef(s: JsString) {
    (IsVersioned(s) || IsTargetId(s)) && |s| <= MAX_ID_LENGTH
  }

  /** `/^[a-z0-9]+([.-][a-z0-9]+)*$/`, at most 128 characters: the name of an input of a check. */
  predicate IsInputName(s: JsString) {
    && s != [] && |s| <= MAX_ID_LENGTH
    && (forall k :: 0 <= k < |s| ==> IsLowerAlnum(s[k]) || s[k] == 0x2D || s[k] == 0x2E)
    && IsLowerAlnum(s[0]) && IsLowerAlnum(s[|s| - 1])
    && forall k :: 0 <= k < |s| - 1 ==> IsLowerAlnum(s[k]) || IsLowerAlnum(s[k + 1])
  }

  predicate IsUpper(u: Unit) {
    0x41 <= u <= 0x5A
  }

  /** `/^[A-Z][A-Z0-9_]{0,63}$/` */
  predicate IsEnvName(s: JsString) {
    && 1 <= |s| <= 64 && IsUpper(s[0])
    && forall k :: 0 <= k < |s| ==> IsUpper(s[k]) || 0x30 <= s[k] <= 0x39 || s[k] == 0x5F
  }

  /** `/^[A-Za-z0-9._/-]+$/`, at most 512 characters. */
  predicate IsManifestPath(s: JsString) {
    && 1 <= |s| <= 512
    && forall k :: 0 <= k < |s| ==>
         IsLowerAlnum(s[k]) || IsUpper(s[k]) || s[k] == 0x2E || s[k] == 0x5F || s[k] == 0x2F || s[k] == 0x2D
  }
}
