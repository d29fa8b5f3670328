/** The schema patterns as regular expressions say them: parts, repetitions, and what stands between them. */
module PatternText {
  import opened Base
  import opened Patterns

  // ---------- classes of characters ----------

  ghost predicate LowerOrDigit(u: Unit) {
    'a' as int <= u as int <= 'z' as int || '0' as int <= u as int <= '9' as int
  }

  ghost predicate Hex(u: Unit) {
    '0' as int <= u as int <= '9' as int || 'a' as int <= u as int <= 'f' as int
  }

  /** `[a-z0-9]+` */
  ghost predicate Word(s: JsString) {
    s != [] && forall k :: 0 <= k < |s| ==> LowerOrDigit(s[k])
  }

  /** `[0-9]*` */
  ghost predicate Digits(s: JsString) {
    forall k :: 0 <= k < |s| ==> '0' as int <= s[k] as int <= '9' as int
  }

  /** `[0-9a-f]{n}` */
  ghost predicate HexOfLength(s: JsString, n: nat) {
    |s| == n && forall k :: 0 <= k < |s| ==> Hex(s[k])
  }

  // ---------- names ----------

  /** Words with one of some separators between each two: `word(sep word)*`. */
  ghost predicate Words(s: JsString, separators: set<Unit>)
    decreases |s|
  {
    || Word(s)
    || exists n :: 0 < n < |s| - 1 && Word(s[..n]) && s[n] in separators && Words(s[n + 1..], separators)
  }

  lemma SeparatedBefore(s: JsString, n: int)
    requires 0 < n < |s| - 1 && Word(s[..n]) && s[n] == 0x2D && IsKebab(s[n + 1..])
    ensures IsKebab(s)
  {
    var rest := s[n + 1..];
    assert forall k :: 0 <= k < n ==> s[k] == s[..n][k];
    assert forall k :: n < k < |s| ==> s[k] == rest[k - n - 1];
  }

  lemma {:induction false} WordsAreKebab(s: JsString)
    requires Words(s, {0x2D})
    ensures IsKebab(s)
    decreases |s|
  {
    if !Word(s) {
      var n :| 0 < n < |s| - 1 && Word(s[..n]) && s[n] in {0x2D as Unit} && Words(s[n + 1..], {0x2D});
      WordsAreKebab(s[n + 1..]);
      SeparatedBefore(s, n);
    }
  }

  /** The first separator of a text, or its end. */
  lemma {:induction false} FirstSeparator(s: JsString) returns (n: nat)
    ensures n <= |s| && (forall k :: 0 <= k < n ==> LowerOrDigit(s[k])) && (n < |s| ==> !LowerOrDigit(s[n]))
  {
    if s == [] || !LowerOrDigit(s[0]) {
      n := 0;
    } else {
      var m := FirstSeparator(s[1..]);
      n := m + 1;
      assert forall k :: 0 < k < n ==> s[k] == s[1..][k - 1];
    }
  }

  lemma {:induction false} KebabIsWords(s: JsString)
    requires IsKebab(s)
    ensures Words(s, {0x2D})
    decreases |s|
  {
    var n := FirstSeparator(s);
    if n < |s| {
      var rest := s[n + 1..];
      assert s[n] == 0x2D && 0 < n < |s| - 1;
      assert forall k :: 0 <= k < |rest| ==> rest[k] == s[k + n + 1];
      assert IsKebab(rest);
      KebabIsWords(rest);
      assert Word(s[..n]);
    }
  }

  /** kebabId: `^[a-z0-9]+(-[a-z0-9]+)*$`, at most 128 characters. */
  lemma KebabExactly(s: JsString)
    ensures IsKebab(s) <==> Words(s, {0x2D})
    ensures IsKebabId(s) <==> Words(s, {0x2D}) && |s| <= 128
  {
    if IsKebab(s) { KebabIsWords(s); }
    if Words(s, {0x2D}) { WordsAreKebab(s); }
  }

  lemma {:induction false} WordsAreInputName(s: JsString)
    requires Words(s, {0x2D, 0x2E})
    ensures s != [] && IsLowerAlnum(s[0]) && IsLowerAlnum(s[|s| - 1])
    ensures forall k :: 0 <= k < |s| ==> IsLowerAlnum(s[k]) || s[k] == 0x2D || s[k] == 0x2E
    ensures forall k :: 0 <= k < |s| - 1 ==> IsLowerAlnum(s[k]) || IsLowerAlnum(s[k + 1])
    decreases |s|
  {
    if !Word(s) {
      var n :| 0 < n < |s| - 1 && Word(s[..n]) && s[n] in {0x2D as Unit, 0x2E} && Words(s[n + 1..], {0x2D, 0x2E});
      var rest := s[n + 1..];
      WordsAreInputName(rest);
      assert forall k :: 0 <= k < n ==> s[k] == s[..n][k];
      assert forall k :: n < k < |s| ==> s[k] == rest[k - n - 1];
    }
  }

  lemma {:induction false} InputNameIsWords(s: JsString)
    requires s != [] && IsLowerAlnum(s[0]) && IsLowerAlnum(s[|s| - 1])
    requires forall k :: 0 <= k < |s| ==> IsLowerAlnum(s[k]) || s[k] == 0x2D || s[k] == 0x2E
    requires forall k :: 0 <= k < |s| - 1 ==> IsLowerAlnum(s[k]) || IsLowerAlnum(s[k + 1])
    ensures Words(s, {0x2D, 0x2E})
    decreases |s|
  {
    var n := FirstSeparator(s);
    if n < |s| {
      var rest := s[n + 1..];
      assert !IsLowerAlnum(s[n]) && 0 < n < |s| - 1;
      assert forall k :: 0 <= k < |rest| ==> rest[k] == s[k + n + 1];
      InputNameIsWords(rest);
      assert Word(s[..n]);
    }
  }

  /** The name of a check's input: `^[a-z0-9]+([.-][a-z0-9]+)*$`, at most 128 characters. */
  lemma InputNameExactly(s: JsString)
    ensures IsInputName(s) <==> Words(s, {0x2D, 0x2E}) && |s| <= 128
  {
    if IsInputName(s) { InputNameIsWords(s); }
    if Words(s, {0x2D, 0x2E}) { WordsAreInputName(s); }
  }

  // ---------- versions ----------

  /** `[1-9][0-9]*` */
  ghost predicate Positive(s: JsString) {
    s != [] && '1' as int <= s[0] as int <= '9' as int && Digits(s)
  }

  /** `0|[1-9][0-9]*` */
  ghost predicate Natural(s: JsString) {
    s == [0x30] || Positive(s)
  }

  lemma NumbersExactly(s: JsString)
    ensures IsVersionNumber(s) <==> Positive(s)
    ensures IsNumber(s) <==> Natural(s)
  {
  }

  /** A kebab-case name, `@`, and a positive number. */
  ghost predicate VersionedAs(s: JsString, name: JsString, number: JsString) {
    Words(name, {0x2D}) && Positive(number) && s == name + [0x40] + number
  }

  lemma VersionedFrom(s: JsString, name: JsString, number: JsString)
    requires VersionedAs(s, name, number)
    ensures IsVersioned(s)
  {
    hide IsKebab, IsVersionNumber, Positive, Words;
    KebabExactly(name);
    NumbersExactly(number);
    assert s[|name|] == 0x40 && s[..|name|] == name && s[|name| + 1..] == number;
  }

  lemma VersionedParts(s: JsString) returns (name: JsString, number: JsString)
    requires IsVersioned(s)
    ensures VersionedAs(s, name, number)
  {
    hide IsKebab, IsVersionNumber, Positive, Words;
    var k :| 0 <= k < |s| && s[k] == 0x40 && IsKebab(s[..k]) && IsVersionNumber(s[k + 1..]);
    name, number := s[..k], s[k + 1..];
    KebabExactly(name);
    NumbersExactly(number);
    assert s == name + [0x40] + number;
  }

  /** versionedId: such a text of at most 128 characters. */
  lemma VersionedExactly(s: JsString)
    ensures IsVersioned(s) <==> exists name, number :: VersionedAs(s, name, number)
    ensures IsVersionedId(s) <==> IsVersioned(s) && |s| <= 128
  {
    hide IsVersioned, VersionedAs;
    if IsVersioned(s) { var name, number := VersionedParts(s); }
    if name, number :| VersionedAs(s, name, number) { VersionedFrom(s, name, number); }
  }

  /** Three natural numbers with dots between them. */
  ghost predicate SemverAs(s: JsString, a: JsString, b: JsString, c: JsString) {
    Natural(a) && Natural(b) && Natural(c) && s == a + [0x2E] + b + [0x2E] + c
  }

  lemma SemverFrom(s: JsString, a: JsString, b: JsString, c: JsString)
    requires SemverAs(s, a, b, c)
    ensures IsSemver(s)
  {
    hide IsNumber, Natural;
    NumbersExactly(a);
    NumbersExactly(b);
    NumbersExactly(c);
    var i, j := |a|, |a| + 1 + |b|;
    assert s[..i] == a && s[i] == 0x2E && s[i + 1..j] == b && s[j] == 0x2E && s[j + 1..] == c;
  }

  lemma SemverParts(s: JsString) returns (a: JsString, b: JsString, c: JsString)
    requires IsSemver(s)
    ensures SemverAs(s, a, b, c)
  {
    hide IsNumber, Natural;
    var i, j :| 0 <= i < j < |s| && s[i] == 0x2E && s[j] == 0x2E
      && IsNumber(s[..i]) && IsNumber(s[i + 1..j]) && IsNumber(s[j + 1..]);
    a, b, c := s[..i], s[i + 1..j], s[j + 1..];
    NumbersExactly(a);
    NumbersExactly(b);
    NumbersExactly(c);
    assert s == a + [0x2E] + b + [0x2E] + c;
  }

  lemma SemverExactly(s: JsString)
    ensures IsSemver(s) <==> exists a, b, c :: SemverAs(s, a, b, c)
  {
    hide IsSemver, SemverAs;
    if IsSemver(s) { var a, b, c := SemverParts(s); }
    if a, b, c :| SemverAs(s, a, b, c) { SemverFrom(s, a, b, c); }
  }

  // ---------- digests, commits, targets ----------

  /** commitId: 40 or 64 hexadecimal digits. */
  lemma CommitExactly(s: JsString)
    ensures IsCommitId(s) <==> HexOfLength(s, 40) || HexOfLength(s, 64)
  {
  }

  /** digest: `sha256:` and 64 hexadecimal digits; the digits alone name the object. */
  lemma DigestExactly(s: JsString)
    ensures IsDigest(s) <==> exists hex :: HexOfLength(hex, 64) && s == Ascii("sha256:") + hex
    ensures IsObjectName(s) <==> HexOfLength(s, 64)
  {
    var p := Ascii("sha256:");
    assert |p| == 7 && DIGEST_PREFIX == p;
    if IsDigest(s) {
      assert s == p + s[7..];
    }
    if hex :| HexOfLength(hex, 64) && s == p + hex {
      assert s[..7] == p && s[7..] == hex;
    }
  }

  /** A target command's name: `target:sha256:` and 64 hexadecimal digits. */
  lemma TargetExactly(s: JsString)
    ensures IsTargetId(s) <==> exists hex :: HexOfLength(hex, 64) && s == Ascii("target:sha256:") + hex
  {
    var p := Ascii("target:sha256:");
    assert |p| == 14 && TARGET_DIGEST_PREFIX == p;
    hide TARGET_DIGEST_PREFIX;
    if IsTargetId(s) {
      assert s == p + s[14..];
      assert HexOfLength(s[14..], 64);
    }
    if hex :| HexOfLength(hex, 64) && s == p + hex {
      assert s[..14] == p;
      assert forall k :: 14 <= k < |s| ==> s[k] == hex[k - 14];
    }
  }

  /** validatorId of an evidence index: a versioned id or a target, at most 128 characters. */
  lemma ValidatorExactly(s: JsString)
    ensures IsValidatorRef(s) <==> (IsVersioned(s) || IsTargetId(s)) && |s| <= 128
  {
  }

  // ---------- environment names and paths ----------

  /** `^[A-Z][A-Z0-9_]{0,63}$` */
  lemma EnvNameExactly(s: JsString)
    ensures IsEnvName(s) <==>
      && 1 <= |s| <= 64 && 'A' as int <= s[0] as int <= 'Z' as int
      && forall k :: 0 <= k < |s| ==>
           'A' as int <= s[k] as int <= 'Z' as int || '0' as int <= s[k] as int <= '9' as int || s[k] as int == '_' as int
  {
  }

  /** `^[A-Za-z0-9._/-]+$`, at most 512 characters. */
  lemma PathExactly(s: JsString)
    ensures IsManifestPath(s) <==>
      && 1 <= |s| <= 512
      && forall k :: 0 <= k < |s| ==>
           || 'a' as int <= s[k] as int <= 'z' as int || 'A' as int <= s[k] as int <= 'Z' as int
           || '0' as int <= s[k] as int <= '9' as int || s[k] as int == '.' as int || s[k] as int == '_' as int
           || s[k] as int == '/' as int || s[k] as int == '-' as int
  {
  }
}
