/**
 What the canonical text of a value is, character by character, said without the printer: the words, the escapes, the
 numerals, the punctuation, and the members of an object in ascending order of their names' UTF-16 code units.
 */
module CanonicalText {
  import opened Base
  import opened Ordering
  import opened Text
  import opened Json
  import opened StrictJson
  import opened Grammar
  import opened CanonicalJson
  import opened RoundTrip

  // ---------- strings ----------

  const HEX_DIGITS: string := "0123456789abcdef"

  /** The text is how the unit is written inside quotation marks. */
  ghost predicate Writes(text: JsString, u: Unit) {
    if u == 0x22 then text == [0x5C, 0x22]
    else if u == 0x5C then text == [0x5C, 0x5C]
    else if u == 0x08 then text == [0x5C, 'b' as int]
    else if u == 0x09 then text == [0x5C, 't' as int]
    else if u == 0x0A then text == [0x5C, 'n' as int]
    else if u == 0x0C then text == [0x5C, 'f' as int]
    else if u == 0x0D then text == [0x5C, 'r' as int]
    else if u < 0x10 then text == [0x5C, 'u' as int, '0' as int, '0' as int, '0' as int, HEX_DIGITS[u] as int]
    else if u < 0x20 then text == [0x5C, 'u' as int, '0' as int, '0' as int, '1' as int, HEX_DIGITS[u - 0x10] as int]
    else text == [u]
  }

  /** The text is how the units are written, one after the other. */
  ghost predicate WritesAll(text: JsString, s: JsString)
    decreases |s|
  {
    if s == [] then text == []
    else exists n :: 0 <= n <= |text| && Writes(text[..n], s[0]) && WritesAll(text[n..], s[1..])
  }

  ghost predicate PrintsString(text: JsString, s: JsString) {
    |text| >= 2 && text[0] == 0x22 && text[|text| - 1] == 0x22 && WritesAll(text[1..|text| - 1], s)
  }

  // ---------- numerals ----------

  function DecimalValue(digits: JsString): int {
    if digits == [] then 0 else DecimalValue(digits[..|digits| - 1]) * 10 + digits[|digits| - 1] - 0x30
  }

  /** Digits without a leading zero, unless there is only one. */
  ghost predicate IsNumeral(text: JsString) {
    text != [] && (forall k :: 0 <= k < |text| ==> 0x30 <= text[k] <= 0x39) && (|text| > 1 ==> text[0] != 0x30)
  }

  ghost predicate PrintsNumber(text: JsString, n: int) {
    if n >= 0 then IsNumeral(text) && DecimalValue(text) == n
    else text != [] && text[0] == 0x2D && IsNumeral(text[1..]) && DecimalValue(text[1..]) == -n
  }

  // ---------- values ----------

  /** The parts with commas between them. */
  function CommaList(parts: seq<JsString>): JsString {
    if parts == [] then []
    else if |parts| == 1 then parts[0]
    else CommaList(parts[..|parts| - 1]) + [0x2C] + parts[|parts| - 1]
  }

  /** The names, colons and texts of an object's members. */
  ghost predicate ArePairs(pairs: seq<JsString>, keys: seq<JsString>, texts: seq<JsString>) {
    && |pairs| == |keys| == |texts|
    && forall i :: 0 <= i < |keys| ==>
         exists name :: PrintsString(name, keys[i]) && pairs[i] == name + [0x3A] + texts[i]
  }

  ghost predicate Ascending(keys: seq<JsString>) {
    forall i, j :: 0 <= i < j < |keys| ==> UnitBefore(keys[i], keys[j])
  }

  /** The text of an object whose members' names are `keys` and whose values' texts are `texts`. */
  ghost predicate PrintsMembers(m: map<JsString, Json>, text: JsString, keys: seq<JsString>, texts: seq<JsString>) {
    && |keys| == |texts| && Ascending(keys) && (forall k :: k in keys <==> k in m)
    && exists pairs :: ArePairs(pairs, keys, texts) && text == [0x7B] + CommaList(pairs) + [0x7D]
  }

  /** The text is the canonical text of the value. */
  ghost predicate Prints(v: Json, text: JsString)
    decreases v
  {
    match v
    case Null => text == [0x6E, 0x75, 0x6C, 0x6C]
    case Bool(true) => text == [0x74, 0x72, 0x75, 0x65]
    case Bool(false) => text == [0x66, 0x61, 0x6C, 0x73, 0x65]
    case Num(n) => PrintsNumber(text, n)
    case Str(s) => PrintsString(text, s)
    case Arr(items) =>
      exists texts: seq<JsString> ::
        && |texts| == |items| && text == [0x5B] + CommaList(texts) + [0x5D]
        && forall i :: 0 <= i < |items| ==> Prints(items[i], texts[i])
    case Obj(m) =>
      exists keys: seq<JsString>, texts: seq<JsString> ::
        && PrintsMembers(m, text, keys, texts)
        && forall i :: 0 <= i < |keys| && i < |texts| && keys[i] in m ==> Prints(m[keys[i]], texts[i])
    case _ => false
  }

  // ---------- the printer writes it ----------

  lemma HexDigits(d: int)
    requires 0 <= d < 16
    ensures HEX_DIGITS[d] as int == if d < 10 then 0x30 + d else 0x61 + d - 10
  {
  }

  lemma EscapeWrites(u: Unit)
    ensures Writes(EscapeUnit(u), u)
  {
    hide HEX_DIGITS;
    if u < 0x10 { HexDigits(u); }
    if 0x10 <= u < 0x20 { HexDigits(u - 0x10); }
  }

  lemma {:induction false} EscapesWriteAll(s: JsString)
    ensures WritesAll(EscapeAll(s), s)
  {
    hide EscapeUnit, Writes;
    if s != [] {
      EscapeWrites(s[0]);
      EscapesWriteAll(s[1..]);
      var text, n := EscapeAll(s), |EscapeUnit(s[0])|;
      assert text[..n] == EscapeUnit(s[0]) && text[n..] == EscapeAll(s[1..]);
    }
  }

  lemma StringifyPrints(s: JsString)
    ensures PrintsString(Stringify(s), s)
  {
    EscapesWriteAll(s);
    assert Stringify(s)[1..|Stringify(s)| - 1] == EscapeAll(s);
  }

  lemma {:induction false} DecimalValueIsNatValue(digits: JsString)
    requires AllDigits(digits)
    ensures DecimalValue(digits) == NatValue(digits)
  {
    if digits != [] { DecimalValueIsNatValue(digits[..|digits| - 1]); }
  }

  lemma NatDigitsAreNumeral(n: nat)
    ensures IsNumeral(NatDigits(n)) && DecimalValue(NatDigits(n)) == n
  {
    NatDigitsShape(n);
    DecimalValueIsNatValue(NatDigits(n));
    NumeralIsUnique(NatDigits(n)) by { if n == 0 { assert |NatDigits(n)| == 1; } }
  }

  lemma DecimalPrints(n: int)
    ensures PrintsNumber(Decimal(n), n)
  {
    NatDigitsAreNumeral(if n < 0 then -n else n);
    assert n < 0 ==> Decimal(n)[1..] == NatDigits(-n);
  }

  lemma {:induction false} JoinedIsCommaList(parts: seq<JsString>)
    ensures JoinCommas(parts) == CommaList(parts)
  {
    if |parts| > 1 {
      var first, last := parts[0], parts[|parts| - 1];
      var front, rest, middle := parts[..|parts| - 1], parts[1..], parts[1..|parts| - 1];
      JoinedIsCommaList(rest);
      JoinedIsCommaList(front);
      if |parts| > 2 {
        JoinedIsCommaList(middle);
        assert rest[..|rest| - 1] == middle && front[1..] == middle;
        assert JoinCommas(front) == first + [COMMA] + CommaList(middle);
        assert CommaList(rest) == CommaList(middle) + [0x2C] + last;
        assert first + [COMMA] + (CommaList(middle) + [0x2C] + last)
               == (first + [COMMA] + CommaList(middle)) + [0x2C] + last;
      }
    }
  }

  lemma {:induction false} SerializedItems(items: seq<Json>, depth: nat, b: Bounds)
    requires SerializeItems(items, depth, b).Ok?
    ensures var texts := SerializeItems(items, depth, b).value;
      && |texts| == |items|
      && forall i :: 0 <= i < |items| ==> Serialize(items[i], depth, b) == Ok(texts[i])
  {
    hide Serialize;
    if items != [] { SerializedItems(items[1..], depth, b); }
  }

  /** The texts of the members' values. */
  lemma {:induction false} SerializedMembers(keys: seq<JsString>, v: Json, depth: nat, b: Bounds)
    returns (texts: seq<JsString>)
    requires v.Obj? && (forall k :: k in keys ==> k in v.members) && SerializeMembers(keys, v, depth, b).Ok?
    ensures |texts| == |keys| && ArePairs(SerializeMembers(keys, v, depth, b).value, keys, texts)
    ensures forall i :: 0 <= i < |keys| ==> Serialize(v.members[keys[i]], depth, b) == Ok(texts[i])
  {
    hide Serialize, Stringify, PrintsString;
    if keys == [] {
      texts := [];
    } else {
      var rest := SerializedMembers(keys[1..], v, depth, b);
      texts := [Serialize(v.members[keys[0]], depth, b).value] + rest;
      StringifyPrints(keys[0]);
      var pairs, more := SerializeMembers(keys, v, depth, b).value, SerializeMembers(keys[1..], v, depth, b).value;
      forall i | 0 <= i < |keys|
        ensures exists name :: PrintsString(name, keys[i]) && pairs[i] == name + [0x3A] + texts[i]
      {
        if i > 0 {
          assert keys[i] == keys[1..][i - 1] && pairs[i] == more[i - 1];
          var name :| PrintsString(name, keys[1..][i - 1]) && more[i - 1] == name + [0x3A] + rest[i - 1];
          assert PrintsString(name, keys[i]) && pairs[i] == name + [0x3A] + texts[i];
        }
      }
    }
  }

  lemma SortedKeysAscend(m: map<JsString, Json>)
    ensures Ascending(Sorted(m.Keys)) && forall k :: k in Sorted(m.Keys) <==> k in m
  {
    SortedAscends(m.Keys);
    SortedFacts(m.Keys);
    assert forall k :: k in Sorted(m.Keys) <==> k in Elements(Sorted(m.Keys));
  }

  lemma SerializedArray(items: seq<Json>, depth: nat, b: Bounds) returns (texts: seq<JsString>)
    requires Serialize(Arr(items), depth, b).Ok?
    ensures |texts| == |items| && Serialize(Arr(items), depth, b).value == [0x5B] + CommaList(texts) + [0x5D]
    ensures forall i :: 0 <= i < |items| ==> Serialize(items[i], depth + 1, b) == Ok(texts[i])
  {
    hide CommaList, JoinCommas, SerializeItems;
    texts := SerializeItems(items, depth + 1, b).value;
    SerializedItems(items, depth + 1, b);
    JoinedIsCommaList(texts);
  }

  lemma SerializedObject(m: map<JsString, Json>, depth: nat, b: Bounds)
    returns (keys: seq<JsString>, texts: seq<JsString>)
    requires Serialize(Obj(m), depth, b).Ok?
    ensures PrintsMembers(m, Serialize(Obj(m), depth, b).value, keys, texts)
    ensures forall i :: 0 <= i < |keys| && i < |texts| && keys[i] in m ==>
      Serialize(m[keys[i]], depth + 1, b) == Ok(texts[i])
  {
    hide ArePairs, Ascending, CommaList, JoinCommas, SerializeMembers, Sorted, WellFormed;
    SortedKeysAscend(m);
    keys := Sorted(m.Keys);
    var pairs := SerializeMembers(keys, Obj(m), depth + 1, b).value;
    texts := SerializedMembers(keys, Obj(m), depth + 1, b);
    JoinedIsCommaList(pairs);
  }

  lemma ScalarPrints(v: Json, depth: nat, b: Bounds)
    requires Serialize(v, depth, b).Ok? && !v.Arr? && !v.Obj?
    ensures Prints(v, Serialize(v, depth, b).value)
  {
    hide Decimal, PrintsNumber, PrintsString, Stringify, WellFormed;
    if v.Num? { DecimalPrints(v.n); }
    if v.Str? { StringifyPrints(v.s); }
  }

  lemma {:induction false} SerializedPrints(v: Json, depth: nat, b: Bounds)
    requires Serialize(v, depth, b).Ok?
    ensures Prints(v, Serialize(v, depth, b).value)
    decreases v
  {
    hide CommaList, PrintsMembers, PrintsNumber, PrintsString, Serialize;
    match v {
      case Arr(items) =>
        var texts := SerializedArray(items, depth, b);
        forall i | 0 <= i < |items| ensures Prints(items[i], texts[i]) { SerializedPrints(items[i], depth + 1, b); }
      case Obj(m) =>
        var keys, texts := SerializedObject(m, depth, b);
        forall i | 0 <= i < |keys| && i < |texts| && keys[i] in m ensures Prints(m[keys[i]], texts[i]) {
          SerializedPrints(m[keys[i]], depth + 1, b);
        }
      case _ => ScalarPrints(v, depth, b);
    }
  }

  // ---------- and it is one text ----------

  lemma {:induction false} WritesOneText(s: JsString, x: JsString, y: JsString)
    requires WritesAll(x, s) && WritesAll(y, s)
    ensures x == y
  {
    hide HEX_DIGITS;
    if s != [] {
      var m :| 0 <= m <= |x| && Writes(x[..m], s[0]) && WritesAll(x[m..], s[1..]);
      var n :| 0 <= n <= |y| && Writes(y[..n], s[0]) && WritesAll(y[n..], s[1..]);
      WritesOneText(s[1..], x[m..], y[n..]);
      assert x[..m] == y[..n];
      assert x == x[..m] + x[m..] && y == y[..n] + y[n..];
    }
  }

  lemma PrintsOneString(s: JsString, x: JsString, y: JsString)
    requires PrintsString(x, s) && PrintsString(y, s)
    ensures x == y
  {
    WritesOneText(s, x[1..|x| - 1], y[1..|y| - 1]);
    assert x == [0x22] + x[1..|x| - 1] + [0x22] && y == [0x22] + y[1..|y| - 1] + [0x22];
  }

  lemma NumeralsAreUnique(x: JsString, y: JsString)
    requires IsNumeral(x) && IsNumeral(y) && DecimalValue(x) == DecimalValue(y)
    ensures x == y
  {
    DecimalValueIsNatValue(x);
    DecimalValueIsNatValue(y);
    NumeralIsUnique(x);
    NumeralIsUnique(y);
  }

  lemma PrintsOneNumber(n: int, x: JsString, y: JsString)
    requires PrintsNumber(x, n) && PrintsNumber(y, n)
    ensures x == y
  {
    if n >= 0 {
      NumeralsAreUnique(x, y);
    } else {
      NumeralsAreUnique(x[1..], y[1..]);
      assert x == [0x2D] + x[1..] && y == [0x2D] + y[1..];
    }
  }

  lemma AscendingIsUnique(xs: seq<JsString>, ys: seq<JsString>)
    requires Ascending(xs) && Ascending(ys) && forall k :: k in xs <==> k in ys
    ensures xs == ys
  {
    forall i, j | 0 <= i < j < |xs| ensures Less(xs[i], xs[j]) { LessIsUnitBefore(xs[i], xs[j]); }
    forall i, j | 0 <= i < j < |ys| ensures Less(ys[i], ys[j]) { LessIsUnitBefore(ys[i], ys[j]); }
    hide UnitBefore, Less;
    assert Elements(xs) == Elements(ys);
    IncreasingUnique(xs, ys);
  }

  lemma PairsAreUnique(keys: seq<JsString>, texts: seq<JsString>, x: seq<JsString>, y: seq<JsString>)
    requires ArePairs(x, keys, texts) && ArePairs(y, keys, texts)
    ensures x == y
  {
    hide PrintsString;
    forall i | 0 <= i < |keys| ensures x[i] == y[i] {
      var a :| PrintsString(a, keys[i]) && x[i] == a + [0x3A] + texts[i];
      var c :| PrintsString(c, keys[i]) && y[i] == c + [0x3A] + texts[i];
      PrintsOneString(keys[i], a, c);
    }
  }

  lemma MembersAgree(m: map<JsString, Json>, x: JsString, y: JsString, k: seq<JsString>, s: seq<JsString>,
      l: seq<JsString>, t: seq<JsString>)
    requires PrintsMembers(m, x, k, s) && PrintsMembers(m, y, l, t)
    ensures k == l && |k| == |s| == |t| && (forall i :: 0 <= i < |k| ==> k[i] in m) && (s == t ==> x == y)
  {
    hide ArePairs, Ascending, CommaList;
    AscendingIsUnique(k, l);
    var p :| ArePairs(p, k, s) && x == [0x7B] + CommaList(p) + [0x7D];
    var q :| ArePairs(q, l, t) && y == [0x7B] + CommaList(q) + [0x7D];
    if s == t { PairsAreUnique(k, s, p, q); }
  }

  /** A value has at most one canonical text. */
  lemma {:induction false} PrintsOneText(v: Json, x: JsString, y: JsString)
    requires Prints(v, x) && Prints(v, y)
    ensures x == y
    decreases v
  {
    hide PrintsMembers, PrintsNumber, PrintsString, CommaList;
    match v {
      case Num(n) => PrintsOneNumber(n, x, y);
      case Str(s) => PrintsOneString(s, x, y);
      case Arr(items) =>
        var s: seq<JsString> :| |s| == |items| && x == [0x5B] + CommaList(s) + [0x5D]
          && forall i :: 0 <= i < |items| ==> Prints(items[i], s[i]);
        var t: seq<JsString> :| |t| == |items| && y == [0x5B] + CommaList(t) + [0x5D]
          && forall i :: 0 <= i < |items| ==> Prints(items[i], t[i]);
        forall i | 0 <= i < |items| ensures s[i] == t[i] { PrintsOneText(items[i], s[i], t[i]); }
        assert s == t;
      case Obj(m) =>
        var k, s :| PrintsMembers(m, x, k, s)
          && forall i :: 0 <= i < |k| && i < |s| && k[i] in m ==> Prints(m[k[i]], s[i]);
        var l, t :| PrintsMembers(m, y, l, t)
          && forall i :: 0 <= i < |l| && i < |t| && l[i] in m ==> Prints(m[l[i]], t[i]);
        MembersAgree(m, x, y, k, s, l, t);
        forall i | 0 <= i < |k| ensures s[i] == t[i] { PrintsOneText(m[k[i]], s[i], t[i]); }
        assert s == t;
      case _ =>
    }
  }

  /** Where there is a canonical form at all, it is the text these rules describe, and they describe no other. */
  lemma CanonicalTextExactly(v: Json, b: Bounds, text: JsString)
    requires Canonicalize(v, b).Ok?
    ensures Canonicalize(v, b) == Ok(text) <==> Prints(v, text)
  {
    SerializedPrints(v, 1, b);
    if Prints(v, text) { PrintsOneText(v, text, Canonicalize(v, b).value); }
  }

  // ---------- refusals ----------

  /** Which strings the printer refuses, and as what: too many units first, then a lone surrogate. */
  lemma StringRefusals(s: JsString, depth: nat, b: Bounds)
    requires depth <= b.maxDepth
    ensures Serialize(Str(s), depth, b) == Err(DocumentBoundsExceeded) <==> |s| > b.maxStringChars
    ensures Serialize(Str(s), depth, b) == Err(MalformedJson) <==> |s| <= b.maxStringChars && !WellFormed(s)
    ensures Serialize(Str(s), depth, b) != Err(NonCanonicalNumber) && Serialize(Str(s), depth, b) != Err(DuplicateJsonKey)
  {
  }

  /** The other values without parts: only safe integers other than -0 are numbers, and what is no JSON is malformed. */
  lemma ScalarRefusals(v: Json, depth: nat, b: Bounds)
    requires depth <= b.maxDepth && !v.Str? && !v.Arr? && !v.Obj?
    ensures Serialize(v, depth, b) == Err(NonCanonicalNumber) <==>
      v.NegZero? || v.Frac? || (v.Num? && !(-9_007_199_254_740_991 <= v.n <= 9_007_199_254_740_991))
    ensures Serialize(v, depth, b) == Err(MalformedJson) <==> v.Foreign?
    ensures Serialize(v, depth, b) != Err(DocumentBoundsExceeded) && Serialize(v, depth, b) != Err(DuplicateJsonKey)
  {
  }

  /** The first item that is refused. */
  ghost predicate FirstRefused(items: seq<Json>, depth: nat, b: Bounds, i: int) {
    && 0 <= i < |items| && Serialize(items[i], depth, b).Err?
    && forall j :: 0 <= j < i ==> Serialize(items[j], depth, b).Ok?
  }

  lemma {:induction false} ItemRefusals(items: seq<Json>, depth: nat, b: Bounds, e: JsonError)
    ensures SerializeItems(items, depth, b) == Err(e) <==>
      exists i :: FirstRefused(items, depth, b, i) && Serialize(items[i], depth, b) == Err(e)
  {
    hide Serialize;
    if items != [] {
      var rest := items[1..];
      ItemRefusals(rest, depth, b, e);
      if i :| FirstRefused(rest, depth, b, i) && Serialize(rest[i], depth, b) == Err(e)
              && Serialize(items[0], depth, b).Ok? {
        assert FirstRefused(items, depth, b, i + 1);
      }
      if i :| FirstRefused(items, depth, b, i) && Serialize(items[i], depth, b) == Err(e) {
        if i > 0 { assert FirstRefused(rest, depth, b, i - 1); }
      }
      if Serialize(items[0], depth, b).Err? { assert FirstRefused(items, depth, b, 0); }
    }
  }

  /** An array is refused for its length, and else as its first refused item is. */
  lemma ArrayRefusals(items: seq<Json>, depth: nat, b: Bounds, e: JsonError)
    requires depth <= b.maxDepth
    ensures Serialize(Arr(items), depth, b) == Err(e) <==>
      if |items| > b.maxArrayItems then e == DocumentBoundsExceeded
      else exists i :: FirstRefused(items, depth + 1, b, i) && Serialize(items[i], depth + 1, b) == Err(e)
  {
    ItemRefusals(items, depth + 1, b, e);
    hide FirstRefused, SerializeItems, JoinCommas;
  }

  /** How a name is refused: for its length, or for a lone surrogate. */
  ghost predicate NameRefused(name: JsString, b: Bounds, e: JsonError) {
    if |name| > b.maxStringChars then e == DocumentBoundsExceeded else !WellFormed(name) && e == MalformedJson
  }

  ghost predicate FirstBadName(keys: seq<JsString>, b: Bounds, i: int, e: JsonError) {
    && 0 <= i < |keys| && NameRefused(keys[i], b, e)
    && forall j :: 0 <= j < i ==> |keys[j]| <= b.maxStringChars && WellFormed(keys[j])
  }

  lemma {:induction false} NameRefusals(keys: seq<JsString>, b: Bounds, e: JsonError)
    ensures KeysError(keys, b) == Some(e) <==> exists i :: FirstBadName(keys, b, i, e)
  {
    hide WellFormed;
    if keys != [] {
      var rest := keys[1..];
      NameRefusals(rest, b, e);
      if i :| FirstBadName(rest, b, i, e) && StringError(keys[0], b).None? {
        assert FirstBadName(keys, b, i + 1, e);
      }
      if i :| FirstBadName(keys, b, i, e) {
        if i > 0 { assert FirstBadName(rest, b, i - 1, e); }
      }
      if NameRefused(keys[0], b, e) { assert FirstBadName(keys, b, 0, e); }
    }
  }

  /** The first member, in the order of the names, whose value is refused. */
  ghost predicate FirstBadMember(keys: seq<JsString>, m: map<JsString, Json>, depth: nat, b: Bounds, i: int, e: JsonError)
    requires forall k :: k in keys ==> k in m
  {
    && 0 <= i < |keys| && Serialize(m[keys[i]], depth, b) == Err(e)
    && forall j :: 0 <= j < i ==> Serialize(m[keys[j]], depth, b).Ok?
  }

  lemma {:induction false} MemberRefusals(keys: seq<JsString>, m: map<JsString, Json>, depth: nat, b: Bounds, e: JsonError)
    requires forall k :: k in keys ==> k in m
    ensures SerializeMembers(keys, Obj(m), depth, b) == Err(e) <==> exists i :: FirstBadMember(keys, m, depth, b, i, e)
  {
    hide Serialize, Stringify;
    if keys != [] {
      var rest := keys[1..];
      MemberRefusals(rest, m, depth, b, e);
      if i :| FirstBadMember(rest, m, depth, b, i, e) && Serialize(m[keys[0]], depth, b).Ok? {
        assert FirstBadMember(keys, m, depth, b, i + 1, e);
      }
      if i :| FirstBadMember(keys, m, depth, b, i, e) {
        if i > 0 { assert FirstBadMember(rest, m, depth, b, i - 1, e); }
      }
      if Serialize(m[keys[0]], depth, b) == Err(e) { assert FirstBadMember(keys, m, depth, b, 0, e); }
    }
  }

  lemma ObjectErrors(m: map<JsString, Json>, keys: seq<JsString>, depth: nat, b: Bounds, e: JsonError)
    requires depth <= b.maxDepth && keys == Sorted(m.Keys) && forall k :: k in keys <==> k in m
    ensures Serialize(Obj(m), depth, b) == Err(e) <==>
      if |m| > b.maxObjectKeys then e == DocumentBoundsExceeded
      else if KeysError(keys, b).Some? then KeysError(keys, b) == Some(e)
      else SerializeMembers(keys, Obj(m), depth + 1, b) == Err(e)
  {
    hide JoinCommas, KeysError, SerializeMembers, Sorted;
  }

  /** An object is refused for its size, else as its first bad name is, else as its first refused value is. */
  lemma ObjectRefusals(m: map<JsString, Json>, keys: seq<JsString>, depth: nat, b: Bounds, e: JsonError)
    requires depth <= b.maxDepth && Ascending(keys) && forall k :: k in keys <==> k in m
    ensures var below := depth + 1;
      Serialize(Obj(m), depth, b) == Err(e) <==>
      if |m| > b.maxObjectKeys then e == DocumentBoundsExceeded
      else if exists k :: k in m && !(|k| <= b.maxStringChars && WellFormed(k)) then exists i :: FirstBadName(keys, b, i, e)
      else exists i :: FirstBadMember(keys, m, below, b, i, e)
  {
    hide Ascending, FirstBadMember, FirstBadName, KeysError, Serialize, SerializeMembers, Sorted, WellFormed;
    SortedKeysAscend(m);
    AscendingIsUnique(keys, Sorted(m.Keys));
    NameRefusals(keys, b, e);
    KeysErrorExact(keys, b);
    MemberRefusals(keys, m, depth + 1, b, e);
    ObjectErrors(m, keys, depth, b, e);
  }

  /** A document is refused as its value is, or because its whole text has too many bytes. */
  lemma DocumentRefusals(v: Json, b: Bounds, e: JsonError)
    ensures Canonicalize(v, b) == Err(e) <==>
      || Serialize(v, 1, b) == Err(e)
      || (e == DocumentBoundsExceeded && Serialize(v, 1, b).Ok? && |Encode(Serialize(v, 1, b).value)| > b.maxDocumentBytes)
  {
    hide Serialize;
    if Serialize(v, 1, b).Ok? { EncodeLength(Serialize(v, 1, b).value); }
  }

  /** The bounds every document of the kernel is printed and parsed with. */
  lemma SharedBounds(v: Json)
    ensures v.Str? && |v.s| > 65_536 ==> Canonicalize(v, CANONICAL_BOUNDS) == Err(DocumentBoundsExceeded)
    ensures v.Arr? && |v.items| > 4_096 ==> Canonicalize(v, CANONICAL_BOUNDS) == Err(DocumentBoundsExceeded)
    ensures v.Obj? && |v.members| > 1_024 ==> Canonicalize(v, CANONICAL_BOUNDS) == Err(DocumentBoundsExceeded)
    ensures Serialize(v, 33, CANONICAL_BOUNDS) == Err(DocumentBoundsExceeded)
    ensures Canonicalize(v, CANONICAL_BOUNDS).Ok? ==> |Encode(Canonicalize(v, CANONICAL_BOUNDS).value)| <= 1_048_576
    ensures Canonicalize(v, CANONICAL_BOUNDS) == Canonicalize(v, Bounds(1_048_576, 32, 65_536, 4_096, 1_024))
  {
    if Canonicalize(v, CANONICAL_BOUNDS).Ok? { EncodeLength(Canonicalize(v, CANONICAL_BOUNDS).value); }
  }

  lemma TooDeepIsRefused(v: Json, depth: nat, b: Bounds)
    requires depth > b.maxDepth
    ensures Serialize(v, depth, b) == Err(DocumentBoundsExceeded)
  {
  }

  // ---------- one document, literally ----------

  const KEY_A: JsString := [0x61]
  const KEY_B: JsString := [0x62]

  /** The members `b`, minus ten, and `a`, a line feed and U+001F. */
  function SampleMembers(): map<JsString, Json> {
    map[KEY_B := Num(-10), KEY_A := Str([0x0A, 0x1F])]
  }

  lemma SampleKeys()
    ensures Sorted(SampleMembers().Keys) == [KEY_A, KEY_B]
  {
    assert KEY_A[..0] == KEY_B[..0];
    assert UnitBefore(KEY_A, KEY_B);
    SortedKeysAscend(SampleMembers());
    AscendingIsUnique([KEY_A, KEY_B], Sorted(SampleMembers().Keys));
  }

  lemma SampleString()
    ensures Stringify([0x0A, 0x1F]) == [0x22, 0x5C, 0x6E, 0x5C, 0x75, 0x30, 0x30, 0x31, 0x66, 0x22]
    ensures WellFormed([0x0A, 0x1F])
  {
    AsciiText([0x0A, 0x1F]);
    assert [0x0A, 0x1F][1..] == [0x1F] && [0x1F][1..] == [];
    assert EscapeAll([0x1F]) == [0x5C, 0x75, 0x30, 0x30, 0x31, 0x66];
  }

  lemma SampleNames()
    ensures Stringify(KEY_A) == [0x22, 0x61, 0x22] && Stringify(KEY_B) == [0x22, 0x62, 0x22]
    ensures WellFormed(KEY_A) && WellFormed(KEY_B)
  {
    AsciiText(KEY_A);
    AsciiText(KEY_B);
    assert KEY_A[1..] == [] && KEY_B[1..] == [];
  }

  lemma SampleScalars(b: Bounds)
    requires b.maxStringChars >= 2 && b.maxDepth >= 2
    ensures Serialize(Num(-10), 2, b) == Ok([0x2D, 0x31, 0x30])
    ensures Serialize(Str([0x0A, 0x1F]), 2, b)
            == Ok([0x22, 0x5C, 0x6E, 0x5C, 0x75, 0x30, 0x30, 0x31, 0x66, 0x22])
  {
    hide Stringify, WellFormed;
    SampleString();
    assert NatDigits(10) == [0x31, 0x30];
    assert Decimal(-10) == [0x2D, 0x31, 0x30];
  }

  lemma SampleParts(b: Bounds)
    requires b.maxStringChars >= 2 && b.maxDepth >= 2
    ensures SerializeMembers([KEY_A, KEY_B], Obj(SampleMembers()), 2, b)
            == Ok([[0x22, 0x61, 0x22, 0x3A, 0x22, 0x5C, 0x6E, 0x5C, 0x75, 0x30, 0x30, 0x31, 0x66, 0x22],
                   [0x22, 0x62, 0x22, 0x3A, 0x2D, 0x31, 0x30]])
  {
    hide Serialize, Stringify;
    SampleNames();
    SampleScalars(b);
    assert [KEY_A, KEY_B][1..] == [KEY_B] && [KEY_B][1..] == [];
    var first: JsString := [0x22, 0x61, 0x22, 0x3A, 0x22, 0x5C, 0x6E, 0x5C, 0x75, 0x30, 0x30, 0x31, 0x66, 0x22];
    var second: JsString := [0x22, 0x62, 0x22, 0x3A, 0x2D, 0x31, 0x30];
    assert Stringify(KEY_A) + [COLON] + Serialize(Str([0x0A, 0x1F]), 2, b).value == first;
    assert Stringify(KEY_B) + [COLON] + Serialize(Num(-10), 2, b).value == second;
    assert SerializeMembers([], Obj(SampleMembers()), 2, b) == Ok([]);
    assert [second] + [] == [second] && [first] + [second] == [first, second];
    assert SerializeMembers([KEY_B], Obj(SampleMembers()), 2, b) == Ok([second]);
  }

  lemma SampleJoined()
    ensures JoinCommas([[0x22, 0x61, 0x22, 0x3A, 0x22, 0x5C, 0x6E, 0x5C, 0x75, 0x30, 0x30, 0x31, 0x66, 0x22],
                        [0x22, 0x62, 0x22, 0x3A, 0x2D, 0x31, 0x30]])
            == [0x22, 0x61, 0x22, 0x3A, 0x22, 0x5C, 0x6E, 0x5C, 0x75, 0x30, 0x30, 0x31, 0x66, 0x22, 0x2C,
                0x22, 0x62, 0x22, 0x3A, 0x2D, 0x31, 0x30]
  {
  }

  /** The canonical text of the sample is `{"a":"\n\u001f","b":-10}`. */
  lemma SampleText()
    ensures Canonicalize(Obj(SampleMembers()), CANONICAL_BOUNDS)
            == Ok([0x7B, 0x22, 0x61, 0x22, 0x3A, 0x22, 0x5C, 0x6E, 0x5C, 0x75, 0x30, 0x30, 0x31, 0x66, 0x22, 0x2C,
                   0x22, 0x62, 0x22, 0x3A, 0x2D, 0x31, 0x30, 0x7D])
  {
    hide ByteLength, Serialize;
    var text: JsString := [0x7B, 0x22, 0x61, 0x22, 0x3A, 0x22, 0x5C, 0x6E, 0x5C, 0x75, 0x30, 0x30, 0x31, 0x66, 0x22, 0x2C,
                           0x22, 0x62, 0x22, 0x3A, 0x2D, 0x31, 0x30, 0x7D];
    SampleSerialized();
    AsciiText(text);
  }

  lemma SampleSerialized()
    ensures Serialize(Obj(SampleMembers()), 1, CANONICAL_BOUNDS)
            == Ok([0x7B, 0x22, 0x61, 0x22, 0x3A, 0x22, 0x5C, 0x6E, 0x5C, 0x75, 0x30, 0x30, 0x31, 0x66, 0x22, 0x2C,
                   0x22, 0x62, 0x22, 0x3A, 0x2D, 0x31, 0x30, 0x7D])
  {
    hide JoinCommas, KeysError, SampleMembers, SerializeMembers, Sorted, WellFormed;
    SampleKeys();
    SampleNames();
    SampleParts(CANONICAL_BOUNDS);
    SampleJoined();
    SampleSize();
    KeysErrorExact([KEY_A, KEY_B], CANONICAL_BOUNDS);
    assert KeysError([KEY_A, KEY_B], CANONICAL_BOUNDS).None?;
    var parts := SerializeMembers([KEY_A, KEY_B], Obj(SampleMembers()), 2, CANONICAL_BOUNDS).value;
    assert [OPEN_BRACE] + JoinCommas(parts) + [CLOSE_BRACE]
           == [0x7B, 0x22, 0x61, 0x22, 0x3A, 0x22, 0x5C, 0x6E, 0x5C, 0x75, 0x30, 0x30, 0x31, 0x66, 0x22, 0x2C,
               0x22, 0x62, 0x22, 0x3A, 0x2D, 0x31, 0x30, 0x7D];
  }

  lemma SampleSize()
    ensures |SampleMembers()| == 2 && KEY_A in SampleMembers() && KEY_B in SampleMembers()
  {
    assert SampleMembers().Keys == {KEY_A, KEY_B};
  }
}
