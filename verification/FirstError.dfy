/** The error a refused text gives is that of the first thing wrong in it: numerals, strings, arrays and objects. */
module FirstError {
  import opened Base
  import opened Text
  import opened Json
  import opened StrictJson
  import opened Grammar
  import opened CanonicalText
  import opened StrictText

  // ---------- numerals ----------

  lemma NumeralRun(digits: JsString, rest: JsString)
    requires IsNumeral(digits)
    requires digits[0] == '0' as int || rest == [] || !('0' as int <= rest[0] <= '9' as int)
    ensures var t := digits + rest;
      IntegerPart(t) == |digits| && t[..|digits|] == digits && t[|digits|..] == rest && t[0] == digits[0]
    ensures NatValue(digits) == DecimalValue(digits)
  {
    DecimalValueIsNatValue(digits);
    if digits[0] != '0' as int { RunStops(digits, rest); }
  }

  lemma {:induction false} RunStops(digits: JsString, rest: JsString)
    requires forall k :: 0 <= k < |digits| ==> '0' as int <= digits[k] <= '9' as int
    requires rest == [] || !('0' as int <= rest[0] <= '9' as int)
    ensures DigitRun(digits + rest) == |digits|
  {
    if digits == [] {
      assert digits + rest == rest;
    } else {
      assert (digits + rest)[1..] == digits[1..] + rest;
      RunStops(digits[1..], rest);
    }
  }

  /**
   What becomes of a numeral, its sign and what follows it: a fraction or an exponent, minus zero and integers that are
   not safe are no canonical numbers; everything else is its value.
   */
  ghost function Reading(negative: bool, digits: JsString, rest: JsString): ParseResult<int>
    requires IsNumeral(digits)
  {
    var n := if negative then -DecimalValue(digits) else DecimalValue(digits);
    if rest != [] && (rest[0] == '.' as int || rest[0] == 'e' as int || rest[0] == 'E' as int) then
      Err(NonCanonicalNumber)
    else if negative && digits[0] == '0' as int then Err(NonCanonicalNumber)
    else if -9_007_199_254_740_991 <= n <= 9_007_199_254_740_991 then Ok(Parsed(n, rest))
    else Err(NonCanonicalNumber)
  }

  lemma NumeralIsRead(negative: bool, digits: JsString, rest: JsString)
    requires IsNumeral(digits)
    requires digits[0] == '0' as int || rest == [] || !('0' as int <= rest[0] <= '9' as int)
    ensures ParseNumber((if negative then ['-' as int] else []) + (digits + rest)) == Reading(negative, digits, rest)
  {
    hide DecimalValue, IntegerPart, NatValue, ParseNumber, Reading;
    NumeralRun(digits, rest);
    var t := digits + rest;
    assert t[0] != '-' as int;
    AfterDigitsIsReading(negative, digits, rest);
    if negative {
      MinusIsRead(t);
    } else {
      assert [] + t == t;
      NoMinusIsRead(t);
    }
  }

  lemma AfterDigitsIsReading(negative: bool, digits: JsString, rest: JsString)
    requires IsNumeral(digits) && IntegerPart(digits + rest) == |digits|
    requires NatValue(digits) == DecimalValue(digits)
    ensures AfterDigits(negative, digits + rest) == Reading(negative, digits, rest)
  {
    hide DecimalValue, IntegerPart, NatValue;
    var t := digits + rest;
    assert t[..|digits|] == digits && t[|digits|..] == rest && t[0] == digits[0];
  }

  /** What is left to do once the digits are known. */
  function AfterDigits(negative: bool, t: JsString): ParseResult<int>
    requires IntegerPart(t) > 0
  {
    var n := IntegerPart(t);
    var magnitude: int := NatValue(t[..n]);
    var value := if negative then -magnitude else magnitude;
    if StartsFraction(t[n..]) || (negative && t[0] == ZERO) || !IsSafeInteger(value) then Err(NonCanonicalNumber)
    else Ok(Parsed(value, t[n..]))
  }

  lemma MinusIsRead(t: JsString)
    requires IntegerPart(t) > 0
    ensures ParseNumber(['-' as int] + t) == AfterDigits(true, t)
  {
    hide IntegerPart, NatValue, StartsFraction;
    assert (['-' as int] + t)[1..] == t;
  }

  lemma NoMinusIsRead(t: JsString)
    requires IntegerPart(t) > 0 && t[0] != '-' as int
    ensures ParseNumber(t) == AfterDigits(false, t)
  {
    hide IntegerPart, NatValue, StartsFraction;
  }

  /** Without a digit after the sign there is no number. */
  lemma NoNumeral(negative: bool, rest: JsString)
    requires rest == [] || !('0' as int <= rest[0] <= '9' as int)
    requires !negative ==> rest == [] || rest[0] != '-' as int
    ensures ParseNumber((if negative then ['-' as int] else []) + rest) == Err(MalformedJson)
  {
    assert ([MINUS] + rest)[1..] == rest;
    assert [] + rest == rest;
  }

  // ---------- strings ----------

  /** Units that are spelled out are read, one after the other, as long as they fit. */
  lemma {:induction false} UnitsAreRead(sps: seq<Spelling>, out: JsString, rest: JsString, b: Bounds)
    requires SpellingsOk(sps) && |out| + |sps| <= b.maxStringChars
    ensures ParseStringBody(RenderSpellings(sps) + rest, out, b) == ParseStringBody(rest, out + Spelled(sps), b)
  {
    hide ParseStringBody, RenderSpelling, SpelledUnit, SpellingOk;
    if sps == [] {
      assert RenderSpellings(sps) + rest == rest && out + Spelled(sps) == out;
    } else {
      var more := RenderSpellings(sps[1..]) + rest;
      StringBodyTurn(sps[0], more, out, b);
      Assoc3(RenderSpelling(sps[0]), RenderSpellings(sps[1..]), rest);
      Assoc3(out, [SpelledUnit(sps[0])], Spelled(sps[1..]));
      UnitsAreRead(sps[1..], out + [SpelledUnit(sps[0])], rest, b);
    }
  }

  /** Nothing with which a unit, or the end of the string, can start. */
  ghost predicate BadUnit(s: JsString) {
    || s == []
    || s[0] < 0x20
    || (s[0] == 0x5C
        && (|s| < 2
            || (s[1] != 'u' as int && forall u :: !ShortEscape(s[1], u))
            || (s[1] == 'u' as int
                && !(|s| >= 6 && HexOf(s[2]) >= 0 && HexOf(s[3]) >= 0 && HexOf(s[4]) >= 0 && HexOf(s[5]) >= 0))))
  }

  lemma BadUnitIsRefused(s: JsString, out: JsString, b: Bounds)
    requires BadUnit(s)
    ensures ParseStringBody(s, out, b) == Err(MalformedJson)
  {
    hide HexOf, IsHex, ShortEscape, Unescaped;
    if |s| >= 2 && s[1] != 'u' as int && Unescaped(s[1]).Some? { UnescapedExactly(s[1], Unescaped(s[1]).value); }
    if |s| >= 6 {
      HexDigitIsHexOf(s[2]);
      HexDigitIsHexOf(s[3]);
      HexDigitIsHexOf(s[4]);
      HexDigitIsHexOf(s[5]);
    }
  }

  /** A string is refused, after units that are read, for something that is no unit; or for one unit too many. */
  lemma StringIsRefused(text: JsString, s: JsString, rest: JsString, b: Bounds)
    requires SpellsAll(text, s) && |s| <= b.maxStringChars
    ensures BadUnit(rest) ==> ParseString([0x22] + (text + rest), b) == Err(MalformedJson)
    ensures forall next, u, more ::
      |s| == b.maxStringChars && rest == next + more && Spells(next, u) ==>
        ParseString([0x22] + (text + rest), b) == Err(DocumentBoundsExceeded)
    ensures (exists k :: 0 <= k < |s| && !PairedAt(s, k)) && rest != [] && rest[0] == 0x22 ==>
      ParseString([0x22] + (text + rest), b) == Err(MalformedJson)
  {
    hide BadUnit, ParseStringBody, PairedAt, Spells, WellFormed;
    var sps := UnitsSpelled(text, s);
    UnitsAreRead(sps, [], rest, b);
    assert [] + s == s;
    assert ([0x22] + (text + rest))[1..] == text + rest;
    if BadUnit(rest) { BadUnitIsRefused(rest, s, b); }
    forall next, u, more | |s| == b.maxStringChars && rest == next + more && Spells(next, u)
      ensures ParseStringBody(rest, s, b) == Err(DocumentBoundsExceeded)
    {
      UnitTooMany(next, u, more, s, b);
    }
    WellFormedExactly(s);
    if rest != [] && rest[0] == 0x22 && !WellFormed(s) {
      StringClosed(rest, s, b);
    }
  }

  lemma UnitTooMany(next: JsString, u: Unit, more: JsString, out: JsString, b: Bounds)
    requires Spells(next, u) && |out| == b.maxStringChars
    ensures ParseStringBody(next + more, out, b) == Err(DocumentBoundsExceeded)
  {
    hide ParseUnit, Spells, SpelledUnit, SpellingOk, WellFormed;
    var sp := UnitSpelled(next, u);
    UnitComplete(sp, more);
    UnitIsNotEmpty(sp);
    assert (next + more)[0] == next[0];
  }

  lemma StringClosed(rest: JsString, out: JsString, b: Bounds)
    requires rest != [] && rest[0] == 0x22 && !WellFormed(out)
    ensures ParseStringBody(rest, out, b) == Err(MalformedJson)
  {
  }

  // ---------- arrays ----------

  lemma CoreIsRead(before: JsString, v: Json, core: JsString, rest: JsString, depth: nat, b: Bounds)
    requires Blank(before) && Admits(v, core, depth, b) && Stops(rest)
    ensures ParseValue(before + core + rest, depth, b) == Ok(Parsed(v, rest))
  {
    hide Admits, Blank, ParseBare, Render, Stops, Valid;
    GapIsBlank(before);
    var t := AdmittedTree(v, core, depth, b);
    ValueComplete(before, t, rest, depth, b);
  }

  /** Values, each with a comma after it, and blanks around both. */
  function Listed(parts: seq<JsString>): JsString {
    if parts == [] then [] else parts[0] + [0x2C] + Listed(parts[1..])
  }

  /** A padded value in front of a comma is one turn of the item loop. */
  lemma ItemIsRead(part: JsString, core: JsString, v: Json, done: seq<Json>, rest: JsString, depth: nat, b: Bounds)
    requires Padded(part, core) && Admits(v, core, depth + 1, b) && |done| < b.maxArrayItems
    ensures ParseItems(part + [0x2C] + rest, depth, done, b) == ParseItems(rest, depth, done + [v], b)
  {
    hide Admits, Blank, ParseItems, ParseValue;
    var before, after :| Blank(before) && Blank(after) && part == before + core + after;
    var tail := after + ([COMMA] + rest);
    var s := part + [0x2C] + rest;
    assert s == before + core + tail;
    GapIsBlank(after);
    SkipThrough(after, COMMA, rest);
    CoreIsRead(before, v, core, tail, depth + 1, b);
    ItemsTurn(s, depth, done, b);
    Cons(COMMA, rest);
  }

  lemma {:induction false} ItemsAreRead(parts: seq<JsString>, cores: seq<JsString>, items: seq<Json>, done: seq<Json>,
      rest: JsString, depth: nat, b: Bounds)
    requires AreItems(parts, cores, |items|) && |done| + |items| <= b.maxArrayItems
    requires forall i :: 0 <= i < |items| ==> Admits(items[i], cores[i], depth + 1, b)
    ensures ParseItems(Listed(parts) + rest, depth, done, b) == ParseItems(rest, depth, done + items, b)
    decreases |items|
  {
    hide Admits, Padded, ParseItems;
    if items == [] {
      assert Listed(parts) + rest == rest && done + items == done;
    } else {
      var more := Listed(parts[1..]) + rest;
      assert Listed(parts) + rest == parts[0] + [0x2C] + more;
      ItemIsRead(parts[0], cores[0], items[0], done, more, depth, b);
      assert forall i :: 0 <= i < |items| - 1 ==> items[1..][i] == items[i + 1] && cores[1..][i] == cores[i + 1];
      ItemsAreRead(parts[1..], cores[1..], items[1..], done + [items[0]], rest, depth, b);
      assert done + [items[0]] + items[1..] == done + items;
    }
  }

  /**
   After items that are read, an array is refused as the value that comes next is; for one item too many; or for
   something other than a comma or a bracket behind that item.
   */
  lemma ArrayIsRefused(parts: seq<JsString>, cores: seq<JsString>, items: seq<Json>, rest: JsString, depth: nat,
      b: Bounds, e: JsonError)
    requires depth <= b.maxDepth && AreItems(parts, cores, |items|) && |items| <= b.maxArrayItems
    requires forall i :: 0 <= i < |items| ==> Admits(items[i], cores[i], depth + 1, b)
    requires items == [] ==> !StartsWith(SkipWs(rest), 0x5D)
    ensures var next := ParseValue(rest, depth + 1, b);
      ParseValue([0x5B] + (Listed(parts) + rest), depth, b) == Err(e) <==>
        if next.Err? then e == next.error
        else if |items| == b.maxArrayItems then e == DocumentBoundsExceeded
        else
          var after := SkipWs(next.value.rest);
          if StartsWith(after, 0x2C) then ParseItems(after[1..], depth, items + [next.value.value], b) == Err(e)
          else !StartsWith(after, 0x5D) && e == MalformedJson
  {
    hide Admits, Padded, ParseItems, ParseValue, SkipWs;
    var inner := Listed(parts) + rest;
    assert [] + items == items;
    ItemsAreRead(parts, cores, items, [], rest, depth, b);
    ItemsTurn(rest, depth, items, b);
    if items != [] { ListStarts(parts, cores, items, rest, depth, b); } else { assert inner == rest; }
    ArrayTurn(inner, depth, b);
  }

  lemma ArrayTurn(inner: JsString, depth: nat, b: Bounds)
    requires depth <= b.maxDepth && !StartsWith(SkipWs(inner), 0x5D)
    ensures ParseValue([0x5B] + inner, depth, b) == ParseItems(inner, depth, [], b)
  {
    hide ParseItems;
    var s := [0x5B] + inner;
    assert SkipWs(s) == s && s[1..] == inner;
    SkipBeforeItems(inner, depth, [], b);
  }

  lemma ListStarts(parts: seq<JsString>, cores: seq<JsString>, items: seq<Json>, rest: JsString, depth: nat, b: Bounds)
    requires AreItems(parts, cores, |items|) && items != [] && Admits(items[0], cores[0], depth + 1, b)
    ensures !StartsWith(SkipWs(Listed(parts) + rest), 0x5D)
  {
    hide Admits, Blank, SkipWs, Valid, Render;
    var before, after :| Blank(before) && Blank(after) && parts[0] == before + cores[0] + after;
    var t := AdmittedTree(items[0], cores[0], depth + 1, b);
    RenderStarts(t, depth + 1, b);
    var tail := after + [0x2C] + Listed(parts[1..]) + rest;
    assert Listed(parts) + rest == before + (cores[0] + tail);
    GapIsBlank(before);
    SkipGap(before, cores[0] + tail);
    SolidStays(cores[0] + tail);
  }

  lemma SolidStays(s: JsString)
    requires s != [] && !IsWs(s[0])
    ensures SkipWs(s) == s
  {
  }

  // ---------- objects ----------

  lemma KeyIsRead(left: JsString, name: JsString, key: JsString, rest: JsString, obj: map<JsString, Json>, b: Bounds)
    requires Padded(left, name) && SpellsString(name, key, b) && key !in obj && |obj| < b.maxObjectKeys
    ensures ParseKey(left + ([0x3A] + rest), obj, b) == Ok(Parsed(key, rest))
  {
    hide Blank, ParseString, RenderString, SpellsString, Spelled, StringOk;
    var before, after :| Blank(before) && Blank(after) && left == before + name + after;
    GapIsBlank(before);
    GapIsBlank(after);
    var sps := StringSpelled(name, key, b);
    var colon := [COLON] + rest;
    var quoted := name + (after + colon);
    assert left + ([0x3A] + rest) == before + quoted;
    SkipGap(before, quoted);
    QuotedStays(quoted, sps, after + colon);
    StringComplete(sps, after + colon, b);
    SkipThrough(after, COLON, rest);
    Cons(COLON, rest);
  }

  lemma QuotedStays(quoted: JsString, sps: seq<Spelling>, rest: JsString)
    requires quoted == RenderString(sps) + rest
    ensures SkipWs(quoted) == quoted
  {
  }

  /** A pair in front of a comma is one turn of the member loop. */
  lemma PairIsRead(pair: JsString, key: JsString, core: JsString, v: Json, obj: map<JsString, Json>, rest: JsString,
      depth: nat, b: Bounds)
    requires IsPair(pair, key, core, b) && Admits(v, core, depth + 1, b) && key !in obj && |obj| < b.maxObjectKeys
    ensures ParseMembers(pair + [0x2C] + rest, depth, obj, b) == ParseMembers(rest, depth, obj[key := v], b)
  {
    hide Admits, Blank, ParseKey, ParseMembers, ParseValue, SpellsString;
    var name, left, right :|
      && SpellsString(name, key, b) && Padded(left, name) && Padded(right, core) && pair == left + [0x3A] + right;
    var before, after :| Blank(before) && Blank(after) && right == before + core + after;
    var tail := after + ([COMMA] + rest);
    var s := pair + [0x2C] + rest;
    assert s == left + ([0x3A] + (before + core + tail));
    KeyIsRead(left, name, key, before + core + tail, obj, b);
    GapIsBlank(after);
    SkipThrough(after, COMMA, rest);
    CoreIsRead(before, v, core, tail, depth + 1, b);
    MembersTurn(s, depth, obj, b);
    Cons(COMMA, rest);
  }

  /** The members that the first pairs make. */
  function Filled(keys: seq<JsString>, values: seq<Json>, obj: map<JsString, Json>): map<JsString, Json>
    requires |keys| == |values|
  {
    if keys == [] then obj else Filled(keys[1..], values[1..], obj[keys[0] := values[0]])
  }

  lemma HeadOfKeys(keys: seq<JsString>)
    requires NoDuplicates(keys) && keys != []
    ensures NoDuplicates(keys[1..]) && keys[0] !in keys[1..] && Elements(keys) == {keys[0]} + Elements(keys[1..])
  {
    assert keys == [keys[0]] + keys[1..];
  }

  lemma {:induction false} FilledKeys(keys: seq<JsString>, values: seq<Json>, obj: map<JsString, Json>)
    requires |keys| == |values|
    ensures forall k :: k in Filled(keys, values, obj) <==> k in obj || k in keys
    decreases |keys|
  {
    if keys != [] {
      FilledKeys(keys[1..], values[1..], obj[keys[0] := values[0]]);
      assert forall k :: k in keys <==> k == keys[0] || k in keys[1..];
    }
  }

  lemma {:induction false} FilledSize(keys: seq<JsString>, values: seq<Json>, obj: map<JsString, Json>)
    requires |keys| == |values| && NoDuplicates(keys) && forall k :: k in keys ==> k !in obj
    ensures |Filled(keys, values, obj)| == |obj| + |keys|
    decreases |keys|
  {
    if keys != [] {
      MapGrows(obj, keys[0], values[0]);
      HeadOfKeys(keys);
      FilledSize(keys[1..], values[1..], obj[keys[0] := values[0]]);
    }
  }

  lemma MapGrows(obj: map<JsString, Json>, k: JsString, v: Json)
    requires k !in obj
    ensures |obj[k := v]| == |obj| + 1 && obj[k := v].Keys == obj.Keys + {k}
  {
    assert obj[k := v].Keys == obj.Keys + {k};
    assert |obj[k := v].Keys| == |obj.Keys| + 1;
  }

  lemma {:induction false} PairsAreRead(pairs: seq<JsString>, keys: seq<JsString>, cores: seq<JsString>,
      values: seq<Json>, obj: map<JsString, Json>, rest: JsString, depth: nat, b: Bounds)
    requires |pairs| == |keys| == |cores| == |values| && NoDuplicates(keys) && |obj| + |keys| <= b.maxObjectKeys
    requires forall i :: 0 <= i < |keys| ==> keys[i] !in obj
    requires forall i :: 0 <= i < |keys| ==>
      IsPair(pairs[i], keys[i], cores[i], b) && Admits(values[i], cores[i], depth + 1, b)
    ensures ParseMembers(Listed(pairs) + rest, depth, obj, b) == ParseMembers(rest, depth, Filled(keys, values, obj), b)
    decreases |keys|
  {
    hide Admits, IsPair, ParseMembers;
    if keys == [] {
      assert Listed(pairs) + rest == rest;
    } else {
      var more := Listed(pairs[1..]) + rest;
      assert Listed(pairs) + rest == pairs[0] + [0x2C] + more;
      PairIsRead(pairs[0], keys[0], cores[0], values[0], obj, more, depth, b);
      PairsAreRead(pairs[1..], keys[1..], cores[1..], values[1..], obj[keys[0] := values[0]], rest, depth, b);
    }
  }

  /** How an object goes on behind its first pairs, up to the colon: a bad name, a repeated one, one too many, no colon. */
  lemma NameIsRefused(rest: JsString, obj: map<JsString, Json>, b: Bounds, e: JsonError)
    ensures var name := ParseString(SkipWs(rest), b);
      ParseKey(rest, obj, b) == Err(e) <==>
        if name.Err? then e == name.error
        else if name.value.value in obj then e == DuplicateJsonKey
        else if |obj| == b.maxObjectKeys || |obj| > b.maxObjectKeys then e == DocumentBoundsExceeded
        else !StartsWith(SkipWs(name.value.rest), 0x3A) && e == MalformedJson
  {
    hide ParseString;
  }

  /**
   After pairs that are read, an object is refused for its next name or colon; as the value behind the colon is; or for
   something other than a comma or a brace behind that value.
   */
  lemma ObjectIsRefused(pairs: seq<JsString>, keys: seq<JsString>, cores: seq<JsString>, values: seq<Json>,
      rest: JsString, depth: nat, b: Bounds, e: JsonError)
    requires depth <= b.maxDepth && |pairs| == |keys| == |cores| == |values|
    requires NoDuplicates(keys) && |keys| <= b.maxObjectKeys
    requires forall i :: 0 <= i < |keys| ==>
      IsPair(pairs[i], keys[i], cores[i], b) && Admits(values[i], cores[i], depth + 1, b)
    requires keys == [] ==> !StartsWith(SkipWs(rest), 0x7D)
    ensures var obj := Filled(keys, values, map[]);
      var key := ParseKey(rest, obj, b);
      obj.Keys == Elements(keys) && |obj| == |keys| &&
      (ParseValue([0x7B] + (Listed(pairs) + rest), depth, b) == Err(e) <==>
        if key.Err? then e == key.error
        else
          var next := ParseValue(key.value.rest, depth + 1, b);
          if next.Err? then e == next.error
          else
            var after := SkipWs(next.value.rest);
            if StartsWith(after, 0x2C) then
              ParseMembers(after[1..], depth, obj[key.value.value := next.value.value], b) == Err(e)
            else !StartsWith(after, 0x7D) && e == MalformedJson)
  {
    hide Admits, IsPair, ParseKey, ParseMembers, ParseValue, SkipWs;
    var inner := Listed(pairs) + rest;
    FilledKeys(keys, values, map[]);
    FilledSize(keys, values, map[]);
    assert Filled(keys, values, map[]).Keys == Elements(keys);
    PairsAreRead(pairs, keys, cores, values, map[], rest, depth, b);
    MembersTurn(rest, depth, Filled(keys, values, map[]), b);
    if keys != [] { PairStarts(pairs, keys, cores, rest, b); } else { assert inner == rest; }
    ObjectOpens(inner, depth, b);
  }

  lemma ObjectOpens(inner: JsString, depth: nat, b: Bounds)
    requires depth <= b.maxDepth && !StartsWith(SkipWs(inner), 0x7D)
    ensures ParseValue([0x7B] + inner, depth, b) == ParseMembers(inner, depth, map[], b)
  {
    hide ParseMembers;
    var s := [0x7B] + inner;
    assert SkipWs(s) == s && s[1..] == inner;
    SkipBeforeMembers(inner, depth, map[], b);
  }

  lemma PairStarts(pairs: seq<JsString>, keys: seq<JsString>, cores: seq<JsString>, rest: JsString, b: Bounds)
    requires |pairs| == |keys| == |cores| && keys != [] && IsPair(pairs[0], keys[0], cores[0], b)
    ensures !StartsWith(SkipWs(Listed(pairs) + rest), 0x7D)
  {
    hide Blank, SkipWs, SpellsAll;
    var name, left, right :|
      && SpellsString(name, keys[0], b) && Padded(left, name) && Padded(right, cores[0])
      && pairs[0] == left + [0x3A] + right;
    var before, after :| Blank(before) && Blank(after) && left == before + name + after;
    var tail := after + [0x3A] + right + [0x2C] + Listed(pairs[1..]) + rest;
    assert Listed(pairs) + rest == before + (name + tail);
    GapIsBlank(before);
    SkipGap(before, name + tail);
    SolidStays(name + tail);
  }

  // ---------- documents ----------

  /** Something other than blanks behind the value of a document is malformed. */
  lemma TrailingIsRefused(before: JsString, v: Json, core: JsString, rest: JsString, b: Bounds)
    requires Blank(before) && Admits(v, core, 1, b) && !Blank(rest) && |Encode(before + core + rest)| <= b.maxDocumentBytes
    requires rest[0] != '.' as int && rest[0] != 'e' as int && rest[0] != 'E' as int
    requires !('0' as int <= rest[0] <= '9' as int)
    ensures ParseText(before + core + rest, b) == Err(MalformedJson)
  {
    hide Admits, Blank, ByteLength, Encode, ParseValue;
    EncodeLength(before + core + rest);
    CoreIsRead(before, v, core, rest, 1, b);
    if SkipWs(rest) == [] {
      var gap := SkippedGap(rest);
      assert rest == gap + [] && gap + [] == gap;
      GapIsBlank(gap);
    }
  }

  /** A text that is too long is out of bounds whatever is in it, and else as its value is refused. */
  lemma DocumentIsRefused(text: JsString, b: Bounds, e: JsonError)
    requires ParseValue(text, 1, b).Err?
    ensures ParseText(text, b) == Err(e) <==>
      if |Encode(text)| > b.maxDocumentBytes then e == DocumentBoundsExceeded else ParseValue(text, 1, b) == Err(e)
  {
    EncodeLength(text);
    hide ParseValue, ByteLength, Encode;
  }

  lemma TooDeepToRead(text: JsString, depth: nat, b: Bounds)
    requires depth > b.maxDepth
    ensures ParseValue(text, depth, b) == Err(DocumentBoundsExceeded)
  {
  }

  /** Bytes that are the UTF-8 of no well-formed text are malformed; all others are read as that text is. */
  lemma BytesAreRead(bytes: Bytes, b: Bounds)
    ensures forall text :: WellFormed(text) && Encode(text) == bytes ==> ParseBytes(bytes, b) == ParseText(text, b)
    ensures (forall text :: WellFormed(text) ==> Encode(text) != bytes) ==> ParseBytes(bytes, b) == Err(MalformedJson)
  {
    hide ParseText, Encode, WellFormed, Decode;
    forall text | WellFormed(text) && Encode(text) == bytes ensures Decode(bytes) == Some(text) {
      DecodeInvertsEncode(text);
    }
    if Decode(bytes).Some? { EncodeInvertsDecode(bytes); }
  }
}
