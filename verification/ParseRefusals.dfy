/** Where blanks change nothing, what may stand in front of a value, and which error a refused text gives. */
module ParseRefusals {
  import opened Base
  import opened Text
  import opened Json
  import opened StrictJson
  import opened Grammar
  import opened GrammarSound
  import opened CanonicalText
  import opened StrictText

  // ---------- blanks before and after ----------

  lemma {:induction false} BlankBytes(gap: JsString, text: JsString)
    requires Blank(gap)
    ensures ByteLength(gap + text) == |gap| + ByteLength(text)
  {
    if gap == [] {
      assert gap + text == text;
    } else {
      assert (gap + text)[1..] == gap[1..] + text;
      BlankBytes(gap[1..], text);
    }
  }

  /** Blanks in front of a text change neither its value nor its error. */
  lemma BlanksBefore(gap: JsString, text: JsString, b: Bounds)
    requires Blank(gap) && |gap| + |Encode(text)| <= b.maxDocumentBytes
    ensures ParseText(gap + text, b) == ParseText(text, b)
  {
    hide ParseBare, ByteLength, Encode;
    GapIsBlank(gap);
    BlankBytes(gap, text);
    EncodeLength(text);
    SkipGap(gap, text);
  }

  /** What every text of a value starts and ends with: nothing blank, and a quotation mark only if it is a string. */
  lemma CoreEnds(v: Json, core: JsString, depth: nat, b: Bounds)
    requires Admits(v, core, depth, b)
    ensures core != [] && core[0] > 0x20 && core[|core| - 1] > 0x20
    ensures core[|core| - 1] == 0x22 <==> v.Str?
    ensures core[0] == 0x22 <==> v.Str?
    ensures v.Str? ==> |core| >= 2
  {
    hide AreItems, AreMembers, CommaList, PairedAt, PrintsNumber, SpellsAll;
    if v.Num? { NumberEnds(core, v.n); }
  }

  lemma NumberEnds(core: JsString, n: int)
    requires PrintsNumber(core, n)
    ensures core != [] && 0x30 <= core[|core| - 1] <= 0x39 && (core[0] == 0x2D || 0x30 <= core[0] <= 0x39)
  {
    hide DecimalValue;
  }

  lemma BlankIsLow(s: JsString)
    requires Blank(s)
    ensures forall k :: 0 <= k < |s| ==> s[k] <= 0x20
  {
  }

  lemma BlankParts(x: JsString, y: JsString)
    ensures Blank(x + y) <==> Blank(x) && Blank(y)
  {
    forall k | 0 <= k < |y| ensures y[k] == (x + y)[|x| + k] {}
    forall k | 0 <= k < |x| ensures x[k] == (x + y)[k] {}
  }

  /** Blanks after a text leave its value as it is, and make no value of a text that had none. */
  lemma BlanksAfter(text: JsString, gap: JsString, v: Json, b: Bounds)
    requires Blank(gap) && |Encode(text + gap)| <= b.maxDocumentBytes && |Encode(text)| <= b.maxDocumentBytes
    ensures ParseText(text + gap, b) == Ok(v) <==> ParseText(text, b) == Ok(v)
  {
    hide *;
    ParsesExactly(text, v, b);
    ParsesExactly(text + gap, v, b);
    if AdmitsDocument(v, text, b) { BlanksAppend(text, gap, v, b); }
    if AdmitsDocument(v, text + gap, b) { BlanksDrop(text, gap, v, b); }
  }

  lemma BlanksAppend(text: JsString, gap: JsString, v: Json, b: Bounds)
    requires Blank(gap) && AdmitsDocument(v, text, b)
    ensures AdmitsDocument(v, text + gap, b)
  {
    hide Admits, Blank;
    var core :| Padded(text, core) && Admits(v, core, 1, b);
    var before, after :| Blank(before) && Blank(after) && text == before + core + after;
    BlankParts(after, gap);
    assert text + gap == before + core + (after + gap);
    assert Padded(text + gap, core);
  }

  lemma BlanksDrop(text: JsString, gap: JsString, v: Json, b: Bounds)
    requires Blank(gap) && AdmitsDocument(v, text + gap, b)
    ensures AdmitsDocument(v, text, b)
  {
    hide Admits, Blank;
    var core :| Padded(text + gap, core) && Admits(v, core, 1, b);
    var before, after :| Blank(before) && Blank(after) && text + gap == before + core + after;
    CoreEnds(v, core, 1, b);
    ShorterTail(text, gap, before, core, after);
  }

  /** Blanks at the end of a padded text are all behind its core. */
  lemma ShorterTail(text: JsString, gap: JsString, before: JsString, core: JsString, after: JsString)
    requires Blank(gap) && Blank(before) && Blank(after) && text + gap == before + core + after
    requires core != [] && core[|core| - 1] > 0x20
    ensures Padded(text, core)
  {
    var all, last := text + gap, |before + core| - 1;
    assert all[last] == core[|core| - 1];
    BlankIsLow(gap);
    assert forall k :: |text| <= k < |all| ==> all[k] == gap[k - |text|];
    var rest := text[last + 1..];
    assert all[last + 1..] == after && all[last + 1..] == rest + gap;
    BlankParts(rest, gap);
    assert text == all[..|text|] && text[..last + 1] == all[..last + 1] && all[..last + 1] == before + core;
    assert text == before + core + rest;
  }

  // ---------- blanks around brackets, braces, colons and commas ----------

  lemma WiderPadding(wider: JsString, part: JsString, core: JsString)
    requires Padded(wider, part) && Padded(part, core)
    ensures Padded(wider, core)
  {
    hide Blank;
    var x, y :| Blank(x) && Blank(y) && wider == x + part + y;
    var z, w :| Blank(z) && Blank(w) && part == z + core + w;
    BlankParts(x, z);
    BlankParts(w, y);
    assert wider == (x + z) + core + (w + y);
  }

  /** More blanks around the items of an array, that is around its brackets and commas, leave its value as it is. */
  lemma BlanksAroundItems(items: seq<Json>, parts: seq<JsString>, cores: seq<JsString>, wider: seq<JsString>,
      depth: nat, b: Bounds)
    requires depth <= b.maxDepth && 0 < |items| <= b.maxArrayItems && AreItems(parts, cores, |items|)
    requires forall i :: 0 <= i < |items| ==> Admits(items[i], cores[i], depth + 1, b)
    requires |wider| == |items| && forall i :: 0 <= i < |items| ==> Padded(wider[i], parts[i])
    ensures Admits(Arr(items), [0x5B] + CommaList(parts) + [0x5D], depth, b)
    ensures Admits(Arr(items), [0x5B] + CommaList(wider) + [0x5D], depth, b)
  {
    hide CommaList, Padded;
    forall i | 0 <= i < |items| ensures Padded(wider[i], cores[i]) { WiderPadding(wider[i], parts[i], cores[i]); }
    assert AreItems(wider, cores, |items|);
    assert Encloses([0x5B] + CommaList(wider) + [0x5D], 0x5B, wider, 0x5D);
    assert Encloses([0x5B] + CommaList(parts) + [0x5D], 0x5B, parts, 0x5D);
  }

  /** And so do more blanks around the names and values of an object, that is around its braces, colons and commas. */
  lemma BlanksAroundMembers(m: map<JsString, Json>, names: seq<JsString>, keys: seq<JsString>, cores: seq<JsString>,
      lefts: seq<JsString>, rights: seq<JsString>, depth: nat, b: Bounds)
    requires depth <= b.maxDepth && 0 < |m| <= b.maxObjectKeys && keys != []
    requires |names| == |keys| == |cores| == |lefts| == |rights|
    requires NoDuplicates(keys) && forall k :: k in keys <==> k in m
    requires forall i :: 0 <= i < |keys| && keys[i] in m ==>
      SpellsString(names[i], keys[i], b) && Admits(m[keys[i]], cores[i], depth + 1, b)
    requires forall i :: 0 <= i < |keys| ==> Padded(lefts[i], names[i]) && Padded(rights[i], cores[i])
    ensures var pairs := seq(|keys|, i requires 0 <= i < |keys| => lefts[i] + [0x3A] + rights[i]);
      Admits(Obj(m), [0x7B] + CommaList(pairs) + [0x7D], depth, b)
  {
    hide CommaList, Padded, SpellsString;
    var pairs := seq(|keys|, i requires 0 <= i < |keys| => lefts[i] + [0x3A] + rights[i]);
    forall i | 0 <= i < |keys| ensures IsPair(pairs[i], keys[i], cores[i], b) {
      assert keys[i] in m;
      assert SpellsString(names[i], keys[i], b) && pairs[i] == lefts[i] + [0x3A] + rights[i];
    }
    assert AreMembers(pairs, keys, cores, m, b);
    assert Encloses([0x7B] + CommaList(pairs) + [0x7D], 0x7B, pairs, 0x7D);
  }

  // ---------- what may stand in front of a value ----------

  /** A unit that is no blank and starts no value is refused, whatever comes after it. */
  lemma NoSuchStart(u: Unit, rest: JsString, b: Bounds)
    requires u != 0x20 && u != 0x09 && u != 0x0A && u != 0x0D
    requires u != '{' as int && u != '[' as int && u != 0x22 && u != 't' as int && u != 'f' as int && u != 'n' as int
    requires u != '-' as int && !('0' as int <= u <= '9' as int)
    requires |Encode([u] + rest)| <= b.maxDocumentBytes && b.maxDepth >= 1
    ensures ParseText([u] + rest, b) == Err(MalformedJson)
  {
    hide ByteLength, Encode, ParseItems, ParseMembers, ParseNumber, ParseString;
    EncodeLength([u] + rest);
    var s := [u] + rest;
    assert SkipWs(s) == s;
    assert ParseBare(s, 1, b) == Err(MalformedJson);
    assert ParseValue(s, 1, b) == Err(MalformedJson);
  }

  /** What can be read at a depth can be read, in the same way, one level higher. */
  lemma {:induction false} ValueHigher(s: JsString, depth: nat, b: Bounds)
    requires ParseValue(s, depth + 1, b).Ok?
    ensures ParseValue(s, depth, b) == ParseValue(s, depth + 1, b)
    decreases |s|, 1
  {
    hide ParseItems, ParseMembers, ParseNumber, ParseString;
    SkipWsShortens(s);
    var t := SkipWs(s);
    if t != [] {
      SkipWsShortens(t[1..]);
      var inner := SkipWs(t[1..]);
      if t[0] == OPEN_BRACE && !StartsWith(inner, CLOSE_BRACE) { MembersHigher(inner, depth, map[], b); }
      if t[0] == OPEN_BRACKET && !StartsWith(inner, CLOSE_BRACKET) { ItemsHigher(inner, depth, [], b); }
    }
  }

  lemma {:induction false} ItemsHigher(s: JsString, depth: nat, items: seq<Json>, b: Bounds)
    requires ParseItems(s, depth + 1, items, b).Ok?
    ensures ParseItems(s, depth, items, b) == ParseItems(s, depth + 1, items, b)
    decreases |s|, 2
  {
    hide ParseItems, ParseValue;
    ItemsTurn(s, depth, items, b);
    ItemsTurn(s, depth + 1, items, b);
    ValueHigher(s, depth + 1, b);
    var p := ParseValue(s, depth + 2, b).value;
    SkipWsShortens(p.rest);
    var next := SkipWs(p.rest);
    if StartsWith(next, COMMA) { ItemsHigher(next[1..], depth, items + [p.value], b); }
  }

  lemma {:induction false} MembersHigher(s: JsString, depth: nat, obj: map<JsString, Json>, b: Bounds)
    requires ParseMembers(s, depth + 1, obj, b).Ok?
    ensures ParseMembers(s, depth, obj, b) == ParseMembers(s, depth + 1, obj, b)
    decreases |s|, 2
  {
    hide ParseKey, ParseMembers, ParseValue;
    MembersTurn(s, depth, obj, b);
    MembersTurn(s, depth + 1, obj, b);
    var key := ParseKey(s, obj, b).value;
    ValueHigher(key.rest, depth + 1, b);
    var p := ParseValue(key.rest, depth + 2, b).value;
    SkipWsShortens(p.rest);
    var next := SkipWs(p.rest);
    if StartsWith(next, COMMA) { MembersHigher(next[1..], depth, obj[key.value := p.value], b); }
  }

  /** The text is one value and then blanks. */
  ghost predicate IsWhole(text: JsString, b: Bounds) {
    ParseValue(text, 1, b).Ok? && SkipWs(ParseValue(text, 1, b).value.rest) == []
  }

  lemma WholeAfterSkip(text: JsString, b: Bounds)
    requires IsWhole(text, b)
    ensures SkipWs(text) != [] && IsWhole(SkipWs(text), b) && SkipWs(SkipWs(text)) == SkipWs(text)
    ensures ParseBare(SkipWs(text), 1, b).Ok?
  {
    SkipTwice(text);
  }

  lemma BracketInFront(text: JsString, b: Bounds)
    requires IsWhole(text, b)
    ensures ParseValue(['[' as int] + text, 1, b).Err?
  {
    hide ParseItems, ParseMembers, ParseNumber, ParseString, ParseValue;
    var s: JsString := ['[' as int] + text;
    var inner := SkipWs(text);
    assert SkipWs(s) == s && s[1..] == text;
    WholeAfterSkip(text, b);
    ValueTurn(s, 1, b);
    ValueTurn(inner, 1, b);
    ItemsTurn(inner, 1, [], b);
    if ParseValue(inner, 2, b).Ok? { ValueHigher(inner, 1, b); }
  }

  lemma ValueTurn(s: JsString, depth: nat, b: Bounds)
    ensures ParseValue(s, depth, b) ==
      if depth > b.maxDepth then Err(DocumentBoundsExceeded) else ParseBare(SkipWs(s), depth, b)
  {
  }

  lemma BraceInFront(text: JsString, b: Bounds)
    requires IsWhole(text, b)
    ensures ParseValue(['{' as int] + text, 1, b).Err?
  {
    hide ParseItems, ParseMembers, ParseNumber, ParseString, ParseValue;
    var s: JsString := ['{' as int] + text;
    var inner := SkipWs(text);
    assert SkipWs(s) == s && s[1..] == text;
    WholeAfterSkip(text, b);
    ValueTurn(s, 1, b);
    ValueTurn(inner, 1, b);
    MembersTurn(inner, 1, map[], b);
    NoQuoteNoString(inner, b);
  }

  lemma NoQuoteNoString(s: JsString, b: Bounds)
    ensures ParseString(s, b).Ok? ==> StartsWith(s, QUOTE)
  {
  }

  lemma WordInFront(u: Unit, text: JsString, b: Bounds)
    requires IsWhole(text, b) && (u == 't' as int || u == 'f' as int || u == 'n' as int)
    ensures ParseValue([u] + text, 1, b).Err?
  {
    hide ParseItems, ParseMembers, ParseNumber, ParseString;
    WholeAfterSkip(text, b);
    var s := [u] + text;
    assert SkipWs(s) == s && s[1..] == text;
    assert forall k :: 0 < k < |s| ==> s[k] == text[k - 1];
  }

  lemma MinusInFront(text: JsString, b: Bounds)
    requires ParseValue(['-' as int] + text, 1, b).Ok?
    ensures text != [] && '0' as int <= text[0] <= '9' as int
  {
    hide ParseItems, ParseMembers, ParseString;
    var s: JsString := ['-' as int] + text;
    assert SkipWs(s) == s && s[1..] == text;
  }

  lemma DigitStops(u: Unit, text: JsString)
    requires '0' as int <= u <= '9' as int && text != []
    requires u == '0' as int || !('0' as int <= text[0] <= '9' as int)
    ensures ParseNumber([u] + text).Ok? ==> ParseNumber([u] + text).value.rest == text
  {
    var s := [u] + text;
    assert s[1..] == text && DigitRun(s) >= 1;
    assert IntegerPart(s) == 1 && !StartsWith(s, MINUS);
    assert ParseNumber(s).Ok? ==> ParseNumber(s).value.rest == s[1..];
  }

  lemma NumberTurnIn(s: JsString, b: Bounds)
    requires s != [] && '0' as int <= s[0] <= '9' as int
    ensures ParseValue(s, 1, b).Ok? ==> ParseNumber(s).Ok? && ParseValue(s, 1, b).value.rest == ParseNumber(s).value.rest
  {
    hide ParseItems, ParseLiteral, ParseMembers, ParseNumber, ParseString;
    assert SkipWs(s) == s;
    assert ParseValue(s, 1, b).Ok? ==> ParseValue(s, 1, b) == ParseBare(s, 1, b);
    assert ParseBare(s, 1, b) == Lift(ParseNumber(s), (n: int) => Num(n));
  }

  lemma DigitInFront(u: Unit, text: JsString, b: Bounds)
    requires IsWhole(text, b) && '0' as int <= u <= '9' as int && IsWhole([u] + text, b)
    ensures u != '0' as int && '0' as int <= text[0] <= '9' as int
  {
    hide ParseNumber, ParseValue;
    WholeAfterSkip(text, b);
    NumberTurnIn([u] + text, b);
    if u == '0' as int || !('0' as int <= text[0] <= '9' as int) { DigitStops(u, text); }
  }

  lemma {:induction false} BlanksAreNoString(s: JsString, out: JsString, b: Bounds)
    requires Blank(s)
    ensures ParseStringBody(s, out, b).Err?
    decreases |s|
  {
    if s != [] && s[0] == 0x20 && |out| + 1 <= b.maxStringChars { BlanksAreNoString(s[1..], out + [0x20], b); }
  }

  /** Behind blanks, a quotation mark ends the string that was opened before them. */
  lemma {:induction false} StringEnds(gap: JsString, rest: JsString, out: JsString, b: Bounds)
    requires Blank(gap) && ParseStringBody(gap + ([QUOTE] + rest), out, b).Ok?
    ensures ParseStringBody(gap + ([QUOTE] + rest), out, b).value.rest == rest
    decreases |gap|
  {
    var s := gap + ([QUOTE] + rest);
    if gap == [] {
      assert s == [QUOTE] + rest && s[1..] == rest;
    } else {
      assert s[1..] == gap[1..] + ([QUOTE] + rest);
      if s[0] == 0x20 { StringEnds(gap[1..], rest, out + [0x20], b); }
    }
  }

  /** Two ways to see the last unit of a text that is not blank. */
  lemma LastSolid(x: JsString, u: Unit, gap: JsString, y: JsString, w: Unit, end: JsString)
    requires Blank(end) && u > 0x20 && w > 0x20 && x + [u] + gap == y + [w] + end
    ensures Blank(gap) ==> u == w
  {
    if Blank(gap) {
      BlankIsLow(gap);
      BlankIsLow(end);
      var s := x + [u] + gap;
      assert s[|x|] == u && s[|y|] == w;
      assert forall k :: |x| < k < |s| ==> s[k] == gap[k - |x| - 1];
      assert forall k :: |y| < k < |s| ==> s[k] == end[k - |y| - 1];
    }
  }

  lemma EmptyAfterSkip(s: JsString)
    requires SkipWs(s) == []
    ensures Blank(s)
  {
    var gap := SkippedGap(s);
    assert s == gap + [] && gap + [] == gap;
    GapIsBlank(gap);
  }

  lemma QuoteInFront(text: JsString, b: Bounds)
    requires IsWhole(text, b)
    ensures !IsWhole([QUOTE] + text, b)
  {
    hide Admits, Blank, IsGap, ParseItems, ParseMembers, ParseNumber, ParseStringBody, Render, SkipWs, Valid;
    var before, t, p := ValueSound(text, 1, b);
    EmptyAfterSkip(p.rest);
    GapIsBlank(before);
    TreeAdmitted(t, 1, b);
    CoreEnds(Meaning(t), Render(t), 1, b);
    var s := [QUOTE] + text;
    QuoteStarts(text, b);
    if IsWhole(s, b) {
      EmptyAfterSkip(ParseValue(s, 1, b).value.rest);
      QuoteCloses(text, before, Render(t), p.rest, b);
    }
  }

  lemma QuoteStarts(text: JsString, b: Bounds)
    ensures ParseValue([QUOTE] + text, 1, b).Ok? ==>
      && ParseStringBody(text, [], b).Ok?
      && ParseValue([QUOTE] + text, 1, b).value.rest == ParseStringBody(text, [], b).value.rest
  {
    hide ParseItems, ParseMembers, ParseNumber, ParseStringBody, ParseValue, SkipWs;
    var s := [QUOTE] + text;
    assert s[1..] == text;
    QuoteIsNoBlank(text);
    ValueTurn(s, 1, b);
    assert ParseBare(s, 1, b) == Lift(ParseString(s, b), (x: JsString) => Str(x));
  }

  lemma QuoteIsNoBlank(text: JsString)
    ensures SkipWs([QUOTE] + text) == [QUOTE] + text
  {
  }

  /** A quotation mark in front of a text that is one value cannot leave only blanks behind. */
  lemma QuoteCloses(text: JsString, before: JsString, core: JsString, after: JsString, b: Bounds)
    requires Blank(before) && Blank(after) && text == before + core + after && |core| > 0
    requires core[0] == QUOTE <==> core[|core| - 1] == QUOTE
    requires core[|core| - 1] > 0x20 && (core[0] == QUOTE ==> |core| >= 2)
    requires ParseStringBody(text, [], b).Ok?
    ensures !Blank(ParseStringBody(text, [], b).value.rest)
  {
    hide Blank, ParseStringBody, RenderSpellings;
    var last := |core| - 1;
    if core[0] == QUOTE {
      var tail := core[1..] + after;
      assert text == before + ([QUOTE] + tail);
      StringEnds(before, tail, [], b);
      assert tail[last - 1] == core[last];
      SolidIsNotBlank(tail, last - 1);
    } else {
      var sps, q := StringBodySound(text, [], b);
      assert text == RenderSpellings(sps) + [QUOTE] + q.rest;
      assert text == (before + core[..last]) + [core[last]] + after;
      LastSolid(RenderSpellings(sps), QUOTE, q.rest, before + core[..last], core[last], after);
    }
  }

  lemma SolidIsNotBlank(s: JsString, k: nat)
    requires k < |s| && s[k] > 0x20
    ensures !Blank(s)
  {
  }

  /**
   In front of a whole text that is read as a value, no unit other than the four blanks is accepted, unless the text
   starts with a digit: a minus sign, or a digit other than zero, then makes another number of it.
   */
  lemma UnitInFront(u: Unit, text: JsString, b: Bounds)
    requires ParseText(text, b).Ok? && ParseText([u] + text, b).Ok?
    requires u != 0x20 && u != 0x09 && u != 0x0A && u != 0x0D
    ensures text != [] && '0' as int <= text[0] <= '9' as int && (u == '-' as int || '1' as int <= u <= '9' as int)
  {
    hide ByteLength, Encode, ParseBare, ParseValue;
    var s := [u] + text;
    assert IsWhole(text, b) && IsWhole(s, b);
    WholeAfterSkip(text, b);
    if u == '[' as int { BracketInFront(text, b); }
    if u == '{' as int { BraceInFront(text, b); }
    if u == 't' as int || u == 'f' as int || u == 'n' as int { WordInFront(u, text, b); }
    if u == '-' as int { MinusInFront(text, b); }
    if '0' as int <= u <= '9' as int { DigitInFront(u, text, b); }
    if u == QUOTE { QuoteInFront(text, b); }
    EncodeLength(s);
    OtherInFront(u, text, b);
  }

  lemma OtherInFront(u: Unit, text: JsString, b: Bounds)
    requires u != 0x20 && u != 0x09 && u != 0x0A && u != 0x0D && ParseText([u] + text, b).Ok?
    ensures u == '{' as int || u == '[' as int || u == 0x22 || u == 't' as int || u == 'f' as int || u == 'n' as int
      || u == '-' as int || '0' as int <= u <= '9' as int
  {
    hide ByteLength, Encode, ParseBare;
    EncodeLength([u] + text);
    if !(u == '{' as int || u == '[' as int || u == 0x22 || u == 't' as int || u == 'f' as int || u == 'n' as int
         || u == '-' as int || '0' as int <= u <= '9' as int) && b.maxDepth >= 1 {
      NoSuchStart(u, text, b);
    }
  }
}
