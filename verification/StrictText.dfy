/**
 Which texts strict JSON admits and what they mean, character by character, said without the parser and its grammar:
 the blanks and where they may stand, the words, the escapes, the numerals, the punctuation, and the bounds.
 */
module StrictText {
  import opened Base
  import opened Ordering
  import opened Text
  import opened Json
  import opened StrictJson
  import opened Grammar
  import opened CanonicalTheorems
  import opened Normalization
  import opened CanonicalText

  // ---------- blanks and strings ----------

  ghost predicate Blank(s: JsString) {
    forall k :: 0 <= k < |s| ==> s[k] == 0x20 || s[k] == 0x09 || s[k] == 0x0A || s[k] == 0x0D
  }

  /** A text with blanks around it. */
  ghost predicate Padded(text: JsString, core: JsString) {
    exists before, after :: Blank(before) && Blank(after) && text == before + core + after
  }

  /** The value of a hexadecimal digit, or -1. */
  function HexOf(c: Unit): int {
    if '0' as int <= c <= '9' as int then c - '0' as int
    else if 'A' as int <= c <= 'F' as int then c - 'A' as int + 10
    else if 'a' as int <= c <= 'f' as int then c - 'a' as int + 10
    else -1
  }

  /** A letter and the unit it stands for after a backslash. */
  ghost predicate ShortEscape(letter: Unit, u: Unit) {
    || (letter == 0x22 && u == 0x22) || (letter == 0x5C && u == 0x5C) || (letter == 0x2F && u == 0x2F)
    || (letter == 'b' as int && u == 0x08) || (letter == 'f' as int && u == 0x0C)
    || (letter == 'n' as int && u == 0x0A) || (letter == 'r' as int && u == 0x0D)
    || (letter == 't' as int && u == 0x09)
  }

  /** One unit of a string, as it is or as an escape. */
  ghost predicate Spells(text: JsString, u: Unit) {
    || (text == [u] && u >= 0x20 && u != 0x22 && u != 0x5C)
    || (|text| == 2 && text[0] == 0x5C && ShortEscape(text[1], u))
    || (|text| == 6 && text[0] == 0x5C && text[1] == 'u' as int
        && HexOf(text[2]) >= 0 && HexOf(text[3]) >= 0 && HexOf(text[4]) >= 0 && HexOf(text[5]) >= 0
        && u as int == HexOf(text[2]) * 0x1000 + HexOf(text[3]) * 0x100 + HexOf(text[4]) * 0x10 + HexOf(text[5]))
  }

  ghost predicate SpellsAll(text: JsString, s: JsString)
    decreases |s|
  {
    if s == [] then text == []
    else exists n :: 0 <= n <= |text| && Spells(text[..n], s[0]) && SpellsAll(text[n..], s[1..])
  }

  /** A string literal; its value is bounded and has all its surrogates paired. */
  ghost predicate SpellsString(text: JsString, s: JsString, b: Bounds) {
    && |text| >= 2 && text[0] == 0x22 && text[|text| - 1] == 0x22 && SpellsAll(text[1..|text| - 1], s)
    && |s| <= b.maxStringChars && forall k :: 0 <= k < |s| ==> PairedAt(s, k)
  }

  // ---------- values ----------

  /** A member: a name, a colon and a value, with blanks between and around them. */
  ghost predicate IsPair(pair: JsString, key: JsString, core: JsString, b: Bounds) {
    exists name, left, right ::
      && SpellsString(name, key, b) && Padded(left, name) && Padded(right, core)
      && pair == left + [0x3A] + right
  }

  ghost predicate AreMembers(pairs: seq<JsString>, keys: seq<JsString>, cores: seq<JsString>, m: map<JsString, Json>,
      b: Bounds)
  {
    && |pairs| == |keys| == |cores| && NoDuplicates(keys) && (forall k :: k in keys <==> k in m)
    && forall i :: 0 <= i < |keys| ==> IsPair(pairs[i], keys[i], cores[i], b)
  }

  ghost predicate AreItems(parts: seq<JsString>, cores: seq<JsString>, n: nat) {
    |parts| == |cores| == n && forall i :: 0 <= i < n ==> Padded(parts[i], cores[i])
  }

  /** Brackets or braces around nothing but blanks, or around a list with commas. */
  ghost predicate Encloses(text: JsString, open: Unit, parts: seq<JsString>, close: Unit) {
    if parts == [] then exists gap :: Blank(gap) && text == [open] + gap + [close]
    else text == [open] + CommaList(parts) + [close]
  }

  /** The text is one for the value, at a nesting depth. */
  ghost predicate Admits(v: Json, text: JsString, depth: nat, b: Bounds)
    decreases v
  {
    && depth <= b.maxDepth
    && match v
       case Null => text == [0x6E, 0x75, 0x6C, 0x6C]
       case Bool(true) => text == [0x74, 0x72, 0x75, 0x65]
       case Bool(false) => text == [0x66, 0x61, 0x6C, 0x73, 0x65]
       case Num(n) => PrintsNumber(text, n) && -9_007_199_254_740_991 <= n <= 9_007_199_254_740_991
       case Str(s) => SpellsString(text, s, b)
       case Arr(items) =>
         && |items| <= b.maxArrayItems
         && exists parts: seq<JsString>, cores: seq<JsString> ::
              && AreItems(parts, cores, |items|) && Encloses(text, 0x5B, parts, 0x5D)
              && forall i :: 0 <= i < |items| ==> Admits(items[i], cores[i], depth + 1, b)
       case Obj(m) =>
         && |m| <= b.maxObjectKeys
         && exists pairs: seq<JsString>, keys: seq<JsString>, cores: seq<JsString> ::
              && AreMembers(pairs, keys, cores, m, b) && Encloses(text, 0x7B, pairs, 0x7D)
              && forall i :: 0 <= i < |keys| && i < |cores| && keys[i] in m ==> Admits(m[keys[i]], cores[i], depth + 1, b)
       case _ => false
  }

  ghost predicate AdmitsDocument(v: Json, text: JsString, b: Bounds) {
    exists core :: Padded(text, core) && Admits(v, core, 1, b)
  }

  // ---------- what the grammar's trees render is admitted ----------

  lemma GapIsBlank(s: JsString)
    ensures IsGap(s) <==> Blank(s)
  {
  }

  lemma HexDigitIsHexOf(c: Unit)
    ensures IsHex(c) <==> HexOf(c) >= 0
    ensures IsHex(c) ==> HexDigit(c) == HexOf(c)
  {
  }

  lemma UnescapedExactly(letter: Unit, u: Unit)
    ensures Unescaped(letter) == Some(u) <==> ShortEscape(letter, u)
  {
  }

  lemma UnitSpells(sp: Spelling)
    requires SpellingOk(sp)
    ensures Spells(RenderSpelling(sp), SpelledUnit(sp))
  {
    hide HexDigit, HexOf, IsHex, ShortEscape, Unescaped;
    match sp {
      case Raw(u) =>
      case Short(letter) => UnescapedExactly(letter, SpelledUnit(sp));
      case Hex(d) =>
        HexDigitIsHexOf(d[0]);
        HexDigitIsHexOf(d[1]);
        HexDigitIsHexOf(d[2]);
        HexDigitIsHexOf(d[3]);
    }
  }

  lemma {:induction false} UnitsSpell(sps: seq<Spelling>)
    requires SpellingsOk(sps)
    ensures SpellsAll(RenderSpellings(sps), Spelled(sps))
  {
    hide RenderSpelling, SpelledUnit, SpellingOk, Spells;
    if sps != [] {
      UnitSpells(sps[0]);
      UnitsSpell(sps[1..]);
      var text, n := RenderSpellings(sps), |RenderSpelling(sps[0])|;
      assert text[..n] == RenderSpelling(sps[0]) && text[n..] == RenderSpellings(sps[1..]);
      assert Spelled(sps)[0] == SpelledUnit(sps[0]) && Spelled(sps)[1..] == Spelled(sps[1..]);
    }
  }

  lemma StringSpells(sps: seq<Spelling>, b: Bounds)
    requires StringOk(sps, b)
    ensures SpellsString(RenderString(sps), Spelled(sps), b)
  {
    hide SpellsAll, PairedAt, RenderSpellings, Spelled, WellFormed;
    UnitsSpell(sps);
    SpelledLength(sps);
    WellFormedExactly(Spelled(sps));
    assert RenderString(sps)[1..|RenderString(sps)| - 1] == RenderSpellings(sps);
  }

  /** The texts of the items, blanks included. */
  function PartsOf(items: seq<Item>): seq<JsString> {
    seq(|items|, i requires 0 <= i < |items| => items[i].before + Render(items[i].value) + items[i].after)
  }

  function CoresOf(items: seq<Item>): seq<JsString> {
    seq(|items|, i requires 0 <= i < |items| => Render(items[i].value))
  }

  lemma {:induction false} ItemsAreListed(items: seq<Item>)
    requires items != []
    ensures RenderItems(items) == CommaList(PartsOf(items))
  {
    hide Render, CommaList;
    JoinedIsCommaList(PartsOf(items));
    if |items| > 1 {
      ItemsAreListed(items[1..]);
      JoinedIsCommaList(PartsOf(items[1..]));
      assert PartsOf(items)[1..] == PartsOf(items[1..]);
    }
  }

  function PairsOf(ms: seq<Member>): seq<JsString> {
    seq(|ms|, i requires 0 <= i < |ms| => RenderKey(ms[i]) + Render(ms[i].value) + ms[i].after)
  }

  function ValuesOf(ms: seq<Member>): seq<JsString> {
    seq(|ms|, i requires 0 <= i < |ms| => Render(ms[i].value))
  }

  lemma {:induction false} MembersAreListed(ms: seq<Member>)
    requires ms != []
    ensures RenderMembers(ms) == CommaList(PairsOf(ms))
  {
    hide Render, RenderKey, CommaList;
    JoinedIsCommaList(PairsOf(ms));
    if |ms| > 1 {
      MembersAreListed(ms[1..]);
      JoinedIsCommaList(PairsOf(ms[1..]));
      assert PairsOf(ms)[1..] == PairsOf(ms[1..]);
    }
  }

  lemma {:induction false} ItemsValid(items: seq<Item>, depth: nat, b: Bounds)
    requires ValidItems(items, depth, b)
    ensures forall i :: 0 <= i < |items| ==>
      Valid(items[i].value, depth, b) && IsGap(items[i].before) && IsGap(items[i].after)
    ensures |ItemMeanings(items)| == |items|
    ensures forall i :: 0 <= i < |items| ==> ItemMeanings(items)[i] == Meaning(items[i].value)
  {
    hide Valid, IsGap, Meaning;
    if items != [] {
      ItemsValid(items[1..], depth, b);
      assert forall i :: 0 < i < |items| ==> items[i] == items[1..][i - 1];
    }
  }

  lemma {:induction false} MembersValid(ms: seq<Member>, depth: nat, b: Bounds)
    requires ValidMembers(ms, depth, b)
    ensures forall i :: 0 <= i < |ms| ==> Valid(ms[i].value, depth, b) && ValidKey(ms[i], b) && IsGap(ms[i].after)
  {
    hide Valid, ValidKey, IsGap;
    if ms != [] {
      MembersValid(ms[1..], depth, b);
      assert forall i :: 0 < i < |ms| ==> ms[i] == ms[1..][i - 1];
    }
  }

  lemma MemberIsPair(m: Member, b: Bounds)
    requires ValidKey(m, b) && IsGap(m.after)
    ensures IsPair(RenderKey(m) + Render(m.value) + m.after, Spelled(m.key), Render(m.value), b)
  {
    hide Render, RenderString, SpellsString, Spelled, StringOk, IsGap, Blank;
    StringSpells(m.key, b);
    GapIsBlank(m.before);
    GapIsBlank(m.beforeColon);
    GapIsBlank(m.afterColon);
    GapIsBlank(m.after);
    var name, core := RenderString(m.key), Render(m.value);
    var left, right := m.before + name + m.beforeColon, m.afterColon + core + m.after;
    assert Padded(left, name) && Padded(right, core);
    assert RenderKey(m) + core + m.after == left + [0x3A] + right;
  }

  lemma ItemsAdmitted(items: seq<Item>, depth: nat, b: Bounds)
    requires ValidItems(items, depth, b)
    ensures AreItems(PartsOf(items), CoresOf(items), |items|)
    ensures |ItemMeanings(items)| == |items|
    ensures forall i :: 0 <= i < |items| ==>
      Valid(items[i].value, depth, b) && ItemMeanings(items)[i] == Meaning(items[i].value)
  {
    hide Render, Valid, Meaning, IsGap, Blank;
    ItemsValid(items, depth, b);
    forall i | 0 <= i < |items| ensures Padded(PartsOf(items)[i], CoresOf(items)[i]) {
      GapIsBlank(items[i].before);
      GapIsBlank(items[i].after);
    }
  }

  lemma MembersAdmitted(ms: seq<Member>, depth: nat, b: Bounds)
    requires ValidMembers(ms, depth, b) && DistinctKeys(ms)
    ensures AreMembers(PairsOf(ms), KeysOf(ms), ValuesOf(ms), MemberMeanings(ms), b)
    ensures |MemberMeanings(ms)| == |ms|
    ensures forall i :: 0 <= i < |ms| ==>
      && Valid(ms[i].value, depth, b) && Spelled(ms[i].key) in MemberMeanings(ms)
      && MemberMeanings(ms)[Spelled(ms[i].key)] == Meaning(ms[i].value)
  {
    hide IsPair, IsGap, Meaning, MemberMeanings, Render, RenderKey, Spelled, Valid, ValidKey, ValidMembers;
    MembersValid(ms, depth, b);
    MeaningsLookUp(ms);
    MeaningKeySet(ms);
    forall i | 0 <= i < |ms| ensures IsPair(PairsOf(ms)[i], KeysOf(ms)[i], ValuesOf(ms)[i], b) { MemberIsPair(ms[i], b); }
    assert forall k :: k in KeysOf(ms) <==> k in Elements(KeysOf(ms));
  }

  lemma BracketsEnclose(gap: JsString, items: seq<Item>)
    requires IsGap(gap)
    ensures Encloses(Render(TArr(gap, items)), 0x5B, PartsOf(items), 0x5D)
  {
    hide CommaList, Blank;
    GapIsBlank(gap);
    if items != [] { ItemsAreListed(items); }
  }

  lemma BracesEnclose(gap: JsString, ms: seq<Member>)
    requires IsGap(gap)
    ensures Encloses(Render(TObj(gap, ms)), 0x7B, PairsOf(ms), 0x7D)
  {
    hide CommaList, Blank;
    GapIsBlank(gap);
    if ms != [] { MembersAreListed(ms); }
  }

  lemma ScalarAdmitted(t: Tree, depth: nat, b: Bounds)
    requires Valid(t, depth, b) && !t.TArr? && !t.TObj?
    ensures Admits(Meaning(t), Render(t), depth, b)
  {
    hide Decimal, PrintsNumber, RenderString, Spelled, SpellsString, StringOk;
    if t.TNum? { DecimalPrints(t.n); }
    if t.TStr? { StringSpells(t.spelling, b); }
  }

  lemma {:induction false} TreeAdmitted(t: Tree, depth: nat, b: Bounds)
    requires Valid(t, depth, b)
    ensures Admits(Meaning(t), Render(t), depth, b)
    decreases t
  {
    hide AreItems, AreMembers, CommaList, Encloses, IsGap, ItemMeanings, KeysOf, MemberMeanings, Render, Spelled,
      SpellsString, StringOk, ValidItems, ValidMembers;
    match t {
      case TArr(gap, items) =>
        ItemsAdmitted(items, depth + 1, b);
        BracketsEnclose(gap, items);
        forall i | 0 <= i < |items|
          ensures Admits(ItemMeanings(items)[i], CoresOf(items)[i], depth + 1, b)
        {
          TreeAdmitted(items[i].value, depth + 1, b);
        }
      case TObj(gap, ms) =>
        MembersAdmitted(ms, depth + 1, b);
        BracesEnclose(gap, ms);
        KeysAre(ms);
        var m, keys := MemberMeanings(ms), KeysOf(ms);
        forall i | 0 <= i < |keys| && i < |ValuesOf(ms)| && keys[i] in m
          ensures Admits(m[keys[i]], ValuesOf(ms)[i], depth + 1, b)
        {
          TreeAdmitted(ms[i].value, depth + 1, b);
        }
      case _ => ScalarAdmitted(t, depth, b);
    }
  }

  lemma KeysAre(ms: seq<Member>)
    ensures |KeysOf(ms)| == |ms| && forall i :: 0 <= i < |ms| ==> KeysOf(ms)[i] == Spelled(ms[i].key)
  {
    hide Spelled;
  }

  // ---------- what is admitted is rendered by some tree ----------

  lemma UnitSpelled(text: JsString, u: Unit) returns (sp: Spelling)
    requires Spells(text, u)
    ensures SpellingOk(sp) && SpelledUnit(sp) == u && RenderSpelling(sp) == text
  {
    hide HexDigit, HexOf, IsHex, ShortEscape, Unescaped;
    if text == [u] {
      sp := Raw(u);
    } else if |text| == 2 {
      UnescapedExactly(text[1], u);
      sp := Short(text[1]);
    } else {
      HexDigitIsHexOf(text[2]);
      HexDigitIsHexOf(text[3]);
      HexDigitIsHexOf(text[4]);
      HexDigitIsHexOf(text[5]);
      sp := Spelling.Hex(text[2..]);
    }
  }

  lemma {:induction false} UnitsSpelled(text: JsString, s: JsString) returns (sps: seq<Spelling>)
    requires SpellsAll(text, s)
    ensures SpellingsOk(sps) && Spelled(sps) == s && RenderSpellings(sps) == text && |sps| == |s|
    decreases |s|
  {
    hide RenderSpelling, SpelledUnit, SpellingOk, Spells;
    if s == [] {
      sps := [];
    } else {
      var n :| 0 <= n <= |text| && Spells(text[..n], s[0]) && SpellsAll(text[n..], s[1..]);
      var sp := UnitSpelled(text[..n], s[0]);
      var more := UnitsSpelled(text[n..], s[1..]);
      sps := [sp] + more;
      assert sps[1..] == more && text == text[..n] + text[n..] && s == [s[0]] + s[1..];
    }
  }

  lemma StringSpelled(text: JsString, s: JsString, b: Bounds) returns (sps: seq<Spelling>)
    requires SpellsString(text, s, b)
    ensures StringOk(sps, b) && Spelled(sps) == s && RenderString(sps) == text
  {
    hide SpellsAll, PairedAt, RenderSpellings, Spelled, WellFormed, SpellingsOk;
    WellFormedExactly(s);
    sps := UnitsSpelled(text[1..|text| - 1], s);
    assert text == [0x22] + text[1..|text| - 1] + [0x22];
  }

  lemma PaddedItem(part: JsString, t: Tree) returns (item: Item)
    requires Padded(part, Render(t))
    ensures item.value == t && IsGap(item.before) && IsGap(item.after)
    ensures item.before + Render(t) + item.after == part
  {
    hide Blank, IsGap, Render;
    var before, after :| Blank(before) && Blank(after) && part == before + Render(t) + after;
    GapIsBlank(before);
    GapIsBlank(after);
    item := Item(before, t, after);
  }

  lemma PairMember(pair: JsString, key: JsString, t: Tree, b: Bounds) returns (m: Member)
    requires IsPair(pair, key, Render(t), b)
    ensures m.value == t && ValidKey(m, b) && IsGap(m.after) && Spelled(m.key) == key
    ensures RenderKey(m) + Render(t) + m.after == pair
  {
    hide Blank, IsGap, Render, RenderString, SpellsString, Spelled, StringOk;
    var name, left, right :|
      && SpellsString(name, key, b) && Padded(left, name) && Padded(right, Render(t))
      && pair == left + [0x3A] + right;
    var sps := StringSpelled(name, key, b);
    var x, y :| Blank(x) && Blank(y) && left == x + name + y;
    var z, w :| Blank(z) && Blank(w) && right == z + Render(t) + w;
    GapIsBlank(x);
    GapIsBlank(y);
    GapIsBlank(z);
    GapIsBlank(w);
    m := Member(x, sps, y, z, t, w);
    assert RenderKey(m) + Render(t) + w == left + [0x3A] + right;
  }

  lemma {:induction false} ItemsFrom(items: seq<Item>, depth: nat, b: Bounds)
    requires forall i :: 0 <= i < |items| ==>
      Valid(items[i].value, depth, b) && IsGap(items[i].before) && IsGap(items[i].after)
    ensures ValidItems(items, depth, b)
  {
    hide Valid, IsGap;
    if items != [] { ItemsFrom(items[1..], depth, b); }
  }

  lemma {:induction false} MembersFrom(ms: seq<Member>, depth: nat, b: Bounds)
    requires forall i :: 0 <= i < |ms| ==> Valid(ms[i].value, depth, b) && ValidKey(ms[i], b) && IsGap(ms[i].after)
    ensures ValidMembers(ms, depth, b)
  {
    hide Valid, ValidKey, IsGap;
    if ms != [] { MembersFrom(ms[1..], depth, b); }
  }

  /** A tree for an admitted text. */
  ghost predicate IsTreeOf(t: Tree, v: Json, text: JsString, depth: nat, b: Bounds) {
    Valid(t, depth, b) && Meaning(t) == v && Render(t) == text
  }

  lemma ArrayTree(items: seq<Json>, text: JsString, parts: seq<JsString>, cores: seq<JsString>, trees: seq<Tree>,
      depth: nat, b: Bounds)
    returns (t: Tree)
    requires depth <= b.maxDepth && |items| <= b.maxArrayItems && |trees| == |items|
    requires AreItems(parts, cores, |items|) && Encloses(text, 0x5B, parts, 0x5D)
    requires forall i :: 0 <= i < |items| ==> IsTreeOf(trees[i], items[i], cores[i], depth + 1, b)
    ensures IsTreeOf(t, Arr(items), text, depth, b)
  {
    hide Blank, IsGap, Render, RenderItems, Padded, CommaList;
    var list: seq<Item> := [];
    for k := 0 to |items|
      invariant |list| == k
      invariant forall i :: 0 <= i < k ==>
        && list[i].value == trees[i] && IsGap(list[i].before) && IsGap(list[i].after)
        && list[i].before + Render(trees[i]) + list[i].after == parts[i]
    {
      var item := PaddedItem(parts[k], trees[k]);
      list := list + [item];
    }
    ItemsFrom(list, depth + 1, b);
    ItemsValid(list, depth + 1, b);
    assert ItemMeanings(list) == items;
    PartsAre(list, parts);
    var gap := EnclosedGap(text, 0x5B, parts, 0x5D);
    t := TArr(gap, list);
    ArrayText(gap, list, text);
  }

  lemma PartsAre(list: seq<Item>, parts: seq<JsString>)
    requires |list| == |parts|
    requires forall i :: 0 <= i < |list| ==> list[i].before + Render(list[i].value) + list[i].after == parts[i]
    ensures PartsOf(list) == parts
  {
    hide Render;
  }

  lemma PairsAre(ms: seq<Member>, pairs: seq<JsString>)
    requires |ms| == |pairs|
    requires forall i :: 0 <= i < |ms| ==> RenderKey(ms[i]) + Render(ms[i].value) + ms[i].after == pairs[i]
    ensures PairsOf(ms) == pairs
  {
    hide Render, RenderKey;
  }

  /** The blanks of an empty list, or none. */
  lemma EnclosedGap(text: JsString, open: Unit, parts: seq<JsString>, close: Unit) returns (gap: JsString)
    requires Encloses(text, open, parts, close)
    ensures IsGap(gap) && (parts == [] ==> text == [open] + gap + [close])
  {
    if parts == [] {
      gap :| Blank(gap) && text == [open] + gap + [close];
    } else {
      gap := [];
    }
  }

  lemma ArrayText(gap: JsString, list: seq<Item>, text: JsString)
    requires Encloses(text, 0x5B, PartsOf(list), 0x5D)
    requires list == [] ==> text == [0x5B] + gap + [0x5D]
    ensures Render(TArr(gap, list)) == text
  {
    hide CommaList;
    if list != [] { ItemsAreListed(list); }
  }

  lemma ObjectText(gap: JsString, ms: seq<Member>, text: JsString)
    requires Encloses(text, 0x7B, PairsOf(ms), 0x7D)
    requires ms == [] ==> text == [0x7B] + gap + [0x7D]
    ensures Render(TObj(gap, ms)) == text
  {
    hide CommaList;
    if ms != [] { MembersAreListed(ms); }
  }

  lemma MembersBuilt(pairs: seq<JsString>, keys: seq<JsString>, cores: seq<JsString>, trees: seq<Tree>,
      m: map<JsString, Json>, depth: nat, b: Bounds)
    returns (ms: seq<Member>)
    requires AreMembers(pairs, keys, cores, m, b) && |trees| == |keys|
    requires forall i :: 0 <= i < |keys| ==> keys[i] in m && IsTreeOf(trees[i], m[keys[i]], cores[i], depth, b)
    ensures |ms| == |keys| && PairsOf(ms) == pairs && ValidMembers(ms, depth, b)
    ensures forall i :: 0 <= i < |keys| ==> Spelled(ms[i].key) == keys[i] && Meaning(ms[i].value) == m[keys[i]]
  {
    hide Blank, IsGap, IsPair, Meaning, Render, RenderKey, Spelled, Valid, ValidKey;
    ms := [];
    for k := 0 to |keys|
      invariant |ms| == k
      invariant forall i :: 0 <= i < k ==>
        && ms[i].value == trees[i] && ValidKey(ms[i], b) && IsGap(ms[i].after) && Spelled(ms[i].key) == keys[i]
        && RenderKey(ms[i]) + Render(trees[i]) + ms[i].after == pairs[i]
    {
      var member := PairMember(pairs[k], keys[k], trees[k], b);
      ms := ms + [member];
    }
    MembersFrom(ms, depth, b);
    PairsAre(ms, pairs);
  }

  lemma ObjectTree(m: map<JsString, Json>, text: JsString, pairs: seq<JsString>, keys: seq<JsString>,
      cores: seq<JsString>, trees: seq<Tree>, depth: nat, b: Bounds)
    returns (t: Tree)
    requires depth <= b.maxDepth && |m| <= b.maxObjectKeys && |trees| == |keys|
    requires AreMembers(pairs, keys, cores, m, b) && Encloses(text, 0x7B, pairs, 0x7D)
    requires forall i :: 0 <= i < |keys| ==> keys[i] in m && IsTreeOf(trees[i], m[keys[i]], cores[i], depth + 1, b)
    ensures IsTreeOf(t, Obj(m), text, depth, b)
  {
    hide Encloses, IsGap, IsPair, IsTreeOf, MemberMeanings, PairsOf, Render, Spelled, ValidMembers, NoDuplicates,
      DistinctKeys;
    var ms := MembersBuilt(pairs, keys, cores, trees, m, depth + 1, b);
    MembersMean(m, keys, ms);
    var gap := EnclosedGap(text, 0x7B, pairs, 0x7D);
    t := TObj(gap, ms);
    ObjectText(gap, ms, text);
    ObjectIsTree(gap, ms, m, text, depth, b);
  }

  lemma ObjectIsTree(gap: JsString, ms: seq<Member>, m: map<JsString, Json>, text: JsString, depth: nat, b: Bounds)
    requires depth <= b.maxDepth && |m| <= b.maxObjectKeys && |m| == |ms| && IsGap(gap)
    requires ValidMembers(ms, depth + 1, b) && DistinctKeys(ms) && MemberMeanings(ms) == m
    requires Render(TObj(gap, ms)) == text
    ensures IsTreeOf(TObj(gap, ms), Obj(m), text, depth, b)
  {
    hide DistinctKeys, IsGap, Render, ValidMembers;
  }

  lemma MembersMean(m: map<JsString, Json>, keys: seq<JsString>, ms: seq<Member>)
    requires |ms| == |keys| && NoDuplicates(keys) && forall k :: k in keys <==> k in m
    requires forall i :: 0 <= i < |keys| ==> Spelled(ms[i].key) == keys[i] && Meaning(ms[i].value) == m[keys[i]]
    ensures DistinctKeys(ms) && MemberMeanings(ms) == m && |m| == |ms|
  {
    hide KeysOf, MemberMeanings, Meaning, Spelled;
    KeysAre(ms);
    MeaningsLookUp(ms);
    MeaningKeySet(ms);
    assert KeysOf(ms) == keys;
    SameMeanings(m, keys, MemberMeanings(ms));
  }

  lemma SameMeanings(m: map<JsString, Json>, keys: seq<JsString>, n: map<JsString, Json>)
    requires (forall k :: k in keys <==> k in m) && n.Keys == Elements(keys)
    requires forall i :: 0 <= i < |keys| && keys[i] in m ==> keys[i] in n && n[keys[i]] == m[keys[i]]
    ensures n == m
  {
    forall k ensures k in n <==> k in m { assert k in Elements(keys) <==> k in keys; }
    forall k | k in m ensures n[k] == m[k] {
      var i :| 0 <= i < |keys| && keys[i] == k;
    }
  }

  lemma ScalarTree(v: Json, text: JsString, depth: nat, b: Bounds) returns (t: Tree)
    requires Admits(v, text, depth, b) && !v.Arr? && !v.Obj?
    ensures IsTreeOf(t, v, text, depth, b)
  {
    hide Decimal, PrintsNumber, RenderString, Spelled, SpellsString, StringOk;
    match v {
      case Null => t := TNull;
      case Bool(x) => t := TBool(x);
      case Num(n) =>
        DecimalPrints(n);
        PrintsOneNumber(n, text, Decimal(n));
        t := TNum(n);
      case Str(s) =>
        var sps := StringSpelled(text, s, b);
        t := TStr(sps);
    }
  }

  lemma {:induction false} AdmittedTree(v: Json, text: JsString, depth: nat, b: Bounds) returns (t: Tree)
    requires Admits(v, text, depth, b)
    ensures IsTreeOf(t, v, text, depth, b)
    decreases v, 1
  {
    hide Admits, IsTreeOf;
    if v.Arr? {
      t := AdmittedArray(v, text, depth, b);
    } else if v.Obj? {
      t := AdmittedObject(v, text, depth, b);
    } else {
      t := ScalarTree(v, text, depth, b);
    }
  }

  lemma {:induction false} AdmittedArray(v: Json, text: JsString, depth: nat, b: Bounds) returns (t: Tree)
    requires Admits(v, text, depth, b) && v.Arr?
    ensures IsTreeOf(t, v, text, depth, b)
    decreases v, 0
  {
    hide Encloses, IsTreeOf, Padded, PrintsNumber, SpellsString;
    var items := v.items;
    var parts: seq<JsString>, cores: seq<JsString> :|
      && AreItems(parts, cores, |items|) && Encloses(text, 0x5B, parts, 0x5D)
      && forall i :: 0 <= i < |items| ==> Admits(items[i], cores[i], depth + 1, b);
    var trees: seq<Tree> := [];
    for k := 0 to |items|
      invariant |trees| == k
      invariant forall i :: 0 <= i < k ==> IsTreeOf(trees[i], items[i], cores[i], depth + 1, b)
    {
      var u := AdmittedTree(items[k], cores[k], depth + 1, b);
      trees := trees + [u];
    }
    t := ArrayTree(items, text, parts, cores, trees, depth, b);
  }

  lemma {:induction false} AdmittedObject(v: Json, text: JsString, depth: nat, b: Bounds) returns (t: Tree)
    requires Admits(v, text, depth, b) && v.Obj?
    ensures IsTreeOf(t, v, text, depth, b)
    decreases v, 0
  {
    hide AreMembers, Encloses, IsTreeOf, PrintsNumber, SpellsString;
    var m := v.members;
    var pairs: seq<JsString>, keys: seq<JsString>, cores: seq<JsString> :|
      && AreMembers(pairs, keys, cores, m, b) && Encloses(text, 0x7B, pairs, 0x7D)
      && forall i :: 0 <= i < |keys| && i < |cores| && keys[i] in m ==> Admits(m[keys[i]], cores[i], depth + 1, b);
    MembersThere(pairs, keys, cores, m, b);
    var trees: seq<Tree> := [];
    for k := 0 to |keys|
      invariant |trees| == k
      invariant forall i :: 0 <= i < k ==> IsTreeOf(trees[i], m[keys[i]], cores[i], depth + 1, b)
    {
      var u := AdmittedTree(m[keys[k]], cores[k], depth + 1, b);
      trees := trees + [u];
    }
    t := ObjectTree(m, text, pairs, keys, cores, trees, depth, b);
  }

  lemma MembersThere(pairs: seq<JsString>, keys: seq<JsString>, cores: seq<JsString>, m: map<JsString, Json>, b: Bounds)
    requires AreMembers(pairs, keys, cores, m, b)
    ensures |keys| == |cores| && forall i :: 0 <= i < |keys| ==> keys[i] in m
  {
    hide IsPair;
  }

  // ---------- the parser accepts exactly these texts ----------

  lemma DocumentsAgree(v: Json, text: JsString, b: Bounds)
    ensures Denotes(text, v, b) <==> AdmitsDocument(v, text, b)
  {
    hide Admits, Blank, IsGap, Meaning, Render, Valid;
    if Denotes(text, v, b) {
      var doc: Item :| ValidDocument(doc, b) && RenderDocument(doc) == text && Meaning(doc.value) == v;
      GapIsBlank(doc.before);
      GapIsBlank(doc.after);
      TreeAdmitted(doc.value, 1, b);
      assert Padded(text, Render(doc.value));
    }
    if AdmitsDocument(v, text, b) {
      var core :| Padded(text, core) && Admits(v, core, 1, b);
      var t := AdmittedTree(v, core, 1, b);
      var doc := PaddedItem(text, t);
    }
  }

  /** The strict parser reads a text as a value exactly when these rules admit it and it is not too long. */
  lemma ParsesExactly(text: JsString, v: Json, b: Bounds)
    ensures ParseText(text, b) == Ok(v) <==> |Encode(text)| <= b.maxDocumentBytes && AdmitsDocument(v, text, b)
  {
    hide AdmitsDocument, Denotes, ParseText, Encode, ByteLength;
    ParsesExactlyTheGrammar(text, v, b);
    DocumentsAgree(v, text, b);
    EncodeLength(text);
  }
}
