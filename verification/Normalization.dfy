/** Any accepted text has a canonical form, no longer than the text in UTF-8. */
module Normalization {
  import opened Base
  import opened Ordering
  import opened Text
  import opened Json
  import opened StrictJson
  import opened Grammar
  import opened GrammarSound
  import opened CanonicalJson
  import opened RoundTrip
  import opened CanonicalTheorems

  // ---------- a spelled string is at least as long as its canonical spelling ----------

  lemma AsciiBytes(s: JsString)
    requires IsAscii(s)
    ensures MinBytes(s) == |s|
  {
    AsciiText(s);
  }

  lemma EscapeIsShortest(sp: Spelling)
    requires SpellingOk(sp)
    ensures MinBytes(EscapeUnit(SpelledUnit(sp))) <= MinBytes(RenderSpelling(sp))
  {
    var u := SpelledUnit(sp);
    var e, r := EscapeUnit(u), RenderSpelling(sp);
    EscapeCost(u);
    match sp {
      case Raw(_) => assert e == r;
      case Short(_) => AsciiBytes(r);
      case Hex(_) => AsciiBytes(r);
    }
  }

  lemma EscapeCost(u: Unit)
    ensures MinBytes(EscapeUnit(u)) <= 6
    ensures Unescaped(LOWER_B).value == u || Unescaped(LOWER_F).value == u || Unescaped(LOWER_N).value == u
      || Unescaped(LOWER_R).value == u || Unescaped(LOWER_T).value == u || u == QUOTE || u == BACKSLASH || u == SLASH
      ==> MinBytes(EscapeUnit(u)) <= 2
  {
    if IsAscii(EscapeUnit(u)) { AsciiBytes(EscapeUnit(u)); } else { MinBytesOne(u); }
  }

  lemma MinBytesOne(u: Unit)
    ensures MinBytes([u]) == UnitBytes(u) <= 3
  {
    assert [u][1..] == [];
  }

  lemma {:induction false} EscapesAreShortest(sps: seq<Spelling>)
    requires SpellingsOk(sps)
    ensures MinBytes(EscapeAll(Spelled(sps))) <= MinBytes(RenderSpellings(sps))
  {
    if sps != [] {
      EscapeIsShortest(sps[0]);
      EscapesAreShortest(sps[1..]);
      var s := Spelled(sps);
      assert s[1..] == Spelled(sps[1..]);
      MinBytesConcat(EscapeUnit(s[0]), EscapeAll(s[1..]));
      MinBytesConcat(RenderSpelling(sps[0]), RenderSpellings(sps[1..]));
    }
  }

  lemma MinBytesAround(a: Unit, s: JsString, c: Unit)
    requires a < 0x80 && c < 0x80
    ensures MinBytes([a] + s + [c]) == MinBytes(s) + 2
  {
    MinBytesConcat([a] + s, [c]);
    MinBytesConcat([a], s);
    MinBytesOne(a);
    MinBytesOne(c);
  }

  lemma StringifyIsShortest(sps: seq<Spelling>)
    requires SpellingsOk(sps)
    ensures MinBytes(Stringify(Spelled(sps))) <= MinBytes(RenderString(sps))
  {
    EscapesAreShortest(sps);
    MinBytesAround(QUOTE, EscapeAll(Spelled(sps)), QUOTE);
    MinBytesAround(QUOTE, RenderSpellings(sps), QUOTE);
  }

  // ---------- items ----------

  function CanonCost(v: Json): nat {
    MinBytes(Render(CanonTree(v)))
  }

  /** What the printed items of an array cost, commas included. */
  function ItemsCost(vs: seq<Json>): nat
    requires vs != []
  {
    CanonCost(vs[0]) + if |vs| == 1 then 0 else 1 + ItemsCost(vs[1..])
  }

  lemma {:induction false} CanonItemsCost(vs: seq<Json>)
    requires vs != []
    ensures CanonItems(vs) != [] && MinBytes(RenderItems(CanonItems(vs))) == ItemsCost(vs)
  {
    var items := CanonItems(vs);
    var first := Render(CanonTree(vs[0]));
    assert [] + first + [] == first;
    assert items[1..] == CanonItems(vs[1..]);
    if |vs| > 1 {
      CanonItemsCost(vs[1..]);
      MinBytesConcat(first + [COMMA], RenderItems(items[1..]));
      MinBytesConcat(first, [COMMA]);
      MinBytesOne(COMMA);
    } else {
      assert |items| == 1;
    }
  }

  lemma MinBytesSurrounded(before: JsString, s: JsString, after: JsString)
    ensures MinBytes(s) <= MinBytes(before + s + after)
  {
    MinBytesConcat(before + s, after);
    MinBytesConcat(before, s);
  }

  lemma {:induction false} ItemsNoShorter(items: seq<Item>, depth: nat, b: Bounds)
    requires items != [] && ValidItems(items, depth, b)
    ensures ItemMeanings(items) != [] && ItemsCost(ItemMeanings(items)) <= MinBytes(RenderItems(items))
    ensures |ItemMeanings(items)| == |items|
    ensures forall i :: 0 <= i < |items| ==> Acceptable(ItemMeanings(items)[i], depth, b)
    decreases items, 1
  {
    var item := items[0];
    var first := item.before + Render(item.value) + item.after;
    var vs := ItemMeanings(items);
    TreeNoShorter(item.value, depth, b);
    MinBytesSurrounded(item.before, Render(item.value), item.after);
    assert vs[1..] == ItemMeanings(items[1..]);
    if |items| > 1 {
      ItemsNoShorter(items[1..], depth, b);
      MinBytesConcat(first + [COMMA], RenderItems(items[1..]));
      MinBytesConcat(first, [COMMA]);
      MinBytesOne(COMMA);
      assert forall i :: 0 < i < |items| ==> vs[i] == vs[1..][i - 1];
    }
  }

  // ---------- members, whose order is forgotten ----------

  /** What one printed member costs, its comma or brace included. */
  function MemberCost(key: JsString, v: Json): nat {
    MinBytes(Stringify(key)) + 2 + CanonCost(v)
  }

  function CostIn(m: map<JsString, Json>): JsString -> nat {
    (k: JsString) => if k in m then MemberCost(k, m[k]) else 0
  }

  lemma CanonMemberCost(k: JsString, v: Json)
    requires v.Obj? && k in v.members
    ensures var m := CanonMember(k, v);
            MinBytes(RenderKey(m) + Render(m.value) + m.after) + 1 == MemberCost(k, v.members[k])
  {
    hide WellFormed, CanonTree, Render;
    var m := CanonMember(k, v);
    CanonSpellingsFacts(k);
    CanonMemberText(m, Stringify(k));
    MinBytesConcat(Stringify(k) + [COLON], Render(m.value));
    MinBytesConcat(Stringify(k), [COLON]);
    MinBytesOne(COLON);
  }

  lemma {:induction false} CanonMembersCost(keys: seq<JsString>, v: Json, f: JsString -> nat)
    requires v.Obj? && keys != [] && forall k :: k in keys ==> k in v.members
    requires forall k :: k in keys ==> f(k) == MemberCost(k, v.members[k])
    ensures CanonMembers(keys, v) != []
    ensures MinBytes(RenderMembers(CanonMembers(keys, v))) + 1 == SumOf(keys, f)
  {
    var ms := CanonMembers(keys, v);
    var first := CanonMember(keys[0], v);
    assert ms == [first] + CanonMembers(keys[1..], v);
    assert ms[1..] == CanonMembers(keys[1..], v);
    CanonMemberCost(keys[0], v);
    hide WellFormed, CanonTree, Render, RenderKey, MemberCost;
    var text := RenderKey(first) + Render(first.value) + first.after;
    if |keys| > 1 {
      CanonMembersCost(keys[1..], v, f);
      MinBytesConcat(text + [COMMA], RenderMembers(ms[1..]));
      MinBytesConcat(text, [COMMA]);
      MinBytesOne(COMMA);
    } else {
      assert |ms| == 1;
    }
  }

  function KeysOf(ms: seq<Member>): seq<JsString> {
    seq(|ms|, i requires 0 <= i < |ms| => Spelled(ms[i].key))
  }

  lemma KeyNoShorter(m: Member, b: Bounds)
    requires ValidKey(m, b)
    ensures MinBytes(Stringify(Spelled(m.key))) + 1 <= MinBytes(RenderKey(m))
  {
    hide WellFormed;
    StringifyIsShortest(m.key);
    var quoted := m.before + RenderString(m.key) + m.beforeColon;
    MinBytesSurrounded(m.before, RenderString(m.key), m.beforeColon);
    MinBytesConcat(quoted + [COLON], m.afterColon);
    MinBytesConcat(quoted, [COLON]);
    MinBytesOne(COLON);
  }

  lemma MemberNoShorter(m: Member, b: Bounds)
    requires ValidKey(m, b) && CanonCost(Meaning(m.value)) <= MinBytes(Render(m.value))
    ensures MemberCost(Spelled(m.key), Meaning(m.value)) <= MinBytes(RenderKey(m) + Render(m.value) + m.after) + 1
  {
    KeyNoShorter(m, b);
    hide WellFormed, Render, RenderKey, CanonCost, Meaning, Spelled;
    MinBytesConcat(RenderKey(m) + Render(m.value), m.after);
    MinBytesConcat(RenderKey(m), Render(m.value));
  }

  lemma {:induction false} MembersNoShorter(ms: seq<Member>, f: JsString -> nat, depth: nat, b: Bounds)
    requires ms != [] && ValidMembers(ms, depth, b)
    requires forall i :: 0 <= i < |ms| ==> f(Spelled(ms[i].key)) == MemberCost(Spelled(ms[i].key), Meaning(ms[i].value))
    ensures SumOf(KeysOf(ms), f) <= MinBytes(RenderMembers(ms)) + 1
    ensures forall i :: 0 <= i < |ms| ==>
      AcceptableString(Spelled(ms[i].key), b) && Acceptable(Meaning(ms[i].value), depth, b)
    decreases ms, 1
  {
    var m := ms[0];
    var first := RenderKey(m) + Render(m.value) + m.after;
    TreeNoShorter(m.value, depth, b);
    MemberNoShorter(m, b);
    SpelledLength(m.key);
    assert KeysOf(ms)[1..] == KeysOf(ms[1..]);
    hide WellFormed, Render, RenderKey, Acceptable, CanonCost, MemberCost, Meaning, Spelled, Valid;
    if |ms| > 1 {
      MembersNoShorter(ms[1..], f, depth, b);
      MinBytesConcat(first + [COMMA], RenderMembers(ms[1..]));
      MinBytesConcat(first, [COMMA]);
      MinBytesOne(COMMA);
      assert forall i :: 0 < i < |ms| ==> ms[i] == ms[1..][i - 1];
    }
  }

  lemma KeysStayDistinct(ms: seq<Member>)
    requires ms != [] && DistinctKeys(ms)
    ensures DistinctKeys(ms[1..]) && Spelled(ms[0].key) !in MemberMeanings(ms[1..])
  {
    MeaningKeys(ms[1..]);
  }

  lemma {:induction false} MeaningsLookUp(ms: seq<Member>)
    requires DistinctKeys(ms)
    ensures forall i :: 0 <= i < |ms| ==>
      Spelled(ms[i].key) in MemberMeanings(ms) && MemberMeanings(ms)[Spelled(ms[i].key)] == Meaning(ms[i].value)
    ensures |MemberMeanings(ms)| == |ms|
  {
    hide Spelled, Meaning;
    if ms != [] {
      var more := MemberMeanings(ms[1..]);
      KeysStayDistinct(ms);
      MeaningsLookUp(ms[1..]);
      MapCons(Spelled(ms[0].key), Meaning(ms[0].value), more);
      forall i | 0 < i < |ms|
        ensures Spelled(ms[i].key) in MemberMeanings(ms) && MemberMeanings(ms)[Spelled(ms[i].key)] == Meaning(ms[i].value)
      {
        assert ms[i] == ms[1..][i - 1];
      }
    }
  }

  lemma MeaningKeySet(ms: seq<Member>)
    ensures MemberMeanings(ms).Keys == Elements(KeysOf(ms))
  {
    MeaningKeys(ms);
    hide Spelled, MemberMeanings;
    forall k ensures k in MemberMeanings(ms) <==> k in Elements(KeysOf(ms)) {
      if k in Elements(KeysOf(ms)) {
        var i :| 0 <= i < |ms| && KeysOf(ms)[i] == k;
        assert Spelled(ms[i].key) == k;
      }
      if i :| 0 <= i < |ms| && Spelled(ms[i].key) == k {
        assert KeysOf(ms)[i] == k;
      }
    }
  }

  lemma {:induction false} ObjectNoShorter(t: Tree, depth: nat, b: Bounds)
    requires t.TObj? && Valid(t, depth, b)
    ensures Acceptable(Meaning(t), depth, b) && CanonCost(Meaning(t)) <= MinBytes(Render(t))
    decreases t.members, 2
  {
    var ms := t.members;
    var m := MemberMeanings(ms);
    MeaningsLookUp(ms);
    MeaningKeySet(ms);
    if ms == [] {
      EmptyObjectCost(t.gap);
    } else {
      var f := CostIn(m);
      MembersNoShorter(ms, f, depth + 1, b);
      AcceptableMembers(ms, m, depth, b);
      CanonObjectCost(m);
      KeysPermute(ms, m, f);
      ObjectCost(t);
    }
  }

  lemma ObjectCost(t: Tree)
    requires t.TObj? && t.members != []
    ensures MinBytes(Render(t)) == MinBytes(RenderMembers(t.members)) + 2
  {
    MinBytesAround(OPEN_BRACE, RenderMembers(t.members), CLOSE_BRACE);
  }

  lemma EmptyObjectCost(gap: JsString)
    ensures CanonCost(Obj(map[])) <= MinBytes(Render(TObj(gap, [])))
  {
    var none: map<JsString, Json> := map[];
    SortedFacts(none.Keys);
    assert Sorted(none.Keys) == [];
    MinBytesAround(OPEN_BRACE, gap, CLOSE_BRACE);
    MinBytesAround(OPEN_BRACE, [], CLOSE_BRACE);
  }

  lemma KeysPermute(ms: seq<Member>, m: map<JsString, Json>, f: JsString -> nat)
    requires DistinctKeys(ms) && m.Keys == Elements(KeysOf(ms))
    ensures SumOf(Sorted(m.Keys), f) == SumOf(KeysOf(ms), f)
  {
    hide Spelled;
    SortedFacts(m.Keys);
    IncreasingNoDuplicates(Sorted(m.Keys));
    SameMembersPermute(Sorted(m.Keys), KeysOf(ms));
    SumOfPermutation(Sorted(m.Keys), KeysOf(ms), f);
  }

  lemma AcceptableMembers(ms: seq<Member>, m: map<JsString, Json>, depth: nat, b: Bounds)
    requires depth <= b.maxDepth && |m| <= b.maxObjectKeys && m.Keys == Elements(KeysOf(ms))
    requires forall i :: 0 <= i < |ms| ==>
      && Spelled(ms[i].key) in m && m[Spelled(ms[i].key)] == Meaning(ms[i].value)
      && AcceptableString(Spelled(ms[i].key), b) && Acceptable(Meaning(ms[i].value), depth + 1, b)
    ensures Acceptable(Obj(m), depth, b)
  {
    forall k | k in m ensures AcceptableString(k, b) && Acceptable(m[k], depth + 1, b) {
      assert k in Elements(KeysOf(ms));
      var i :| 0 <= i < |ms| && KeysOf(ms)[i] == k;
    }
  }

  lemma CanonObjectCost(m: map<JsString, Json>)
    requires m != map[]
    ensures CanonCost(Obj(m)) == SumOf(Sorted(m.Keys), CostIn(m)) + 1
  {
    var keys := Sorted(m.Keys);
    SortedFacts(m.Keys);
    assert forall k :: k in keys ==> k in Elements(keys);
    var k :| k in m;
    assert k in Elements(keys);
    hide CanonCost, MemberCost, Render, WellFormed;
    CanonMembersCost(keys, Obj(m), CostIn(m));
    CanonObjectText(keys, m);
  }

  lemma CanonObjectText(keys: seq<JsString>, m: map<JsString, Json>)
    requires keys == Sorted(m.Keys) && forall k :: k in keys ==> k in m
    requires CanonMembers(keys, Obj(m)) != []
    ensures CanonCost(Obj(m)) == MinBytes(RenderMembers(CanonMembers(keys, Obj(m)))) + 2
  {
    MinBytesAround(OPEN_BRACE, RenderMembers(CanonMembers(keys, Obj(m))), CLOSE_BRACE);
  }

  // ---------- values ----------

  /** A valid syntax tree means an acceptable value, whose canonical text is no longer than the tree's. */
  lemma {:induction false} TreeNoShorter(t: Tree, depth: nat, b: Bounds)
    requires Valid(t, depth, b)
    ensures Acceptable(Meaning(t), depth, b) && CanonCost(Meaning(t)) <= MinBytes(Render(t))
    decreases t, 0
  {
    match t {
      case TStr(sps) =>
        CanonSpellingsFacts(Spelled(sps));
        StringifyIsShortest(sps);
        SpelledLength(sps);
      case TArr(gap, items) =>
        ArrayNoShorter(t, depth, b);
      case TObj(gap, ms) =>
        ObjectNoShorter(t, depth, b);
      case _ =>
    }
  }

  lemma {:induction false} ArrayNoShorter(t: Tree, depth: nat, b: Bounds)
    requires t.TArr? && Valid(t, depth, b)
    ensures Acceptable(Meaning(t), depth, b) && CanonCost(Meaning(t)) <= MinBytes(Render(t))
    decreases t.items, 2
  {
    var items := t.items;
    if items == [] {
      MinBytesAround(OPEN_BRACKET, t.gap, CLOSE_BRACKET);
      MinBytesAround(OPEN_BRACKET, [], CLOSE_BRACKET);
    } else {
      var vs := ItemMeanings(items);
      ItemsNoShorter(items, depth + 1, b);
      CanonItemsCost(vs);
      MinBytesAround(OPEN_BRACKET, RenderItems(items), CLOSE_BRACKET);
      MinBytesAround(OPEN_BRACKET, RenderItems(CanonItems(vs)), CLOSE_BRACKET);
    }
  }

  // ---------- the normal form of a text ----------

  /**
   Every accepted text has a canonical form; it is no longer in UTF-8, means the same value, and is its own
   canonical form.
   */
  lemma CanonicalizeNormalizes(text: JsString, v: Json, b: Bounds)
    requires ParseText(text, b) == Ok(v)
    ensures Canonicalize(v, b).Ok?
    ensures ByteLength(Canonicalize(v, b).value) <= ByteLength(text)
    ensures ParseText(Canonicalize(v, b).value, b) == Ok(v)
  {
    var before, t, p := ValueSound(text, 1, b);
    TreeNoShorter(t, 1, b);
    SerializeExact(v, 1, b);
    var out := Render(CanonTree(v));
    CanonicalTextWellFormed(v, 1, b);
    ByteLengthVersusMinBytes(out);
    MinBytesSurrounded(before, Render(t), p.rest);
    ByteLengthVersusMinBytes(text);
    ParseInvertsCanonicalize(v, b);
  }

  /** The canonical form accepts and prints exactly the parser's values: no printable value is out of the parser's reach. */
  lemma PrintableIffParsable(v: Json, b: Bounds)
    ensures Canonicalize(v, b).Ok? <==> exists text :: ParseText(text, b) == Ok(v)
  {
    if Canonicalize(v, b).Ok? { ParseInvertsCanonicalize(v, b); }
    if text :| ParseText(text, b) == Ok(v) { CanonicalizeNormalizes(text, v, b); }
  }
}
