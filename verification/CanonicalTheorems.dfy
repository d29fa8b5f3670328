/** What the canonical printer and the strict parser promise together. */
module CanonicalTheorems {
  import opened Base
  import opened Ordering
  import opened Text
  import opened Json
  import opened StrictJson
  import opened Grammar
  import opened GrammarSound
  import opened CanonicalJson
  import opened RoundTrip

  // ---------- parsing is the grammar ----------

  /** The strict parser accepts exactly the grammar's documents within the byte bound, with the grammar's meaning. */
  lemma ParsesExactlyTheGrammar(text: JsString, v: Json, b: Bounds)
    ensures ParseText(text, b) == Ok(v) <==> ByteLength(text) <= b.maxDocumentBytes && Denotes(text, v, b)
  {
    if ParseText(text, b) == Ok(v) {
      var before, t, p := ValueSound(text, 1, b);
      var after := SkippedGap(p.rest);
      assert after + [] == after;
      var doc := Item(before, t, after);
      assert ValidDocument(doc, b) && RenderDocument(doc) == text && Meaning(doc.value) == v;
    }
    if ByteLength(text) <= b.maxDocumentBytes && Denotes(text, v, b) {
      var doc: Item :| ValidDocument(doc, b) && RenderDocument(doc) == text && Meaning(doc.value) == v;
      GapStops(doc.after);
      ValueComplete(doc.before, doc.value, doc.after, 1, b);
      SkipGap(doc.after, []);
      assert doc.after + [] == doc.after;
    }
  }

  lemma GapStops(gap: JsString)
    requires IsGap(gap)
    ensures Stops(gap)
  {
  }

  // ---------- printing then parsing ----------

  /** What the printer prints, the parser reads back, as text and as UTF-8 bytes. */
  lemma ParseInvertsCanonicalize(v: Json, b: Bounds)
    requires Canonicalize(v, b).Ok?
    ensures ParseText(Canonicalize(v, b).value, b) == Ok(v)
    ensures ParseBytes(Encode(Canonicalize(v, b).value), b) == Ok(v)
  {
    SerializeExact(v, 1, b);
    var t := CanonTree(v);
    var doc := Item([], t, []);
    var text := Render(t);
    assert [] + text + [] == text;
    assert ValidDocument(doc, b) && RenderDocument(doc) == text && Meaning(doc.value) == v;
    ParsesExactlyTheGrammar(text, v, b);
    CanonicalTextWellFormed(v, 1, b);
    DecodeInvertsEncode(text);
  }

  /** The canonical form is a normal form: one text for one value, whatever order its keys were set in. */
  lemma CanonicalizeIsInjective(v: Json, w: Json, b: Bounds)
    requires Canonicalize(v, b).Ok? && Canonicalize(w, b).Ok?
    ensures Canonicalize(v, b).value == Canonicalize(w, b).value <==> v == w
  {
    ParseInvertsCanonicalize(v, b);
    ParseInvertsCanonicalize(w, b);
  }

  /** The digested bytes are as discriminating as the text. */
  lemma CanonicalBytesAreInjective(v: Json, w: Json, b: Bounds)
    requires Canonicalize(v, b).Ok? && Canonicalize(w, b).Ok?
    ensures Encode(Canonicalize(v, b).value) == Encode(Canonicalize(w, b).value) <==> v == w
  {
    ParseInvertsCanonicalize(v, b);
    ParseInvertsCanonicalize(w, b);
  }

  // ---------- the canonical text is well-formed Unicode ----------

  lemma EscapedPair(hi: Unit, lo: Unit, rest: JsString)
    requires IsHigh(hi) && IsLow(lo)
    ensures EscapeAll([hi, lo] + rest) == [hi, lo] + EscapeAll(rest)
  {
    assert ([hi, lo] + rest)[1..] == [lo] + rest;
    assert ([lo] + rest)[1..] == rest;
  }

  lemma {:induction false} EscapedTextWellFormed(s: JsString)
    requires WellFormed(s)
    ensures WellFormed(EscapeAll(s))
  {
    if s != [] {
      if StartsWithPair(s) {
        assert s == [s[0], s[1]] + s[2..];
        EscapedPair(s[0], s[1], s[2..]);
        EscapedTextWellFormed(s[2..]);
        assert WellFormed([s[0], s[1]]);
        WellFormedConcat([s[0], s[1]], EscapeAll(s[2..]));
      } else {
        EscapedTextWellFormed(s[1..]);
        EscapedUnitWellFormed(s[0]);
        WellFormedConcat(EscapeUnit(s[0]), EscapeAll(s[1..]));
      }
    }
  }

  lemma EscapedUnitWellFormed(u: Unit)
    requires !IsHigh(u) && !IsLow(u)
    ensures WellFormed(EscapeUnit(u))
  {
    if IsAscii(EscapeUnit(u)) { AsciiText(EscapeUnit(u)); }
  }

  lemma WellFormedAround(a: Unit, s: JsString, c: Unit)
    requires a < 0x80 && c < 0x80 && WellFormed(s)
    ensures WellFormed([a] + s + [c])
  {
    AsciiText([a]);
    AsciiText([c]);
    WellFormedConcat([a], s);
    WellFormedConcat([a] + s, [c]);
  }

  lemma StringifiedWellFormed(s: JsString)
    requires WellFormed(s)
    ensures WellFormed(Stringify(s))
  {
    EscapedTextWellFormed(s);
    WellFormedAround(QUOTE, EscapeAll(s), QUOTE);
  }

  lemma {:induction false} JoinedWellFormed(parts: seq<JsString>)
    requires forall i :: 0 <= i < |parts| ==> WellFormed(parts[i])
    ensures WellFormed(JoinCommas(parts))
  {
    if |parts| > 1 {
      JoinedWellFormed(parts[1..]);
      AsciiText([COMMA]);
      WellFormedConcat(parts[0], [COMMA]);
      WellFormedConcat(parts[0] + [COMMA], JoinCommas(parts[1..]));
    }
  }

  lemma {:induction false} DecimalAscii(n: int)
    ensures IsAscii(Decimal(n))
  {
    NatDigitsShape(if n < 0 then -n else n);
  }

  lemma {:induction false} SerializedWellFormed(v: Json, depth: nat, b: Bounds)
    requires Serialize(v, depth, b).Ok?
    ensures WellFormed(Serialize(v, depth, b).value)
    decreases v, 1
  {
    hide WellFormed, Sorted, JoinCommas, Decimal, KeysError, SerializeItems, SerializeMembers;
    match v {
      case Num(n) =>
        DecimalAscii(n);
        AsciiText(Decimal(n));
      case Str(s) => StringifiedWellFormed(s);
      case Arr(items) =>
        SerializedItemsWellFormed(items, depth + 1, b);
        var parts := SerializeItems(items, depth + 1, b).value;
        JoinedWellFormed(parts);
        WellFormedAround(OPEN_BRACKET, JoinCommas(parts), CLOSE_BRACKET);
      case Obj(m) =>
        SortedFacts(m.Keys);
        var keys := Sorted(m.Keys);
        assert forall k :: k in keys ==> k in Elements(keys);
        KeysErrorExact(keys, b);
        SerializedMembersWellFormed(keys, v, depth + 1, b);
        var parts := SerializeMembers(keys, v, depth + 1, b).value;
        JoinedWellFormed(parts);
        WellFormedAround(OPEN_BRACE, JoinCommas(parts), CLOSE_BRACE);
      case Null => AsciiText(NULL_WORD);
      case Bool(x) => AsciiText(if x then TRUE_WORD else FALSE_WORD);
      case _ =>
    }
  }

  lemma {:induction false} SerializedItemsWellFormed(items: seq<Json>, depth: nat, b: Bounds)
    requires SerializeItems(items, depth, b).Ok?
    ensures var parts := SerializeItems(items, depth, b).value;
            forall i :: 0 <= i < |parts| ==> WellFormed(parts[i])
    decreases items, 2
  {
    if items != [] {
      SerializedWellFormed(items[0], depth, b);
      SerializedItemsWellFormed(items[1..], depth, b);
    }
  }

  lemma {:induction false} SerializedMembersWellFormed(keys: seq<JsString>, v: Json, depth: nat, b: Bounds)
    requires v.Obj? && forall k :: k in keys ==> k in v.members && AcceptableString(k, b)
    requires SerializeMembers(keys, v, depth, b).Ok?
    ensures var parts := SerializeMembers(keys, v, depth, b).value;
            forall i :: 0 <= i < |parts| ==> WellFormed(parts[i])
    decreases v, 0, |keys|
  {
    if keys != [] {
      var text := Serialize(v.members[keys[0]], depth, b).value;
      SerializedWellFormed(v.members[keys[0]], depth, b);
      SerializedMembersWellFormed(keys[1..], v, depth, b);
      StringifiedWellFormed(keys[0]);
      AsciiText([COLON]);
      WellFormedConcat(Stringify(keys[0]), [COLON]);
      WellFormedConcat(Stringify(keys[0]) + [COLON], text);
    }
  }

  lemma CanonicalTextWellFormed(v: Json, depth: nat, b: Bounds)
    requires Acceptable(v, depth, b)
    ensures WellFormed(Render(CanonTree(v)))
  {
    SerializeExact(v, depth, b);
    SerializedWellFormed(v, depth, b);
  }
}
