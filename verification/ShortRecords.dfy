/** How long the text of a record of scalars can be, and that a short one always has a canonical form. */
module ShortRecords {
  import opened Base
  import opened Text
  import opened Json
  import opened CanonicalJson
  import opened RoundTrip
  import opened CanonicalTheorems
  import opened Normalization
  import opened Records

  // ---------- how long a stringified record can be ----------

  lemma {:induction false} EscapedLength(s: JsString)
    ensures MinBytes(EscapeAll(s)) <= 6 * |s|
  {
    if s != [] {
      EscapedLength(s[1..]);
      EscapeCost(s[0]);
      MinBytesConcat(EscapeUnit(s[0]), EscapeAll(s[1..]));
    }
  }

  lemma StringifiedLength(s: JsString)
    ensures MinBytes(Stringify(s)) <= 6 * |s| + 2
  {
    EscapedLength(s);
    MinBytesAround(QUOTE, EscapeAll(s), QUOTE);
  }

  function Pow10(k: nat): nat {
    if k == 0 then 1 else 10 * Pow10(k - 1)
  }

  lemma {:induction false} DigitsLength(n: nat, k: nat)
    requires 0 < k && n < Pow10(k)
    ensures |NatDigits(n)| <= k
  {
    if n >= 10 {
      assert k > 1;
      DigitsLength(n / 10, k - 1);
    }
  }

  lemma SafeIntegerLength(n: int)
    requires IsSafeInteger(n)
    ensures |Decimal(n)| <= 17
  {
    assert Pow10(4) == 10_000;
    assert Pow10(8) == 100_000_000;
    assert Pow10(12) == 1_000_000_000_000;
    assert Pow10(16) == 10_000_000_000_000_000;
    DigitsLength(if n < 0 then -n else n, 16);
  }

  /** A generous bound on the UTF-8 length of a printed scalar. */
  function ScalarBound(v: Json): nat {
    match v
    case Str(s) => 6 * |s| + 2
    case _ => 17
  }

  predicate IsScalarJson(v: Json) { v.Null? || v.Bool? || v.Num? || v.Str? }

  lemma ScalarLength(v: Json)
    requires IsScalarJson(v) && Acceptable(v, 2, CANONICAL_BOUNDS)
    ensures CanonCost(v) <= ScalarBound(v)
  {
    match v {
      case Num(n) =>
        SafeIntegerLength(n);
        DecimalAscii(n);
        AsciiBytes(Decimal(n));
      case Str(s) =>
        CanonSpellingsFacts(s);
        StringifiedLength(s);
      case _ =>
        AsciiBytes(Render(CanonTree(v)));
    }
  }

  function FieldsBound(fields: seq<Field>): nat {
    if fields == [] then 0 else 6 * |fields[0].name| + 4 + ScalarBound(fields[0].value) + FieldsBound(fields[1..])
  }

  ghost predicate ScalarField(f: Field) {
    && AcceptableString(f.name, CANONICAL_BOUNDS)
    && IsScalarJson(f.value) && Acceptable(f.value, 2, CANONICAL_BOUNDS)
  }

  ghost predicate ScalarFields(fields: seq<Field>) {
    forall i :: 0 <= i < |fields| ==> ScalarField(fields[i])
  }

  lemma FieldText(f: Field)
    requires AcceptableString(f.name, CANONICAL_BOUNDS)
    requires IsScalarJson(f.value) && Acceptable(f.value, 2, CANONICAL_BOUNDS)
    ensures var m := RecordMember(f);
            var text := RenderKey(m) + Render(m.value) + m.after;
            WellFormed(text) && MinBytes(text) <= 6 * |f.name| + 3 + ScalarBound(f.value)
  {
    var m := RecordMember(f);
    CanonSpellingsFacts(f.name);
    CanonMemberText(m, Stringify(f.name));
    StringifiedWellFormed(f.name);
    AsciiText([COLON]);
    CanonicalTextWellFormed(f.value, 2, CANONICAL_BOUNDS);
    WellFormedConcat(Stringify(f.name), [COLON]);
    WellFormedConcat(Stringify(f.name) + [COLON], Render(m.value));
    StringifiedLength(f.name);
    ScalarLength(f.value);
    MinBytesConcat(Stringify(f.name) + [COLON], Render(m.value));
    MinBytesConcat(Stringify(f.name), [COLON]);
  }

  lemma {:induction false} FieldsText(fields: seq<Field>)
    requires fields != [] && ScalarFields(fields)
    ensures RecordMembers(fields) != []
    ensures var text := RenderMembers(RecordMembers(fields));
            WellFormed(text) && MinBytes(text) <= FieldsBound(fields)
  {
    var ms := RecordMembers(fields);
    var text := RenderKey(ms[0]) + Render(ms[0].value) + ms[0].after;
    FieldText(fields[0]);
    assert ms[1..] == RecordMembers(fields[1..]);
    hide WellFormed, Render, RenderKey;
    if |fields| > 1 {
      FieldsText(fields[1..]);
      AsciiText([COMMA]);
      WellFormedConcat(text, [COMMA]);
      WellFormedConcat(text + [COMMA], RenderMembers(ms[1..]));
      MinBytesConcat(text + [COMMA], RenderMembers(ms[1..]));
      MinBytesConcat(text, [COMMA]);
    } else {
      assert |ms| == 1;
    }
  }

  lemma RecordText(fields: seq<Field>)
    requires fields != [] && ScalarFields(fields)
    ensures var text := Render(RecordTree(fields));
            WellFormed(text) && ByteLength(text) <= FieldsBound(fields) + 2
  {
    FieldsText(fields);
    var inner := RenderMembers(RecordMembers(fields));
    WellFormedAround(OPEN_BRACE, inner, CLOSE_BRACE);
    MinBytesAround(OPEN_BRACE, inner, CLOSE_BRACE);
    ByteLengthVersusMinBytes(Render(RecordTree(fields)));
  }

  /** A record of scalars whose members are short enough has a canonical form. */
  lemma ShortRecordPrints(fields: seq<Field>)
    requires fields != [] && ScalarFields(fields) && DistinctNames(fields)
    requires |fields| <= CANONICAL_BOUNDS.maxObjectKeys
    requires FieldsBound(fields) + 2 <= CANONICAL_BOUNDS.maxDocumentBytes
    ensures Canonicalize(Record(fields), CANONICAL_BOUNDS).Ok?
  {
    RecordText(fields);
    StringifiedRecordParses(fields, CANONICAL_BOUNDS);
    CanonicalizeNormalizes(Render(RecordTree(fields)), Record(fields), CANONICAL_BOUNDS);
  }
}
