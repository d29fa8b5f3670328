/** The strict parser accepts exactly the texts of the grammar, and reads them as the grammar says. */
module Grammar {
  import opened Base
  import opened Text
  import opened Json
  import opened StrictJson

  // ---------- concatenation ----------

  lemma Assoc3<T>(a: seq<T>, b: seq<T>, c: seq<T>)
    ensures a + b + c == a + (b + c)
  {
  }

  lemma Assoc4(a: JsString, b: JsString, c: JsString, d: JsString)
    ensures a + b + c + d == a + (b + (c + d))
  {
    Assoc3(a, b, c);
    Assoc3(a, b + c, d);
    Assoc3(b, c, d);
  }

  lemma Assoc5(a: JsString, b: JsString, c: JsString, d: JsString, e: JsString)
    ensures a + b + c + d + e == a + (b + (c + (d + e)))
  {
    Assoc4(a, b, c, d);
    Assoc3(a, b + (c + d), e);
    Assoc4(b, c, d, e);
    assert b + (c + d) == b + c + d;
  }

  lemma Cons(u: Unit, s: JsString)
    ensures [u] + s != [] && ([u] + s)[0] == u && ([u] + s)[1..] == s
  {
  }

  // ---------- whitespace ----------

  lemma {:induction false} SkipGap(gap: JsString, s: JsString)
    requires IsGap(gap)
    ensures SkipWs(gap + s) == SkipWs(s)
  {
    if gap == [] {
      assert gap + s == s;
    } else {
      assert (gap + s)[1..] == gap[1..] + s;
      SkipGap(gap[1..], s);
    }
  }

  lemma {:induction false} SkippedGap(s: JsString) returns (gap: JsString)
    ensures IsGap(gap) && s == gap + SkipWs(s)
    ensures SkipWs(SkipWs(s)) == SkipWs(s)
  {
    if s != [] && IsWs(s[0]) {
      var g := SkippedGap(s[1..]);
      gap := [s[0]] + g;
      assert s == [s[0]] + s[1..];
    } else {
      gap := [];
    }
  }

  lemma SkipTwice(s: JsString)
    ensures SkipWs(SkipWs(s)) == SkipWs(s)
  {
    var _ := SkippedGap(s);
  }

  // ---------- strings ----------

  lemma UnitComplete(sp: Spelling, rest: JsString)
    requires SpellingOk(sp)
    ensures ParseUnit(RenderSpelling(sp) + rest) == Ok(Parsed(SpelledUnit(sp), rest))
    ensures RenderSpelling(sp)[0] != QUOTE
  {
    var s := RenderSpelling(sp) + rest;
    match sp {
      case Raw(u) => assert s[1..] == rest;
      case Short(letter) => assert s[2..] == rest;
      case Hex(d) => assert s[2..6] == d && s[6..] == rest;
    }
  }

  /** One turn of the string loop. */
  lemma StringBodyTurn(sp: Spelling, more: JsString, out: JsString, b: Bounds)
    requires SpellingOk(sp) && |out| + 1 <= b.maxStringChars
    ensures ParseStringBody(RenderSpelling(sp) + more, out, b) == ParseStringBody(more, out + [SpelledUnit(sp)], b)
  {
    UnitComplete(sp, more);
    hide ParseUnit, RenderSpelling, SpelledUnit, WellFormed, SpellingOk;
    var s := RenderSpelling(sp) + more;
    UnitIsNotEmpty(sp);
    assert s[0] == RenderSpelling(sp)[0];
  }

  lemma UnitIsNotEmpty(sp: Spelling)
    requires SpellingOk(sp)
    ensures RenderSpelling(sp) != []
  {
  }

  lemma {:induction false} StringBodyComplete(sps: seq<Spelling>, out: JsString, rest: JsString, b: Bounds)
    requires SpellingsOk(sps) && |out| + |sps| <= b.maxStringChars
    requires WellFormed(out + Spelled(sps))
    ensures ParseStringBody(RenderSpellings(sps) + ([QUOTE] + rest), out, b) == Ok(Parsed(out + Spelled(sps), rest))
  {
    hide WellFormed, SpelledUnit, RenderSpelling, SpellingOk;
    var tail := [QUOTE] + rest;
    if sps == [] {
      assert RenderSpellings(sps) + tail == tail && out + Spelled(sps) == out;
      assert tail[1..] == rest;
    } else {
      hide ParseStringBody;
      var more := RenderSpellings(sps[1..]) + tail;
      StringBodyTurn(sps[0], more, out, b);
      Assoc3(RenderSpelling(sps[0]), RenderSpellings(sps[1..]), tail);
      var out' := out + [SpelledUnit(sps[0])];
      Assoc3(out, [SpelledUnit(sps[0])], Spelled(sps[1..]));
      StringBodyComplete(sps[1..], out', rest, b);
    }
  }

  lemma StringComplete(sps: seq<Spelling>, rest: JsString, b: Bounds)
    requires StringOk(sps, b)
    ensures ParseString(RenderString(sps) + rest, b) == Ok(Parsed(Spelled(sps), rest))
  {
    hide WellFormed;
    assert [] + Spelled(sps) == Spelled(sps);
    StringBodyComplete(sps, [], rest, b);
    Assoc4([QUOTE], RenderSpellings(sps), [QUOTE], rest);
    Cons(QUOTE, RenderSpellings(sps) + ([QUOTE] + rest));
  }

  lemma UnitSound(s: JsString) returns (sp: Spelling)
    requires s != [] && s[0] != QUOTE && ParseUnit(s).Ok?
    ensures SpellingOk(sp) && SpelledUnit(sp) == ParseUnit(s).value.value
    ensures s == RenderSpelling(sp) + ParseUnit(s).value.rest
  {
    if s[0] == BACKSLASH {
      if s[1] == LOWER_U {
        sp := Hex(s[2..6]);
        assert s == [BACKSLASH, LOWER_U] + s[2..6] + s[6..];
      } else {
        sp := Short(s[1]);
        assert s == [BACKSLASH, s[1]] + s[2..];
      }
    } else {
      sp := Raw(s[0]);
      assert s == [s[0]] + s[1..];
    }
  }

  lemma PrependSpelling(sp: Spelling, more: seq<Spelling>, out: JsString, tail: JsString)
    ensures RenderSpellings([sp] + more) + tail == RenderSpelling(sp) + (RenderSpellings(more) + tail)
    ensures out + Spelled([sp] + more) == out + [SpelledUnit(sp)] + Spelled(more)
  {
    assert ([sp] + more)[1..] == more;
    Assoc3(RenderSpelling(sp), RenderSpellings(more), tail);
    Assoc3(out, [SpelledUnit(sp)], Spelled(more));
  }

  lemma {:induction false} StringBodySound(s: JsString, out: JsString, b: Bounds)
    returns (sps: seq<Spelling>, p: Parsed<JsString>)
    requires ParseStringBody(s, out, b).Ok? && |out| <= b.maxStringChars
    ensures ParseStringBody(s, out, b) == Ok(p)
    ensures SpellingsOk(sps) && |out| + |sps| <= b.maxStringChars
    ensures p.value == out + Spelled(sps) && WellFormed(p.value)
    ensures s == RenderSpellings(sps) + ([QUOTE] + p.rest)
    decreases |s|
  {
    if s[0] == QUOTE {
      sps, p := [], Parsed(out, s[1..]);
      assert s == [QUOTE] + s[1..];
    } else {
      var u := ParseUnit(s).value;
      var sp := UnitSound(s);
      var more, q := StringBodySound(u.rest, out + [u.value], b);
      sps, p := [sp] + more, q;
      PrependSpelling(sp, more, out, [QUOTE] + p.rest);
    }
  }

  lemma StringSound(s: JsString, b: Bounds) returns (sps: seq<Spelling>, p: Parsed<JsString>)
    requires ParseString(s, b).Ok?
    ensures ParseString(s, b) == Ok(p)
    ensures StringOk(sps, b) && Spelled(sps) == p.value
    ensures s == RenderString(sps) + p.rest
  {
    hide WellFormed;
    sps, p := StringBodySound(s[1..], [], b);
    assert [] + Spelled(sps) == Spelled(sps);
    Assoc4([QUOTE], RenderSpellings(sps), [QUOTE], p.rest);
    assert s == [s[0]] + s[1..];
  }

  lemma {:induction false} SpelledLength(sps: seq<Spelling>)
    ensures |Spelled(sps)| == |sps|
  {
    if sps != [] { SpelledLength(sps[1..]); }
  }

  // ---------- numbers ----------

  predicate AllDigits(s: JsString) {
    forall i :: 0 <= i < |s| ==> IsDigit(s[i])
  }

  lemma {:induction false} NatDigitsShape(n: nat)
    ensures AllDigits(NatDigits(n)) && NatDigits(n) != []
    ensures NatDigits(n)[0] == ZERO <==> n == 0
    ensures n == 0 ==> NatDigits(n) == [ZERO]
    ensures NatValue(NatDigits(n)) == n
  {
    if n >= 10 {
      NatDigitsShape(n / 10);
      var ds := NatDigits(n);
      assert ds[..|ds| - 1] == NatDigits(n / 10);
    } else {
      assert [ZERO + n][..0] == [];
    }
  }

  /** A digit run that does not start with a redundant zero is the numeral of its value. */
  lemma {:induction false} NumeralIsUnique(ds: JsString)
    requires AllDigits(ds) && ds != [] && (ds[0] == ZERO ==> |ds| == 1)
    ensures NatDigits(NatValue(ds)) == ds
    ensures NatValue(ds) == 0 <==> ds == [ZERO]
  {
    var last := |ds| - 1;
    var front := ds[..last];
    assert ds == front + [ds[last]];
    if front == [] {
      assert NatValue(front) == 0;
    } else {
      NumeralIsUnique(front);
      assert NatValue(ds) / 10 == NatValue(front) && NatValue(ds) % 10 == ds[last] - ZERO;
    }
  }

  /** What may follow a value: the end, or a unit that does not continue a numeral. */
  predicate Stops(rest: JsString) {
    rest == [] || !(IsDigit(rest[0]) || rest[0] == DOT || rest[0] == LOWER_E || rest[0] == UPPER_E)
  }

  lemma {:induction false} DigitRunStops(ds: JsString, rest: JsString)
    requires AllDigits(ds) && Stops(rest)
    ensures DigitRun(ds + rest) == |ds|
  {
    if ds == [] {
      assert ds + rest == rest;
    } else {
      assert (ds + rest)[1..] == ds[1..] + rest;
      DigitRunStops(ds[1..], rest);
    }
  }

  lemma MagnitudeComplete(m: nat, rest: JsString)
    requires Stops(rest)
    ensures var t := NatDigits(m) + rest;
            var n := IntegerPart(t);
            0 < n && t[..n] == NatDigits(m) && t[n..] == rest && (t[0] == ZERO <==> m == 0) && IsDigit(t[0])
  {
    NatDigitsShape(m);
    var ds := NatDigits(m);
    var t := ds + rest;
    DigitRunStops(ds, rest);
    assert t[0] == ds[0];
    assert t[..|ds|] == ds && t[|ds|..] == rest;
  }

  lemma NumberComplete(n: int, rest: JsString)
    requires IsSafeInteger(n) && Stops(rest)
    ensures ParseNumber(Decimal(n) + rest) == Ok(Parsed(n, rest))
    ensures Decimal(n) != [] && (IsDigit(Decimal(n)[0]) || Decimal(n)[0] == MINUS)
  {
    var m: nat := if n < 0 then -n else n;
    var digits := NatDigits(m);
    NatDigitsShape(m);
    MagnitudeComplete(m, rest);
    hide NatDigits, NatValue, IntegerPart;
    if n < 0 {
      Assoc3([MINUS], digits, rest);
      Cons(MINUS, digits + rest);
    }
  }

  lemma NumberSound(s: JsString) returns (p: Parsed<int>)
    requires ParseNumber(s).Ok?
    ensures ParseNumber(s) == Ok(p)
    ensures IsSafeInteger(p.value) && s == Decimal(p.value) + p.rest
  {
    hide NatDigits, NatValue, IntegerPart, StartsFraction, IsSafeInteger;
    var negative := StartsWith(s, MINUS);
    var t := if negative then s[1..] else s;
    var n := IntegerPart(t);
    var ds := t[..n];
    p := ParseNumber(s).value;
    assert t == ds + p.rest;
    IntegerPartIsNumeral(t);
    NumeralIsUnique(ds);
    hide ParseNumber;
    if negative {
      assert s == [MINUS] + t;
      Assoc3([MINUS], ds, p.rest);
    }
  }

  lemma IntegerPartIsNumeral(t: JsString)
    requires IntegerPart(t) > 0
    ensures var ds := t[..IntegerPart(t)];
            ds != [] && AllDigits(ds) && ds[0] == t[0] && (ds[0] == ZERO ==> |ds| == 1)
  {
  }

  // ---------- completeness ----------

  /** What `ParseBare` may be handed: the first unit of a rendered value is never whitespace or a closer. */
  predicate StartsValue(s: JsString) {
    s != [] && !IsWs(s[0]) && s[0] != CLOSE_BRACKET && s[0] != CLOSE_BRACE && s[0] != COMMA
  }

  lemma RenderStarts(t: Tree, depth: nat, b: Bounds)
    requires Valid(t, depth, b)
    ensures StartsValue(Render(t))
  {
    if t.TNum? { NumberComplete(t.n, []); }
  }

  lemma LiteralComplete(word: JsString, rest: JsString, v: Json)
    ensures ParseLiteral(word + rest, word, v) == Ok(Parsed(v, rest))
  {
    assert (word + rest)[|word|..] == rest;
  }

  lemma ScalarComplete(t: Tree, rest: JsString, depth: nat, b: Bounds)
    requires Valid(t, depth, b) && !t.TArr? && !t.TObj? && Stops(rest)
    ensures ParseBare(Render(t) + rest, depth, b) == Ok(Parsed(Meaning(t), rest))
  {
    match t {
      case TNull => LiteralComplete(NULL_WORD, rest, Null);
      case TBool(v) => LiteralComplete(if v then TRUE_WORD else FALSE_WORD, rest, Bool(v));
      case TNum(n) => NumberComplete(n, rest);
      case TStr(sps) => StringComplete(sps, rest, b);
    }
  }

  lemma {:induction false} ValueComplete(before: JsString, t: Tree, rest: JsString, depth: nat, b: Bounds)
    requires IsGap(before) && Valid(t, depth, b) && Stops(rest)
    ensures ParseValue(before + Render(t) + rest, depth, b) == Ok(Parsed(Meaning(t), rest))
    decreases t, 1
  {
    var bare := Render(t) + rest;
    assert before + Render(t) + rest == before + bare;
    SkipGap(before, bare);
    RenderStarts(t, depth, b);
    assert SkipWs(bare) == bare;
    match t {
      case TArr(gap, items) => ArrayComplete(gap, items, rest, depth, b);
      case TObj(gap, members) => ObjectComplete(gap, members, rest, depth, b);
      case _ => ScalarComplete(t, rest, depth, b);
    }
  }

  lemma {:induction false} ArrayComplete(gap: JsString, items: seq<Item>, rest: JsString, depth: nat, b: Bounds)
    requires Valid(TArr(gap, items), depth, b)
    ensures ParseBare(Render(TArr(gap, items)) + rest, depth, b) == Ok(Parsed(Meaning(TArr(gap, items)), rest))
    decreases items, 3
  {
    hide ParseItems, RenderItems;
    var close := [CLOSE_BRACKET] + rest;
    var body := if items == [] then gap else RenderItems(items);
    var s := Render(TArr(gap, items)) + rest;
    Assoc4([OPEN_BRACKET], body, [CLOSE_BRACKET], rest);
    assert s[1..] == body + close;
    if items == [] {
      SkipGap(gap, close);
      assert SkipWs(close) == close && close[1..] == rest;
    } else {
      ItemsComplete(items, [], rest, depth, b);
      ItemsStart(items, rest, depth + 1, b);
      SkipBeforeItems(body + close, depth, [], b);
      assert [] + ItemMeanings(items) == ItemMeanings(items);
    }
  }

  function AfterItem(items: seq<Item>, rest: JsString): JsString
    requires items != []
  {
    if |items| == 1 then [CLOSE_BRACKET] + rest
    else [COMMA] + (RenderItems(items[1..]) + ([CLOSE_BRACKET] + rest))
  }

  lemma ItemsUnfold(items: seq<Item>, rest: JsString)
    requires items != []
    ensures RenderItems(items) + ([CLOSE_BRACKET] + rest)
            == items[0].before + Render(items[0].value) + (items[0].after + AfterItem(items, rest))
  {
    var close := [CLOSE_BRACKET] + rest;
    var head := items[0].before + Render(items[0].value);
    if |items| == 1 {
      Assoc3(head, items[0].after, close);
    } else {
      Assoc5(head, items[0].after, [COMMA], RenderItems(items[1..]), close);
    }
  }

  lemma ItemsStart(items: seq<Item>, rest: JsString, depth: nat, b: Bounds)
    requires items != [] && ValidItems(items, depth, b)
    ensures StartsValue(SkipWs(RenderItems(items) + ([CLOSE_BRACKET] + rest)))
  {
    var first := items[0];
    var more := first.after + AfterItem(items, rest);
    ItemsUnfold(items, rest);
    Assoc3(first.before, Render(first.value), more);
    SkipGap(first.before, Render(first.value) + more);
    RenderStarts(first.value, depth, b);
  }

  lemma SkipBeforeItems(s: JsString, depth: nat, items: seq<Json>, b: Bounds)
    ensures ParseItems(SkipWs(s), depth, items, b) == ParseItems(s, depth, items, b)
  {
    SkipTwice(s);
    assert ParseValue(SkipWs(s), depth + 1, b) == ParseValue(s, depth + 1, b);
  }

  lemma SkipThrough(gap: JsString, u: Unit, rest: JsString)
    requires IsGap(gap) && !IsWs(u)
    ensures SkipWs(gap + ([u] + rest)) == [u] + rest
    ensures u == COMMA || u == CLOSE_BRACKET || u == CLOSE_BRACE ==> Stops(gap + ([u] + rest))
  {
    SkipGap(gap, [u] + rest);
  }

  lemma ItemsStep(s: JsString, depth: nat, done: seq<Json>, b: Bounds, v: Json, rest: JsString)
    requires ParseValue(s, depth + 1, b) == Ok(Parsed(v, rest)) && |done| + 1 <= b.maxArrayItems
    ensures var next := SkipWs(rest);
            && (StartsWith(next, COMMA) ==> ParseItems(s, depth, done, b) == ParseItems(next[1..], depth, done + [v], b))
            && (StartsWith(next, CLOSE_BRACKET) ==> ParseItems(s, depth, done, b) == Ok(Parsed(Arr(done + [v]), next[1..])))
  {
  }

  lemma {:induction false} ItemsComplete(items: seq<Item>, done: seq<Json>, rest: JsString, depth: nat, b: Bounds)
    requires items != [] && ValidItems(items, depth + 1, b) && |done| + |items| <= b.maxArrayItems
    ensures ParseItems(RenderItems(items) + ([CLOSE_BRACKET] + rest), depth, done, b)
            == Ok(Parsed(Arr(done + ItemMeanings(items)), rest))
    decreases items, 2
  {
    var first := items[0];
    var v := Meaning(first.value);
    var after := AfterItem(items, rest);
    var s := RenderItems(items) + ([CLOSE_BRACKET] + rest);
    ItemsUnfold(items, rest);
    Cons(if |items| == 1 then CLOSE_BRACKET else COMMA,
         if |items| == 1 then rest else RenderItems(items[1..]) + ([CLOSE_BRACKET] + rest));
    SkipThrough(first.after, after[0], after[1..]);
    assert after == [after[0]] + after[1..];
    ValueComplete(first.before, first.value, first.after + after, depth + 1, b);
    ItemsStep(s, depth, done, b, v, first.after + after);
    Assoc3(done, [v], ItemMeanings(items[1..]));
    if |items| > 1 {
      ItemsComplete(items[1..], done + [v], rest, depth, b);
    } else {
      assert done + [v] + ItemMeanings(items[1..]) == done + [v];
    }
  }

  /** Past its brace, an object is an empty gap and a brace, or members. */
  lemma ObjectTurn(body: JsString, rest: JsString, depth: nat, b: Bounds)
    ensures var s := [OPEN_BRACE] + body + [CLOSE_BRACE] + rest;
            var inner := SkipWs(body + ([CLOSE_BRACE] + rest));
            ParseBare(s, depth, b) ==
              if StartsWith(inner, CLOSE_BRACE) then Ok(Parsed(Obj(map[]), inner[1..]))
              else ParseMembers(inner, depth, map[], b)
  {
    hide ParseMembers, SkipWs, ParseItems, ParseString, ParseNumber;
    var s := [OPEN_BRACE] + body + [CLOSE_BRACE] + rest;
    Assoc4([OPEN_BRACE], body, [CLOSE_BRACE], rest);
    assert s[0] == OPEN_BRACE && s[1..] == body + ([CLOSE_BRACE] + rest);
  }

  lemma EmptyObjectComplete(gap: JsString, rest: JsString, depth: nat, b: Bounds)
    requires IsGap(gap)
    ensures ParseBare([OPEN_BRACE] + gap + [CLOSE_BRACE] + rest, depth, b) == Ok(Parsed(Obj(map[]), rest))
  {
    var close := [CLOSE_BRACE] + rest;
    ObjectTurn(gap, rest, depth, b);
    SkipGap(gap, close);
    assert SkipWs(close) == close && close[1..] == rest;
  }

  lemma {:induction false} ObjectComplete(gap: JsString, ms: seq<Member>, rest: JsString, depth: nat, b: Bounds)
    requires Valid(TObj(gap, ms), depth, b)
    ensures ParseBare(Render(TObj(gap, ms)) + rest, depth, b) == Ok(Parsed(Meaning(TObj(gap, ms)), rest))
    decreases ms, 3
  {
    hide ParseMembers, RenderMembers, WellFormed, ParseBare, SkipWs, DistinctKeys;
    if ms == [] {
      EmptyObjectComplete(gap, rest, depth, b);
    } else {
      var body := RenderMembers(ms);
      var inner := body + ([CLOSE_BRACE] + rest);
      ObjectTurn(body, rest, depth, b);
      MembersComplete(ms, map[], rest, depth, b);
      assert ValidKey(ms[0], b);
      MembersStart(ms, rest, b);
      SkipBeforeMembers(inner, depth, map[], b);
      assert map[] + MemberMeanings(ms) == MemberMeanings(ms);
    }
  }

  function AfterMember(ms: seq<Member>, rest: JsString): JsString
    requires ms != []
  {
    if |ms| == 1 then [CLOSE_BRACE] + rest
    else [COMMA] + (RenderMembers(ms[1..]) + ([CLOSE_BRACE] + rest))
  }

  lemma MembersUnfold(ms: seq<Member>, rest: JsString)
    requires ms != []
    ensures RenderMembers(ms) + ([CLOSE_BRACE] + rest)
            == RenderKey(ms[0]) + (Render(ms[0].value) + (ms[0].after + AfterMember(ms, rest)))
  {
    var close := [CLOSE_BRACE] + rest;
    var key, v, after := RenderKey(ms[0]), Render(ms[0].value), ms[0].after;
    if |ms| == 1 {
      Assoc4(key, v, after, close);
    } else {
      Assoc5(key + v, after, [COMMA], RenderMembers(ms[1..]), close);
      Assoc3(key, v, after + AfterMember(ms, rest));
    }
  }

  lemma KeyUnfold(m: Member, rest: JsString)
    ensures RenderKey(m) + rest
            == m.before + (RenderString(m.key) + (m.beforeColon + ([COLON] + (m.afterColon + rest))))
  {
    Assoc5(m.before + RenderString(m.key), m.beforeColon, [COLON], m.afterColon, rest);
    Assoc3(m.before, RenderString(m.key), m.beforeColon + ([COLON] + (m.afterColon + rest)));
  }

  lemma MembersStart(ms: seq<Member>, rest: JsString, b: Bounds)
    requires ms != [] && ValidKey(ms[0], b)
    ensures StartsValue(SkipWs(RenderMembers(ms) + ([CLOSE_BRACE] + rest)))
  {
    var m := ms[0];
    var tail := Render(m.value) + (m.after + AfterMember(ms, rest));
    var quoted := RenderString(m.key) + (m.beforeColon + ([COLON] + (m.afterColon + tail)));
    MembersUnfold(ms, rest);
    KeyUnfold(m, tail);
    SkipGap(m.before, quoted);
    assert quoted[0] == QUOTE;
  }

  lemma SkipBeforeMembers(s: JsString, depth: nat, obj: map<JsString, Json>, b: Bounds)
    ensures ParseMembers(SkipWs(s), depth, obj, b) == ParseMembers(s, depth, obj, b)
  {
    SkipTwice(s);
    assert ParseKey(SkipWs(s), obj, b) == ParseKey(s, obj, b);
  }

  lemma KeyComplete(m: Member, rest: JsString, obj: map<JsString, Json>, b: Bounds)
    requires ValidKey(m, b) && Spelled(m.key) !in obj && |obj| + 1 <= b.maxObjectKeys
    ensures ParseKey(RenderKey(m) + rest, obj, b) == Ok(Parsed(Spelled(m.key), m.afterColon + rest))
  {
    var colon := [COLON] + (m.afterColon + rest);
    var quoted := RenderString(m.key) + (m.beforeColon + colon);
    KeyUnfold(m, rest);
    SkipGap(m.before, quoted);
    assert quoted[0] == QUOTE;
    StringComplete(m.key, m.beforeColon + colon, b);
    SkipThrough(m.beforeColon, COLON, m.afterColon + rest);
    assert colon[1..] == m.afterColon + rest;
  }

  lemma MembersStep(
      s: JsString, depth: nat, done: map<JsString, Json>, b: Bounds, key: Parsed<JsString>, v: Json, rest: JsString)
    requires ParseKey(s, done, b) == Ok(key) && ParseValue(key.rest, depth + 1, b) == Ok(Parsed(v, rest))
    ensures var next := SkipWs(rest);
            var done' := done[key.value := v];
            && (StartsWith(next, COMMA) ==> ParseMembers(s, depth, done, b) == ParseMembers(next[1..], depth, done', b))
            && (StartsWith(next, CLOSE_BRACE) ==> ParseMembers(s, depth, done, b) == Ok(Parsed(Obj(done'), next[1..])))
  {
  }

  lemma {:induction false} MembersComplete(
      ms: seq<Member>, done: map<JsString, Json>, rest: JsString, depth: nat, b: Bounds)
    requires ms != [] && ValidMembers(ms, depth + 1, b) && |done| + |ms| <= b.maxObjectKeys
    requires DistinctKeys(ms) && forall i :: 0 <= i < |ms| ==> Spelled(ms[i].key) !in done
    ensures ParseMembers(RenderMembers(ms) + ([CLOSE_BRACE] + rest), depth, done, b)
            == Ok(Parsed(Obj(done + MemberMeanings(ms)), rest))
    decreases ms, 2
  {
    hide ParseMembers, ParseKey, ParseValue, Render, RenderMembers, RenderKey, RenderString, SkipWs, WellFormed;
    var m := ms[0];
    var key, v := Spelled(m.key), Meaning(m.value);
    var after := AfterMember(ms, rest);
    var s := RenderMembers(ms) + ([CLOSE_BRACE] + rest);
    MembersUnfold(ms, rest);
    KeyComplete(m, Render(m.value) + (m.after + after), done, b);
    Assoc3(m.afterColon, Render(m.value), m.after + after);
    Cons(if |ms| == 1 then CLOSE_BRACE else COMMA,
         if |ms| == 1 then rest else RenderMembers(ms[1..]) + ([CLOSE_BRACE] + rest));
    SkipThrough(m.after, after[0], after[1..]);
    assert after == [after[0]] + after[1..];
    ValueComplete(m.afterColon, m.value, m.after + after, depth + 1, b);
    MembersStep(s, depth, done, b, Parsed(key, m.afterColon + (Render(m.value) + (m.after + after))), v, m.after + after);
    MembersDone(ms, done);
    if |ms| > 1 {
      MembersComplete(ms[1..], done[key := v], rest, depth, b);
    }
  }

  lemma {:induction false} MeaningKeys(ms: seq<Member>)
    ensures forall k :: k in MemberMeanings(ms) <==> exists i :: 0 <= i < |ms| && Spelled(ms[i].key) == k
  {
    if ms != [] {
      MeaningKeys(ms[1..]);
      forall k ensures k in MemberMeanings(ms) <==> exists i :: 0 <= i < |ms| && Spelled(ms[i].key) == k {
        if k in MemberMeanings(ms[1..]) {
          var i :| 0 <= i < |ms| - 1 && Spelled(ms[1..][i].key) == k;
          assert Spelled(ms[i + 1].key) == k;
        }
        if i :| 0 < i < |ms| && Spelled(ms[i].key) == k {
          assert Spelled(ms[1..][i - 1].key) == k;
        }
      }
    }
  }

  lemma MapPrepend<K, V>(done: map<K, V>, k: K, v: V, more: map<K, V>)
    requires k !in done && k !in more
    ensures done + (map[k := v] + more) == done[k := v] + more
    ensures |done[k := v]| == |done| + 1
  {
  }

  lemma FirstKeyMoves(ms: seq<Member>, done: map<JsString, Json>)
    requires ms != [] && DistinctKeys(ms) && forall i :: 0 <= i < |ms| ==> Spelled(ms[i].key) !in done
    ensures DistinctKeys(ms[1..]) && Spelled(ms[0].key) !in done
    ensures forall i :: 0 <= i < |ms[1..]| ==>
              Spelled(ms[1..][i].key) !in done && Spelled(ms[1..][i].key) != Spelled(ms[0].key)
  {
    hide Spelled;
  }

  /** Moving the first member from those to come to those done keeps their union and the keys distinct. */
  lemma MembersDone(ms: seq<Member>, done: map<JsString, Json>)
    requires ms != [] && DistinctKeys(ms) && forall i :: 0 <= i < |ms| ==> Spelled(ms[i].key) !in done
    ensures var done' := done[Spelled(ms[0].key) := Meaning(ms[0].value)];
            && DistinctKeys(ms[1..])
            && |done'| == |done| + 1
            && (forall i :: 0 <= i < |ms[1..]| ==> Spelled(ms[1..][i].key) !in done')
            && done + MemberMeanings(ms) == done' + MemberMeanings(ms[1..])
            && (|ms| == 1 ==> done + MemberMeanings(ms) == done')
  {
    var key, v, more := Spelled(ms[0].key), Meaning(ms[0].value), MemberMeanings(ms[1..]);
    FirstKeyMoves(ms, done);
    hide DistinctKeys, Meaning, Spelled;
    assert MemberMeanings(ms) == map[key := v] + more;
    assert key !in more by { MeaningKeys(ms[1..]); }
    MapPrepend(done, key, v, more);
    if |ms| == 1 {
      assert more == map[];
      assert done[key := v] + more == done[key := v];
    }
  }
}
