/** `parseStrict` as it runs: one cursor moved over the text by mutually recursive steps. */
module StrictParser {
  import opened Base
  import opened Text
  import opened Json
  import opened StrictJson

  /** A step that reports what its specification reports, and on success leaves the same text unread. */
  ghost predicate Agrees<T>(r: Result<T, JsonError>, text: JsString, i: nat, spec: ParseResult<T>) {
    match spec
    case Err(e) => r == Err(e)
    case Ok(p) => r == Ok(p.value) && i <= |text| && text[i..] == p.rest
  }

  /** What the number scanner decides, in the order it looks. */
  lemma NumberTurn(s: JsString, t: JsString)
    requires t == if StartsWith(s, MINUS) then s[1..] else s
    ensures var negative, n := StartsWith(s, MINUS), IntegerPart(t);
      && (n == 0 ==> ParseNumber(s) == Err(MalformedJson))
      && (n > 0 && (StartsFraction(t[n..]) || (negative && t[0] == ZERO)) ==> ParseNumber(s) == Err(NonCanonicalNumber))
      && (n > 0 && !StartsFraction(t[n..]) && !(negative && t[0] == ZERO) ==>
            var magnitude: int := NatValue(t[..n]);
            var value := if negative then -magnitude else magnitude;
            ParseNumber(s) == if IsSafeInteger(value) then Ok(Parsed(value, t[n..])) else Err(NonCanonicalNumber))
  {
    hide IntegerPart, NatValue, IsSafeInteger, StartsFraction;
  }

  lemma NoDigitRun(t: JsString)
    requires t == [] || (t[0] != ZERO && !IsDigit(t[0]))
    ensures IntegerPart(t) == 0
  {
  }

  class Cursor {
    const text: JsString
    const bounds: Bounds
    var i: nat

    constructor (text: JsString, bounds: Bounds)
      ensures this.text == text && this.bounds == bounds && i == 0
    {
      this.text := text;
      this.bounds := bounds;
      i := 0;
    }

    predicate At(u: Unit)
      reads this
    {
      i < |text| && text[i] == u
    }

    predicate AtDigit()
      reads this
    {
      i < |text| && IsDigit(text[i])
    }

    method SkipBlank()
      requires i <= |text|
      modifies this`i
      ensures old(i) <= i <= |text|
      ensures text[i..] == SkipWs(text[old(i)..])
    {
      while i < |text| && IsWs(text[i])
        invariant old(i) <= i <= |text|
        invariant SkipWs(text[i..]) == SkipWs(text[old(i)..])
      {
        i := i + 1;
      }
    }

    method Literal(word: JsString, value: Json) returns (r: Result<Json, JsonError>)
      requires i <= |text|
      modifies this`i
      ensures Agrees(r, text, i, ParseLiteral(text[old(i)..], word, value))
      ensures r.Ok? ==> old(i) <= i <= |text|
    {
      if word <= text[i..] {
        i := i + |word|;
        return Ok(value);
      }
      return Err(MalformedJson);
    }

    /** One unit of a string literal: an escape, or a raw unit that is no control character. */
    method StringUnit() returns (r: Result<Unit, JsonError>)
      requires i < |text|
      modifies this`i
      ensures Agrees(r, text, i, ParseUnit(text[old(i)..]))
      ensures r.Ok? ==> old(i) < i <= |text|
    {
      var c := text[i];
      if c == BACKSLASH {
        var e := if i + 1 < |text| then Some(text[i + 1]) else None;
        i := i + 2;
        if e == Some(LOWER_U) {
          if i + 4 <= |text| && IsHex(text[i]) && IsHex(text[i + 1]) && IsHex(text[i + 2]) && IsHex(text[i + 3]) {
            assert text[i..i + 4] == text[old(i)..][2..6];
            r := Ok(HexValue(text[i..i + 4]));
            i := i + 4;
          } else {
            return Err(MalformedJson);
          }
        } else if e.None? || Unescaped(e.value).None? {
          return Err(MalformedJson);
        } else {
          return Ok(Unescaped(e.value).value);
        }
      } else if c < 0x20 {
        return Err(MalformedJson);
      } else {
        i := i + 1;
        return Ok(c);
      }
    }

    method StringLiteral() returns (r: Result<JsString, JsonError>)
      requires i <= |text|
      modifies this`i
      ensures Agrees(r, text, i, ParseString(text[old(i)..], bounds))
      ensures r.Ok? ==> old(i) < i <= |text|
    {
      hide ParseUnit, WellFormed;
      if !At(QUOTE) { return Err(MalformedJson); }
      ghost var spec := ParseString(text[i..], bounds);
      i := i + 1;
      var out: JsString := [];
      while true
        invariant old(i) < i <= |text|
        invariant ParseStringBody(text[i..], out, bounds) == spec
        decreases |text| - i
      {
        if i >= |text| { return Err(MalformedJson); }
        if text[i] == QUOTE {
          i := i + 1;
          if !WellFormed(out) { return Err(MalformedJson); }
          return Ok(out);
        }
        var u := StringUnit();
        if u.Err? {
          r := Err(u.error);
          return;
        }
        out := out + [u.value];
        if |out| > bounds.maxStringChars { return Err(DocumentBoundsExceeded); }
      }
      assert false;
    }

    method Digits()
      requires i <= |text|
      modifies this`i
      ensures old(i) <= i <= |text| && i - old(i) == DigitRun(text[old(i)..])
    {
      while AtDigit()
        invariant old(i) <= i <= |text|
        invariant (i - old(i)) + DigitRun(text[i..]) == DigitRun(text[old(i)..])
        decreases |text| - i
      {
        i := i + 1;
      }
    }

    /** The digits of a numeral; none where it is malformed. */
    method IntegerDigits()
      requires i <= |text|
      modifies this`i
      ensures old(i) <= i <= |text| && i - old(i) == IntegerPart(text[old(i)..])
    {
      hide DigitRun;
      ghost var t := text[i..];
      if At(ZERO) {
        i := i + 1;
      } else if AtDigit() {
        Digits();
      } else {
        NoDigitRun(t);
      }
    }

    method Number() returns (r: Result<int, JsonError>)
      requires i <= |text|
      modifies this`i
      ensures Agrees(r, text, i, ParseNumber(text[old(i)..]))
      ensures r.Ok? ==> old(i) < i <= |text|
    {
      hide ParseNumber, NatValue, IntegerPart, IsSafeInteger;
      ghost var s := text[i..];
      var negative := At(MINUS);
      if negative { i := i + 1; }
      var first := i;
      ghost var t := text[first..];
      assert t == if StartsWith(s, MINUS) then s[1..] else s;
      NumberTurn(s, t);
      IntegerDigits();
      if i == first { return Err(MalformedJson); }
      assert t[..i - first] == text[first..i] && t[i - first..] == text[i..];
      assert At(DOT) || At(LOWER_E) || At(UPPER_E) <==> StartsFraction(text[i..]);
      if At(DOT) || At(LOWER_E) || At(UPPER_E) { return Err(NonCanonicalNumber); }
      if negative && text[first] == ZERO { return Err(NonCanonicalNumber); }
      var magnitude: int := NatValue(text[first..i]);
      var value := if negative then -magnitude else magnitude;
      if !IsSafeInteger(value) { return Err(NonCanonicalNumber); }
      return Ok(value);
    }

    method Value(depth: nat) returns (r: Result<Json, JsonError>)
      requires i <= |text|
      modifies this`i
      ensures Agrees(r, text, i, ParseValue(text[old(i)..], depth, bounds))
      ensures r.Ok? ==> old(i) < i <= |text|
      decreases |text| - i, 0
    {
      hide ParseItems, ParseMembers, ParseString, ParseNumber, ParseLiteral, SkipWs;
      if depth > bounds.maxDepth { return Err(DocumentBoundsExceeded); }
      SkipBlank();
      if i >= |text| { return Err(MalformedJson); }
      var c := text[i];
      if c == OPEN_BRACE {
        i := i + 1;
        SkipBlank();
        if At(CLOSE_BRACE) {
          i := i + 1;
          return Ok(Obj(map[]));
        }
        r := Members(depth);
      } else if c == OPEN_BRACKET {
        i := i + 1;
        SkipBlank();
        if At(CLOSE_BRACKET) {
          i := i + 1;
          return Ok(Arr([]));
        }
        r := Items(depth);
      } else if c == QUOTE {
        var s := StringLiteral();
        match s {
          case Ok(x) => return Ok(Str(x));
          case Err(e) => return Err(e);
        }
      } else if c == LOWER_T {
        r := Literal(TRUE_WORD, Bool(true));
      } else if c == LOWER_F {
        r := Literal(FALSE_WORD, Bool(false));
      } else if c == LOWER_N {
        r := Literal(NULL_WORD, Null);
      } else if c == MINUS || IsDigit(c) {
        var n := Number();
        match n {
          case Ok(x) => return Ok(Num(x));
          case Err(e) => return Err(e);
        }
      } else {
        return Err(MalformedJson);
      }
    }

    /** The loop over an array's items, entered after `[`. */
    method Items(depth: nat) returns (r: Result<Json, JsonError>)
      requires i <= |text|
      modifies this`i
      ensures Agrees(r, text, i, ParseItems(text[old(i)..], depth, [], bounds))
      ensures r.Ok? ==> old(i) < i <= |text|
      decreases |text| - i, 1
    {
      hide ParseItems, ParseValue, SkipWs;
      ghost var spec := ParseItems(text[i..], depth, [], bounds);
      var arr: seq<Json> := [];
      while true
        invariant old(i) <= i <= |text|
        invariant ParseItems(text[i..], depth, arr, bounds) == spec
        decreases |text| - i
      {
        ItemsTurn(text[i..], depth, arr, bounds);
        var v := Value(depth + 1);
        if v.Err? {
          r := v;
          return;
        }
        arr := arr + [v.value];
        if |arr| > bounds.maxArrayItems { return Err(DocumentBoundsExceeded); }
        SkipBlank();
        if At(COMMA) {
          i := i + 1;
        } else if At(CLOSE_BRACKET) {
          i := i + 1;
          return Ok(Arr(arr));
        } else {
          return Err(MalformedJson);
        }
      }
      assert false;
    }

    /** A member's key and colon; `seen` is the set of keys already read. */
    method Key(seen: set<JsString>, ghost obj: map<JsString, Json>) returns (r: Result<JsString, JsonError>)
      requires i <= |text| && seen == obj.Keys
      modifies this`i
      ensures Agrees(r, text, i, ParseKey(text[old(i)..], obj, bounds))
      ensures r.Ok? ==> old(i) < i <= |text|
    {
      hide ParseString, SkipWs;
      SkipBlank();
      r := StringLiteral();
      if r.Err? { return; }
      if r.value in seen { return Err(DuplicateJsonKey); }
      if |seen + {r.value}| > bounds.maxObjectKeys { return Err(DocumentBoundsExceeded); }
      SkipBlank();
      if !At(COLON) { return Err(MalformedJson); }
      i := i + 1;
    }

    /** The loop over an object's members, entered after `{`. */
    method Members(depth: nat) returns (r: Result<Json, JsonError>)
      requires i <= |text|
      modifies this`i
      ensures Agrees(r, text, i, ParseMembers(text[old(i)..], depth, map[], bounds))
      ensures r.Ok? ==> old(i) < i <= |text|
      decreases |text| - i, 1
    {
      hide ParseMembers, ParseValue, ParseKey, SkipWs;
      ghost var spec := ParseMembers(text[i..], depth, map[], bounds);
      var obj: map<JsString, Json> := map[];
      var seen: set<JsString> := {};
      while true
        invariant old(i) <= i <= |text|
        invariant seen == obj.Keys
        invariant ParseMembers(text[i..], depth, obj, bounds) == spec
        decreases |text| - i
      {
        MembersTurn(text[i..], depth, obj, bounds);
        var key := Key(seen, obj);
        if key.Err? {
          r := Err(key.error);
          return;
        }
        seen := seen + {key.value};
        var v := Value(depth + 1);
        if v.Err? {
          r := v;
          return;
        }
        obj := obj[key.value := v.value];
        SkipBlank();
        if At(COMMA) {
          i := i + 1;
        } else if At(CLOSE_BRACE) {
          i := i + 1;
          return Ok(Obj(obj));
        } else {
          return Err(MalformedJson);
        }
      }
      assert false;
    }
  }

  /** `parseStrict` of a string. */
  method ParseStrict(text: JsString, bounds: Bounds) returns (r: Result<Json, JsonError>)
    ensures r == ParseText(text, bounds)
  {
    if ByteLength(text) > bounds.maxDocumentBytes { return Err(DocumentBoundsExceeded); }
    var cursor := new Cursor(text, bounds);
    assert cursor.text[cursor.i..] == text;
    var v := cursor.Value(1);
    if v.Err? {
      r := v;
      return;
    }
    cursor.SkipBlank();
    if cursor.i != |text| { return Err(MalformedJson); }
    return Ok(v.value);
  }

  /** `parseStrict` of bytes, decoded fatally first. */
  method ParseStrictBytes(bytes: Bytes, bounds: Bounds) returns (r: Result<Json, JsonError>)
    ensures r == ParseBytes(bytes, bounds)
  {
    match Decode(bytes) {
      case None => return Err(MalformedJson);
      case Some(text) => r := ParseStrict(text, bounds);
    }
  }
}
