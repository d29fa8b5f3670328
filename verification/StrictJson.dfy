/**
 What the strict parser computes, as functions of the text still unread. `StrictParser` runs the same steps with a
 cursor; `Grammar` and `GrammarSound` relate both to the grammar of syntax trees.
 */
module StrictJson {
  import opened Base
  import opened Text
  import opened Json

  /** A parsed value and the text after it. */
  datatype Parsed<+T> = Parsed(value: T, rest: JsString)

  type ParseResult<+T> = Result<Parsed<T>, JsonError>

  function SkipWs(s: JsString): JsString {
    if s != [] && IsWs(s[0]) then SkipWs(s[1..]) else s
  }

  predicate StartsWith(s: JsString, u: Unit) {
    s != [] && s[0] == u
  }

  function ParseLiteral(s: JsString, word: JsString, v: Json): ParseResult<Json> {
    if word <= s then Ok(Parsed(v, s[|word|..])) else Err(MalformedJson)
  }

  // ---------- strings ----------

  /** One unit of a string literal, spelled raw or as an escape. */
  function ParseUnit(s: JsString): (r: ParseResult<Unit>)
    requires s != []
    ensures r.Ok? ==> |r.value.rest| < |s|
  {
    if s[0] == BACKSLASH then
      if |s| < 2 then Err(MalformedJson)
      else if s[1] == LOWER_U then
        if |s| >= 6 && IsHex(s[2]) && IsHex(s[3]) && IsHex(s[4]) && IsHex(s[5]) then
          Ok(Parsed(HexValue(s[2..6]), s[6..]))
        else Err(MalformedJson)
      else
        match Unescaped(s[1])
        case None => Err(MalformedJson)
        case Some(u) => Ok(Parsed(u, s[2..]))
    else if s[0] < 0x20 then Err(MalformedJson)
    else Ok(Parsed(s[0], s[1..]))
  }

  /** The rest of a string literal after the opening quote and the units in `out`. */
  function ParseStringBody(s: JsString, out: JsString, b: Bounds): (r: ParseResult<JsString>)
    ensures r.Ok? ==> |r.value.rest| < |s|
    decreases |s|
  {
    if s == [] then Err(MalformedJson)
    else if s[0] == QUOTE then
      if WellFormed(out) then Ok(Parsed(out, s[1..])) else Err(MalformedJson)
    else
      match ParseUnit(s)
      case Err(e) => Err(e)
      case Ok(p) =>
        if |out| + 1 > b.maxStringChars then Err(DocumentBoundsExceeded)
        else ParseStringBody(p.rest, out + [p.value], b)
  }

  function ParseString(s: JsString, b: Bounds): (r: ParseResult<JsString>)
    ensures r.Ok? ==> |r.value.rest| < |s|
  {
    if StartsWith(s, QUOTE) then ParseStringBody(s[1..], [], b) else Err(MalformedJson)
  }

  // ---------- numbers ----------

  function DigitRun(s: JsString): (n: nat)
    ensures n <= |s| && forall i :: 0 <= i < n ==> IsDigit(s[i])
    ensures n < |s| ==> !IsDigit(s[n])
  {
    if s != [] && IsDigit(s[0]) then 1 + DigitRun(s[1..]) else 0
  }

  function NatValue(digits: JsString): nat
    requires forall i :: 0 <= i < |digits| ==> IsDigit(digits[i])
  {
    if digits == [] then 0
    else
      var last := |digits| - 1;
      NatValue(digits[..last]) * 10 + HexDigit(digits[last])
  }

  predicate StartsFraction(s: JsString) {
    StartsWith(s, DOT) || StartsWith(s, LOWER_E) || StartsWith(s, UPPER_E)
  }

  /** The digits of a numeral after its sign: a lone zero, or a run that does not start with zero. */
  function IntegerPart(s: JsString): (n: nat)
    ensures n <= |s| && forall i :: 0 <= i < n ==> IsDigit(s[i])
  {
    if StartsWith(s, ZERO) then 1 else DigitRun(s)
  }

  function ParseNumber(s: JsString): (r: ParseResult<int>)
    ensures r.Ok? ==> |r.value.rest| < |s|
  {
    var negative := StartsWith(s, MINUS);
    var t := if negative then s[1..] else s;
    var n := IntegerPart(t);
    if n == 0 then Err(MalformedJson)
    else if StartsFraction(t[n..]) then Err(NonCanonicalNumber)
    else if negative && t[0] == ZERO then Err(NonCanonicalNumber)
    else
      var magnitude: int := NatValue(t[..n]);
      var value := if negative then -magnitude else magnitude;
      if IsSafeInteger(value) then Ok(Parsed(value, t[n..])) else Err(NonCanonicalNumber)
  }

  // ---------- values ----------

  function Lift<T>(r: ParseResult<T>, f: T -> Json): ParseResult<Json> {
    match r
    case Err(e) => Err(e)
    case Ok(p) => Ok(Parsed(f(p.value), p.rest))
  }

  function ParseValue(s: JsString, depth: nat, b: Bounds): (r: ParseResult<Json>)
    ensures r.Ok? ==> |r.value.rest| < |s|
    decreases |s|, 1
  {
    SkipWsShortens(s);
    if depth > b.maxDepth then Err(DocumentBoundsExceeded)
    else ParseBare(SkipWs(s), depth, b)
  }

  /** A value that starts at the first unit of `s`. */
  function ParseBare(s: JsString, depth: nat, b: Bounds): (r: ParseResult<Json>)
    ensures r.Ok? ==> |r.value.rest| < |s|
    decreases |s|, 0
  {
    if s == [] then Err(MalformedJson)
    else
      SkipWsShortens(s[1..]);
      var inner := SkipWs(s[1..]);
      if s[0] == OPEN_BRACE then
        if StartsWith(inner, CLOSE_BRACE) then Ok(Parsed(Obj(map[]), inner[1..]))
        else ParseMembers(inner, depth, map[], b)
      else if s[0] == OPEN_BRACKET then
        if StartsWith(inner, CLOSE_BRACKET) then Ok(Parsed(Arr([]), inner[1..]))
        else ParseItems(inner, depth, [], b)
      else if s[0] == QUOTE then Lift(ParseString(s, b), (x: JsString) => Str(x))
      else if s[0] == LOWER_T then ParseLiteral(s, TRUE_WORD, Bool(true))
      else if s[0] == LOWER_F then ParseLiteral(s, FALSE_WORD, Bool(false))
      else if s[0] == LOWER_N then ParseLiteral(s, NULL_WORD, Null)
      else if s[0] == MINUS || IsDigit(s[0]) then Lift(ParseNumber(s), (n: int) => Num(n))
      else Err(MalformedJson)
  }

  /** The items of an array after those in `items`, and the closing bracket. */
  function ParseItems(s: JsString, depth: nat, items: seq<Json>, b: Bounds): (r: ParseResult<Json>)
    ensures r.Ok? ==> |r.value.rest| < |s|
    decreases |s|, 2
  {
    match ParseValue(s, depth + 1, b)
    case Err(e) => Err(e)
    case Ok(p) =>
      SkipWsShortens(p.rest);
      var next := SkipWs(p.rest);
      if |items| + 1 > b.maxArrayItems then Err(DocumentBoundsExceeded)
      else if StartsWith(next, COMMA) then ParseItems(next[1..], depth, items + [p.value], b)
      else if StartsWith(next, CLOSE_BRACKET) then Ok(Parsed(Arr(items + [p.value]), next[1..]))
      else Err(MalformedJson)
  }

  /** One turn of the item loop. */
  lemma ItemsTurn(s: JsString, depth: nat, items: seq<Json>, b: Bounds)
    ensures ParseItems(s, depth, items, b) ==
      match ParseValue(s, depth + 1, b)
      case Err(e) => Err(e)
      case Ok(p) =>
        var next := SkipWs(p.rest);
        if |items| + 1 > b.maxArrayItems then Err(DocumentBoundsExceeded)
        else if StartsWith(next, COMMA) then ParseItems(next[1..], depth, items + [p.value], b)
        else if StartsWith(next, CLOSE_BRACKET) then Ok(Parsed(Arr(items + [p.value]), next[1..]))
        else Err(MalformedJson)
  {
  }

  /** A member's key up to and including the colon. */
  function ParseKey(s: JsString, obj: map<JsString, Json>, b: Bounds): (r: ParseResult<JsString>)
    ensures r.Ok? ==> |r.value.rest| < |s|
  {
    SkipWsShortens(s);
    match ParseString(SkipWs(s), b)
    case Err(e) => Err(e)
    case Ok(p) =>
      SkipWsShortens(p.rest);
      var next := SkipWs(p.rest);
      if p.value in obj then Err(DuplicateJsonKey)
      else if |obj| + 1 > b.maxObjectKeys then Err(DocumentBoundsExceeded)
      else if StartsWith(next, COLON) then Ok(Parsed(p.value, next[1..]))
      else Err(MalformedJson)
  }

  /** The members of an object after those in `obj`, and the closing brace. */
  function ParseMembers(s: JsString, depth: nat, obj: map<JsString, Json>, b: Bounds): (r: ParseResult<Json>)
    ensures r.Ok? ==> |r.value.rest| < |s|
    decreases |s|, 2
  {
    match ParseKey(s, obj, b)
    case Err(e) => Err(e)
    case Ok(key) =>
      match ParseValue(key.rest, depth + 1, b)
      case Err(e) => Err(e)
      case Ok(p) =>
        SkipWsShortens(p.rest);
        var next := SkipWs(p.rest);
        var obj' := obj[key.value := p.value];
        if StartsWith(next, COMMA) then ParseMembers(next[1..], depth, obj', b)
        else if StartsWith(next, CLOSE_BRACE) then Ok(Parsed(Obj(obj'), next[1..]))
        else Err(MalformedJson)
  }

  /** One turn of the member loop. */
  lemma MembersTurn(s: JsString, depth: nat, obj: map<JsString, Json>, b: Bounds)
    ensures ParseMembers(s, depth, obj, b) ==
      match ParseKey(s, obj, b)
      case Err(e) => Err(e)
      case Ok(key) =>
        match ParseValue(key.rest, depth + 1, b)
        case Err(e) => Err(e)
        case Ok(p) =>
          var next := SkipWs(p.rest);
          var obj' := obj[key.value := p.value];
          if StartsWith(next, COMMA) then ParseMembers(next[1..], depth, obj', b)
          else if StartsWith(next, CLOSE_BRACE) then Ok(Parsed(Obj(obj'), next[1..]))
          else Err(MalformedJson)
  {
  }

  /** `parseStrict` of a string. */
  function ParseText(text: JsString, b: Bounds): Result<Json, JsonError> {
    if ByteLength(text) > b.maxDocumentBytes then Err(DocumentBoundsExceeded)
    else
      match ParseValue(text, 1, b)
      case Err(e) => Err(e)
      case Ok(p) => if SkipWs(p.rest) == [] then Ok(p.value) else Err(MalformedJson)
  }

  /** `parseStrict` of bytes. */
  function ParseBytes(bytes: Bytes, b: Bounds): Result<Json, JsonError> {
    match Decode(bytes)
    case None => Err(MalformedJson)
    case Some(text) => ParseText(text, b)
  }

  lemma {:induction false} SkipWsShortens(s: JsString)
    ensures |SkipWs(s)| <= |s|
  {
    if s != [] && IsWs(s[0]) { SkipWsShortens(s[1..]); }
  }
}
