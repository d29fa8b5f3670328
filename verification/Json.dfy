/** JSON values, the shared bounds, and the grammar of strict JSON as syntax trees. */
module Json {
  import opened Base
  import opened Text

  /**
   A JavaScript value offered as JSON. `Num` is an integer-valued number other than -0, `Frac` a number with a
   fractional part, and `Foreign` a value of a type JSON has no form for (undefined, a function, a bigint).
   */
  datatype Json =
    | Null
    | Bool(b: bool)
    | Num(n: int)
    | NegZero
    | Frac(r: real)
    | Str(s: JsString)
    | Arr(items: seq<Json>)
    | Obj(members: map<JsString, Json>)
    | Foreign

  /** A member of an object; what is not there reads as undefined. */
  function MemberOf(j: Json, name: JsString): Json {
    if j.Obj? && name in j.members then j.members[name] else Foreign
  }

  datatype Bounds = Bounds(
    maxDocumentBytes: nat,
    maxDepth: nat,
    maxStringChars: nat,
    maxArrayItems: nat,
    maxObjectKeys: nat)

  const CANONICAL_BOUNDS := Bounds(1_048_576, 32, 65_536, 4_096, 1_024)

  datatype JsonError = MalformedJson | NonCanonicalNumber | DuplicateJsonKey | DocumentBoundsExceeded

  predicate IsSafeInteger(n: int) { -MAX_SAFE_INTEGER <= n <= MAX_SAFE_INTEGER }

  // ---------- characters ----------

  const QUOTE: Unit := 0x22
  const COMMA: Unit := 0x2C
  const MINUS: Unit := 0x2D
  const DOT: Unit := 0x2E
  const SLASH: Unit := 0x2F
  const ZERO: Unit := 0x30
  const COLON: Unit := 0x3A
  const UPPER_E: Unit := 0x45
  const OPEN_BRACKET: Unit := 0x5B
  const BACKSLASH: Unit := 0x5C
  const CLOSE_BRACKET: Unit := 0x5D
  const LOWER_B: Unit := 0x62
  const LOWER_E: Unit := 0x65
  const LOWER_F: Unit := 0x66
  const LOWER_N: Unit := 0x6E
  const LOWER_R: Unit := 0x72
  const LOWER_T: Unit := 0x74
  const LOWER_U: Unit := 0x75
  const OPEN_BRACE: Unit := 0x7B
  const CLOSE_BRACE: Unit := 0x7D

  const NULL_WORD: JsString := [0x6E, 0x75, 0x6C, 0x6C]
  const TRUE_WORD: JsString := [0x74, 0x72, 0x75, 0x65]
  const FALSE_WORD: JsString := [0x66, 0x61, 0x6C, 0x73, 0x65]

  predicate IsWs(u: Unit) { u == 0x20 || u == 0x09 || u == 0x0A || u == 0x0D }

  predicate IsDigit(u: Unit) { 0x30 <= u <= 0x39 }

  predicate IsHex(u: Unit) { IsDigit(u) || 0x41 <= u <= 0x46 || 0x61 <= u <= 0x66 }

  function HexDigit(u: Unit): (d: int)
    requires IsHex(u)
    ensures 0 <= d < 16
  {
    if u <= 0x39 then u - 0x30 else if u <= 0x46 then u - 0x41 + 10 else u - 0x61 + 10
  }

  /** The unit a one-letter escape stands for (section 7 of RFC 8259). */
  function Unescaped(letter: Unit): Option<Unit> {
    if letter == QUOTE || letter == BACKSLASH || letter == SLASH then Some(letter)
    else if letter == LOWER_B then Some(0x08)
    else if letter == LOWER_F then Some(0x0C)
    else if letter == LOWER_N then Some(0x0A)
    else if letter == LOWER_R then Some(0x0D)
    else if letter == LOWER_T then Some(0x09)
    else None
  }

  // ---------- numerals ----------

  /** The base-10 numeral of a natural number, without leading zeros. */
  function NatDigits(n: nat): JsString {
    if n < 10 then [ZERO + n] else NatDigits(n / 10) + [ZERO + n % 10]
  }

  /** `String(n)` of an integer. */
  function Decimal(n: int): JsString {
    if n < 0 then [MINUS] + NatDigits(-n) else NatDigits(n)
  }

  // ---------- syntax trees ----------

  /** How a source text spells one unit of a string. */
  datatype Spelling = Raw(u: Unit) | Short(letter: Unit) | Hex(digits: JsString)

  /** A JSON text with every choice its author made: whitespace, escapes, key order. */
  datatype Tree =
    | TNull
    | TBool(b: bool)
    | TNum(n: int)
    | TStr(spelling: seq<Spelling>)
    | TArr(gap: JsString, items: seq<Item>)
    | TObj(gap: JsString, members: seq<Member>)

  /** A value with the whitespace around it: an array item, or a whole document. */
  datatype Item = Item(before: JsString, value: Tree, after: JsString)

  datatype Member = Member(
    before: JsString,
    key: seq<Spelling>,
    beforeColon: JsString,
    afterColon: JsString,
    value: Tree,
    after: JsString)

  function RenderSpelling(sp: Spelling): JsString {
    match sp
    case Raw(u) => [u]
    case Short(letter) => [BACKSLASH, letter]
    case Hex(digits) => [BACKSLASH, LOWER_U] + digits
  }

  function RenderSpellings(sps: seq<Spelling>): JsString {
    if sps == [] then [] else RenderSpelling(sps[0]) + RenderSpellings(sps[1..])
  }

  function RenderString(sps: seq<Spelling>): JsString {
    [QUOTE] + RenderSpellings(sps) + [QUOTE]
  }

  /** The text a syntax tree stands for. */
  function Render(t: Tree): JsString
    decreases t, 0
  {
    match t
    case TNull => NULL_WORD
    case TBool(b) => if b then TRUE_WORD else FALSE_WORD
    case TNum(n) => Decimal(n)
    case TStr(sps) => RenderString(sps)
    case TArr(gap, items) => [OPEN_BRACKET] + (if items == [] then gap else RenderItems(items)) + [CLOSE_BRACKET]
    case TObj(gap, members) => [OPEN_BRACE] + (if members == [] then gap else RenderMembers(members)) + [CLOSE_BRACE]
  }

  function RenderItems(items: seq<Item>): JsString
    requires items != []
    decreases items, 1
  {
    var first := items[0].before + Render(items[0].value) + items[0].after;
    if |items| == 1 then first else first + [COMMA] + RenderItems(items[1..])
  }

  function RenderKey(m: Member): JsString {
    m.before + RenderString(m.key) + m.beforeColon + [COLON] + m.afterColon
  }

  function RenderMembers(ms: seq<Member>): JsString
    requires ms != []
    decreases ms, 1
  {
    var first := RenderKey(ms[0]) + Render(ms[0].value) + ms[0].after;
    if |ms| == 1 then first else first + [COMMA] + RenderMembers(ms[1..])
  }

  /** A whole document: a value between two stretches of whitespace. */
  function RenderDocument(doc: Item): JsString {
    doc.before + Render(doc.value) + doc.after
  }

  // ---------- meaning ----------

  predicate SpellingOk(sp: Spelling) {
    match sp
    case Raw(u) => u >= 0x20 && u != QUOTE && u != BACKSLASH
    case Short(letter) => Unescaped(letter).Some?
    case Hex(d) => |d| == 4 && IsHex(d[0]) && IsHex(d[1]) && IsHex(d[2]) && IsHex(d[3])
  }

  function HexValue(d: JsString): Unit
    requires |d| == 4 && IsHex(d[0]) && IsHex(d[1]) && IsHex(d[2]) && IsHex(d[3])
  {
    HexDigit(d[0]) * 0x1000 + HexDigit(d[1]) * 0x100 + HexDigit(d[2]) * 0x10 + HexDigit(d[3])
  }

  function SpelledUnit(sp: Spelling): Unit {
    if !SpellingOk(sp) then 0xFFFD
    else match sp
      case Raw(u) => u
      case Short(letter) => Unescaped(letter).value
      case Hex(d) => HexValue(d)
  }

  predicate SpellingsOk(sps: seq<Spelling>) {
    forall i :: 0 <= i < |sps| ==> SpellingOk(sps[i])
  }

  function Spelled(sps: seq<Spelling>): JsString {
    if sps == [] then [] else [SpelledUnit(sps[0])] + Spelled(sps[1..])
  }

  predicate IsGap(s: JsString) {
    forall i :: 0 <= i < |s| ==> IsWs(s[i])
  }

  /** A string literal within the bounds whose value has no lone surrogate. */
  predicate StringOk(sps: seq<Spelling>, b: Bounds) {
    SpellingsOk(sps) && |sps| <= b.maxStringChars && WellFormed(Spelled(sps))
  }

  /** Strict JSON at a nesting depth: RFC 8259 with distinct keys, safe integers and the shared bounds. */
  ghost predicate Valid(t: Tree, depth: nat, b: Bounds)
    decreases t, 0
  {
    && depth <= b.maxDepth
    && match t
       case TNull => true
       case TBool(_) => true
       case TNum(n) => IsSafeInteger(n)
       case TStr(sps) => StringOk(sps, b)
       case TArr(gap, items) => IsGap(gap) && |items| <= b.maxArrayItems && ValidItems(items, depth + 1, b)
       case TObj(gap, members) =>
         IsGap(gap) && |members| <= b.maxObjectKeys && ValidMembers(members, depth + 1, b) && DistinctKeys(members)
  }

  ghost predicate ValidItems(items: seq<Item>, depth: nat, b: Bounds)
    decreases items, 1
  {
    items != [] ==>
      && IsGap(items[0].before) && IsGap(items[0].after)
      && Valid(items[0].value, depth, b)
      && ValidItems(items[1..], depth, b)
  }

  ghost predicate ValidKey(m: Member, b: Bounds) {
    IsGap(m.before) && IsGap(m.beforeColon) && IsGap(m.afterColon) && StringOk(m.key, b)
  }

  ghost predicate ValidMembers(ms: seq<Member>, depth: nat, b: Bounds)
    decreases ms, 1
  {
    ms != [] ==>
      && ValidKey(ms[0], b) && IsGap(ms[0].after)
      && Valid(ms[0].value, depth, b)
      && ValidMembers(ms[1..], depth, b)
  }

  ghost predicate DistinctKeys(ms: seq<Member>) {
    forall i, j :: 0 <= i < j < |ms| ==> Spelled(ms[i].key) != Spelled(ms[j].key)
  }

  ghost predicate ValidDocument(doc: Item, b: Bounds) {
    IsGap(doc.before) && IsGap(doc.after) && Valid(doc.value, 1, b)
  }

  /** The value a syntax tree denotes; key order, whitespace and escapes are forgotten. */
  function Meaning(t: Tree): Json
    decreases t, 0
  {
    match t
    case TNull => Null
    case TBool(v) => Bool(v)
    case TNum(n) => Num(n)
    case TStr(sps) => Str(Spelled(sps))
    case TArr(_, items) => Arr(ItemMeanings(items))
    case TObj(_, members) => Obj(MemberMeanings(members))
  }

  function ItemMeanings(items: seq<Item>): seq<Json>
    decreases items, 1
  {
    if items == [] then [] else [Meaning(items[0].value)] + ItemMeanings(items[1..])
  }

  function MemberMeanings(ms: seq<Member>): map<JsString, Json>
    decreases ms, 1
  {
    if ms == [] then map[]
    else map[Spelled(ms[0].key) := Meaning(ms[0].value)] + MemberMeanings(ms[1..])
  }

  /** The grammar: `text` is a strict JSON document for `v`. */
  ghost predicate Denotes(text: JsString, v: Json, b: Bounds) {
    exists doc: Item :: ValidDocument(doc, b) && RenderDocument(doc) == text && Meaning(doc.value) == v
  }
}
