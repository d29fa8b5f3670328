/** The canonical printer: sorted keys, no whitespace, safe integers, `JSON.stringify` escapes, shared bounds. */
module CanonicalJson {
  import opened Base
  import opened Ordering
  import opened Text
  import opened Json

  /** One lowercase hexadecimal digit. */
  function HexChar(d: int): Unit
    requires 0 <= d < 16
  {
    if d < 10 then 0x30 + d else 0x61 + d - 10
  }

  /** How `JSON.stringify` writes one unit of well-formed text. */
  function EscapeUnit(u: Unit): JsString {
    if u == QUOTE || u == BACKSLASH then [BACKSLASH, u]
    else if u == 0x08 then [BACKSLASH, LOWER_B]
    else if u == 0x09 then [BACKSLASH, LOWER_T]
    else if u == 0x0A then [BACKSLASH, LOWER_N]
    else if u == 0x0C then [BACKSLASH, LOWER_F]
    else if u == 0x0D then [BACKSLASH, LOWER_R]
    else if u < 0x20 then [BACKSLASH, LOWER_U, ZERO, ZERO, HexChar(u / 0x10), HexChar(u % 0x10)]
    else [u]
  }

  function EscapeAll(s: JsString): JsString {
    if s == [] then [] else EscapeUnit(s[0]) + EscapeAll(s[1..])
  }

  /** `JSON.stringify` of a well-formed string. */
  function Stringify(s: JsString): JsString {
    [QUOTE] + EscapeAll(s) + [QUOTE]
  }

  /** `parts.join(",")`. */
  function JoinCommas(parts: seq<JsString>): JsString {
    if parts == [] then []
    else if |parts| == 1 then parts[0]
    else parts[0] + [COMMA] + JoinCommas(parts[1..])
  }

  /** The first bound or encoding rule a string breaks. */
  function StringError(s: JsString, b: Bounds): Option<JsonError> {
    if |s| > b.maxStringChars then Some(DocumentBoundsExceeded)
    else if !WellFormed(s) then Some(MalformedJson)
    else None
  }

  function KeysError(keys: seq<JsString>, b: Bounds): Option<JsonError> {
    if keys == [] then None
    else
      match StringError(keys[0], b)
      case Some(e) => Some(e)
      case None => KeysError(keys[1..], b)
  }

  function Serialize(v: Json, depth: nat, b: Bounds): Result<JsString, JsonError>
    decreases v, 0
  {
    if depth > b.maxDepth then Err(DocumentBoundsExceeded)
    else
      match v
      case Null => Ok(NULL_WORD)
      case Bool(x) => Ok(if x then TRUE_WORD else FALSE_WORD)
      case Num(n) => if IsSafeInteger(n) then Ok(Decimal(n)) else Err(NonCanonicalNumber)
      case NegZero => Err(NonCanonicalNumber)
      case Frac(_) => Err(NonCanonicalNumber)
      case Foreign => Err(MalformedJson)
      case Str(s) =>
        (match StringError(s, b)
         case Some(e) => Err(e)
         case None => Ok(Stringify(s)))
      case Arr(items) =>
        if |items| > b.maxArrayItems then Err(DocumentBoundsExceeded)
        else
          (match SerializeItems(items, depth + 1, b)
           case Err(e) => Err(e)
           case Ok(parts) => Ok([OPEN_BRACKET] + JoinCommas(parts) + [CLOSE_BRACKET]))
      case Obj(m) =>
        if |m| > b.maxObjectKeys then Err(DocumentBoundsExceeded)
        else
          SortedFacts(m.Keys);
          var keys := Sorted(m.Keys);
          match KeysError(keys, b)
          case Some(e) => Err(e)
          case None =>
            assert forall k :: k in keys ==> k in Elements(keys);
            match SerializeMembers(keys, v, depth + 1, b)
            case Err(e) => Err(e)
            case Ok(parts) => Ok([OPEN_BRACE] + JoinCommas(parts) + [CLOSE_BRACE])
  }

  function SerializeItems(items: seq<Json>, depth: nat, b: Bounds): Result<seq<JsString>, JsonError>
    decreases items, 1
  {
    if items == [] then Ok([])
    else
      match Serialize(items[0], depth, b)
      case Err(e) => Err(e)
      case Ok(first) =>
        match SerializeItems(items[1..], depth, b)
        case Err(e) => Err(e)
        case Ok(rest) => Ok([first] + rest)
  }

  function SerializeMembers(keys: seq<JsString>, v: Json, depth: nat, b: Bounds): Result<seq<JsString>, JsonError>
    requires v.Obj? && forall k :: k in keys ==> k in v.members
    decreases v, 0, |keys|
  {
    if keys == [] then Ok([])
    else
      match Serialize(v.members[keys[0]], depth, b)
      case Err(e) => Err(e)
      case Ok(text) =>
        match SerializeMembers(keys[1..], v, depth, b)
        case Err(e) => Err(e)
        case Ok(rest) => Ok([Stringify(keys[0]) + [COLON] + text] + rest)
  }

  /** `canonicalize`. */
  function Canonicalize(v: Json, b: Bounds): Result<JsString, JsonError> {
    match Serialize(v, 1, b)
    case Err(e) => Err(e)
    case Ok(text) => if ByteLength(text) > b.maxDocumentBytes then Err(DocumentBoundsExceeded) else Ok(text)
  }
}
