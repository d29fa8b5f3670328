/**
 Unicode text as JavaScript holds it (UTF-16 code units) and as files hold it (UTF-8):
 `isWellFormed`, `Buffer.byteLength`, encoding, and fatal decoding.
 */
module Text {
  import opened Base

  predicate IsHigh(u: Unit) { 0xD800 <= u < 0xDC00 }

  predicate IsLow(u: Unit) { 0xDC00 <= u < 0xE000 }

  /** A high surrogate directly followed by a low one starts a surrogate pair. */
  predicate StartsWithPair(s: JsString) {
    |s| >= 2 && IsHigh(s[0]) && IsLow(s[1])
  }

  /** `String.prototype.isWellFormed`: no lone surrogate. */
  predicate WellFormed(s: JsString) {
    if s == [] then true
    else if StartsWithPair(s) then WellFormed(s[2..])
    else !IsHigh(s[0]) && !IsLow(s[0]) && WellFormed(s[1..])
  }

  // ---------- lengths ----------

  /** The UTF-8 bytes a unit needs; half of a pair's four bytes for a surrogate. */
  function UnitBytes(u: Unit): nat {
    if u < 0x80 then 1 else if u < 0x800 || IsHigh(u) || IsLow(u) then 2 else 3
  }

  function MinBytes(s: JsString): nat {
    if s == [] then 0 else UnitBytes(s[0]) + MinBytes(s[1..])
  }

  /** `Buffer.byteLength(s, "utf8")`: a lone surrogate becomes the three bytes of U+FFFD. */
  function ByteLength(s: JsString): nat {
    if s == [] then 0
    else if StartsWithPair(s) then 4 + ByteLength(s[2..])
    else (if IsHigh(s[0]) || IsLow(s[0]) then 3 else UnitBytes(s[0])) + ByteLength(s[1..])
  }

  lemma {:induction false} MinBytesConcat(a: JsString, b: JsString)
    ensures MinBytes(a + b) == MinBytes(a) + MinBytes(b)
  {
    if a == [] {
      assert a + b == b;
    } else {
      assert (a + b)[1..] == a[1..] + b;
      MinBytesConcat(a[1..], b);
    }
  }

  /** No text is shorter in UTF-8 than its units' shares, and well-formed text is exactly that long. */
  lemma {:induction false} ByteLengthVersusMinBytes(s: JsString)
    ensures MinBytes(s) <= ByteLength(s)
    ensures WellFormed(s) ==> MinBytes(s) == ByteLength(s)
  {
    if s != [] {
      if StartsWithPair(s) {
        assert s[1..][0] == s[1] && s[1..][1..] == s[2..];
        ByteLengthVersusMinBytes(s[2..]);
      } else {
        ByteLengthVersusMinBytes(s[1..]);
      }
    }
  }

  lemma {:induction false} MinBytesAtLeastLength(s: JsString)
    ensures |s| <= MinBytes(s)
  {
    if s != [] { MinBytesAtLeastLength(s[1..]); }
  }

  lemma {:induction false} WellFormedConcat(a: JsString, b: JsString)
    requires WellFormed(a) && WellFormed(b)
    ensures WellFormed(a + b)
  {
    if a == [] {
      assert a + b == b;
    } else if StartsWithPair(a) {
      assert (a + b)[2..] == a[2..] + b;
      WellFormedConcat(a[2..], b);
    } else {
      assert (a + b)[1..] == a[1..] + b;
      WellFormedConcat(a[1..], b);
    }
  }

  predicate IsAscii(s: JsString) {
    forall i :: 0 <= i < |s| ==> s[i] < 0x80
  }

  lemma {:induction false} AsciiText(s: JsString)
    requires IsAscii(s)
    ensures WellFormed(s) && MinBytes(s) == |s| && ByteLength(s) == |s|
  {
    if s != [] { AsciiText(s[1..]); }
  }

  // ---------- encoding ----------

  function PairScalar(hi: Unit, lo: Unit): (x: int)
    requires IsHigh(hi) && IsLow(lo)
    ensures 0x1_0000 <= x < 0x11_0000
  {
    0x1_0000 + (hi - 0xD800) * 0x400 + (lo - 0xDC00)
  }

  predicate IsScalar(x: int) {
    0 <= x < 0xD800 || 0xE000 <= x < 0x11_0000
  }

  /** The UTF-8 form of one Unicode scalar value (section 3 of RFC 3629). */
  function EncodeScalar(x: int): Bytes
    requires IsScalar(x)
  {
    if x < 0x80 then [x]
    else if x < 0x800 then [0xC0 + x / 0x40, 0x80 + x % 0x40]
    else if x < 0x1_0000 then [0xE0 + x / 0x1000, 0x80 + x / 0x40 % 0x40, 0x80 + x % 0x40]
    else [0xF0 + x / 0x4_0000, 0x80 + x / 0x1000 % 0x40, 0x80 + x / 0x40 % 0x40, 0x80 + x % 0x40]
  }

  /** `Buffer.from(s, "utf8")`: a lone surrogate is replaced by U+FFFD. */
  function Encode(s: JsString): Bytes {
    if s == [] then []
    else if StartsWithPair(s) then EncodeScalar(PairScalar(s[0], s[1])) + Encode(s[2..])
    else EncodeScalar(if IsHigh(s[0]) || IsLow(s[0]) then 0xFFFD else s[0]) + Encode(s[1..])
  }

  lemma {:induction false} EncodeLength(s: JsString)
    ensures |Encode(s)| == ByteLength(s)
  {
    if s != [] {
      if StartsWithPair(s) { EncodeLength(s[2..]); } else { EncodeLength(s[1..]); }
    }
  }

  // ---------- well-formed bytes ----------

  predicate IsTail(b: Byte) { 0x80 <= b < 0xC0 }

  /** The second bytes that may follow a lead byte of a three- or four-byte character. */
  predicate IsSecond(lead: Byte, b: Byte) {
    if lead == 0xE0 then 0xA0 <= b < 0xC0
    else if lead == 0xED then 0x80 <= b < 0xA0
    else if lead == 0xF0 then 0x90 <= b < 0xC0
    else if lead == 0xF4 then 0x80 <= b < 0x90
    else IsTail(b)
  }

  /** UTF8-char of section 4 of RFC 3629. */
  predicate IsChar(c: Bytes) {
    || (|c| == 1 && c[0] < 0x80)
    || (|c| == 2 && 0xC2 <= c[0] < 0xE0 && IsTail(c[1]))
    || (|c| == 3 && 0xE0 <= c[0] < 0xF0 && IsSecond(c[0], c[1]) && IsTail(c[2]))
    || (|c| == 4 && 0xF0 <= c[0] < 0xF5 && IsSecond(c[0], c[1]) && IsTail(c[2]) && IsTail(c[3]))
  }

  /** The length a lead byte announces. */
  function CharLength(lead: Byte): nat {
    if lead < 0x80 then 1 else if lead < 0xE0 then 2 else if lead < 0xF0 then 3 else 4
  }

  /** UTF8-octets of section 4 of RFC 3629: a concatenation of characters. */
  predicate Utf8(b: Bytes) {
    if b == [] then true
    else
      var n := CharLength(b[0]);
      n <= |b| && IsChar(b[..n]) && Utf8(b[n..])
  }

  // ---------- fatal decoding ----------

  function FromTwo(a: int, b: int): int { a * 0x40 + b }

  function FromThree(a: int, b: int, c: int): int { a * 0x1000 + b * 0x40 + c }

  function FromFour(a: int, b: int, c: int, d: int): int { a * 0x4_0000 + b * 0x1000 + c * 0x40 + d }

  function DecodeChar(c: Bytes): (x: int)
    requires IsChar(c)
    ensures IsScalar(x)
  {
    if |c| == 1 then c[0]
    else if |c| == 2 then FromTwo(c[0] - 0xC0, c[1] - 0x80)
    else if |c| == 3 then FromThree(c[0] - 0xE0, c[1] - 0x80, c[2] - 0x80)
    else FromFour(c[0] - 0xF0, c[1] - 0x80, c[2] - 0x80, c[3] - 0x80)
  }

  function ScalarUnits(x: int): JsString
    requires IsScalar(x)
  {
    if x < 0x1_0000 then [x]
    else [0xD800 + (x - 0x1_0000) / 0x400, 0xDC00 + (x - 0x1_0000) % 0x400]
  }

  /** `new TextDecoder("utf-8", { fatal: true }).decode(b)`, without its byte-order-mark rule. */
  function Decode(b: Bytes): Option<JsString> {
    if b == [] then Some([])
    else
      var n := CharLength(b[0]);
      if n <= |b| && IsChar(b[..n]) then
        match Decode(b[n..])
        case None => None
        case Some(rest) => Some(ScalarUnits(DecodeChar(b[..n])) + rest)
      else None
  }

  lemma {:induction false} DecodeSucceedsOnUtf8(b: Bytes)
    ensures Decode(b).Some? <==> Utf8(b)
  {
    if b != [] {
      var n := CharLength(b[0]);
      if n <= |b| && IsChar(b[..n]) { DecodeSucceedsOnUtf8(b[n..]); }
    }
  }

  lemma SplitThree(x: int)
    requires 0 <= x
    ensures x == FromThree(x / 0x1000, x / 0x40 % 0x40, x % 0x40)
  {
    var q := x / 0x40;
    assert x == q * 0x40 + x % 0x40;
    assert q == q / 0x40 * 0x40 + q % 0x40;
    assert q / 0x40 == x / 0x1000;
  }

  lemma SplitFour(x: int)
    requires 0 <= x
    ensures x == FromFour(x / 0x4_0000, x / 0x1000 % 0x40, x / 0x40 % 0x40, x % 0x40)
  {
    SplitThree(x);
    var q := x / 0x1000;
    assert q == q / 0x40 * 0x40 + q % 0x40;
    assert q / 0x40 == x / 0x4_0000;
  }

  lemma JoinThree(a: int, b: int, c: int)
    requires 0 <= a && 0 <= b < 0x40 && 0 <= c < 0x40
    ensures var x := FromThree(a, b, c);
            x / 0x1000 == a && x / 0x40 % 0x40 == b && x % 0x40 == c
  {
    var x := FromThree(a, b, c);
    assert x == (a * 0x40 + b) * 0x40 + c;
    assert x / 0x40 == a * 0x40 + b;
  }

  lemma JoinFour(a: int, b: int, c: int, d: int)
    requires 0 <= a && 0 <= b < 0x40 && 0 <= c < 0x40 && 0 <= d < 0x40
    ensures var x := FromFour(a, b, c, d);
            x / 0x4_0000 == a && x / 0x1000 % 0x40 == b && x / 0x40 % 0x40 == c && x % 0x40 == d
  {
    var x := FromFour(a, b, c, d);
    assert x == FromThree(a * 0x40 + b, c, d);
    JoinThree(a * 0x40 + b, c, d);
    assert x / 0x1000 == a * 0x40 + b;
  }

  lemma ThreeByteScalar(x: int)
    requires 0x800 <= x < 0x1_0000 && IsScalar(x)
    ensures IsChar(EncodeScalar(x)) && DecodeChar(EncodeScalar(x)) == x
  {
    SplitThree(x);
    var c := EncodeScalar(x);
    assert |c| == 3 && IsTail(c[2]);
    assert 0xE0 <= c[0] < 0xF0 && IsSecond(c[0], c[1]);
  }

  lemma FourByteScalar(x: int)
    requires 0x1_0000 <= x < 0x11_0000
    ensures IsChar(EncodeScalar(x)) && DecodeChar(EncodeScalar(x)) == x
  {
    SplitFour(x);
    var c := EncodeScalar(x);
    assert |c| == 4 && IsTail(c[2]) && IsTail(c[3]);
    assert 0xF0 <= c[0] < 0xF5 && IsSecond(c[0], c[1]);
  }

  lemma EncodedScalarDecodes(x: int)
    requires IsScalar(x)
    ensures IsChar(EncodeScalar(x)) && DecodeChar(EncodeScalar(x)) == x
  {
    if 0x800 <= x < 0x1_0000 { ThreeByteScalar(x); }
    if 0x1_0000 <= x { FourByteScalar(x); }
  }

  lemma DecodedCharEncodes(c: Bytes)
    requires IsChar(c)
    ensures EncodeScalar(DecodeChar(c)) == c
  {
    if |c| == 3 {
      JoinThree(c[0] - 0xE0, c[1] - 0x80, c[2] - 0x80);
    } else if |c| == 4 {
      JoinFour(c[0] - 0xF0, c[1] - 0x80, c[2] - 0x80, c[3] - 0x80);
    }
  }

  lemma PairUnits(hi: Unit, lo: Unit)
    requires IsHigh(hi) && IsLow(lo)
    ensures ScalarUnits(PairScalar(hi, lo)) == [hi, lo]
  {
  }

  lemma DecodePrependsChar(c: Bytes, rest: Bytes)
    requires IsChar(c)
    ensures Decode(c + rest) == match Decode(rest) case None => None case Some(r) => Some(ScalarUnits(DecodeChar(c)) + r)
  {
    assert (c + rest)[..|c|] == c && (c + rest)[|c|..] == rest;
  }

  /** Well-formed text survives UTF-8 encoding and fatal decoding. */
  lemma {:induction false} DecodeInvertsEncode(s: JsString)
    requires WellFormed(s)
    ensures Decode(Encode(s)) == Some(s)
  {
    if s != [] {
      if StartsWithPair(s) {
        var x := PairScalar(s[0], s[1]);
        EncodedScalarDecodes(x);
        PairUnits(s[0], s[1]);
        DecodePrependsChar(EncodeScalar(x), Encode(s[2..]));
        DecodeInvertsEncode(s[2..]);
        assert s == [s[0], s[1]] + s[2..];
      } else {
        EncodedScalarDecodes(s[0]);
        DecodePrependsChar(EncodeScalar(s[0]), Encode(s[1..]));
        DecodeInvertsEncode(s[1..]);
        assert s == [s[0]] + s[1..];
      }
    }
  }

  lemma EncodePrependsScalar(x: int, rest: JsString)
    requires IsScalar(x)
    ensures Encode(ScalarUnits(x) + rest) == EncodeScalar(x) + Encode(rest)
    ensures WellFormed(ScalarUnits(x) + rest) == WellFormed(rest)
  {
    var s := ScalarUnits(x) + rest;
    if x < 0x1_0000 {
      assert s[1..] == rest;
    } else {
      assert StartsWithPair(s) && s[2..] == rest;
      assert PairScalar(s[0], s[1]) == x;
    }
  }

  lemma EncodePrependsChar(c: Bytes, text: JsString)
    requires IsChar(c) && WellFormed(text)
    ensures WellFormed(ScalarUnits(DecodeChar(c)) + text)
    ensures Encode(ScalarUnits(DecodeChar(c)) + text) == c + Encode(text)
  {
    DecodedCharEncodes(c);
    EncodePrependsScalar(DecodeChar(c), text);
  }

  /** Whatever fatal decoding accepts is well-formed text, and is the only text with those bytes. */
  lemma {:induction false} EncodeInvertsDecode(b: Bytes)
    requires Decode(b).Some?
    ensures WellFormed(Decode(b).value)
    ensures Encode(Decode(b).value) == b
  {
    hide ScalarUnits, DecodeChar, IsChar, EncodeScalar;
    if b != [] {
      var n := CharLength(b[0]);
      var c, rest := b[..n], b[n..];
      var text := Decode(rest).value;
      EncodeInvertsDecode(rest);
      EncodePrependsChar(c, text);
      assert Decode(b).value == ScalarUnits(DecodeChar(c)) + text;
      assert b == c + rest;
    }
  }

  lemma {:induction false} AsciiEncodes(s: JsString)
    requires IsAscii(s)
    ensures Encode(s) == s
  {
    if s != [] {
      AsciiEncodes(s[1..]);
      assert s == [s[0]] + s[1..];
    }
  }

  // ---------- the tables, in numbers ----------

  /** A high surrogate has a low one after it, a low one a high one before it. */
  predicate PairedAt(s: JsString, k: int)
    requires 0 <= k < |s|
  {
    && (0xD800 <= s[k] <= 0xDBFF ==> k + 1 < |s| && 0xDC00 <= s[k + 1] <= 0xDFFF)
    && (0xDC00 <= s[k] <= 0xDFFF ==> k > 0 && 0xD800 <= s[k - 1] <= 0xDBFF)
  }

  /** A text is well formed exactly when all its surrogates are paired. */
  lemma {:induction false} WellFormedExactly(s: JsString)
    ensures WellFormed(s) <==> forall k :: 0 <= k < |s| ==> PairedAt(s, k)
    decreases |s|
  {
    if s != [] {
      var n := if StartsWithPair(s) then 2 else 1;
      var rest := s[n..];
      WellFormedExactly(rest);
      if n == 2 || (!IsHigh(s[0]) && !IsLow(s[0])) {
        forall k | 0 <= k < |rest| ensures PairedAt(rest, k) <==> PairedAt(s, k + n) {}
        forall k | n <= k < |s| ensures PairedAt(s, k) <==> PairedAt(rest, k - n) {}
      } else {
        assert !PairedAt(s, 0);
      }
    }
  }

  /** The UTF-8 form of a scalar value, by its ranges and the bits each byte carries (section 3 of RFC 3629). */
  ghost predicate IsUtf8Form(e: Bytes, x: int) {
    if x <= 0x7F then |e| == 1 && e[0] as int == x
    else if x <= 0x7FF then
      && |e| == 2 && 0xC0 <= e[0] <= 0xDF && 0x80 <= e[1] <= 0xBF
      && (e[0] as int - 0xC0) * 0x40 + (e[1] as int - 0x80) == x
    else if x <= 0xFFFF then
      && |e| == 3 && 0xE0 <= e[0] <= 0xEF && 0x80 <= e[1] <= 0xBF && 0x80 <= e[2] <= 0xBF
      && (e[0] as int - 0xE0) * 0x1000 + (e[1] as int - 0x80) * 0x40 + (e[2] as int - 0x80) == x
    else
      && |e| == 4 && 0xF0 <= e[0] <= 0xF4 && 0x80 <= e[1] <= 0xBF && 0x80 <= e[2] <= 0xBF && 0x80 <= e[3] <= 0xBF
      && (e[0] as int - 0xF0) * 0x4_0000 + (e[1] as int - 0x80) * 0x1000 + (e[2] as int - 0x80) * 0x40
         + (e[3] as int - 0x80) == x
  }

  lemma EncodeScalarExactly(x: int)
    requires 0 <= x < 0xD800 || 0xE000 <= x <= 0x10_FFFF
    ensures IsScalar(x) && IsUtf8Form(EncodeScalar(x), x)
  {
    if 0x800 <= x < 0x1_0000 { SplitThree(x); }
    if 0x1_0000 <= x { SplitFour(x); }
  }

  /** How a text is encoded: a pair as one scalar value, a lone surrogate as U+FFFD, any other unit as it is. */
  lemma EncodeNext(s: JsString)
    requires s != []
    ensures var pair := |s| >= 2 && 0xD800 <= s[0] <= 0xDBFF && 0xDC00 <= s[1] <= 0xDFFF;
      var x: int := if pair then 0x1_0000 + (s[0] as int - 0xD800) * 0x400 + (s[1] as int - 0xDC00)
                    else if 0xD800 <= s[0] <= 0xDFFF then 0xFFFD else s[0];
      IsScalar(x) && IsUtf8Form(EncodeScalar(x), x) && Encode(s) == EncodeScalar(x) + Encode(s[if pair then 2 else 1..])
  {
    hide EncodeScalar, IsUtf8Form;
    EncodeScalarExactly(if StartsWithPair(s) then PairScalar(s[0], s[1])
                        else if IsHigh(s[0]) || IsLow(s[0]) then 0xFFFD else s[0]);
  }
}
