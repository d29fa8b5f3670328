/** Unpadded base64url (section 5 of RFC 4648): three bytes to four characters and back. */
module Base64Url {
  import opened Base

  /** The character of a six-bit value. */
  function Char(v: int): (c: Byte)
    requires 0 <= v < 64
    ensures IsAlphabet(c)
  {
    if v < 26 then 0x41 + v
    else if v < 52 then 0x61 + (v - 26)
    else if v < 62 then 0x30 + (v - 52)
    else if v == 62 then 0x2D
    else 0x5F
  }

  predicate IsAlphabet(c: Byte) {
    0x41 <= c <= 0x5A || 0x61 <= c <= 0x7A || 0x30 <= c <= 0x39 || c == 0x2D || c == 0x5F
  }

  function CharValue(c: Byte): (v: int)
    requires IsAlphabet(c)
    ensures 0 <= v < 64
  {
    if 0x41 <= c <= 0x5A then c - 0x41
    else if 0x61 <= c <= 0x7A then c - 0x61 + 26
    else if 0x30 <= c <= 0x39 then c - 0x30 + 52
    else if c == 0x2D then 62
    else 63
  }

  lemma CharRoundTrip(v: int)
    requires 0 <= v < 64
    ensures CharValue(Char(v)) == v
  {
  }

  /** `bytes.toString("base64url")`. */
  function Encode(b: Bytes): Bytes {
    if b == [] then []
    else if |b| == 1 then [Char(b[0] / 4), Char(b[0] % 4 * 16)]
    else if |b| == 2 then [Char(b[0] / 4), Char(b[0] % 4 * 16 + b[1] / 16), Char(b[1] % 16 * 4)]
    else
      [Char(b[0] / 4), Char(b[0] % 4 * 16 + b[1] / 16), Char(b[1] % 16 * 4 + b[2] / 64), Char(b[2] % 64)]
      + Encode(b[3..])
  }

  predicate AllAlphabet(s: Bytes) {
    forall i :: 0 <= i < |s| ==> IsAlphabet(s[i])
  }

  function Byte0(v0: int, v1: int): (b: int)
    requires 0 <= v0 < 64 && 0 <= v1 < 64
    ensures 0 <= b < 256
  {
    v0 * 4 + v1 / 16
  }

  function Byte1(v1: int, v2: int): (b: int)
    requires 0 <= v1 < 64 && 0 <= v2 < 64
    ensures 0 <= b < 256
  {
    v1 % 16 * 16 + v2 / 4
  }

  function Byte2(v2: int, v3: int): (b: int)
    requires 0 <= v2 < 64 && 0 <= v3 < 64
    ensures 0 <= b < 256
  {
    v2 % 4 * 64 + v3
  }

  /** `Buffer.from(s, "base64url")` on alphabet characters; a lone last character holds no byte. */
  function Decode(s: Bytes): Bytes
    requires AllAlphabet(s)
  {
    if |s| < 2 then []
    else if |s| == 2 then [Byte0(CharValue(s[0]), CharValue(s[1]))]
    else if |s| == 3 then
      [Byte0(CharValue(s[0]), CharValue(s[1])), Byte1(CharValue(s[1]), CharValue(s[2]))]
    else
      [Byte0(CharValue(s[0]), CharValue(s[1])),
       Byte1(CharValue(s[1]), CharValue(s[2])),
       Byte2(CharValue(s[2]), CharValue(s[3]))]
      + Decode(s[4..])
  }

  lemma ByteSplits(b0: Byte, b1: Byte, b2: Byte)
    ensures Byte0(b0 / 4, b0 % 4 * 16 + b1 / 16) == b0
    ensures Byte0(b0 / 4, b0 % 4 * 16) == b0
    ensures Byte1(b0 % 4 * 16 + b1 / 16, b1 % 16 * 4 + b2 / 64) == b1
    ensures Byte1(b0 % 4 * 16 + b1 / 16, b1 % 16 * 4) == b1
    ensures Byte2(b1 % 16 * 4 + b2 / 64, b2 % 64) == b2
  {
    JoinBy16(b0 % 4, b1 / 16);
    JoinBy4(b1 % 16, b2 / 64);
  }

  lemma JoinBy16(high: int, low: int)
    requires 0 <= high && 0 <= low < 16
    ensures (high * 16 + low) / 16 == high && (high * 16 + low) % 16 == low
  {
  }

  lemma JoinBy4(high: int, low: int)
    requires 0 <= high && 0 <= low < 4
    ensures (high * 4 + low) / 4 == high && (high * 4 + low) % 4 == low
  {
  }

  /** Decoding undoes encoding, whatever the bytes, and the text is a third longer than the bytes. */
  lemma {:induction false} DecodeInvertsEncode(b: Bytes)
    ensures AllAlphabet(Encode(b)) && Decode(Encode(b)) == b
    ensures |Encode(b)| == (4 * |b| + 2) / 3
    decreases |b|
  {
    hide Byte0, Byte1, Byte2, Char, CharValue, IsAlphabet;
    if b == [] {
    } else if |b| == 1 {
      OneByte(b[0]);
    } else if |b| == 2 {
      TwoBytes(b[0], b[1]);
    } else {
      DecodeInvertsEncode(b[3..]);
      FullGroup(b);
    }
  }

  lemma OneByte(b0: Byte)
    ensures Byte0(CharValue(Char(b0 / 4)), CharValue(Char(b0 % 4 * 16))) == b0
  {
    ByteSplits(b0, 0, 0);
    CharRoundTrip(b0 / 4);
    CharRoundTrip(b0 % 4 * 16);
  }

  lemma TwoBytes(b0: Byte, b1: Byte)
    ensures var v0, v1, v2 := CharValue(Char(b0 / 4)), CharValue(Char(b0 % 4 * 16 + b1 / 16)), CharValue(Char(b1 % 16 * 4));
            Byte0(v0, v1) == b0 && Byte1(v1, v2) == b1
  {
    ByteSplits(b0, b1, 0);
    CharRoundTrip(b0 / 4);
    CharRoundTrip(b0 % 4 * 16 + b1 / 16);
    CharRoundTrip(b1 % 16 * 4);
  }

  lemma ThreeBytes(b0: Byte, b1: Byte, b2: Byte)
    ensures var v0, v1 := CharValue(Char(b0 / 4)), CharValue(Char(b0 % 4 * 16 + b1 / 16));
            var v2, v3 := CharValue(Char(b1 % 16 * 4 + b2 / 64)), CharValue(Char(b2 % 64));
            Byte0(v0, v1) == b0 && Byte1(v1, v2) == b1 && Byte2(v2, v3) == b2
  {
    ByteSplits(b0, b1, b2);
    CharRoundTrip(b0 / 4);
    CharRoundTrip(b0 % 4 * 16 + b1 / 16);
    CharRoundTrip(b1 % 16 * 4 + b2 / 64);
    CharRoundTrip(b2 % 64);
  }

  /** Three bytes become four characters, which become the three bytes, before whatever follows. */
  lemma FullGroup(b: Bytes)
    requires |b| >= 3
    requires AllAlphabet(Encode(b[3..])) && Decode(Encode(b[3..])) == b[3..]
    ensures AllAlphabet(Encode(b)) && Decode(Encode(b)) == b
    ensures |Encode(b)| == 4 + |Encode(b[3..])|
  {
    hide Byte0, Byte1, Byte2, Char, CharValue, IsAlphabet;
    var s, more := Encode(b), Encode(b[3..]);
    assert |s| == 4 + |more| && s[0] == Char(b[0] / 4) && s[1] == Char(b[0] % 4 * 16 + b[1] / 16)
      && s[2] == Char(b[1] % 16 * 4 + b[2] / 64) && s[3] == Char(b[2] % 64) && s[4..] == more;
    assert forall i :: 4 <= i < |s| ==> s[i] == more[i - 4];
    ThreeBytes(b[0], b[1], b[2]);
    assert Decode(s) == [b[0], b[1], b[2]] + Decode(more);
    assert b == [b[0], b[1], b[2]] + b[3..];
  }
}
