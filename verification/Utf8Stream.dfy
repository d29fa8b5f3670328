/** Incremental fatal UTF-8 decoding: what a decoder remembers between chunks, and why chunking does not matter. */
module Utf8Stream {
  import opened Base
  import opened Text

  /** The bytes of an unfinished character. */
  predicate IsPartial(p: Bytes) {
    || (|p| == 1 && 0xC2 <= p[0] < 0xF5)
    || (|p| == 2 && 0xE0 <= p[0] < 0xF5 && IsSecond(p[0], p[1]))
    || (|p| == 3 && 0xF0 <= p[0] < 0xF5 && IsSecond(p[0], p[1]) && IsTail(p[2]))
  }

  predicate IsPending(p: Bytes) { p == [] || IsPartial(p) }

  /** One byte into the decoder: the bytes still pending, or an encoding error. */
  function Feed(pending: Bytes, b: Byte): Option<Bytes> {
    var p := pending + [b];
    if IsChar(p) then Some([]) else if IsPartial(p) then Some(p) else None
  }

  function FeedAll(pending: Bytes, bytes: Bytes): Option<Bytes>
    decreases |bytes|
  {
    if bytes == [] then Some(pending)
    else
      match Feed(pending, bytes[0])
      case None => None
      case Some(p) => FeedAll(p, bytes[1..])
  }

  lemma {:induction false} FeedAllConcat(p: Bytes, a: Bytes, b: Bytes)
    ensures FeedAll(p, a + b) == match FeedAll(p, a) case None => None case Some(q) => FeedAll(q, b)
    decreases |a|
  {
    if a == [] {
      assert a + b == b;
    } else {
      assert (a + b)[1..] == a[1..] + b;
      match Feed(p, a[0]) {
        case None =>
        case Some(q) => FeedAllConcat(q, a[1..], b);
      }
    }
  }

  lemma CharLengthFits(c: Bytes)
    requires IsChar(c)
    ensures CharLength(c[0]) == |c|
  {
  }

  lemma ProperPrefixPends(c: Bytes, k: nat)
    requires IsChar(c) && 0 < k < |c|
    ensures IsPartial(c[..k]) && !IsChar(c[..k])
  {
  }

  /** The bytes that complete a character leave nothing pending. */
  lemma {:induction false} FeedCompletes(p: Bytes, q: Bytes, rest: Bytes)
    requires q != [] && IsChar(p + q)
    ensures FeedAll(p, q + rest) == FeedAll([], rest)
    decreases |q|
  {
    assert (q + rest)[0] == q[0] && (q + rest)[1..] == q[1..] + rest;
    var p' := p + [q[0]];
    assert p' + q[1..] == p + q;
    if |q| == 1 {
      assert p' == p + q;
      assert q[1..] + rest == rest;
    } else {
      ProperPrefixPends(p + q, |p| + 1);
      assert (p + q)[..|p| + 1] == p';
      FeedCompletes(p', q[1..], rest);
    }
  }

  /** If feeding ends with nothing pending, the bytes fed start with a whole character. */
  lemma {:induction false} FeedStartsWithChar(p: Bytes, b: Bytes)
    requires IsPending(p) && p + b != [] && FeedAll(p, b) == Some([])
    ensures var s := p + b;
            var n := CharLength(s[0]);
            n <= |s| && IsChar(s[..n]) && FeedAll([], s[n..]) == Some([])
    decreases |b|
  {
    var s := p + b;
    assert b != [];
    var p' := p + [b[0]];
    assert p' + b[1..] == s;
    if IsChar(p') {
      CharLengthFits(p');
      assert s[..|p'|] == p' && s[|p'|..] == b[1..];
    } else {
      FeedStartsWithChar(p', b[1..]);
    }
  }

  /** Byte-by-byte decoding ends cleanly exactly on UTF-8. */
  lemma {:induction false} FeedAllDecidesUtf8(b: Bytes)
    ensures FeedAll([], b) == Some([]) <==> Utf8(b)
    decreases |b|
  {
    if b != [] {
      var n := CharLength(b[0]);
      if n <= |b| && IsChar(b[..n]) {
        assert b == b[..n] + b[n..];
        assert [] + b[..n] == b[..n];
        FeedCompletes([], b[..n], b[n..]);
        FeedAllDecidesUtf8(b[n..]);
      } else if FeedAll([], b) == Some([]) {
        assert [] + b == b;
        FeedStartsWithChar([], b);
      }
    }
  }

  /** What feeding leaves pending is the end of the input, and the bytes before it are UTF-8. */
  lemma {:induction false} PendingSplit(b: Bytes) returns (whole: Bytes)
    requires FeedAll([], b).Some?
    ensures b == whole + FeedAll([], b).value
    ensures Utf8(whole) && IsPending(FeedAll([], b).value)
  {
    var q := FeedAll([], b).value;
    if b == [] {
      whole := [];
    } else {
      var front, last := b[..|b| - 1], b[|b| - 1];
      assert b == front + [last];
      FeedAllConcat([], front, [last]);
      var before := PendingSplit(front);
      var q' := FeedAll([], front).value;
      assert [last][1..] == [];
      assert FeedAll(q', [last]) == Feed(q', last);
      if q == [] {
        FeedAllDecidesUtf8(b);
        whole := b;
        assert b == b + [];
      } else {
        whole := before;
        assert before + q' + [last] == before + (q' + [last]);
      }
    }
  }

  /** Shortening the input by fewer bytes than are pending still leaves a character unfinished. */
  lemma FewerBytesStayUnfinished(b: Bytes, trim: nat)
    requires FeedAll([], b).Some? && trim < |FeedAll([], b).value|
    ensures trim < |b| && !Utf8(b[..|b| - trim])
  {
    var whole := PendingSplit(b);
    var q := FeedAll([], b).value;
    var k := |q| - trim;
    var cut := b[..|b| - trim];
    assert cut == whole + q[..k];
    FeedAllConcat([], whole, q[..k]);
    FeedAllDecidesUtf8(whole);
    PartialPends(q, k);
    FeedAllDecidesUtf8(cut);
  }

  lemma {:induction false} PartialPends(q: Bytes, k: nat)
    requires IsPartial(q) && 0 < k <= |q|
    ensures FeedAll([], q[..k]) == Some(q[..k])
  {
    var p := q[..k];
    assert IsPartial(p) && !IsChar(p);
    if k > 1 {
      PartialPends(q, k - 1);
      assert p == q[..k - 1] + [q[k - 1]];
      FeedAllConcat([], q[..k - 1], [q[k - 1]]);
      assert [q[k - 1]][1..] == [];
    } else {
      assert p == [q[0]] && [] + [q[0]] == p;
      assert p[1..] == [];
    }
  }
}
