/** Everything the strict parser accepts has a syntax tree, rebuilt here step by step. */
module GrammarSound {
  import opened Base
  import opened Text
  import opened Json
  import opened StrictJson
  import opened Grammar

  lemma LiteralSound(s: JsString, word: JsString)
    requires word <= s
    ensures s == word + s[|word|..]
  {
  }

  lemma ScalarSound(s: JsString, depth: nat, b: Bounds) returns (t: Tree, p: Parsed<Json>)
    requires ParseBare(s, depth, b).Ok? && s[0] != OPEN_BRACE && s[0] != OPEN_BRACKET && depth <= b.maxDepth
    ensures ParseBare(s, depth, b) == Ok(p)
    ensures Valid(t, depth, b) && Meaning(t) == p.value && s == Render(t) + p.rest
  {
    p := ParseBare(s, depth, b).value;
    if s[0] == QUOTE {
      var sps, q := StringSound(s, b);
      t := TStr(sps);
    } else if s[0] == LOWER_T {
      LiteralSound(s, TRUE_WORD);
      t := TBool(true);
    } else if s[0] == LOWER_F {
      LiteralSound(s, FALSE_WORD);
      t := TBool(false);
    } else if s[0] == LOWER_N {
      LiteralSound(s, NULL_WORD);
      t := TNull;
    } else {
      var q := NumberSound(s);
      t := TNum(q.value);
    }
  }

  lemma {:induction false} ValueSound(s: JsString, depth: nat, b: Bounds)
    returns (before: JsString, t: Tree, p: Parsed<Json>)
    requires ParseValue(s, depth, b).Ok?
    ensures ParseValue(s, depth, b) == Ok(p)
    ensures IsGap(before) && Valid(t, depth, b) && Meaning(t) == p.value && s == before + Render(t) + p.rest
    decreases |s|, 1
  {
    before := SkippedGap(s);
    var bare := SkipWs(s);
    SkipWsShortens(s);
    if bare[0] == OPEN_BRACKET {
      t, p := ArraySound(bare, depth, b);
    } else if bare[0] == OPEN_BRACE {
      t, p := ObjectSound(bare, depth, b);
    } else {
      t, p := ScalarSound(bare, depth, b);
    }
    Assoc3(before, Render(t), p.rest);
  }

  /** A gap and a closing mark directly after an opening one. */
  lemma EmptyBracket(s: JsString, close: Unit) returns (gap: JsString)
    requires s != [] && StartsWith(SkipWs(s[1..]), close)
    ensures IsGap(gap) && s == [s[0]] + gap + [close] + SkipWs(s[1..])[1..]
  {
    gap := SkippedGap(s[1..]);
    var inner := SkipWs(s[1..]);
    assert s == [s[0]] + s[1..];
    assert inner == [close] + inner[1..];
    Assoc4([s[0]], gap, [close], inner[1..]);
  }

  lemma {:induction false} ArraySound(s: JsString, depth: nat, b: Bounds) returns (t: Tree, p: Parsed<Json>)
    requires ParseBare(s, depth, b).Ok? && s[0] == OPEN_BRACKET && depth <= b.maxDepth
    ensures ParseBare(s, depth, b) == Ok(p)
    ensures Valid(t, depth, b) && Meaning(t) == p.value && s == Render(t) + p.rest
    decreases |s|, 0
  {
    hide ParseItems, ParseValue, RenderItems;
    if StartsWith(SkipWs(s[1..]), CLOSE_BRACKET) {
      var gap := EmptyBracket(s, CLOSE_BRACKET);
      t, p := TArr(gap, []), ParseBare(s, depth, b).value;
    } else {
      SkipBeforeItems(s[1..], depth, [], b);
      var items, q := ItemsSound(s[1..], depth, [], b);
      t, p := TArr([], items), q;
      assert [] + ItemMeanings(items) == ItemMeanings(items);
      assert s == [s[0]] + s[1..];
      Assoc4([OPEN_BRACKET], RenderItems(items), [CLOSE_BRACKET], p.rest);
    }
  }

  lemma {:induction false} ItemsSound(s: JsString, depth: nat, done: seq<Json>, b: Bounds)
    returns (items: seq<Item>, p: Parsed<Json>)
    requires ParseItems(s, depth, done, b).Ok?
    ensures ParseItems(s, depth, done, b) == Ok(p)
    ensures items != [] && ValidItems(items, depth + 1, b) && |done| + |items| <= b.maxArrayItems
    ensures p.value == Arr(done + ItemMeanings(items))
    ensures s == RenderItems(items) + ([CLOSE_BRACKET] + p.rest)
    decreases |s|, 2
  {
    var before, t, v := ValueSound(s, depth + 1, b);
    var after := SkippedGap(v.rest);
    var next := SkipWs(v.rest);
    var first := Item(before, t, after);
    SkipWsShortens(v.rest);
    ItemsStep(s, depth, done, b, v.value, v.rest);
    assert next == [next[0]] + next[1..];
    if StartsWith(next, COMMA) {
      var more, q := ItemsSound(next[1..], depth, done + [v.value], b);
      items, p := [first] + more, q;
      assert items[1..] == more;
      Assoc3(done, [v.value], ItemMeanings(more));
    } else {
      items, p := [first], Parsed(Arr(done + [v.value]), next[1..]);
      assert items[1..] == [];
      assert [v.value] + ItemMeanings(items[1..]) == [v.value];
    }
    ItemsUnfold(items, p.rest);
  }

  lemma {:induction false} ObjectSound(s: JsString, depth: nat, b: Bounds) returns (t: Tree, p: Parsed<Json>)
    requires ParseBare(s, depth, b).Ok? && s[0] == OPEN_BRACE && depth <= b.maxDepth
    ensures ParseBare(s, depth, b) == Ok(p)
    ensures Valid(t, depth, b) && Meaning(t) == p.value && s == Render(t) + p.rest
    decreases |s|, 0
  {
    hide ParseMembers, ParseKey, RenderMembers, StringOk;
    if StartsWith(SkipWs(s[1..]), CLOSE_BRACE) {
      var gap := EmptyBracket(s, CLOSE_BRACE);
      t, p := TObj(gap, []), ParseBare(s, depth, b).value;
    } else {
      SkipBeforeMembers(s[1..], depth, map[], b);
      var ms, q := MembersSound(s[1..], depth, map[], b);
      t, p := TObj([], ms), q;
      assert map[] + MemberMeanings(ms) == MemberMeanings(ms);
      assert s == [s[0]] + s[1..];
      Assoc4([OPEN_BRACE], RenderMembers(ms), [CLOSE_BRACE], p.rest);
    }
  }

  lemma KeySound(s: JsString, obj: map<JsString, Json>, b: Bounds) returns (m: Member, p: Parsed<JsString>)
    requires ParseKey(s, obj, b).Ok?
    ensures ParseKey(s, obj, b) == Ok(p)
    ensures ValidKey(m, b) && Spelled(m.key) == p.value && m.afterColon == [] && s == RenderKey(m) + p.rest
    ensures p.value !in obj && |obj| + 1 <= b.maxObjectKeys
  {
    hide ParseString, RenderString, Spelled, WellFormed;
    var before := SkippedGap(s);
    var sps, key := StringSound(SkipWs(s), b);
    var beforeColon := SkippedGap(key.rest);
    var colon := SkipWs(key.rest);
    p := Parsed(key.value, colon[1..]);
    m := Member(before, sps, beforeColon, [], TNull, []);
    assert colon == [COLON] + ([] + p.rest);
    KeyUnfold(m, p.rest);
  }

  lemma MembersInverse(s: JsString, depth: nat, done: map<JsString, Json>, b: Bounds)
    requires ParseMembers(s, depth, done, b).Ok?
    ensures ParseKey(s, done, b).Ok? && ParseValue(ParseKey(s, done, b).value.rest, depth + 1, b).Ok?
    ensures var key := ParseKey(s, done, b).value;
            var v := ParseValue(key.rest, depth + 1, b).value;
            var next := SkipWs(v.rest);
            || (StartsWith(next, COMMA) && ParseMembers(next[1..], depth, done[key.value := v.value], b).Ok?)
            || StartsWith(next, CLOSE_BRACE)
  {
  }

  lemma {:induction false} MembersSound(s: JsString, depth: nat, done: map<JsString, Json>, b: Bounds)
    returns (ms: seq<Member>, p: Parsed<Json>)
    requires ParseMembers(s, depth, done, b).Ok?
    ensures ParseMembers(s, depth, done, b) == Ok(p)
    ensures ms != [] && ValidMembers(ms, depth + 1, b) && |done| + |ms| <= b.maxObjectKeys
    ensures DistinctKeys(ms) && forall i :: 0 <= i < |ms| ==> Spelled(ms[i].key) !in done
    ensures p.value == Obj(done + MemberMeanings(ms))
    ensures s == RenderMembers(ms) + ([CLOSE_BRACE] + p.rest)
    decreases |s|, 2
  {
    hide ParseMembers, ParseKey, ParseValue, Render, RenderMembers, RenderKey, RenderString, SkipWs, StringOk, Spelled;
    MembersInverse(s, depth, done, b);
    var k, key := KeySound(s, done, b);
    var afterColon, t, v := ValueSound(key.rest, depth + 1, b);
    var after := SkippedGap(v.rest);
    var next := SkipWs(v.rest);
    var first := Member(k.before, k.key, k.beforeColon, afterColon, t, after);
    SkipWsShortens(v.rest);
    MembersStep(s, depth, done, b, key, v.value, v.rest);
    var done' := done[key.value := v.value];
    MemberSplice(k, key.rest, afterColon, t, v.rest, first);
    assert next == [next[0]] + next[1..];
    hide DistinctKeys, ValidKey, MemberMeanings;
    if StartsWith(next, COMMA) {
      var more, q := MembersSound(next[1..], depth, done', b);
      ms, p := [first] + more, q;
      PrependMember(first, more, done);
      assert AfterMember(ms, p.rest) == next;
    } else {
      ms, p := [first], Parsed(Obj(done'), next[1..]);
      PrependMember(first, [], done);
      assert AfterMember(ms, p.rest) == next;
    }
    MembersUnfold(ms, p.rest);
  }

  /** Putting a value between the colon of a key and what follows it. */
  lemma MemberSplice(k: Member, rest: JsString, afterColon: JsString, t: Tree, tail: JsString, first: Member)
    requires k.afterColon == [] && rest == afterColon + (Render(t) + tail)
    requires first == Member(k.before, k.key, k.beforeColon, afterColon, t, first.after)
    ensures RenderKey(k) + rest == RenderKey(first) + (Render(t) + tail)
  {
    KeySplit(k, afterColon, Render(t) + tail);
  }

  lemma KeySplit(k: Member, afterColon: JsString, rest: JsString)
    requires k.afterColon == []
    ensures forall v, after :: RenderKey(Member(k.before, k.key, k.beforeColon, afterColon, v, after)) + rest
                               == RenderKey(k) + (afterColon + rest)
  {
    var head := k.before + RenderString(k.key) + k.beforeColon + [COLON];
    assert head + [] == head;
    Assoc3(head, afterColon, rest);
  }

  lemma PrependMember(first: Member, more: seq<Member>, done: map<JsString, Json>)
    requires Spelled(first.key) !in done && DistinctKeys(more)
    requires forall i :: 0 <= i < |more| ==> Spelled(more[i].key) !in done[Spelled(first.key) := Meaning(first.value)]
    ensures var ms := [first] + more;
            var done' := done[Spelled(first.key) := Meaning(first.value)];
            && ms[1..] == more
            && DistinctKeys(ms)
            && (forall i :: 0 <= i < |ms| ==> Spelled(ms[i].key) !in done)
            && |done'| == |done| + 1
            && done + MemberMeanings(ms) == done' + MemberMeanings(more)
            && (more == [] ==> done + MemberMeanings(ms) == done')
  {
    var ms := [first] + more;
    assert ms[1..] == more;
    MembersDone(ms, done);
  }
}
