/** The canonical printer and the strict parser undo each other. */
module RoundTrip {
  import opened Base
  import opened Ordering
  import opened Text
  import opened Json
  import opened CanonicalJson

  // ---------- which values have a canonical form ----------

  predicate AcceptableString(s: JsString, b: Bounds) {
    |s| <= b.maxStringChars && WellFormed(s)
  }

  /** Values within the bounds: safe integers, well-formed strings and keys, limited width and depth. */
  ghost predicate Acceptable(v: Json, depth: nat, b: Bounds) {
    && depth <= b.maxDepth
    && match v
       case Null => true
       case Bool(_) => true
       case Num(n) => IsSafeInteger(n)
       case Str(s) => AcceptableString(s, b)
       case Arr(items) => |items| <= b.maxArrayItems && forall i :: 0 <= i < |items| ==> Acceptable(items[i], depth + 1, b)
       case Obj(m) =>
         |m| <= b.maxObjectKeys && forall k :: k in m ==> AcceptableString(k, b) && Acceptable(m[k], depth + 1, b)
       case _ => false
  }

  // ---------- the canonical form as a syntax tree ----------

  function CanonSpelling(u: Unit): Spelling {
    if u == QUOTE || u == BACKSLASH then Short(u)
    else if u == 0x08 then Short(LOWER_B)
    else if u == 0x09 then Short(LOWER_T)
    else if u == 0x0A then Short(LOWER_N)
    else if u == 0x0C then Short(LOWER_F)
    else if u == 0x0D then Short(LOWER_R)
    else if u < 0x20 then Hex([ZERO, ZERO, HexChar(u / 0x10), HexChar(u % 0x10)])
    else Raw(u)
  }

  function CanonSpellings(s: JsString): seq<Spelling> {
    if s == [] then [] else [CanonSpelling(s[0])] + CanonSpellings(s[1..])
  }

  function CanonTree(v: Json): Tree
    decreases v, 0
  {
    match v
    case Bool(x) => TBool(x)
    case Num(n) => TNum(n)
    case Str(s) => TStr(CanonSpellings(s))
    case Arr(items) => TArr([], CanonItems(items))
    case Obj(m) =>
      SortedFacts(m.Keys);
      assert forall k :: k in Sorted(m.Keys) ==> k in Elements(Sorted(m.Keys));
      TObj([], CanonMembers(Sorted(m.Keys), v))
    case _ => TNull
  }

  function CanonItems(items: seq<Json>): seq<Item>
    decreases items, 1
  {
    if items == [] then [] else [Item([], CanonTree(items[0]), [])] + CanonItems(items[1..])
  }

  function CanonMembers(keys: seq<JsString>, v: Json): seq<Member>
    requires v.Obj? && forall k :: k in keys ==> k in v.members
    decreases v, 0, |keys|
  {
    if keys == [] then []
    else
      [Member([], CanonSpellings(keys[0]), [], [], CanonTree(v.members[keys[0]]), [])] + CanonMembers(keys[1..], v)
  }

  lemma CanonSpellingFacts(u: Unit)
    ensures SpellingOk(CanonSpelling(u)) && SpelledUnit(CanonSpelling(u)) == u
    ensures RenderSpelling(CanonSpelling(u)) == EscapeUnit(u)
  {
  }

  lemma {:induction false} CanonSpellingsFacts(s: JsString)
    ensures SpellingsOk(CanonSpellings(s)) && Spelled(CanonSpellings(s)) == s && |CanonSpellings(s)| == |s|
    ensures RenderSpellings(CanonSpellings(s)) == EscapeAll(s)
  {
    if s != [] {
      CanonSpellingFacts(s[0]);
      CanonSpellingsFacts(s[1..]);
      assert CanonSpellings(s)[1..] == CanonSpellings(s[1..]);
      assert s == [s[0]] + s[1..];
    }
  }

  // ---------- printing is rendering the canonical tree ----------

  lemma StringErrorExact(s: JsString, b: Bounds)
    ensures StringError(s, b).None? <==> AcceptableString(s, b)
  {
  }

  lemma {:induction false} KeysErrorExact(keys: seq<JsString>, b: Bounds)
    ensures KeysError(keys, b).None? <==> forall k :: k in keys ==> AcceptableString(k, b)
  {
    if keys != [] {
      StringErrorExact(keys[0], b);
      KeysErrorExact(keys[1..], b);
      assert forall k :: k in keys <==> k == keys[0] || k in keys[1..];
    }
  }

  lemma {:induction false} SerializeExact(v: Json, depth: nat, b: Bounds)
    ensures Serialize(v, depth, b).Ok? <==> Acceptable(v, depth, b)
    ensures Acceptable(v, depth, b) ==>
      && Serialize(v, depth, b) == Ok(Render(CanonTree(v)))
      && Valid(CanonTree(v), depth, b)
      && Meaning(CanonTree(v)) == v
    decreases v, 1
  {
    match v {
      case Str(s) =>
        StringErrorExact(s, b);
        CanonSpellingsFacts(s);
      case Arr(items) =>
        if depth <= b.maxDepth && |items| <= b.maxArrayItems { ItemsExact(items, depth + 1, b); }
      case Obj(m) =>
        if depth <= b.maxDepth && |m| <= b.maxObjectKeys { ObjectExact(v, depth, b); }
      case _ =>
    }
  }

  lemma {:induction false} ItemsExact(items: seq<Json>, depth: nat, b: Bounds)
    ensures SerializeItems(items, depth, b).Ok? <==> forall i :: 0 <= i < |items| ==> Acceptable(items[i], depth, b)
    ensures SerializeItems(items, depth, b).Ok? ==>
      && ValidItems(CanonItems(items), depth, b)
      && ItemMeanings(CanonItems(items)) == items
      && |CanonItems(items)| == |items|
      && |SerializeItems(items, depth, b).value| == |items|
      && (items != [] ==> JoinCommas(SerializeItems(items, depth, b).value) == RenderItems(CanonItems(items)))
    decreases items, 2
  {
    if items != [] {
      var rest := items[1..];
      SerializeExact(items[0], depth, b);
      ItemsExact(rest, depth, b);
      assert forall i :: 0 < i < |items| ==> items[i] == rest[i - 1];
      assert forall i :: 0 <= i < |rest| ==> rest[i] == items[i + 1];
      assert CanonItems(items)[1..] == CanonItems(rest);
      assert items == [items[0]] + rest;
      if SerializeItems(items, depth, b).Ok? {
        var first := Render(CanonTree(items[0]));
        assert SerializeItems(items, depth, b).value == [first] + SerializeItems(rest, depth, b).value;
        assert [] + first + [] == first;
      }
    }
  }

  /** What `SerializeExact` says of one value. */
  ghost predicate PrintsExactly(v: Json, depth: nat, b: Bounds) {
    && (Serialize(v, depth, b).Ok? <==> Acceptable(v, depth, b))
    && (Acceptable(v, depth, b) ==>
          && Serialize(v, depth, b) == Ok(Render(CanonTree(v)))
          && Valid(CanonTree(v), depth, b)
          && Meaning(CanonTree(v)) == v)
  }

  lemma {:induction false} ObjectExact(v: Json, depth: nat, b: Bounds)
    requires v.Obj? && depth <= b.maxDepth && |v.members| <= b.maxObjectKeys
    ensures PrintsExactly(v, depth, b)
    decreases v, 0
  {
    hide Acceptable, CanonTree, Meaning, Render, Serialize, Sorted;
    var m := v.members;
    var keys := Sorted(m.Keys);
    SortedKeysFacts(m);
    KeysErrorExact(keys, b);
    forall k | k in keys ensures PrintsExactly(m[k], depth + 1, b) {
      SerializeExact(m[k], depth + 1, b);
    }
    AcceptableObject(v, depth, b);
    SerializeMembersOk(keys, v, depth + 1, b);
    ObjectSerializes(keys, v, depth, b);
    if Acceptable(v, depth, b) {
      assert forall k :: k in keys ==> Serialize(m[k], depth + 1, b).Ok?;
      ObjectPrints(keys, v, depth, b);
    }
  }

  lemma SortedKeysFacts(m: map<JsString, Json>)
    ensures var keys := Sorted(m.Keys);
            NoDuplicates(keys) && |keys| == |m| && forall k :: k in m <==> k in keys
  {
    var keys := Sorted(m.Keys);
    SortedFacts(m.Keys);
    IncreasingNoDuplicates(keys);
    assert forall k :: k in m <==> k in Elements(keys);
    assert |m.Keys| == |m|;
  }

  lemma ObjectSerializes(keys: seq<JsString>, v: Json, depth: nat, b: Bounds)
    requires v.Obj? && depth <= b.maxDepth && |v.members| <= b.maxObjectKeys && keys == Sorted(v.members.Keys)
    requires forall k :: k in keys ==> k in v.members
    ensures Serialize(v, depth, b).Ok? <==> KeysError(keys, b).None? && SerializeMembers(keys, v, depth + 1, b).Ok?
  {
    hide KeysError, SerializeMembers, Sorted;
  }

  lemma ObjectPrints(keys: seq<JsString>, v: Json, depth: nat, b: Bounds)
    requires v.Obj? && depth <= b.maxDepth && |v.members| <= b.maxObjectKeys
    requires keys == Sorted(v.members.Keys) && NoDuplicates(keys) && |keys| == |v.members|
    requires forall k :: k in v.members <==> k in keys
    requires forall k :: k in keys ==>
      AcceptableString(k, b) && Acceptable(v.members[k], depth + 1, b) && PrintsExactly(v.members[k], depth + 1, b)
    requires SerializeMembers(keys, v, depth + 1, b).Ok? && KeysError(keys, b).None?
    ensures Serialize(v, depth, b) == Ok(Render(CanonTree(v)))
    ensures Valid(CanonTree(v), depth, b) && Meaning(CanonTree(v)) == v
  {
    hide Acceptable, AcceptableString, CanonMembers, CanonTree, DistinctKeys, JoinCommas, KeysError, Meaning,
      MemberMeanings, NoDuplicates, Render, RenderMembers, Restrict, Serialize, SerializeMembers, Sorted, Valid,
      ValidMembers;
    CanonMembersAre(keys, v);
    CanonMembersText(keys, v, depth + 1, b);
    CanonMembersValid(keys, v, depth + 1, b);
    CanonMembersMean(keys, v);
    RestrictToAll(v.members, keys);
    CanonObject(keys, v, depth, b);
  }

  lemma CanonObject(keys: seq<JsString>, v: Json, depth: nat, b: Bounds)
    requires v.Obj? && depth <= b.maxDepth && |v.members| <= b.maxObjectKeys && keys == Sorted(v.members.Keys)
    requires forall k :: k in keys ==> k in v.members
    requires SerializeMembers(keys, v, depth + 1, b).Ok? && KeysError(keys, b).None?
    requires var ms := CanonMembers(keys, v);
      && |ms| == |keys| <= b.maxObjectKeys && ValidMembers(ms, depth + 1, b) && DistinctKeys(ms)
      && MemberMeanings(ms) == v.members
      && JoinCommas(SerializeMembers(keys, v, depth + 1, b).value) == if ms == [] then [] else RenderMembers(ms)
    ensures Serialize(v, depth, b) == Ok(Render(CanonTree(v)))
    ensures Valid(CanonTree(v), depth, b) && Meaning(CanonTree(v)) == v
  {
    hide WellFormed, SerializeMembers, CanonMembers, RenderMembers, MemberMeanings, ValidMembers, JoinCommas;
    assert CanonTree(v) == TObj([], CanonMembers(keys, v));
  }

  lemma AcceptableObject(v: Json, depth: nat, b: Bounds)
    requires v.Obj?
    ensures Acceptable(v, depth, b) <==>
      && depth <= b.maxDepth
      && |v.members| <= b.maxObjectKeys
      && forall k :: k in v.members ==> AcceptableString(k, b) && Acceptable(v.members[k], depth + 1, b)
  {
  }

  lemma {:induction false} SerializeMembersOk(keys: seq<JsString>, v: Json, depth: nat, b: Bounds)
    requires v.Obj? && forall k :: k in keys ==> k in v.members
    ensures SerializeMembers(keys, v, depth, b).Ok? <==> forall k :: k in keys ==> Serialize(v.members[k], depth, b).Ok?
  {
    if keys != [] {
      assert forall k :: k in keys <==> k == keys[0] || k in keys[1..];
      SerializeMembersOk(keys[1..], v, depth, b);
    }
  }

  function CanonMember(k: JsString, v: Json): Member
    requires v.Obj? && k in v.members
  {
    Member([], CanonSpellings(k), [], [], CanonTree(v.members[k]), [])
  }

  lemma {:induction false} CanonMembersAre(keys: seq<JsString>, v: Json)
    requires v.Obj? && NoDuplicates(keys) && forall k :: k in keys ==> k in v.members
    ensures var ms := CanonMembers(keys, v);
      && |ms| == |keys|
      && (forall i :: 0 <= i < |ms| ==> ms[i] == CanonMember(keys[i], v))
      && DistinctKeys(ms)
  {
    var ms := CanonMembers(keys, v);
    hide CanonSpellings, CanonTree, Spelled, WellFormed;
    if keys != [] {
      CanonMembersAre(keys[1..], v);
      assert ms[1..] == CanonMembers(keys[1..], v);
      assert forall i :: 0 < i < |keys| ==> ms[i] == ms[1..][i - 1] && keys[i] == keys[1..][i - 1];
    }
    hide CanonMembers;
    forall i | 0 <= i < |ms| ensures Spelled(ms[i].key) == keys[i] { CanonSpellingsFacts(keys[i]); }
  }

  lemma {:induction false} CanonMembersText(keys: seq<JsString>, v: Json, depth: nat, b: Bounds)
    requires v.Obj? && forall k :: k in keys ==> k in v.members
    requires forall k :: k in keys ==> Serialize(v.members[k], depth, b) == Ok(Render(CanonTree(v.members[k])))
    requires SerializeMembers(keys, v, depth, b).Ok?
    ensures var ms := CanonMembers(keys, v);
            && |ms| == |keys| == |SerializeMembers(keys, v, depth, b).value|
            && JoinCommas(SerializeMembers(keys, v, depth, b).value) == if ms == [] then [] else RenderMembers(ms)
  {
    if keys != [] {
      CanonMembersText(keys[1..], v, depth, b);
      var first := CanonMember(keys[0], v);
      var more := CanonMembers(keys[1..], v);
      CanonSpellingsFacts(keys[0]);
      CanonMemberText(first, Stringify(keys[0]));
      JoinPrepends(RenderKey(first) + Render(first.value), SerializeMembers(keys[1..], v, depth, b).value);
      assert ([first] + more)[1..] == more;
    }
  }

  lemma CanonMemberText(m: Member, key: JsString)
    requires m.before == m.beforeColon == m.afterColon == m.after == [] && RenderString(m.key) == key
    ensures RenderKey(m) + Render(m.value) == key + [COLON] + Render(m.value)
    ensures RenderKey(m) + Render(m.value) + m.after == RenderKey(m) + Render(m.value)
  {
  }

  lemma JoinPrepends(first: JsString, rest: seq<JsString>)
    ensures JoinCommas([first] + rest) == if rest == [] then first else first + [COMMA] + JoinCommas(rest)
  {
    assert ([first] + rest)[1..] == rest;
  }

  lemma {:induction false} CanonMembersValid(keys: seq<JsString>, v: Json, depth: nat, b: Bounds)
    requires v.Obj? && forall k :: k in keys ==> k in v.members
    requires forall k :: k in keys ==> AcceptableString(k, b) && Valid(CanonTree(v.members[k]), depth, b)
    ensures ValidMembers(CanonMembers(keys, v), depth, b)
  {
    if keys != [] {
      CanonSpellingsFacts(keys[0]);
      CanonMembersValid(keys[1..], v, depth, b);
      assert CanonMembers(keys, v)[1..] == CanonMembers(keys[1..], v);
    }
  }

  lemma {:induction false} CanonMembersMean(keys: seq<JsString>, v: Json)
    requires v.Obj? && forall k :: k in keys ==> k in v.members && Meaning(CanonTree(v.members[k])) == v.members[k]
    ensures MemberMeanings(CanonMembers(keys, v)) == Restrict(v.members, keys)
  {
    if keys != [] {
      CanonSpellingsFacts(keys[0]);
      CanonMembersMean(keys[1..], v);
      assert CanonMembers(keys, v)[1..] == CanonMembers(keys[1..], v);
      RestrictCons(v.members, keys);
    }
  }

  function Restrict<K, V>(m: map<K, V>, keys: seq<K>): map<K, V> {
    map k | k in keys && k in m :: m[k]
  }

  lemma RestrictToAll<K, V>(m: map<K, V>, keys: seq<K>)
    requires forall k :: k in m ==> k in keys
    ensures Restrict(m, keys) == m
  {
  }

  lemma RestrictCons<K, V>(m: map<K, V>, keys: seq<K>)
    requires keys != [] && keys[0] in m
    ensures Restrict(m, keys) == map[keys[0] := m[keys[0]]] + Restrict(m, keys[1..])
  {
    assert forall k :: k in keys <==> k == keys[0] || k in keys[1..];
  }
}
