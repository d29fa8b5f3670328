/** What each schema keyword asks of a value, said without the evaluator: types, numbers, strings, arrays and objects. */
module SchemaText {
  import opened Base
  import opened Json
  import opened CanonicalJson
  import opened JsonSchema

  /** The type names that a value answers to; minus zero is an integer, and a foreign value has no type. */
  function TypesOf(v: Json): set<TypeName> {
    match v
    case Null => {NullType}
    case Bool(_) => {BooleanType}
    case Num(_) => {IntegerType, NumberType}
    case NegZero => {IntegerType, NumberType}
    case Frac(_) => {NumberType}
    case Str(_) => {StringType}
    case Arr(_) => {ArrayType}
    case Obj(_) => {ObjectType}
    case Foreign => {}
  }

  lemma TypesExactly(v: Json, t: TypeName)
    ensures HasType(v, t) <==> t in TypesOf(v)
  {
  }

  /** The value is the same as one that has a canonical form. */
  ghost predicate Same(v: Json, w: Json) {
    v == w && Canonicalize(v, CANONICAL_BOUNDS).Ok?
  }

  ghost predicate NumberWithin(x: real, s: Schema) {
    !(s.minimum.Some? && x < s.minimum.value) && !(s.maximum.Some? && x > s.maximum.value)
  }

  /** What a number keyword compares. */
  ghost predicate NumberFits(s: Schema, v: Json) {
    match v
    case Num(n) => NumberWithin(n as real, s)
    case NegZero => NumberWithin(0.0, s)
    case Frac(r) => NumberWithin(r, s)
    case _ => true
  }

  ghost predicate StringFits(s: Schema, v: Json, matches: Matcher) {
    match v
    case Str(x) =>
      && !(s.pattern.Some? && !matches(s.pattern.value, x))
      && !(s.minLength.Some? && |x| < s.minLength.value) && !(s.maxLength.Some? && |x| > s.maxLength.value)
    case _ => true
  }

  ghost predicate ArrayFits(s: Schema, v: Json) {
    match v
    case Arr(items) =>
      && !(s.minItems.Some? && |items| < s.minItems.value) && !(s.maxItems.Some? && |items| > s.maxItems.value)
      && !(s.uniqueItems && exists i, j :: 0 <= i < j < |items| && Same(items[i], items[j]))
    case _ => true
  }

  ghost predicate ObjectFits(s: Schema, v: Json) {
    match v
    case Obj(m) =>
      && (forall k :: k in s.required ==> k in m)
      && (s.closed ==> forall k :: k in m ==> exists p :: p in s.properties && p.name == k)
    case _ => true
  }

  /** The keywords that look at the value alone. */
  ghost predicate Fits(s: Schema, v: Json, matches: Matcher) {
    && (s.kind.Some? ==> s.kind.value in TypesOf(v))
    && (s.constant.Some? ==> Same(v, s.constant.value))
    && (s.choices.Some? ==> exists w :: w in s.choices.value && Same(v, w))
    && StringFits(s, v, matches) && NumberFits(s, v) && ArrayFits(s, v) && ObjectFits(s, v)
  }

  lemma FitsExactly(s: Schema, v: Json, matches: Matcher)
    ensures LocallyOk(s, v, matches) <==> Fits(s, v, matches)
  {
    hide Canonicalize, HasProperty, HasType;
    if s.kind.Some? { TypesExactly(v, s.kind.value); }
    if v.Arr? {
      forall i, j | 0 <= i < j < |v.items|
        ensures Same(v.items[i], v.items[j]) <==> v.items[i] == v.items[j] && HasCanonicalForm(v.items[i]) {}
    }
    if v.Obj? { ObjectFitsExactly(s, v); }
  }

  lemma ObjectFitsExactly(s: Schema, v: Json)
    requires v.Obj?
    ensures KeysOk(s, v) <==> ObjectFits(s, v)
  {
    forall k ensures HasProperty(s, k) <==> exists p :: p in s.properties && p.name == k {
      if HasProperty(s, k) {
        var i :| 0 <= i < |s.properties| && s.properties[i].name == k;
        assert s.properties[i] in s.properties;
      }
      if p :| p in s.properties && p.name == k {
        var i :| 0 <= i < |s.properties| && s.properties[i] == p;
      }
    }
    assert forall k :: k in s.required <==> exists i :: 0 <= i < |s.required| && s.required[i] == k;
  }

  /**
   What a schema asks: its reference and nothing else, if it has one; or exactly one of its alternatives, its keywords,
   and its subschemas of the items and of the members that are there.
   */
  lemma SatisfiesExactly(defs: Definitions, rank: map<JsString, nat>, matches: Matcher, s: Schema, v: Json)
    requires Ranked(defs, rank)
    ensures s.ref.Some? ==>
      (Satisfies(defs, rank, matches, s, v) <==>
        s.ref.value in defs && Satisfies(defs, rank, matches, defs[s.ref.value], v))
    ensures s.ref.None? ==>
      (Satisfies(defs, rank, matches, s, v) <==>
        && (s.hasOneOf ==> exists i :: 0 <= i < |s.oneOf| && OnlyOne(defs, rank, matches, s, v, i))
        && Fits(s, v, matches)
        && (v.Arr? && s.items.Some? ==>
              forall i :: 0 <= i < |v.items| ==> Satisfies(defs, rank, matches, s.items.value, v.items[i]))
        && (v.Obj? ==>
              forall i :: 0 <= i < |s.properties| && s.properties[i].name in v.members ==>
                Satisfies(defs, rank, matches, s.properties[i].schema, v.members[s.properties[i].name])))
  {
    hide ExactlyOne, Fits, LocallyOk, OnlyOne;
    FitsExactly(s, v, matches);
    if s.ref.None? && s.hasOneOf { OneExactly(defs, rank, matches, s, v); }
  }

  lemma OneExactly(defs: Definitions, rank: map<JsString, nat>, matches: Matcher, s: Schema, v: Json)
    requires Ranked(defs, rank) && s.ref.None? && s.hasOneOf
    ensures ExactlyOne(defs, rank, matches, s, v) <==>
      exists i :: 0 <= i < |s.oneOf| && OnlyOne(defs, rank, matches, s, v, i)
  {
    hide ExactlyOne, OnlyOne;
    if ExactlyOne(defs, rank, matches, s, v) { var i := TheOne(defs, rank, matches, s, v); }
    if i :| 0 <= i < |s.oneOf| && OnlyOne(defs, rank, matches, s, v, i) { OneIsExact(defs, rank, matches, s, v, i); }
  }

  lemma TheOne(defs: Definitions, rank: map<JsString, nat>, matches: Matcher, s: Schema, v: Json) returns (i: int)
    requires Ranked(defs, rank) && s.ref.None? && s.hasOneOf && ExactlyOne(defs, rank, matches, s, v)
    ensures 0 <= i < |s.oneOf| && OnlyOne(defs, rank, matches, s, v, i)
  {
    hide Ranked, Satisfies;
    i :| 0 <= i < |s.oneOf| && Satisfies(defs, rank, matches, s.oneOf[i], v)
      && forall j :: 0 <= j < |s.oneOf| && j != i ==> !Satisfies(defs, rank, matches, s.oneOf[j], v);
  }

  lemma OneIsExact(defs: Definitions, rank: map<JsString, nat>, matches: Matcher, s: Schema, v: Json, i: int)
    requires Ranked(defs, rank) && s.ref.None? && s.hasOneOf
    requires 0 <= i < |s.oneOf| && OnlyOne(defs, rank, matches, s, v, i)
    ensures ExactlyOne(defs, rank, matches, s, v)
  {
    hide Ranked, Satisfies;
    assert Satisfies(defs, rank, matches, s.oneOf[i], v);
  }

  ghost predicate OnlyOne(defs: Definitions, rank: map<JsString, nat>, matches: Matcher, s: Schema, v: Json, i: int)
    requires Ranked(defs, rank) && 0 <= i < |s.oneOf|
  {
    forall j :: 0 <= j < |s.oneOf| ==> (Satisfies(defs, rank, matches, s.oneOf[j], v) <==> j == i)
  }
}
