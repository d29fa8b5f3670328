/** The JSON Schema subset evaluator and the satisfaction relation it decides. */
module JsonSchema {
  import opened Base
  import opened Ordering
  import opened Json
  import opened Grammar
  import opened CanonicalJson
  import opened CanonicalTheorems

  // ---------- schemas ----------

  datatype TypeName = ObjectType | ArrayType | StringType | IntegerType | NumberType | BooleanType | NullType | UnknownType

  datatype Property = Property(name: JsString, schema: Schema)

  /** A schema of the supported subset; an absent keyword is `None`, `[]` or `false`. */
  datatype Schema = Schema(
    ref: Option<JsString>,
    hasOneOf: bool,
    oneOf: seq<Schema>,
    kind: Option<TypeName>,
    constant: Option<Json>,
    choices: Option<seq<Json>>,
    pattern: Option<JsString>,
    minLength: Option<int>,
    maxLength: Option<int>,
    minimum: Option<real>,
    maximum: Option<real>,
    minItems: Option<int>,
    maxItems: Option<int>,
    uniqueItems: bool,
    items: Option<Schema>,
    required: seq<JsString>,
    properties: seq<Property>,
    closed: bool)

  type Definitions = map<JsString, Schema>

  /** Whether a regular expression, given by its source, matches a string. */
  type Matcher = (JsString, JsString) -> bool

  datatype PathStep = Key(name: JsString) | Index(i: nat)

  datatype SchemaError = SchemaError(path: seq<PathStep>, message: Complaint)

  datatype Complaint =
    | NotExactlyOne(passed: nat)
    | WrongType
    | NotConstant
    | NotInEnum
    | PatternMismatch
    | TooShort
    | TooLong
    | BelowMinimum
    | AboveMaximum
    | TooFewItems
    | TooManyItems
    | NotUnique
    | MissingKey(key: JsString)
    | UnknownKey(key: JsString)

  // ---------- termination: no reference cycle that consumes nothing of the value ----------

  function MaxLevel(branches: seq<Schema>, rank: map<JsString, nat>): (m: nat)
    ensures forall i :: 0 <= i < |branches| ==> Level(branches[i], rank) <= m
    decreases branches
  {
    if branches == [] then 0 else Max(Level(branches[0], rank), MaxLevel(branches[1..], rank))
  }

  /** How many references `visit` can follow from a schema before it must look inside the value. */
  function Level(s: Schema, rank: map<JsString, nat>): nat
    decreases s
  {
    if s.ref.Some? then (if s.ref.value in rank then rank[s.ref.value] + 1 else 0)
    else if s.hasOneOf then MaxLevel(s.oneOf, rank)
    else 0
  }

  ghost predicate Ranked(defs: Definitions, rank: map<JsString, nat>) {
    forall n :: n in defs ==> n in rank && Level(defs[n], rank) <= rank[n]
  }

  /** No chain of `$ref` and `oneOf` alone leads from a definition back to itself. */
  ghost predicate WellFounded(defs: Definitions) {
    exists rank :: Ranked(defs, rank)
  }

  // ---------- equality through the canonical form ----------

  /** `deepEqual`: the canonical texts exist and agree. */
  predicate DeepEqual(a: Json, b: Json) {
    match Canonicalize(a, CANONICAL_BOUNDS)
    case Err(_) => false
    case Ok(x) =>
      match Canonicalize(b, CANONICAL_BOUNDS)
      case Err(_) => false
      case Ok(y) => x == y
  }

  predicate HasCanonicalForm(v: Json) {
    Canonicalize(v, CANONICAL_BOUNDS).Ok?
  }

  /** `deepEqual` is equality of values, on the values that have a canonical form. */
  lemma DeepEqualIsEquality(a: Json, b: Json)
    ensures DeepEqual(a, b) <==> a == b && HasCanonicalForm(a)
  {
    if HasCanonicalForm(a) && HasCanonicalForm(b) { CanonicalizeIsInjective(a, b, CANONICAL_BOUNDS); }
  }

  const HASH: Unit := 0x23

  /** The key `uniqueItems` files an item under. */
  function ItemKey(item: Json, idx: nat): JsString {
    match Canonicalize(item, CANONICAL_BOUNDS)
    case Ok(text) => text
    case Err(_) => [HASH] + Decimal(idx)
  }

  lemma CanonicalNeverHash(v: Json)
    requires HasCanonicalForm(v)
    ensures var text := Canonicalize(v, CANONICAL_BOUNDS).value; text != [] && text[0] != HASH
  {
    match v {
      case Num(n) => NumberComplete(n, []);
      case _ =>
    }
  }

  /** Two items share a key exactly when they are the same value and it has a canonical form. */
  lemma ItemKeysCollide(a: Json, i: nat, b: Json, j: nat)
    requires i != j
    ensures ItemKey(a, i) == ItemKey(b, j) <==> a == b && HasCanonicalForm(a)
  {
    if HasCanonicalForm(a) {
      CanonicalNeverHash(a);
      if HasCanonicalForm(b) { CanonicalizeIsInjective(a, b, CANONICAL_BOUNDS); }
    } else if HasCanonicalForm(b) {
      CanonicalNeverHash(b);
    } else {
      NatDigitsShape(i);
      NatDigitsShape(j);
      assert ([HASH] + Decimal(i))[1..] == Decimal(i) && ([HASH] + Decimal(j))[1..] == Decimal(j);
    }
  }

  // ---------- satisfaction ----------

  predicate HasType(v: Json, t: TypeName) {
    match t
    case ObjectType => v.Obj?
    case ArrayType => v.Arr?
    case StringType => v.Str?
    case IntegerType => v.Num? || v.NegZero?
    case NumberType => IsNumber(v)
    case BooleanType => v.Bool?
    case NullType => v.Null?
    case UnknownType => false
  }

  predicate IsNumber(v: Json) { v.Num? || v.NegZero? || v.Frac? }

  function NumberValue(v: Json): real
    requires IsNumber(v)
  {
    if v.Num? then v.n as real else if v.NegZero? then 0.0 else v.r
  }

  predicate StringOk(s: Schema, v: Json, matches: Matcher) {
    v.Str? ==>
      && (s.pattern.Some? ==> matches(s.pattern.value, v.s))
      && (s.minLength.Some? ==> s.minLength.value <= |v.s|)
      && (s.maxLength.Some? ==> |v.s| <= s.maxLength.value)
  }

  predicate NumberOk(s: Schema, v: Json) {
    IsNumber(v) ==>
      && (s.minimum.Some? ==> s.minimum.value <= NumberValue(v))
      && (s.maximum.Some? ==> NumberValue(v) <= s.maximum.value)
  }

  /** No two positions hold the same value; values without a canonical form are never the same. */
  ghost predicate AllDifferent(items: seq<Json>) {
    forall i, j :: 0 <= i < j < |items| ==> !(items[i] == items[j] && HasCanonicalForm(items[i]))
  }

  ghost predicate ItemsOk(s: Schema, v: Json) {
    v.Arr? ==>
      && (s.minItems.Some? ==> s.minItems.value <= |v.items|)
      && (s.maxItems.Some? ==> |v.items| <= s.maxItems.value)
      && (s.uniqueItems ==> AllDifferent(v.items))
  }

  predicate HasProperty(s: Schema, key: JsString) {
    exists i :: 0 <= i < |s.properties| && s.properties[i].name == key
  }

  ghost predicate KeysOk(s: Schema, v: Json) {
    v.Obj? ==>
      && (forall i :: 0 <= i < |s.required| ==> s.required[i] in v.members)
      && (s.closed ==> forall k :: k in v.members ==> HasProperty(s, k))
  }

  /** The keywords that do not look at other schemas. */
  ghost predicate LocallyOk(s: Schema, v: Json, matches: Matcher) {
    && (s.kind.Some? ==> HasType(v, s.kind.value))
    && (s.constant.Some? ==> v == s.constant.value && HasCanonicalForm(v))
    && (s.choices.Some? ==> v in s.choices.value && HasCanonicalForm(v))
    && StringOk(s, v, matches)
    && NumberOk(s, v)
    && ItemsOk(s, v)
    && KeysOk(s, v)
  }

  /**
   What a schema says of a value, keyword by keyword. The rank only shows that the definition is well founded
   (`RankIsIrrelevant`).
   */
  ghost predicate Satisfies(defs: Definitions, rank: map<JsString, nat>, matches: Matcher, s: Schema, v: Json)
    requires Ranked(defs, rank)
    decreases v, Level(s, rank), s, 2
  {
    if s.ref.Some? then
      s.ref.value in defs && Satisfies(defs, rank, matches, defs[s.ref.value], v)
    else
      && (s.hasOneOf ==> ExactlyOne(defs, rank, matches, s, v))
      && LocallyOk(s, v, matches)
      && (v.Arr? && s.items.Some? ==>
            forall i :: 0 <= i < |v.items| ==> Satisfies(defs, rank, matches, s.items.value, v.items[i]))
      && (v.Obj? ==>
            forall i :: 0 <= i < |s.properties| && s.properties[i].name in v.members ==>
              Satisfies(defs, rank, matches, s.properties[i].schema, v.members[s.properties[i].name]))
  }

  /** Exactly one alternative accepts the value. */
  ghost predicate ExactlyOne(defs: Definitions, rank: map<JsString, nat>, matches: Matcher, s: Schema, v: Json)
    requires Ranked(defs, rank) && s.ref.None? && s.hasOneOf
    decreases v, Level(s, rank), s, 0
  {
    exists i {:trigger s.oneOf[i]} ::
      && 0 <= i < |s.oneOf|
      && Satisfies(defs, rank, matches, s.oneOf[i], v)
      && forall j {:trigger s.oneOf[j]} ::
           0 <= j < |s.oneOf| && j != i ==> !Satisfies(defs, rank, matches, s.oneOf[j], v)
  }

  lemma ExactlyOneAgrees(
      defs: Definitions, r1: map<JsString, nat>, r2: map<JsString, nat>, matches: Matcher, s: Schema, v: Json)
    requires Ranked(defs, r1) && Ranked(defs, r2) && s.ref.None? && s.hasOneOf
    requires forall i :: 0 <= i < |s.oneOf| ==>
      (Satisfies(defs, r1, matches, s.oneOf[i], v) <==> Satisfies(defs, r2, matches, s.oneOf[i], v))
    ensures ExactlyOne(defs, r1, matches, s, v) ==> ExactlyOne(defs, r2, matches, s, v)
  {
  }

  /** The rank is only a termination argument: every rank gives the same relation. */
  lemma {:induction false} RankIsIrrelevant(
      defs: Definitions, r1: map<JsString, nat>, r2: map<JsString, nat>, matches: Matcher, s: Schema, v: Json)
    requires Ranked(defs, r1) && Ranked(defs, r2)
    ensures Satisfies(defs, r1, matches, s, v) <==> Satisfies(defs, r2, matches, s, v)
    decreases v, Level(s, r1), s
  {
    hide LocallyOk;
    if s.ref.Some? {
      if s.ref.value in defs { RankIsIrrelevant(defs, r1, r2, matches, defs[s.ref.value], v); }
    } else {
      if s.hasOneOf {
        forall i | 0 <= i < |s.oneOf|
          ensures Satisfies(defs, r1, matches, s.oneOf[i], v) <==> Satisfies(defs, r2, matches, s.oneOf[i], v)
        {
          RankIsIrrelevant(defs, r1, r2, matches, s.oneOf[i], v);
        }
        ExactlyOneAgrees(defs, r1, r2, matches, s, v);
        ExactlyOneAgrees(defs, r2, r1, matches, s, v);
      }
      if v.Arr? && s.items.Some? {
        forall i | 0 <= i < |v.items|
          ensures Satisfies(defs, r1, matches, s.items.value, v.items[i])
                  <==> Satisfies(defs, r2, matches, s.items.value, v.items[i])
        {
          RankIsIrrelevant(defs, r1, r2, matches, s.items.value, v.items[i]);
        }
      }
      if v.Obj? {
        forall i | 0 <= i < |s.properties| && s.properties[i].name in v.members
          ensures Satisfies(defs, r1, matches, s.properties[i].schema, v.members[s.properties[i].name])
                  <==> Satisfies(defs, r2, matches, s.properties[i].schema, v.members[s.properties[i].name])
        {
          RankIsIrrelevant(defs, r1, r2, matches, s.properties[i].schema, v.members[s.properties[i].name]);
        }
      }
    }
  }

  /** Every reference inside a schema names a definition. */
  ghost predicate Resolves(s: Schema, defs: Definitions)
    decreases s
  {
    && (s.ref.Some? ==> s.ref.value in defs)
    && (forall i :: 0 <= i < |s.oneOf| ==> Resolves(s.oneOf[i], defs))
    && (s.items.Some? ==> Resolves(s.items.value, defs))
    && (forall i :: 0 <= i < |s.properties| ==> Resolves(s.properties[i].schema, defs))
  }

  ghost predicate Closed(defs: Definitions) {
    forall n :: n in defs ==> Resolves(defs[n], defs)
  }

  // ---------- what is complained about ----------

  /** The complaint of the keywords that end a visit. */
  predicate ValueGives(s: Schema, v: Json, c: Complaint) {
    if s.kind.Some? && !HasType(v, s.kind.value) then c == WrongType
    else if s.constant.Some? && !(v == s.constant.value && HasCanonicalForm(v)) then c == NotConstant
    else s.choices.Some? && !(v in s.choices.value && HasCanonicalForm(v)) && c == NotInEnum
  }

  predicate StringGives(s: Schema, v: Json, matches: Matcher, c: Complaint) {
    && v.Str?
    && (|| (c == PatternMismatch && s.pattern.Some? && !matches(s.pattern.value, v.s))
        || (c == TooShort && s.minLength.Some? && |v.s| < s.minLength.value)
        || (c == TooLong && s.maxLength.Some? && |v.s| > s.maxLength.value))
  }

  predicate NumberGives(s: Schema, v: Json, c: Complaint) {
    && IsNumber(v)
    && (|| (c == BelowMinimum && s.minimum.Some? && NumberValue(v) < s.minimum.value)
        || (c == AboveMaximum && s.maximum.Some? && NumberValue(v) > s.maximum.value))
  }

  /** The complaints about a string or a number. */
  predicate ScalarGives(s: Schema, v: Json, matches: Matcher, c: Complaint) {
    StringGives(s, v, matches, c) || NumberGives(s, v, c)
  }

  /** The complaints about the items of an array. */
  ghost predicate ItemsGive(s: Schema, v: Json, c: Complaint) {
    && v.Arr?
    && (|| (c == TooFewItems && s.minItems.Some? && |v.items| < s.minItems.value)
        || (c == TooManyItems && s.maxItems.Some? && |v.items| > s.maxItems.value)
        || (c == NotUnique && s.uniqueItems && !AllDifferent(v.items)))
  }

  /** The complaints about the keys of an object. */
  predicate KeysGive(s: Schema, v: Json, c: Complaint) {
    && v.Obj?
    && (|| (c.MissingKey? && c.key in s.required && c.key !in v.members)
        || (c.UnknownKey? && s.closed && c.key in v.members && !HasProperty(s, c.key)))
  }

  ghost predicate LocalGives(s: Schema, v: Json, matches: Matcher, c: Complaint) {
    if ValueOk(s, v) then ScalarGives(s, v, matches, c) || ItemsGive(s, v, c) || KeysGive(s, v, c)
    else ValueGives(s, v, c)
  }

  predicate ValueOk(s: Schema, v: Json) {
    && (s.kind.Some? ==> HasType(v, s.kind.value))
    && (s.constant.Some? ==> v == s.constant.value && HasCanonicalForm(v))
    && (s.choices.Some? ==> v in s.choices.value && HasCanonicalForm(v))
  }

  /** How many alternatives accept the value. */
  ghost function Accepting(defs: Definitions, rank: map<JsString, nat>, matches: Matcher, s: Schema, v: Json): set<nat>
    requires Ranked(defs, rank)
  {
    set i: nat | i < |s.oneOf| && Satisfies(defs, rank, matches, s.oneOf[i], v)
  }

  /** The visit of a value complains about the part of it that the path leads to. */
  ghost predicate Objects(defs: Definitions, rank: map<JsString, nat>, matches: Matcher, s: Schema, v: Json,
      at: seq<PathStep>, c: Complaint)
    requires Ranked(defs, rank)
    decreases v, Level(s, rank), s
  {
    if s.ref.Some? then s.ref.value in defs && Objects(defs, rank, matches, defs[s.ref.value], v, at, c)
    else if s.hasOneOf && !ExactlyOne(defs, rank, matches, s, v) then
      at == [] && c == NotExactlyOne(|Accepting(defs, rank, matches, s, v)|)
    else
      || (at == [] && LocalGives(s, v, matches, c))
      || (ValueOk(s, v) && v.Arr? && s.items.Some? && at != [] && at[0].Index? && at[0].i < |v.items|
          && Objects(defs, rank, matches, s.items.value, v.items[at[0].i], at[1..], c))
      || (ValueOk(s, v) && v.Obj? && at != [] && at[0].Key? && at[0].name in v.members
          && exists i :: 0 <= i < |s.properties| && s.properties[i].name == at[0].name
                         && Objects(defs, rank, matches, s.properties[i].schema, v.members[at[0].name], at[1..], c))
  }

  /** An error that the visit of a value at `path` adds. */
  ghost predicate Says(defs: Definitions, rank: map<JsString, nat>, matches: Matcher, s: Schema, v: Json,
      path: seq<PathStep>, e: SchemaError)
    requires Ranked(defs, rank)
  {
    path <= e.path && Objects(defs, rank, matches, s, v, e.path[|path|..], e.message)
  }

  ghost predicate ItemsSay(defs: Definitions, rank: map<JsString, nat>, matches: Matcher, s: Schema, items: seq<Json>,
      path: seq<PathStep>, n: nat, e: SchemaError)
    requires Ranked(defs, rank) && n <= |items|
  {
    exists i :: 0 <= i < n && Says(defs, rank, matches, s, items[i], path + [Index(i)], e)
  }

  ghost predicate MembersSay(defs: Definitions, rank: map<JsString, nat>, matches: Matcher, properties: seq<Property>,
      members: map<JsString, Json>, path: seq<PathStep>, n: nat, e: SchemaError)
    requires Ranked(defs, rank) && n <= |properties|
  {
    exists i ::
      && 0 <= i < n && properties[i].name in members
      && Says(defs, rank, matches, properties[i].schema, members[properties[i].name], path + [Key(properties[i].name)], e)
  }

  lemma OneStepOn(path: seq<PathStep>, step: PathStep, at: seq<PathStep>)
    ensures path + [step] <= at <==> path <= at && |path| < |at| && at[|path|] == step
    ensures path + [step] <= at ==> at[|path|..] != [] && at[|path|..][0] == step
                                    && at[|path|..][1..] == at[|path + [step]|..]
  {
    if path <= at && |path| < |at| && at[|path|] == step {
      assert at == path + [step] + at[|path| + 1..];
    }
  }

  lemma ItemSays(defs: Definitions, rank: map<JsString, nat>, matches: Matcher, s: Schema, items: seq<Json>,
      path: seq<PathStep>, e: SchemaError)
    requires Ranked(defs, rank)
    ensures ItemsSay(defs, rank, matches, s, items, path, |items|, e) <==>
      && path <= e.path
      && (var at := e.path[|path|..];
          && at != [] && at[0].Index? && at[0].i < |items|
          && Objects(defs, rank, matches, s, items[at[0].i], at[1..], e.message))
  {
    hide Objects;
    forall i | 0 <= i < |items| { OneStepOn(path, Index(i), e.path); }
    if path <= e.path && |path| < |e.path| && e.path[|path|].Index? {
      OneStepOn(path, e.path[|path|], e.path);
      assert e.path[|path|..][0] == e.path[|path|];
    }
  }

  lemma MemberSays(defs: Definitions, rank: map<JsString, nat>, matches: Matcher, properties: seq<Property>,
      members: map<JsString, Json>, path: seq<PathStep>, e: SchemaError)
    requires Ranked(defs, rank)
    ensures MembersSay(defs, rank, matches, properties, members, path, |properties|, e) <==>
      && path <= e.path
      && (var at := e.path[|path|..];
          && at != [] && at[0].Key? && at[0].name in members
          && exists i :: 0 <= i < |properties| && properties[i].name == at[0].name
                         && Objects(defs, rank, matches, properties[i].schema, members[at[0].name], at[1..], e.message))
  {
    hide Objects;
    forall i | 0 <= i < |properties| { OneStepOn(path, Key(properties[i].name), e.path); }
    if path <= e.path && |path| < |e.path| && e.path[|path|].Key? {
      OneStepOn(path, e.path[|path|], e.path);
      assert e.path[|path|..][0] == e.path[|path|];
    }
  }

  /** What a visit says that goes on to the keywords: about the value itself, its items, or its members. */
  lemma SaysInParts(defs: Definitions, rank: map<JsString, nat>, matches: Matcher, s: Schema, v: Json,
      path: seq<PathStep>, e: SchemaError)
    requires Ranked(defs, rank) && s.ref.None? && (s.hasOneOf ==> ExactlyOne(defs, rank, matches, s, v))
    ensures Says(defs, rank, matches, s, v, path, e) <==>
      || (e.path == path && LocalGives(s, v, matches, e.message))
      || (ValueOk(s, v) && v.Arr? && s.items.Some?
          && ItemsSay(defs, rank, matches, s.items.value, v.items, path, |v.items|, e))
      || (ValueOk(s, v) && v.Obj?
          && MembersSay(defs, rank, matches, s.properties, v.members, path, |s.properties|, e))
  {
    hide ExactlyOne, ItemsSay, LocalGives, MembersSay, ValueOk;
    assert path <= e.path ==> (e.path[|path|..] == [] <==> e.path == path);
    if v.Arr? && s.items.Some? { ItemSays(defs, rank, matches, s.items.value, v.items, path, e); }
    if v.Obj? { MemberSays(defs, rank, matches, s.properties, v.members, path, e); }
  }

  // ---------- the evaluator ----------

  /** The array of errors that the visits of one value share. */
  class ErrorList {
    var entries: seq<SchemaError>

    constructor ()
      ensures entries == []
    {
      entries := [];
    }

    method Push(path: seq<PathStep>, message: Complaint)
      modifies this
      ensures entries == old(entries) + [SchemaError(path, message)]
    {
      entries := entries + [SchemaError(path, message)];
    }
  }

  /** Only errors at or below `path` were added. */
  ghost predicate Grew(before: seq<SchemaError>, after: seq<SchemaError>, path: seq<PathStep>) {
    before <= after && forall i :: |before| <= i < |after| ==> path <= after[i].path
  }

  lemma GrewTransitive(a: seq<SchemaError>, b: seq<SchemaError>, c: seq<SchemaError>, p: seq<PathStep>, q: seq<PathStep>)
    requires Grew(a, b, p) && Grew(b, c, q) && p <= q
    ensures Grew(a, c, p)
    ensures a == c <==> a == b && b == c
  {
  }

  /**
   `visit`. It adds exactly the errors the value gives rise to, none exactly when the value satisfies the schema, and it
   throws only on a reference to no definition.
   */
  method Visit(
      defs: Definitions, ghost rank: map<JsString, nat>, matches: Matcher,
      s: Schema, v: Json, path: seq<PathStep>, out: ErrorList)
    returns (threw: bool)
    requires Ranked(defs, rank)
    modifies out
    ensures Grew(old(out.entries), out.entries, path)
    ensures !threw ==> (out.entries == old(out.entries) <==> Satisfies(defs, rank, matches, s, v))
    ensures !threw ==> forall e :: e in out.entries <==>
      e in old(out.entries) || Says(defs, rank, matches, s, v, path, e)
    ensures Closed(defs) && Resolves(s, defs) ==> !threw
    decreases v, Level(s, rank), s, 3
  {
    hide ExactlyOne, Objects, Satisfies, Says;
    if s.ref.Some? {
      if s.ref.value !in defs { return true; }
      ReferenceSays(defs, rank, matches, s, v, path);
      threw := Visit(defs, rank, matches, defs[s.ref.value], v, path, out);
      return;
    }
    if s.hasOneOf {
      var passed;
      threw, passed := CountPassing(defs, rank, matches, s, v, path);
      if threw { return; }
      if passed != 1 {
        NoAlternativeSays(defs, rank, matches, s, v, path);
        out.Push(path, NotExactlyOne(passed));
        return false;
      }
    }
    threw := VisitKeywords(defs, rank, matches, s, v, path, out);
  }

  lemma ReferenceSays(defs: Definitions, rank: map<JsString, nat>, matches: Matcher, s: Schema, v: Json,
      path: seq<PathStep>)
    requires Ranked(defs, rank) && s.ref.Some? && s.ref.value in defs
    ensures Satisfies(defs, rank, matches, s, v) <==> Satisfies(defs, rank, matches, defs[s.ref.value], v)
    ensures forall e :: Says(defs, rank, matches, s, v, path, e) <==>
      Says(defs, rank, matches, defs[s.ref.value], v, path, e)
  {
  }

  lemma NoAlternativeSays(defs: Definitions, rank: map<JsString, nat>, matches: Matcher, s: Schema, v: Json,
      path: seq<PathStep>)
    requires Ranked(defs, rank) && s.ref.None? && s.hasOneOf && !ExactlyOne(defs, rank, matches, s, v)
    ensures !Satisfies(defs, rank, matches, s, v)
    ensures forall e :: Says(defs, rank, matches, s, v, path, e) <==>
      e == SchemaError(path, NotExactlyOne(|Accepting(defs, rank, matches, s, v)|))
  {
    hide Accepting, ExactlyOne;
    forall e ensures Says(defs, rank, matches, s, v, path, e) <==>
      e == SchemaError(path, NotExactlyOne(|Accepting(defs, rank, matches, s, v)|))
    {
      assert path <= e.path ==> (e.path[|path|..] == [] <==> e.path == path);
    }
  }

  /** The keywords after `oneOf`: those about the value itself, and then its items or its members. */
  method VisitKeywords(
      defs: Definitions, ghost rank: map<JsString, nat>, matches: Matcher,
      s: Schema, v: Json, path: seq<PathStep>, out: ErrorList)
    returns (threw: bool)
    requires Ranked(defs, rank) && s.ref.None? && (s.hasOneOf ==> ExactlyOne(defs, rank, matches, s, v))
    modifies out
    ensures Grew(old(out.entries), out.entries, path)
    ensures !threw ==> (out.entries == old(out.entries) <==> Satisfies(defs, rank, matches, s, v))
    ensures !threw ==> forall e :: e in out.entries <==>
      e in old(out.entries) || Says(defs, rank, matches, s, v, path, e)
    ensures Closed(defs) && Resolves(s, defs) ==> !threw
    decreases v, Level(s, rank), s, 2
  {
    hide ExactlyOne, Grew, ItemsSay, LocalGives, LocallyOk, MembersSay, Says, ValueOk;
    forall e {
      SaysInParts(defs, rank, matches, s, v, path, e);
    }
    var stop := VisitLocally(matches, s, v, path, out);
    if stop { return false; }
    label middle:
    if v.Arr? && s.items.Some? {
      threw := VisitItems(defs, rank, matches, s, v, path, out);
    } else if v.Obj? {
      threw := VisitProperties(defs, rank, matches, s, v, path, out);
    } else {
      threw := false;
      GrewNothing(out.entries, path);
    }
    GrewTransitive(old(out.entries), old@middle(out.entries), out.entries, path, path);
  }

  lemma GrewNothing(a: seq<SchemaError>, p: seq<PathStep>)
    ensures Grew(a, a, p)
  {
  }

  /** How many alternatives of `oneOf` accept the value. */
  method CountPassing(
      defs: Definitions, ghost rank: map<JsString, nat>, matches: Matcher, s: Schema, v: Json, path: seq<PathStep>)
    returns (threw: bool, passed: nat)
    requires Ranked(defs, rank) && s.ref.None? && s.hasOneOf
    ensures !threw ==> (passed == 1 <==> ExactlyOne(defs, rank, matches, s, v))
    ensures !threw ==> passed == |Accepting(defs, rank, matches, s, v)|
    ensures Closed(defs) && Resolves(s, defs) ==> !threw
    decreases v, Level(s, rank), s, 1
  {
    hide ExactlyOne, Satisfies, Says;
    passed := 0;
    ghost var accepting: set<nat> := {};
    var i := 0;
    while i < |s.oneOf|
      invariant 0 <= i <= |s.oneOf|
      invariant passed == |accepting|
      invariant forall j :: j in accepting <==> 0 <= j < i && Satisfies(defs, rank, matches, s.oneOf[j], v)
    {
      var errs := new ErrorList();
      threw := Visit(defs, rank, matches, s.oneOf[i], v, path, errs);
      if threw { return; }
      if |errs.entries| == 0 {
        passed := passed + 1;
        accepting := accepting + {i};
      }
      i := i + 1;
    }
    threw := false;
    assert accepting == Accepting(defs, rank, matches, s, v);
    OneAccepting(defs, rank, matches, s, v, accepting);
  }

  lemma OneAccepting(
      defs: Definitions, rank: map<JsString, nat>, matches: Matcher, s: Schema, v: Json, accepting: set<nat>)
    requires Ranked(defs, rank) && s.ref.None? && s.hasOneOf
    requires forall j :: j in accepting <==> 0 <= j < |s.oneOf| && Satisfies(defs, rank, matches, s.oneOf[j], v)
    ensures |accepting| == 1 <==> ExactlyOne(defs, rank, matches, s, v)
  {
    OneMember(accepting);
    if |accepting| == 1 {
      var i :| i in accepting && forall j :: j in accepting ==> j == i;
      assert Satisfies(defs, rank, matches, s.oneOf[i], v);
    }
  }

  lemma OneMember(a: set<nat>)
    ensures |a| == 1 <==> exists i :: i in a && forall j :: j in a ==> j == i
  {
    if |a| == 1 {
      var i :| i in a;
      assert |a - {i}| == 0;
      assert forall j :: j in a ==> j == i by {
        forall j | j in a ensures j == i {}
      }
    }
    if i :| i in a && forall j :: j in a ==> j == i {
      assert a == {i};
    }
  }

  /** Every keyword that looks at no other schema. */
  method VisitLocally(matches: Matcher, s: Schema, v: Json, path: seq<PathStep>, out: ErrorList) returns (stop: bool)
    modifies out
    ensures Grew(old(out.entries), out.entries, path)
    ensures stop <==> !ValueOk(s, v)
    ensures stop ==> !LocallyOk(s, v, matches)
    ensures out.entries == old(out.entries) <==> LocallyOk(s, v, matches)
    ensures forall e :: e in out.entries <==>
      e in old(out.entries) || (e.path == path && LocalGives(s, v, matches, e.message))
  {
    hide HasCanonicalForm, StringOk, NumberOk, ItemsOk, KeysOk, ValueOk, ValueGives, ScalarGives, ItemsGive, KeysGive;
    ValueFirst(s, v, matches);
    stop := VisitValue(s, v, path, out);
    if stop { return; }
    VisitScalar(matches, s, v, path, out);
    label middle:
    VisitShape(s, v, path, out);
    GrewTransitive(old(out.entries), old@middle(out.entries), out.entries, path, path);
  }

  lemma ValueFirst(s: Schema, v: Json, matches: Matcher)
    ensures LocallyOk(s, v, matches) <==>
      ValueOk(s, v) && StringOk(s, v, matches) && NumberOk(s, v) && ItemsOk(s, v) && KeysOk(s, v)
    ensures ValueOk(s, v) ==> forall c :: !ValueGives(s, v, c)
  {
    hide HasCanonicalForm, HasType, ItemsOk, KeysOk, NumberOk, StringOk;
  }

  /** `type`, `const` and `enum`, each of which ends the visit when it fails. */
  method VisitValue(s: Schema, v: Json, path: seq<PathStep>, out: ErrorList) returns (stop: bool)
    modifies out
    ensures Grew(old(out.entries), out.entries, path)
    ensures stop <==> out.entries != old(out.entries)
    ensures !stop <==> ValueOk(s, v)
    ensures forall e :: e in out.entries <==> e in old(out.entries) || (e.path == path && ValueGives(s, v, e.message))
  {
    hide HasCanonicalForm, HasType;
    if s.kind.Some? && !HasType(v, s.kind.value) {
      out.Push(path, WrongType);
      return true;
    }
    if s.constant.Some? {
      DeepEqualIsEquality(v, s.constant.value);
      if !DeepEqual(v, s.constant.value) {
        out.Push(path, NotConstant);
        return true;
      }
    }
    if s.choices.Some? {
      var found := FindChoice(s.choices.value, v);
      if !found {
        out.Push(path, NotInEnum);
        return true;
      }
    }
    return false;
  }

  /** `schema.enum.some(...)`. */
  method FindChoice(choices: seq<Json>, v: Json) returns (found: bool)
    ensures found <==> v in choices && HasCanonicalForm(v)
  {
    hide DeepEqual, HasCanonicalForm;
    found := false;
    for i := 0 to |choices|
      invariant found <==> v in choices[..i] && HasCanonicalForm(v)
    {
      DeepEqualIsEquality(v, choices[i]);
      assert choices[..i + 1] == choices[..i] + [choices[i]];
      if DeepEqual(v, choices[i]) { found := true; }
    }
    assert choices[..|choices|] == choices;
  }

  method VisitScalar(matches: Matcher, s: Schema, v: Json, path: seq<PathStep>, out: ErrorList)
    modifies out
    ensures Grew(old(out.entries), out.entries, path)
    ensures out.entries == old(out.entries) <==> StringOk(s, v, matches) && NumberOk(s, v)
    ensures forall e :: e in out.entries <==>
      e in old(out.entries) || (e.path == path && ScalarGives(s, v, matches, e.message))
  {
    hide NumberOk, NumberGives, StringOk, StringGives;
    VisitString(matches, s, v, path, out);
    label middle:
    VisitNumber(s, v, path, out);
    GrewTransitive(old(out.entries), old@middle(out.entries), out.entries, path, path);
  }

  method VisitString(matches: Matcher, s: Schema, v: Json, path: seq<PathStep>, out: ErrorList)
    modifies out
    ensures Grew(old(out.entries), out.entries, path)
    ensures out.entries == old(out.entries) <==> StringOk(s, v, matches)
    ensures forall e :: e in out.entries <==>
      e in old(out.entries) || (e.path == path && StringGives(s, v, matches, e.message))
  {
    if v.Str? {
      if s.pattern.Some? && !matches(s.pattern.value, v.s) { out.Push(path, PatternMismatch); }
      if s.minLength.Some? && |v.s| < s.minLength.value { out.Push(path, TooShort); }
      if s.maxLength.Some? && |v.s| > s.maxLength.value { out.Push(path, TooLong); }
    }
  }

  method VisitNumber(s: Schema, v: Json, path: seq<PathStep>, out: ErrorList)
    modifies out
    ensures Grew(old(out.entries), out.entries, path)
    ensures out.entries == old(out.entries) <==> NumberOk(s, v)
    ensures forall e :: e in out.entries <==> e in old(out.entries) || (e.path == path && NumberGives(s, v, e.message))
  {
    if IsNumber(v) {
      if s.minimum.Some? && NumberValue(v) < s.minimum.value { out.Push(path, BelowMinimum); }
      if s.maximum.Some? && NumberValue(v) > s.maximum.value { out.Push(path, AboveMaximum); }
    }
  }

  /** The item counts and uniqueness of an array, the required and unknown keys of an object. */
  method VisitShape(s: Schema, v: Json, path: seq<PathStep>, out: ErrorList)
    modifies out
    ensures Grew(old(out.entries), out.entries, path)
    ensures out.entries == old(out.entries) <==> ItemsOk(s, v) && KeysOk(s, v)
    ensures forall e :: e in out.entries <==>
      e in old(out.entries) || (e.path == path && (ItemsGive(s, v, e.message) || KeysGive(s, v, e.message)))
  {
    hide AllDifferent;
    if v.Arr? {
      if s.minItems.Some? && |v.items| < s.minItems.value { out.Push(path, TooFewItems); }
      if s.maxItems.Some? && |v.items| > s.maxItems.value { out.Push(path, TooManyItems); }
      if s.uniqueItems { VisitUnique(v.items, path, out); }
    } else if v.Obj? {
      hide KeysOk, KeysGive;
      VisitKeys(s, v, path, out);
    }
  }

  method VisitUnique(items: seq<Json>, path: seq<PathStep>, out: ErrorList)
    modifies out
    ensures Grew(old(out.entries), out.entries, path)
    ensures out.entries == old(out.entries) <==> AllDifferent(items)
    ensures forall e :: e in out.entries <==>
      e in old(out.entries) || (e == SchemaError(path, NotUnique) && !AllDifferent(items))
  {
    hide ItemKey, HasCanonicalForm;
    var seen: set<JsString> := {};
    for idx := 0 to |items|
      invariant forall x :: x in seen <==> exists k :: 0 <= k < idx && ItemKey(items[k], k) == x
      invariant Grew(old(out.entries), out.entries, path)
      invariant out.entries == old(out.entries) <==> AllDifferent(items[..idx])
      invariant forall e :: e in out.entries <==>
        e in old(out.entries) || (e == SchemaError(path, NotUnique) && !AllDifferent(items[..idx]))
    {
      var key := ItemKey(items[idx], idx);
      forall k | 0 <= k < idx
        ensures ItemKey(items[k], k) == key <==> items[k] == items[idx] && HasCanonicalForm(items[k])
      {
        ItemKeysCollide(items[k], k, items[idx], idx);
      }
      OneMoreDifferent(items, idx);
      hide AllDifferent;
      if key in seen { out.Push(path, NotUnique); }
      seen := seen + {key};
    }
    assert items[..|items|] == items;
  }

  lemma OneMoreDifferent(items: seq<Json>, n: nat)
    requires n < |items|
    ensures AllDifferent(items[..n + 1]) <==>
      AllDifferent(items[..n]) && forall k :: 0 <= k < n ==> !(items[k] == items[n] && HasCanonicalForm(items[k]))
  {
    hide HasCanonicalForm;
    var a, b := items[..n], items[..n + 1];
    if AllDifferent(b) {
      forall i, j | 0 <= i < j < n ensures !(a[i] == a[j] && HasCanonicalForm(a[i])) {
        assert !(b[i] == b[j] && HasCanonicalForm(b[i]));
      }
      forall k | 0 <= k < n ensures !(items[k] == items[n] && HasCanonicalForm(items[k])) {
        assert !(b[k] == b[n] && HasCanonicalForm(b[k]));
      }
    }
    if AllDifferent(a) && forall k :: 0 <= k < n ==> !(items[k] == items[n] && HasCanonicalForm(items[k])) {
      forall i, j | 0 <= i < j < n + 1 ensures !(b[i] == b[j] && HasCanonicalForm(b[i])) {
        if j < n { assert !(a[i] == a[j] && HasCanonicalForm(a[i])); }
      }
    }
  }

  method VisitKeys(s: Schema, v: Json, path: seq<PathStep>, out: ErrorList)
    requires v.Obj?
    modifies out
    ensures Grew(old(out.entries), out.entries, path)
    ensures out.entries == old(out.entries) <==> KeysOk(s, v)
    ensures forall e :: e in out.entries <==> e in old(out.entries) || (e.path == path && KeysGive(s, v, e.message))
  {
    hide HasProperty;
    VisitRequired(s.required, v, path, out);
    if s.closed {
      label required:
      VisitUnknown(s, v, path, out);
      GrewTransitive(old(out.entries), old@required(out.entries), out.entries, path, path);
    }
  }

  method VisitRequired(required: seq<JsString>, v: Json, path: seq<PathStep>, out: ErrorList)
    requires v.Obj?
    modifies out
    ensures Grew(old(out.entries), out.entries, path)
    ensures out.entries == old(out.entries) <==> forall i :: 0 <= i < |required| ==> required[i] in v.members
    ensures forall e :: e in out.entries <==>
      || e in old(out.entries)
      || (e.path == path && e.message.MissingKey? && e.message.key in required && e.message.key !in v.members)
  {
    for i := 0 to |required|
      invariant Grew(old(out.entries), out.entries, path)
      invariant out.entries == old(out.entries) <==> forall k :: 0 <= k < i ==> required[k] in v.members
      invariant forall e :: e in out.entries <==>
        || e in old(out.entries)
        || (e.path == path && e.message.MissingKey? && e.message.key in required[..i] && e.message.key !in v.members)
    {
      assert required[..i + 1] == required[..i] + [required[i]];
      if required[i] !in v.members { out.Push(path, MissingKey(required[i])); }
    }
    assert required[..|required|] == required;
  }

  method VisitUnknown(s: Schema, v: Json, path: seq<PathStep>, out: ErrorList)
    requires v.Obj?
    modifies out
    ensures Grew(old(out.entries), out.entries, path)
    ensures out.entries == old(out.entries) <==> forall k :: k in v.members ==> HasProperty(s, k)
    ensures forall e :: e in out.entries <==>
      || e in old(out.entries)
      || (e.path == path && e.message.UnknownKey? && e.message.key in v.members && !HasProperty(s, e.message.key))
  {
    hide HasProperty, Sorted;
    var keys := Sorted(v.members.Keys);
    SortedFacts(v.members.Keys);
    assert forall k :: k in keys <==> k in Elements(keys);
    for i := 0 to |keys|
      invariant Grew(old(out.entries), out.entries, path)
      invariant out.entries == old(out.entries) <==> forall k :: k in keys[..i] ==> HasProperty(s, k)
      invariant forall e :: e in out.entries <==>
        || e in old(out.entries)
        || (e.path == path && e.message.UnknownKey? && e.message.key in keys[..i] && !HasProperty(s, e.message.key))
    {
      assert keys[..i + 1] == keys[..i] + [keys[i]];
      if !HasProperty(s, keys[i]) { out.Push(path, UnknownKey(keys[i])); }
    }
    assert keys[..|keys|] == keys;
  }

  method VisitItems(
      defs: Definitions, ghost rank: map<JsString, nat>, matches: Matcher,
      s: Schema, v: Json, path: seq<PathStep>, out: ErrorList)
    returns (threw: bool)
    requires Ranked(defs, rank) && v.Arr? && s.items.Some?
    modifies out
    ensures Grew(old(out.entries), out.entries, path)
    ensures !threw ==> (out.entries == old(out.entries) <==>
      forall i :: 0 <= i < |v.items| ==> Satisfies(defs, rank, matches, s.items.value, v.items[i]))
    ensures !threw ==> forall e :: e in out.entries <==>
      e in old(out.entries) || ItemsSay(defs, rank, matches, s.items.value, v.items, path, |v.items|, e)
    ensures Closed(defs) && Resolves(s, defs) ==> !threw
    decreases v, Level(s, rank), s, 1
  {
    hide Satisfies, Says;
    for idx := 0 to |v.items|
      invariant Grew(old(out.entries), out.entries, path)
      invariant out.entries == old(out.entries) <==>
        forall i :: 0 <= i < idx ==> Satisfies(defs, rank, matches, s.items.value, v.items[i])
      invariant forall e :: e in out.entries <==>
        e in old(out.entries) || ItemsSay(defs, rank, matches, s.items.value, v.items, path, idx, e)
    {
      label turn:
      threw := Visit(defs, rank, matches, s.items.value, v.items[idx], path + [Index(idx)], out);
      GrewTransitive(old(out.entries), old@turn(out.entries), out.entries, path, path + [Index(idx)]);
      if threw { return; }
    }
    threw := false;
  }

  method VisitProperties(
      defs: Definitions, ghost rank: map<JsString, nat>, matches: Matcher,
      s: Schema, v: Json, path: seq<PathStep>, out: ErrorList)
    returns (threw: bool)
    requires Ranked(defs, rank) && v.Obj?
    modifies out
    ensures Grew(old(out.entries), out.entries, path)
    ensures !threw ==> (out.entries == old(out.entries) <==>
      forall i :: 0 <= i < |s.properties| && s.properties[i].name in v.members ==>
        Satisfies(defs, rank, matches, s.properties[i].schema, v.members[s.properties[i].name]))
    ensures !threw ==> forall e :: e in out.entries <==>
      e in old(out.entries) || MembersSay(defs, rank, matches, s.properties, v.members, path, |s.properties|, e)
    ensures Closed(defs) && Resolves(s, defs) ==> !threw
    decreases v, Level(s, rank), s, 1
  {
    hide Satisfies, Says;
    for idx := 0 to |s.properties|
      invariant Grew(old(out.entries), out.entries, path)
      invariant out.entries == old(out.entries) <==>
        forall i :: 0 <= i < idx && s.properties[i].name in v.members ==>
          Satisfies(defs, rank, matches, s.properties[i].schema, v.members[s.properties[i].name])
      invariant forall e :: e in out.entries <==>
        e in old(out.entries) || MembersSay(defs, rank, matches, s.properties, v.members, path, idx, e)
    {
      var k := s.properties[idx].name;
      if k in v.members {
        label turn:
        threw := Visit(defs, rank, matches, s.properties[idx].schema, v.members[k], path + [Key(k)], out);
        GrewTransitive(old(out.entries), old@turn(out.entries), out.entries, path, path + [Key(k)]);
        if threw { return; }
      }
    }
    threw := false;
  }

  /** `validateAgainstSchema`: every error the value gives rise to, and none exactly when it satisfies the root schema. */
  method ValidateAgainstSchema(
      root: Schema, defs: Definitions, ghost rank: map<JsString, nat>, matches: Matcher, value: Json)
    returns (threw: bool, errors: seq<SchemaError>)
    requires Ranked(defs, rank)
    ensures !threw ==> (errors == [] <==> Satisfies(defs, rank, matches, root, value))
    ensures !threw ==> forall e :: e in errors <==> Objects(defs, rank, matches, root, value, e.path, e.message)
    ensures Closed(defs) && Resolves(root, defs) ==> !threw
  {
    var out := new ErrorList();
    threw := Visit(defs, rank, matches, root, value, [], out);
    errors := out.entries;
  }
}
