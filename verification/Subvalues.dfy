/** Every value inside a printable value is printable, so schema equality on a parsed document is plain equality. */
module Subvalues {
  import opened Base
  import opened Ordering
  import opened Text
  import opened Json
  import opened StrictJson
  import opened CanonicalJson
  import opened RoundTrip
  import opened CanonicalTheorems
  import opened Normalization
  import opened JsonSchema

  /** `w` is `v` itself, or an item or member of it at any depth. */
  ghost predicate Within(w: Json, v: Json)
    decreases v
  {
    || w == v
    || (v.Arr? && exists i :: 0 <= i < |v.items| && Within(w, v.items[i]))
    || (v.Obj? && exists k :: k in v.members && Within(w, v.members[k]))
  }

  lemma {:induction false} ShallowerIsAcceptable(v: Json, deep: nat, shallow: nat, b: Bounds)
    requires Acceptable(v, deep, b) && shallow <= deep
    ensures Acceptable(v, shallow, b)
    decreases v
  {
    match v {
      case Arr(items) =>
        forall i | 0 <= i < |items| ensures Acceptable(items[i], shallow + 1, b) {
          ShallowerIsAcceptable(items[i], deep + 1, shallow + 1, b);
        }
      case Obj(m) =>
        forall k | k in m ensures Acceptable(m[k], shallow + 1, b) {
          ShallowerIsAcceptable(m[k], deep + 1, shallow + 1, b);
        }
      case _ =>
    }
  }

  lemma {:induction false} ItemCostsLess(vs: seq<Json>, i: nat)
    requires i < |vs|
    ensures CanonCost(vs[i]) <= ItemsCost(vs)
  {
    hide CanonCost;
    if i > 0 { ItemCostsLess(vs[1..], i - 1); }
  }

  lemma ItemOfArrayCost(items: seq<Json>, i: nat)
    requires i < |items|
    ensures CanonCost(items[i]) <= CanonCost(Arr(items))
  {
    CanonItemsCost(items);
    ItemCostsLess(items, i);
    MinBytesAround(OPEN_BRACKET, RenderItems(CanonItems(items)), CLOSE_BRACKET);
  }

  lemma {:induction false} SummandIsLess<T>(keys: seq<T>, k: T, f: T -> nat)
    requires k in keys
    ensures f(k) <= SumOf(keys, f)
  {
    if keys[0] != k { SummandIsLess(keys[1..], k, f); }
  }

  lemma MemberOfObjectCost(m: map<JsString, Json>, k: JsString)
    requires k in m
    ensures CanonCost(m[k]) <= CanonCost(Obj(m))
  {
    SortedFacts(m.Keys);
    assert k in Elements(Sorted(m.Keys));
    CanonObjectCost(m);
    SummandIsLess(Sorted(m.Keys), k, CostIn(m));
  }

  lemma CanonicalFormExact(v: Json, b: Bounds)
    ensures Canonicalize(v, b).Ok? <==> Acceptable(v, 1, b) && CanonCost(v) <= b.maxDocumentBytes
  {
    SerializeExact(v, 1, b);
    if Acceptable(v, 1, b) {
      CanonicalTextWellFormed(v, 1, b);
      ByteLengthVersusMinBytes(Render(CanonTree(v)));
    }
  }

  lemma ChildHasCanonicalForm(w: Json, v: Json, b: Bounds)
    requires Canonicalize(v, b).Ok?
    requires (v.Arr? && w in v.items) || (v.Obj? && exists k :: k in v.members && v.members[k] == w)
    ensures Canonicalize(w, b).Ok?
  {
    CanonicalFormExact(v, b);
    CanonicalFormExact(w, b);
    if v.Arr? {
      var i :| 0 <= i < |v.items| && v.items[i] == w;
      assert Acceptable(v.items[i], 2, b);
      ItemOfArrayCost(v.items, i);
    } else {
      var k :| k in v.members && v.members[k] == w;
      MemberOfObjectCost(v.members, k);
    }
    ShallowerIsAcceptable(w, 2, 1, b);
  }

  lemma {:induction false} WithinHasCanonicalForm(w: Json, v: Json, b: Bounds)
    requires Canonicalize(v, b).Ok? && Within(w, v)
    ensures Canonicalize(w, b).Ok?
    decreases v
  {
    if w != v {
      if v.Arr? {
        var i :| 0 <= i < |v.items| && Within(w, v.items[i]);
        ChildHasCanonicalForm(v.items[i], v, b);
        WithinHasCanonicalForm(w, v.items[i], b);
      } else {
        var k :| k in v.members && Within(w, v.members[k]);
        ChildHasCanonicalForm(v.members[k], v, b);
        WithinHasCanonicalForm(w, v.members[k], b);
      }
    }
  }

  /** Anywhere inside a parsed document, the evaluator's equality is equality of values. */
  lemma ParsedEqualityIsExact(text: JsString, v: Json, w: Json, other: Json)
    requires ParseText(text, CANONICAL_BOUNDS) == Ok(v) && Within(w, v)
    ensures DeepEqual(w, other) <==> w == other
  {
    CanonicalizeNormalizes(text, v, CANONICAL_BOUNDS);
    WithinHasCanonicalForm(w, v, CANONICAL_BOUNDS);
    DeepEqualIsEquality(w, other);
  }

  /** In a parsed document `uniqueItems` means pairwise different items. */
  lemma ParsedUniquenessIsExact(text: JsString, v: Json, items: seq<Json>)
    requires ParseText(text, CANONICAL_BOUNDS) == Ok(v) && Within(Arr(items), v)
    ensures AllDifferent(items) <==> NoDuplicates(items)
  {
    CanonicalizeNormalizes(text, v, CANONICAL_BOUNDS);
    WithinHasCanonicalForm(Arr(items), v, CANONICAL_BOUNDS);
    forall i | 0 <= i < |items| ensures HasCanonicalForm(items[i]) {
      ChildHasCanonicalForm(items[i], Arr(items), CANONICAL_BOUNDS);
    }
    hide HasCanonicalForm;
  }
}
