/** Schemas the evaluator terminates on: those whose references form no cycle that consumes nothing of the value. */
module SchemaCycles {
  import opened Base
  import opened JsonSchema
  import opened Kahn
  import opened KahnTheorems

  /** The definitions a visit of the schema reaches before it looks inside the value. */
  function Direct(s: Schema): set<JsString>
    decreases s
  {
    if s.ref.Some? then {s.ref.value}
    else if s.hasOneOf then DirectOfAll(s.oneOf)
    else {}
  }

  function DirectOfAll(branches: seq<Schema>): set<JsString>
    decreases branches
  {
    if branches == [] then {} else Direct(branches[0]) + DirectOfAll(branches[1..])
  }

  function ReferenceGraph(defs: Definitions): Graph {
    map n | n in defs :: Direct(defs[n]) * defs.Keys
  }

  // ---------- a rank leaves no cycle ----------

  lemma {:induction false} LevelExceeds(s: Schema, rank: map<JsString, nat>, d: JsString)
    requires d in Direct(s) && d in rank
    ensures Level(s, rank) > rank[d]
    decreases s
  {
    if s.ref.None? && s.hasOneOf { MaxLevelExceeds(s.oneOf, rank, d); }
  }

  lemma {:induction false} MaxLevelExceeds(branches: seq<Schema>, rank: map<JsString, nat>, d: JsString)
    requires d in DirectOfAll(branches) && d in rank
    ensures MaxLevel(branches, rank) > rank[d]
    decreases branches
  {
    if d in Direct(branches[0]) {
      LevelExceeds(branches[0], rank, d);
    } else {
      MaxLevelExceeds(branches[1..], rank, d);
    }
  }

  lemma {:induction false} RankFalls(defs: Definitions, rank: map<JsString, nat>, walk: seq<JsString>, k: nat)
    requires Ranked(defs, rank) && IsWalk(ReferenceGraph(defs), walk) && 0 < k < |walk|
    ensures walk[0] in rank && walk[k] in rank && rank[walk[k]] < rank[walk[0]]
  {
    if k > 1 { RankFalls(defs, rank, walk, k - 1); }
    var n, d := walk[k - 1], walk[k - 1 + 1];
    assert n in ReferenceGraph(defs) && d in ReferenceGraph(defs)[n];
    LevelExceeds(defs[n], rank, d);
  }

  // ---------- no cycle leaves room for a rank ----------

  lemma {:induction false} LevelDepends(s: Schema, r1: map<JsString, nat>, r2: map<JsString, nat>)
    requires forall d :: d in Direct(s) ==> (d in r1 <==> d in r2) && (d in r1 ==> r1[d] == r2[d])
    ensures Level(s, r1) == Level(s, r2)
    decreases s
  {
    if s.ref.None? && s.hasOneOf { MaxLevelDepends(s.oneOf, r1, r2); }
  }

  lemma {:induction false} MaxLevelDepends(branches: seq<Schema>, r1: map<JsString, nat>, r2: map<JsString, nat>)
    requires forall d :: d in DirectOfAll(branches) ==> (d in r1 <==> d in r2) && (d in r1 ==> r1[d] == r2[d])
    ensures MaxLevel(branches, r1) == MaxLevel(branches, r2)
    decreases branches
  {
    if branches != [] {
      LevelDepends(branches[0], r1, r2);
      MaxLevelDepends(branches[1..], r1, r2);
    }
  }

  /** The definitions ranked so far rank correctly and refer only to one another. */
  ghost predicate PartlyRanked(defs: Definitions, rank: map<JsString, nat>) {
    && rank.Keys <= defs.Keys
    && forall n :: n in rank ==> Direct(defs[n]) * defs.Keys <= rank.Keys && Level(defs[n], rank) <= rank[n]
  }

  /** Where no cycle is, some unranked definition refers to ranked ones only. */
  lemma NextToRank(defs: Definitions, rank: map<JsString, nat>) returns (n: JsString)
    requires Acyclic(ReferenceGraph(defs)) && PartlyRanked(defs, rank) && rank.Keys != defs.Keys
    ensures n in defs && n !in rank && Direct(defs[n]) * defs.Keys <= rank.Keys
  {
    var g, left := ReferenceGraph(defs), defs.Keys - rank.Keys;
    if Stuck(g, left) {
      assert left != {} by { assert exists x :: x in defs && x !in rank; }
      StuckHasCycle(g, left);
    }
    n :| n in left && !(n in g && Waits(g, left, n));
    forall d | d in Direct(defs[n]) * defs.Keys ensures d in rank.Keys {
      assert d in g[n];
    }
  }

  lemma RankOne(defs: Definitions, rank: map<JsString, nat>, n: JsString)
    requires PartlyRanked(defs, rank) && n in defs && n !in rank && Direct(defs[n]) * defs.Keys <= rank.Keys
    ensures PartlyRanked(defs, rank[n := Level(defs[n], rank)])
  {
    hide Direct, Level;
    var after := rank[n := Level(defs[n], rank)];
    forall m | m in after
      ensures Direct(defs[m]) * defs.Keys <= after.Keys && Level(defs[m], after) <= after[m]
    {
      forall d | d in Direct(defs[m]) ensures (d in rank <==> d in after) && (d in rank ==> rank[d] == after[d]) {
        if d == n { assert n in Direct(defs[m]) * defs.Keys; }
      }
      LevelDepends(defs[m], rank, after);
    }
  }

  lemma {:induction false} RankRest(defs: Definitions, rank: map<JsString, nat>)
    requires Acyclic(ReferenceGraph(defs)) && PartlyRanked(defs, rank)
    ensures WellFounded(defs)
    decreases defs.Keys - rank.Keys
  {
    if rank.Keys == defs.Keys {
      assert Ranked(defs, rank);
    } else {
      var n := NextToRank(defs, rank);
      RankOne(defs, rank, n);
      assert n in defs.Keys - rank.Keys;
      RankRest(defs, rank[n := Level(defs[n], rank)]);
    }
  }

  /** A rank, which is all the evaluator's termination asks for, exists exactly when no such cycle does. */
  lemma RankExistsExactly(defs: Definitions)
    ensures WellFounded(defs) <==> Acyclic(ReferenceGraph(defs))
  {
    if rank :| Ranked(defs, rank) {
      forall walk ensures !IsCycle(ReferenceGraph(defs), walk) {
        if IsCycle(ReferenceGraph(defs), walk) { RankFalls(defs, rank, walk, |walk| - 1); }
      }
    }
    if Acyclic(ReferenceGraph(defs)) { RankRest(defs, map[]); }
  }
}
