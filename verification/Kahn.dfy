/** Kahn's algorithm with a sorted frontier: the pack order of a plan, or the proof that there is none. */
module Kahn {
  import opened Base
  import opened Ordering
  import opened Sorting

  /** Which packs each selected pack depends on, itself and unselected packs left out. */
  type Graph = map<JsString, set<JsString>>

  ghost predicate Closed(g: Graph) {
    forall x, d :: x in g && d in g[x] ==> d in g && d != x
  }

  /** The packs not yet ordered whose dependencies all are. */
  function Ready(g: Graph, done: set<JsString>): set<JsString> {
    set x | x in g && x !in done && g[x] <= done
  }

  // ---------- what an order is ----------

  /** Every pack comes after everything it depends on. */
  ghost predicate Respects(g: Graph, order: seq<JsString>) {
    forall i :: 0 <= i < |order| ==> order[i] in g && g[order[i]] <= Elements(order[..i])
  }

  ghost predicate IsTopological(g: Graph, order: seq<JsString>) {
    NoDuplicates(order) && Elements(order) == g.Keys && Respects(g, order)
  }

  /** A walk along dependencies. */
  ghost predicate IsWalk(g: Graph, walk: seq<JsString>) {
    forall i :: 0 <= i < |walk| - 1 ==> walk[i] in g && walk[i + 1] in g[walk[i]]
  }

  ghost predicate IsCycle(g: Graph, walk: seq<JsString>) {
    |walk| > 1 && IsWalk(g, walk) && walk[0] == walk[|walk| - 1]
  }

  ghost predicate Acyclic(g: Graph) {
    forall walk :: !IsCycle(g, walk)
  }

  /** At every step the least ready pack is taken, until none is ready. */
  ghost predicate Greedy(g: Graph, order: seq<JsString>) {
    && (forall i :: 0 <= i < |order| ==> IsLeast(order[i], Ready(g, Elements(order[..i]))))
    && Ready(g, Elements(order)) == {}
  }

  /** `a` comes before `b` in dictionary order, because of the first place where they differ. */
  ghost predicate Precedes(a: seq<JsString>, b: seq<JsString>) {
    exists k :: 0 <= k < |a| && k < |b| && a[..k] == b[..k] && Less(a[k], b[k])
  }

  // ---------- the algorithm ----------

  /** `xs.sort()` on strings. */
  function SortStrings(xs: seq<JsString>): seq<JsString> {
    Sort(Less, xs)
  }

  lemma LessIsStrictOrder(s: set<JsString>)
    ensures StrictOrder(Less, s)
  {
    forall x, y | x in s && y in s && Less(x, y) ensures !Less(y, x) { LessAsymmetric(x, y); }
    forall x, y | x in s && y in s && x != y ensures Less(x, y) || Less(y, x) { LessTotal(x, y); }
    forall x, y, z | x in s && y in s && z in s && Less(x, y) && Less(y, z) ensures Less(x, z) {
      LessTransitive(x, y, z);
    }
  }

  lemma SortStringsFacts(xs: seq<JsString>)
    requires NoDuplicates(xs)
    ensures Increasing(SortStrings(xs))
    ensures Elements(SortStrings(xs)) == Elements(xs)
  {
    LessIsStrictOrder(Elements(xs));
    SortSorts(Less, xs, Elements(xs));
    SortMembers(Less, xs);
  }

  /** The dependency lists say what the graph says, without repetitions. */
  ghost predicate Lists(g: Graph, deps: map<JsString, seq<JsString>>) {
    && deps.Keys == g.Keys
    && forall x :: x in g ==> NoDuplicates(deps[x]) && Elements(deps[x]) == g[x]
  }

  ghost predicate Counts(g: Graph, indegree: map<JsString, int>, others: seq<JsString>, done: set<JsString>) {
    forall x :: x in others ==> x in g && x in indegree && indegree[x] == |g[x] - done|
  }

  lemma CountsDown(g: Graph, x: JsString, id: JsString, done: set<JsString>)
    requires x in g && id !in done
    ensures |g[x] - (done + {id})| == if id in g[x] then |g[x] - done| - 1 else |g[x] - done|
  {
    if id in g[x] {
      assert g[x] - done == (g[x] - (done + {id})) + {id};
    } else {
      assert g[x] - done == g[x] - (done + {id});
    }
  }

  lemma {:induction false} DistinctLength(xs: seq<JsString>)
    requires NoDuplicates(xs)
    ensures |Elements(xs)| == |xs|
  {
    if xs == [] {
      assert Elements(xs) == {};
    } else {
      var front := xs[..|xs| - 1];
      DistinctLength(front);
      assert xs == front + [xs[|xs| - 1]];
      var x := xs[|xs| - 1];
      assert x !in Elements(front);
      assert Elements(xs) == Elements(front) + {x};
      assert |Elements(front) + {x}| == |Elements(front)| + 1;
    }
  }

  lemma EmptyMeansContained(a: set<JsString>, done: set<JsString>)
    ensures |a - done| == 0 <==> a <= done
  {
    if |a - done| == 0 {
      forall x | x in a ensures x in done { assert x !in a - done; }
    }
    if a <= done { assert a - done == {}; }
  }

  /** The packs the turn of `id` makes ready among `others`. */
  function Released(g: Graph, others: seq<JsString>, id: JsString, done: set<JsString>): set<JsString> {
    set x | x in others && x in g && id in g[x] && g[x] <= done + {id}
  }

  /** Half way through the turn of `id`: the first `k` packs are counted down, and the ready ones queued. */
  ghost predicate Midway(g: Graph, ids: seq<JsString>, k: nat, id: JsString, done: set<JsString>,
      indegree: map<JsString, int>, frontier: seq<JsString>)
    requires k <= |ids|
  {
    && Counts(g, indegree, ids[..k], done + {id})
    && Counts(g, indegree, ids[k..], done)
    && Increasing(frontier)
    && Elements(frontier) == (Ready(g, done) - {id}) + Released(g, ids[..k], id, done)
  }

  lemma MidwayStep(g: Graph, ids: seq<JsString>, k: nat, id: JsString, done: set<JsString>,
      before: map<JsString, int>, queued: seq<JsString>, after: map<JsString, int>, frontier: seq<JsString>)
    requires id !in done && NoDuplicates(ids) && k < |ids| && Midway(g, ids, k, id, done, before, queued)
    requires ids[k] in g && ids[k] in before
    requires after == if id in g[ids[k]] then before[ids[k] := before[ids[k]] - 1] else before
    requires frontier == if id in g[ids[k]] && after[ids[k]] == 0 then SortStrings(queued + [ids[k]]) else queued
    ensures Midway(g, ids, k + 1, id, done, after, frontier)
  {
    hide Increasing, SortStrings, Ready, Released, Counts;
    assert before[ids[k]] == |g[ids[k]] - done| by { HeadCount(g, before, ids, k, done); }
    CountsDown(g, ids[k], id, done);
    EmptyMeansContained(g[ids[k]], done + {id});
    CountsStep(g, before, after, ids, k, id, done);
    ReleasedStep(g, ids, k, id, done);
    if id in g[ids[k]] && after[ids[k]] == 0 {
      NotYetQueued(g, ids, k, id, queued, Ready(g, done) - {id}, done);
      SortStringsFacts(queued + [ids[k]]);
    }
  }

  lemma HeadCount(g: Graph, indegree: map<JsString, int>, ids: seq<JsString>, k: nat, done: set<JsString>)
    requires k < |ids| && Counts(g, indegree, ids[k..], done)
    ensures ids[k] in g && ids[k] in indegree && indegree[ids[k]] == |g[ids[k]] - done|
  {
    assert ids[k..][0] == ids[k];
  }

  /** The loop body after `id` is taken: count down its dependents and queue those that reach zero. */
  method Release(deps: map<JsString, seq<JsString>>, ids: seq<JsString>, id: JsString, indegree0: map<JsString, int>,
      frontier0: seq<JsString>, ghost g: Graph, ghost done: set<JsString>)
    returns (indegree: map<JsString, int>, frontier: seq<JsString>)
    requires Lists(g, deps) && id !in done
    requires NoDuplicates(ids) && Elements(ids) == g.Keys
    requires Midway(g, ids, 0, id, done, indegree0, frontier0)
    ensures Midway(g, ids, |ids|, id, done, indegree, frontier)
  {
    hide SortStrings, NoDuplicates;
    indegree, frontier := indegree0, frontier0;
    for k := 0 to |ids|
      invariant Midway(g, ids, k, id, done, indegree, frontier)
    {
      var other := ids[k];
      assert other in Elements(ids);
      assert Elements(deps[other]) == g[other];
      assert other in indegree by { HeadCount(g, indegree, ids, k, done); }
      ghost var before, queued := indegree, frontier;
      if id in deps[other] {
        indegree := indegree[other := indegree[other] - 1];
        if indegree[other] == 0 {
          frontier := frontier + [other];
          frontier := SortStrings(frontier);
        }
      }
      MidwayStep(g, ids, k, id, done, before, queued, indegree, frontier);
    }
  }

  lemma CountsStep(g: Graph, before: map<JsString, int>, after: map<JsString, int>, ids: seq<JsString>, k: nat,
      id: JsString, done: set<JsString>)
    requires NoDuplicates(ids) && k < |ids| && ids[k] in g && ids[k] in after
    requires Counts(g, before, ids[..k], done + {id}) && Counts(g, before, ids[k..], done)
    requires forall x :: x in before && x != ids[k] ==> x in after && after[x] == before[x]
    requires after[ids[k]] == |g[ids[k]] - (done + {id})|
    ensures Counts(g, after, ids[..k + 1], done + {id}) && Counts(g, after, ids[k + 1..], done)
  {
    assert forall x :: x in ids[..k + 1] ==> x in ids[..k] || x == ids[k];
    assert forall x :: x in ids[k + 1..] ==> x in ids[k..] && x != ids[k];
  }

  lemma ReleasedStep(g: Graph, ids: seq<JsString>, k: nat, id: JsString, done: set<JsString>)
    requires k < |ids| && ids[k] in g
    ensures Released(g, ids[..k + 1], id, done)
            == Released(g, ids[..k], id, done)
               + if id in g[ids[k]] && g[ids[k]] <= done + {id} then {ids[k]} else {}
  {
    assert forall x :: x in ids[..k + 1] <==> x in ids[..k] || x == ids[k];
  }

  lemma NotYetQueued(g: Graph, ids: seq<JsString>, k: nat, id: JsString, frontier: seq<JsString>,
      queued: set<JsString>, done: set<JsString>)
    requires NoDuplicates(ids) && k < |ids| && ids[k] in g && id in g[ids[k]] && id !in done
    requires queued == Ready(g, done) - {id} && Increasing(frontier)
    requires Elements(frontier) == queued + Released(g, ids[..k], id, done)
    ensures NoDuplicates(frontier + [ids[k]])
    ensures Elements(frontier + [ids[k]]) == Elements(frontier) + {ids[k]}
  {
    IncreasingNoDuplicates(frontier);
    assert ids[k] !in Elements(frontier);
  }

  lemma ReadyStep(g: Graph, ids: seq<JsString>, id: JsString, done: set<JsString>)
    requires Closed(g) && Elements(ids) == g.Keys && id in g && id !in done
    requires forall x :: x in done ==> x in g && g[x] <= done
    ensures Ready(g, done + {id}) == (Ready(g, done) - {id}) + Released(g, ids, id, done)
  {
    forall x | x in Released(g, ids, id, done) ensures x in Ready(g, done + {id}) {
    }
    forall x | x in Ready(g, done + {id}) && x !in Ready(g, done) ensures x in Released(g, ids, id, done) {
      assert x in Elements(ids);
    }
  }

  /** Between turns: the order so far is greedy and closed, the frontier is what is ready, the counts are what is left. */
  ghost predicate Ordered(g: Graph, ids: seq<JsString>, order: seq<JsString>, indegree: map<JsString, int>,
      frontier: seq<JsString>)
  {
    && Counts(g, indegree, ids, Elements(order))
    && Increasing(frontier) && Elements(frontier) == Ready(g, Elements(order))
    && (forall x :: x in Elements(order) ==> x in g && g[x] <= Elements(order))
    && forall i :: 0 <= i < |order| ==> IsLeast(order[i], Ready(g, Elements(order[..i])))
  }

  lemma ElementsSnoc<T>(xs: seq<T>, x: T)
    ensures Elements(xs + [x]) == Elements(xs) + {x}
  {
  }

  lemma TurnBegins(g: Graph, ids: seq<JsString>, order: seq<JsString>, indegree: map<JsString, int>,
      frontier: seq<JsString>)
    requires Ordered(g, ids, order, indegree, frontier) && frontier != []
    ensures IsLeast(frontier[0], Ready(g, Elements(order)))
    ensures frontier[0] in g && frontier[0] !in Elements(order)
    ensures Midway(g, ids, 0, frontier[0], Elements(order), indegree, frontier[1..])
  {
    IncreasingHead(frontier);
    IncreasingTail(frontier);
    assert ids[0..] == ids;
  }

  lemma TurnEnds(g: Graph, ids: seq<JsString>, order: seq<JsString>, id: JsString, indegree: map<JsString, int>,
      frontier: seq<JsString>)
    requires Closed(g) && Elements(ids) == g.Keys
    requires IsLeast(id, Ready(g, Elements(order)))
    requires forall x :: x in Elements(order) ==> x in g && g[x] <= Elements(order)
    requires forall i :: 0 <= i < |order| ==> IsLeast(order[i], Ready(g, Elements(order[..i])))
    requires Midway(g, ids, |ids|, id, Elements(order), indegree, frontier)
    ensures Ordered(g, ids, order + [id], indegree, frontier)
  {
    hide Increasing, Counts;
    var done := Elements(order);
    assert id in Ready(g, done);
    ElementsSnoc(order, id);
    assert ids[..|ids|] == ids;
    ReadyStep(g, ids, id, done);
    hide Ready;
    forall i | 0 <= i < |order + [id]|
      ensures IsLeast((order + [id])[i], Ready(g, Elements((order + [id])[..i])))
    {
      if i < |order| {
        assert (order + [id])[..i] == order[..i];
      } else {
        assert (order + [id])[..i] == order;
      }
    }
  }

  lemma OrderedFacts(g: Graph, ids: seq<JsString>, order: seq<JsString>, indegree: map<JsString, int>,
      frontier: seq<JsString>)
    requires Ordered(g, ids, order, indegree, frontier)
    ensures forall x :: x in Elements(order) ==> x in g && g[x] <= Elements(order)
    ensures forall i :: 0 <= i < |order| ==> IsLeast(order[i], Ready(g, Elements(order[..i])))
    ensures frontier == [] ==> Greedy(g, order)
  {
  }

  lemma TurnShrinks(g: Graph, ids: seq<JsString>, order: seq<JsString>, indegree: map<JsString, int>,
      frontier: seq<JsString>)
    requires Ordered(g, ids, order, indegree, frontier) && frontier != []
    ensures g.Keys - Elements(order + [frontier[0]]) < g.Keys - Elements(order)
  {
    TurnBegins(g, ids, order, indegree, frontier);
    ElementsSnoc(order, frontier[0]);
    assert frontier[0] in g.Keys - Elements(order);
  }

  /** The pack order of `compilePlan`. */
  method PackOrder(deps: map<JsString, seq<JsString>>, ghost g: Graph) returns (order: seq<JsString>)
    requires Closed(g) && Lists(g, deps)
    ensures Greedy(g, order)
  {
    hide Closed, Elements, Greedy, InitialFrontier, NoDuplicates, Ordered, SortStrings, Sorted;
    var ids := Sorted(deps.Keys);
    IdsFacts(deps.Keys);
    var indegree := map x | x in deps :: |deps[x]|;
    var frontier := SortStrings(InitialFrontier(ids, deps));
    InitialFacts(g, deps, ids, indegree);
    order := [];
    while |frontier| > 0
      invariant Ordered(g, ids, order, indegree, frontier)
      decreases g.Keys - Elements(order)
    {
      var id := frontier[0];
      ghost var done := order;
      TurnBegins(g, ids, order, indegree, frontier);
      TurnShrinks(g, ids, order, indegree, frontier);
      OrderedFacts(g, ids, order, indegree, frontier);
      order := order + [id];
      indegree, frontier := Release(deps, ids, id, indegree, frontier[1..], g, Elements(done));
      TurnEnds(g, ids, done, id, indegree, frontier);
    }
    OrderedFacts(g, ids, order, indegree, frontier);
  }

  lemma IdsFacts(keys: set<JsString>)
    ensures NoDuplicates(Sorted(keys)) && Elements(Sorted(keys)) == keys
    ensures forall x :: x in Sorted(keys) ==> x in keys
  {
    SortedFacts(keys);
    IncreasingNoDuplicates(Sorted(keys));
    assert forall x :: x in Sorted(keys) ==> x in Elements(Sorted(keys));
  }

  /** `ids.filter((id) => indegree.get(id) === 0)`. */
  function InitialFrontier(ids: seq<JsString>, deps: map<JsString, seq<JsString>>): seq<JsString>
    requires forall x :: x in ids ==> x in deps
  {
    if ids == [] then []
    else (if |deps[ids[0]]| == 0 then [ids[0]] else []) + InitialFrontier(ids[1..], deps)
  }

  lemma {:induction false} InitialFrontierFacts(ids: seq<JsString>, deps: map<JsString, seq<JsString>>)
    requires (forall x :: x in ids ==> x in deps) && NoDuplicates(ids)
    ensures NoDuplicates(InitialFrontier(ids, deps))
    ensures forall x :: x in InitialFrontier(ids, deps) <==> x in ids && |deps[x]| == 0
  {
    if ids != [] {
      InitialFrontierFacts(ids[1..], deps);
      assert forall x :: x in ids <==> x == ids[0] || x in ids[1..];
      assert ids[0] !in ids[1..];
    }
  }

  lemma InitialFacts(g: Graph, deps: map<JsString, seq<JsString>>, ids: seq<JsString>, indegree: map<JsString, int>)
    requires Lists(g, deps) && NoDuplicates(ids) && Elements(ids) == g.Keys
    requires forall x :: x in ids ==> x in deps
    requires indegree.Keys == deps.Keys && forall x :: x in deps ==> indegree[x] == |deps[x]|
    ensures Ordered(g, ids, [], indegree, SortStrings(InitialFrontier(ids, deps)))
  {
    hide Elements, InitialFrontier, NoDuplicates, Ordered, SortStrings;
    var first := InitialFrontier(ids, deps);
    InitialFrontierFacts(ids, deps);
    SortStringsFacts(first);
    forall x | x in ids ensures x in g && |deps[x]| == |g[x] - {}| && (|deps[x]| == 0 <==> g[x] <= {}) {
      assert x in deps;
      InitialCount(g, deps, ids, x);
    }
    assert deps.Keys == g.Keys;
    FirstReady(g, deps, ids, first);
    assert Counts(g, indegree, ids, {});
    NothingOrdered(g, ids, indegree, SortStrings(first));
  }

  lemma NothingOrdered(g: Graph, ids: seq<JsString>, indegree: map<JsString, int>, frontier: seq<JsString>)
    requires Counts(g, indegree, ids, {}) && Increasing(frontier) && Elements(frontier) == Ready(g, {})
    ensures Ordered(g, ids, [], indegree, frontier)
  {
    hide Counts, Increasing, Ready;
    assert Elements<JsString>([]) == {};
  }

  lemma FirstReady(g: Graph, deps: map<JsString, seq<JsString>>, ids: seq<JsString>, first: seq<JsString>)
    requires deps.Keys == g.Keys == Elements(ids)
    requires forall x :: x in ids ==> x in g && (|deps[x]| == 0 <==> g[x] <= {})
    requires forall x :: x in first <==> x in ids && |deps[x]| == 0
    ensures Elements(first) == Ready(g, {})
  {
    assert forall x :: x in g ==> x in Elements(ids);
  }

  lemma InitialCount(g: Graph, deps: map<JsString, seq<JsString>>, ids: seq<JsString>, x: JsString)
    requires Lists(g, deps) && Elements(ids) == g.Keys && x in ids
    ensures x in g && |deps[x]| == |g[x] - {}| && (|deps[x]| == 0 <==> g[x] <= {})
  {
    assert x in Elements(ids);
    DistinctLength(deps[x]);
    EmptyMeansContained(g[x], {});
    assert g[x] - {} == g[x];
  }
}
