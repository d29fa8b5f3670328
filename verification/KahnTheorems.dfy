/** What the greedy order is: the least topological order, and complete exactly on acyclic graphs. */
module KahnTheorems {
  import opened Base
  import opened Ordering
  import opened Kahn

  lemma PrefixElements<T>(xs: seq<T>, k: nat, x: T)
    requires k <= |xs|
    ensures x in Elements(xs[..k]) <==> exists i :: 0 <= i < k && xs[i] == x
  {
    if x in Elements(xs[..k]) {
      var i :| 0 <= i < k && xs[..k][i] == x;
      assert xs[i] == x;
    }
    if i :| 0 <= i < k && xs[i] == x { assert xs[..k][i] == x; }
  }

  /** A greedy order repeats nothing and puts dependencies first. */
  lemma GreedyRespects(g: Graph, order: seq<JsString>)
    requires Greedy(g, order)
    ensures NoDuplicates(order) && Respects(g, order) && Elements(order) <= g.Keys
  {
    forall i | 0 <= i < |order| ensures order[i] in Ready(g, Elements(order[..i])) {
      assert IsLeast(order[i], Ready(g, Elements(order[..i])));
    }
    forall i, j | 0 <= i < j < |order| ensures order[i] != order[j] {
      assert order[j] in Ready(g, Elements(order[..j]));
      PrefixElements(order, j, order[i]);
    }
    forall x | x in Elements(order) ensures x in g {
      var i :| 0 <= i < |order| && order[i] == x;
      assert order[i] in Ready(g, Elements(order[..i]));
    }
  }

  // ---------- uniqueness and leastness ----------

  lemma GreedyAt(g: Graph, order: seq<JsString>, k: nat)
    requires Greedy(g, order) && k < |order|
    ensures IsLeast(order[k], Ready(g, Elements(order[..k])))
  {
  }

  lemma ReadyWhileUnfinished(g: Graph, order: seq<JsString>, k: nat)
    requires Greedy(g, order) && k <= |order|
    ensures k == |order| <==> Ready(g, Elements(order[..k])) == {}
  {
    if k < |order| {
      GreedyAt(g, order, k);
    } else {
      assert order[..k] == order;
    }
  }

  lemma {:induction false} GreedyAgreesUpTo(g: Graph, a: seq<JsString>, b: seq<JsString>, k: nat)
    requires Greedy(g, a) && Greedy(g, b) && k <= |a|
    ensures k <= |b| && a[..k] == b[..k]
  {
    if k > 0 {
      GreedyAgreesUpTo(g, a, b, k - 1);
      ReadyWhileUnfinished(g, a, k - 1);
      ReadyWhileUnfinished(g, b, k - 1);
      GreedyAt(g, a, k - 1);
      GreedyAt(g, b, k - 1);
      LeastUnique(a[k - 1], b[k - 1], Ready(g, Elements(a[..k - 1])));
      assert a[..k] == a[..k - 1] + [a[k - 1]];
      assert b[..k] == b[..k - 1] + [b[k - 1]];
    }
  }

  /** A graph has one greedy order, however its dependencies were listed. */
  lemma GreedyIsUnique(g: Graph, a: seq<JsString>, b: seq<JsString>)
    requires Greedy(g, a) && Greedy(g, b)
    ensures a == b
  {
    GreedyAgreesUpTo(g, a, b, |a|);
    GreedyAgreesUpTo(g, b, a, |b|);
    assert a[..|a|] == a && b[..|b|] == b;
  }

  lemma FirstDifference(a: seq<JsString>, b: seq<JsString>, k: nat) returns (d: nat)
    requires k <= |a| && k <= |b| && a[..k] == b[..k]
    ensures k <= d <= |a| && d <= |b| && a[..d] == b[..d]
    ensures d == |a| || d == |b| || a[d] != b[d]
    decreases |a| - k
  {
    if k < |a| && k < |b| && a[k] == b[k] {
      assert a[..k + 1] == a[..k] + [a[k]] && b[..k + 1] == b[..k] + [b[k]];
      d := FirstDifference(a, b, k + 1);
    } else {
      d := k;
    }
  }

  lemma TopologicalIsReady(g: Graph, t: seq<JsString>, k: nat)
    requires IsTopological(g, t) && k < |t|
    ensures t[k] in Ready(g, Elements(t[..k]))
  {
    PrefixElements(t, k, t[k]);
  }

  /** Among all topological orders the greedy one is first in dictionary order. */
  lemma GreedyIsLeastTopological(g: Graph, order: seq<JsString>, t: seq<JsString>)
    requires Greedy(g, order) && IsTopological(g, t)
    ensures order == t || Precedes(order, t)
  {
    var d := FirstDifference(order, t, 0);
    ReadyWhileUnfinished(g, order, d);
    if d < |t| {
      TopologicalIsReady(g, t, d);
      GreedyAt(g, order, d);
      assert Less(order[d], t[d]);
      assert order[..d] == t[..d];
    } else if d < |order| {
      GreedyAt(g, order, d);
    } else {
      assert order[..d] == order && t[..d] == t;
    }
  }

  // ---------- cycles ----------

  /** A topological order leaves no room for a cycle. */
  lemma TopologicalIsAcyclic(g: Graph, t: seq<JsString>)
    requires IsTopological(g, t)
    ensures Acyclic(g)
  {
    forall walk ensures !IsCycle(g, walk) {
      if IsCycle(g, walk) {
        var last := |walk| - 1;
        assert walk[0] in Elements(t);
        var i :| 0 <= i < |t| && t[i] == walk[0];
        var j := WalkDescends(g, t, walk, last, i);
      }
    }
  }

  /** Along a walk, positions in a topological order go down. */
  lemma {:induction false} WalkDescends(g: Graph, t: seq<JsString>, walk: seq<JsString>, k: nat, i: nat)
      returns (j: nat)
    requires IsTopological(g, t) && IsWalk(g, walk) && 0 < k < |walk|
    requires i < |t| && t[i] == walk[0]
    ensures j < i && t[j] == walk[k]
  {
    var from := i;
    if k > 1 { from := WalkDescends(g, t, walk, k - 1, i); }
    assert walk[k - 1 + 1] in g[walk[k - 1]];
    assert walk[k] in Elements(t[..from]);
    PrefixElements(t, from, walk[k]);
    j :| 0 <= j < from && t[j] == walk[k];
  }

  /** Every pack of the stuck set waits for another one in it. */
  ghost predicate Waits(g: Graph, s: set<JsString>, x: JsString)
    requires x in g
  {
    exists d :: d in g[x] && d in s
  }

  ghost predicate Stuck(g: Graph, s: set<JsString>) {
    forall x :: x in s ==> x in g && Waits(g, s, x)
  }

  lemma NextStuck(g: Graph, s: set<JsString>, x: JsString) returns (d: JsString)
    requires Stuck(g, s) && x in s
    ensures x in g && d in g[x] && d in s
  {
    assert Waits(g, s, x);
    hide Stuck;
    d :| d in g[x] && d in s;
  }

  lemma {:induction false} StuckWalk(g: Graph, s: set<JsString>, x: JsString, n: nat) returns (walk: seq<JsString>)
    requires Stuck(g, s) && x in s
    ensures |walk| == n + 1 && walk[0] == x && IsWalk(g, walk) && Elements(walk) <= s
    decreases n
  {
    if n == 0 {
      walk := [x];
      hide Stuck;
    } else {
      var d := NextStuck(g, s, x);
      hide Stuck;
      var rest := StuckWalk(g, s, d, n - 1);
      walk := [x] + rest;
      WalkPrepends(g, x, rest);
      forall y | y in Elements(walk) ensures y in s {
        if y != x { assert y in rest; assert y in Elements(rest); }
      }
    }
  }

  lemma WalkPrepends(g: Graph, x: JsString, rest: seq<JsString>)
    requires rest != [] && x in g && rest[0] in g[x] && IsWalk(g, rest)
    ensures IsWalk(g, [x] + rest)
  {
    var walk := [x] + rest;
    forall i | 0 <= i < |walk| - 1 ensures walk[i] in g && walk[i + 1] in g[walk[i]] {
      if i > 0 { assert walk[i] == rest[i - 1] && walk[i + 1] == rest[i - 1 + 1]; }
    }
  }

  lemma SubsetIsSmaller<T>(a: set<T>, b: set<T>)
    requires a <= b
    ensures |a| <= |b|
  {
    assert b == a + (b - a);
  }

  /** A walk longer than its set of places visits some place twice. */
  lemma Pigeonhole(walk: seq<JsString>, s: set<JsString>) returns (i: nat, j: nat)
    requires Elements(walk) <= s && |walk| > |s|
    ensures i < j < |walk| && walk[i] == walk[j]
  {
    if NoDuplicates(walk) {
      DistinctLength(walk);
      SubsetIsSmaller(Elements(walk), s);
      assert false;
    }
    i, j :| 0 <= i < j < |walk| && walk[i] == walk[j];
  }

  lemma StuckHasCycle(g: Graph, s: set<JsString>)
    requires Stuck(g, s) && s != {}
    ensures !Acyclic(g)
  {
    var x :| x in s;
    var walk := StuckWalk(g, s, x, |s|);
    hide Stuck;
    var i, j := Pigeonhole(walk, s);
    var loop := walk[i..j + 1];
    forall k | 0 <= k < |loop| - 1 ensures loop[k] in g && loop[k + 1] in g[loop[k]] {
      assert loop[k] == walk[i + k] && loop[k + 1] == walk[i + k + 1];
    }
    assert IsCycle(g, loop);
  }

  lemma LeftoversAreStuck(g: Graph, order: seq<JsString>)
    requires Closed(g) && Greedy(g, order)
    ensures Stuck(g, g.Keys - Elements(order))
  {
    var s := g.Keys - Elements(order);
    forall x | x in s ensures Waits(g, s, x) {
      assert x !in Ready(g, Elements(order));
      var d :| d in g[x] && d !in Elements(order);
      assert d in s;
    }
  }

  /** The loop orders every pack exactly when the graph is acyclic, so DEPENDENCY_CYCLE is exact. */
  lemma CompleteExactlyWhenAcyclic(g: Graph, order: seq<JsString>)
    requires Closed(g) && Greedy(g, order)
    ensures |order| == |g.Keys| <==> Acyclic(g)
    ensures Acyclic(g) ==> IsTopological(g, order)
  {
    GreedyRespects(g, order);
    DistinctLength(order);
    var s := g.Keys - Elements(order);
    assert g.Keys == Elements(order) + s;
    if s == {} {
      assert IsTopological(g, order);
      TopologicalIsAcyclic(g, order);
    } else {
      LeftoversAreStuck(g, order);
      StuckHasCycle(g, s);
      assert |g.Keys| == |Elements(order)| + |s|;
    }
  }
}
