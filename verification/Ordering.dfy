/** JavaScript's string order, and the one sorted sequence of a set of strings. */
module Ordering {
  import opened Base

  /** `a < b` on JavaScript strings: lexicographic by UTF-16 code unit. */
  predicate Less(a: JsString, b: JsString) {
    if b == [] then false
    else if a == [] then true
    else a[0] < b[0] || (a[0] == b[0] && Less(a[1..], b[1..]))
  }

  /** The first unit in which two strings differ is smaller in the first, or the first is the shorter of the two. */
  ghost predicate UnitBefore(a: JsString, b: JsString) {
    exists k :: 0 <= k <= |a| && k < |b| && a[..k] == b[..k] && (k == |a| || a[k] < b[k])
  }

  lemma {:induction false} LessIsUnitBefore(a: JsString, b: JsString)
    ensures Less(a, b) <==> UnitBefore(a, b)
  {
    forall k | 0 < k <= |a| && k < |b| && a[..k] == b[..k] ensures a[0] == b[0] {
      assert a[..k][0] == b[..k][0];
    }
    assert a[..0] == b[..0];
    if a != [] && b != [] && a[0] == b[0] {
      var x, y := a[1..], b[1..];
      LessIsUnitBefore(x, y);
      if Less(x, y) {
        var k :| 0 <= k <= |x| && k < |y| && x[..k] == y[..k] && (k == |x| || x[k] < y[k]);
        assert a[..k + 1] == [a[0]] + x[..k] && b[..k + 1] == [b[0]] + y[..k];
      }
      if UnitBefore(a, b) {
        var k :| 0 <= k <= |a| && k < |b| && a[..k] == b[..k] && (k == |a| || a[k] < b[k]);
        assert x[..k - 1] == a[..k][1..] && y[..k - 1] == b[..k][1..];
      }
    }
  }

  /** In the sorted list of a set of strings each one comes, unit by unit, before the next. */
  lemma SortedAscends(s: set<JsString>)
    ensures forall i, j :: 0 <= i < j < |Sorted(s)| ==> UnitBefore(Sorted(s)[i], Sorted(s)[j])
  {
    SortedFacts(s);
    forall i, j | 0 <= i < j < |Sorted(s)| ensures UnitBefore(Sorted(s)[i], Sorted(s)[j]) {
      LessIsUnitBefore(Sorted(s)[i], Sorted(s)[j]);
    }
  }

  lemma {:induction false} LessIrreflexive(a: JsString)
    ensures !Less(a, a)
  {
    if a != [] { LessIrreflexive(a[1..]); }
  }

  lemma {:induction false} LessTransitive(a: JsString, b: JsString, c: JsString)
    requires Less(a, b) && Less(b, c)
    ensures Less(a, c)
  {
    if a != [] && a[0] == b[0] == c[0] { LessTransitive(a[1..], b[1..], c[1..]); }
  }

  lemma {:induction false} LessTotal(a: JsString, b: JsString)
    ensures a == b || Less(a, b) || Less(b, a)
  {
    if a != [] && b != [] && a[0] == b[0] {
      LessTotal(a[1..], b[1..]);
      if a[1..] == b[1..] {
        assert a == [a[0]] + a[1..];
        assert b == [b[0]] + b[1..];
      }
    }
  }

  lemma LessAsymmetric(a: JsString, b: JsString)
    requires Less(a, b)
    ensures !Less(b, a) && a != b
  {
    LessIrreflexive(a);
    if Less(b, a) { LessTransitive(a, b, a); }
  }

  ghost predicate Increasing(xs: seq<JsString>) {
    forall i, j :: 0 <= i < j < |xs| ==> Less(xs[i], xs[j])
  }

  ghost predicate IsLeast(m: JsString, s: set<JsString>) {
    m in s && forall x :: x in s ==> x == m || Less(m, x)
  }

  lemma {:induction false} LeastExists(s: set<JsString>)
    requires s != {}
    ensures exists m :: IsLeast(m, s)
    decreases |s|
  {
    var a :| a in s;
    var rest := s - {a};
    if rest == {} {
      assert s == {a};
      assert IsLeast(a, s);
    } else {
      LeastExists(rest);
      var m :| IsLeast(m, rest);
      LessTotal(a, m);
      if Less(a, m) {
        forall x | x in s ensures x == a || Less(a, x) {
          if x != a && x != m { LessTransitive(a, m, x); }
        }
        assert IsLeast(a, s);
      } else {
        assert IsLeast(m, s);
      }
    }
  }

  lemma LeastUnique(m: JsString, n: JsString, s: set<JsString>)
    requires IsLeast(m, s) && IsLeast(n, s)
    ensures m == n
  {
    if m != n { LessAsymmetric(m, n); }
  }

  /** The smallest string of a nonempty set. */
  function Least(s: set<JsString>): (m: JsString)
    requires s != {}
    ensures IsLeast(m, s)
  {
    LeastExists(s);
    assert forall m, n :: IsLeast(m, s) && IsLeast(n, s) ==> m == n by {
      forall m, n | IsLeast(m, s) && IsLeast(n, s) ensures m == n { LeastUnique(m, n, s); }
    }
    assert forall m :: IsLeast(m, s) <==> (m in s && forall x :: x in s ==> x == m || Less(m, x));
    var m :| m in s && forall x :: x in s ==> x == m || Less(m, x);
    m
  }

  /** What `[...s].sort()` returns on the members of a set of strings. */
  function Sorted(s: set<JsString>): seq<JsString>
    decreases |s|
  {
    if s == {} then [] else var m := Least(s); [m] + Sorted(s - {m})
  }

  lemma {:induction false} SortedFacts(s: set<JsString>)
    ensures Increasing(Sorted(s))
    ensures Elements(Sorted(s)) == s
    ensures |Sorted(s)| == |s|
    decreases |s|
  {
    if s != {} {
      var m := Least(s);
      var rest := Sorted(s - {m});
      SortedFacts(s - {m});
      LeastPrepends(m, s, rest);
    }
  }

  lemma LeastPrepends(m: JsString, s: set<JsString>, rest: seq<JsString>)
    requires IsLeast(m, s) && Increasing(rest) && Elements(rest) == s - {m}
    ensures Increasing([m] + rest) && Elements([m] + rest) == s
  {
    var xs := [m] + rest;
    forall i, j | 0 <= i < j < |xs| ensures Less(xs[i], xs[j]) {
      assert xs[j] == rest[j - 1] && rest[j - 1] in Elements(rest);
    }
    forall x | x in s ensures x in Elements(xs) {
      if x == m { assert xs[0] == x; } else {
        assert x in Elements(rest);
        var k :| 0 <= k < |rest| && rest[k] == x;
        assert xs[k + 1] == x;
      }
    }
    forall x | x in Elements(xs) ensures x in s {
      var k :| 0 <= k < |xs| && xs[k] == x;
      if k > 0 { assert rest[k - 1] in Elements(rest); }
    }
  }

  lemma IncreasingNoDuplicates(xs: seq<JsString>)
    requires Increasing(xs)
    ensures NoDuplicates(xs)
  {
    forall i, j | 0 <= i < j < |xs| ensures xs[i] != xs[j] { LessAsymmetric(xs[i], xs[j]); }
  }

  lemma HeadIsElement<T>(xs: seq<T>)
    requires xs != []
    ensures xs[0] in Elements(xs)
  {
  }

  /** A set has only one increasing enumeration, so sorting forgets the order it started from. */
  lemma {:induction false} IncreasingUnique(xs: seq<JsString>, ys: seq<JsString>)
    requires Increasing(xs) && Increasing(ys)
    requires Elements(xs) == Elements(ys)
    ensures xs == ys
  {
    if xs == [] {
      if ys != [] { HeadIsElement(ys); }
    } else {
      assert xs[0] in Elements(xs);
      assert ys != [];
      assert ys[0] in Elements(ys);
      IncreasingHead(xs);
      IncreasingHead(ys);
      LeastUnique(xs[0], ys[0], Elements(xs));
      IncreasingTail(xs);
      IncreasingTail(ys);
      IncreasingUnique(xs[1..], ys[1..]);
      assert xs == [xs[0]] + xs[1..] && ys == [ys[0]] + ys[1..];
    }
  }

  lemma IncreasingHead(xs: seq<JsString>)
    requires Increasing(xs) && xs != []
    ensures IsLeast(xs[0], Elements(xs))
  {
  }

  lemma IncreasingTail(xs: seq<JsString>)
    requires Increasing(xs) && xs != []
    ensures Increasing(xs[1..])
    ensures Elements(xs[1..]) == Elements(xs) - {xs[0]}
  {
    IncreasingNoDuplicates(xs);
    forall x | x in Elements(xs) - {xs[0]} ensures x in Elements(xs[1..]) {
      var k :| 0 <= k < |xs| && xs[k] == x;
      assert xs[1..][k - 1] == x;
    }
  }

  // ---------- sums that forget order ----------

  function SumOf<T>(xs: seq<T>, f: T -> nat): nat {
    if xs == [] then 0 else f(xs[0]) + SumOf(xs[1..], f)
  }

  lemma {:induction false} SumOfConcat<T>(xs: seq<T>, ys: seq<T>, f: T -> nat)
    ensures SumOf(xs + ys, f) == SumOf(xs, f) + SumOf(ys, f)
  {
    if xs == [] {
      assert xs + ys == ys;
    } else {
      assert (xs + ys)[1..] == xs[1..] + ys;
      SumOfConcat(xs[1..], ys, f);
    }
  }

  function Without<T>(xs: seq<T>, k: nat): seq<T>
    requires k < |xs|
  {
    xs[..k] + xs[k + 1..]
  }

  lemma MultisetWithout<T>(xs: seq<T>, k: nat)
    requires k < |xs|
    ensures multiset(xs) == multiset(Without(xs, k)) + multiset{xs[k]}
  {
    assert xs == xs[..k] + [xs[k]] + xs[k + 1..];
  }

  lemma SumOfCons<T>(x: T, back: seq<T>, f: T -> nat)
    ensures SumOf([x] + back, f) == f(x) + SumOf(back, f)
  {
    assert ([x] + back)[1..] == back;
  }

  lemma SumOfWithout<T>(xs: seq<T>, k: nat, f: T -> nat)
    requires k < |xs|
    ensures SumOf(xs, f) == SumOf(Without(xs, k), f) + f(xs[k])
  {
    var front, x, back := xs[..k], xs[k], xs[k + 1..];
    assert xs == front + ([x] + back);
    SumOfConcat(front, [x] + back, f);
    SumOfConcat(front, back, f);
    SumOfCons(x, back, f);
    hide SumOf;
  }

  lemma {:induction false} SumOfPermutation<T>(xs: seq<T>, ys: seq<T>, f: T -> nat)
    requires multiset(xs) == multiset(ys)
    ensures SumOf(xs, f) == SumOf(ys, f)
  {
    assert |xs| == |multiset(xs)| == |ys|;
    if xs != [] {
      assert xs[0] in multiset(ys);
      var k :| 0 <= k < |ys| && ys[k] == xs[0];
      MultisetWithout(xs, 0);
      MultisetWithout(ys, k);
      assert Without(xs, 0) == xs[1..];
      assert multiset(xs[1..]) == multiset(xs) - multiset{xs[0]} == multiset(Without(ys, k));
      SumOfPermutation(xs[1..], Without(ys, k), f);
      SumOfWithout(ys, k, f);
    }
  }

  /** Duplicate-free sequences with the same members are permutations of one another. */
  lemma SameMembersPermute<T>(xs: seq<T>, ys: seq<T>)
    requires NoDuplicates(xs) && NoDuplicates(ys) && Elements(xs) == Elements(ys)
    ensures multiset(xs) == multiset(ys)
  {
    DistinctMultiset(xs);
    DistinctMultiset(ys);
  }

  lemma {:induction false} DistinctMultiset<T>(xs: seq<T>)
    requires NoDuplicates(xs)
    ensures multiset(xs) == multiset(Elements(xs))
  {
    if xs != [] {
      var last := |xs| - 1;
      var front := xs[..last];
      DistinctMultiset(front);
      assert xs == front + [xs[last]];
      assert Elements(xs) == Elements(front) + {xs[last]};
    }
  }

  // ---------- permutations ----------

  lemma SameMembers<T>(xs: seq<T>, ys: seq<T>)
    requires multiset(xs) == multiset(ys)
    ensures forall x :: x in xs <==> x in ys
  {
    assert forall x :: x in xs <==> x in multiset(xs);
    assert forall x :: x in ys <==> x in multiset(ys);
  }

  lemma {:induction false} TwoOccurrences<T>(xs: seq<T>, x: T)
    requires multiset(xs)[x] >= 2
    ensures exists i, j :: 0 <= i < j < |xs| && xs[i] == x && xs[j] == x
  {
    var last := |xs| - 1;
    var front := xs[..last];
    assert xs == front + [xs[last]];
    if xs[last] == x {
      assert x in multiset(front);
      var i :| 0 <= i < last && front[i] == x;
      assert xs[i] == x && xs[last] == x;
    } else {
      TwoOccurrences(front, x);
      var i, j :| 0 <= i < j < last && front[i] == x && front[j] == x;
      assert xs[i] == x && xs[j] == x;
    }
  }

  lemma RepeatsCount<T>(xs: seq<T>, i: nat, j: nat)
    requires i < j < |xs| && xs[i] == xs[j]
    ensures multiset(xs)[xs[i]] >= 2
  {
    assert xs == xs[..j] + [xs[j]] + xs[j + 1..];
    assert xs[i] == xs[..j][i];
    assert xs[i] in multiset(xs[..j]);
  }

  ghost predicate DistinctBy<T, K>(key: T -> K, xs: seq<T>) {
    forall i, j :: 0 <= i < j < |xs| ==> key(xs[i]) != key(xs[j])
  }

  lemma SameKeySameIndex<T, K>(key: T -> K, xs: seq<T>, i: int, j: int)
    requires DistinctBy(key, xs) && 0 <= i < |xs| && 0 <= j < |xs| && key(xs[i]) == key(xs[j])
    ensures i == j
  {
  }

  /** Whether keys repeat does not depend on the order. */
  lemma DistinctByIgnoresOrder<T, K>(key: T -> K, xs: seq<T>, ys: seq<T>)
    requires multiset(xs) == multiset(ys) && DistinctBy(key, ys)
    ensures DistinctBy(key, xs)
  {
    forall i, j | 0 <= i < j < |xs| ensures key(xs[i]) != key(xs[j]) { KeysStayApart(key, xs, ys, i, j); }
  }

  lemma KeysStayApart<T, K>(key: T -> K, xs: seq<T>, ys: seq<T>, i: nat, j: nat)
    requires multiset(xs) == multiset(ys) && DistinctBy(key, ys) && i < j < |xs|
    ensures key(xs[i]) != key(xs[j])
  {
    hide DistinctBy;
    SameMembers(xs, ys);
    if key(xs[i]) == key(xs[j]) {
      assert xs[i] in ys && xs[j] in ys;
      var p :| 0 <= p < |ys| && ys[p] == xs[i];
      var q :| 0 <= q < |ys| && ys[q] == xs[j];
      SameKeySameIndex(key, ys, p, q);
      RepeatsCount(xs, i, j);
      TwoOccurrences(ys, xs[i]);
      var m, n :| 0 <= m < n < |ys| && ys[m] == xs[i] && ys[n] == xs[i];
      SameKeySameIndex(key, ys, m, n);
    }
  }
}
