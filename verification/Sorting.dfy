/** `Array.prototype.sort` with a comparator that is a strict total order on the elements at hand. */
module Sorting {
  import opened Base

  /** The comparator orders any two different elements of a collection exactly one way. */
  ghost predicate StrictOrder<T(!new)>(before: (T, T) -> bool, s: set<T>) {
    && (forall x, y :: x in s && y in s && before(x, y) ==> !before(y, x))
    && (forall x, y :: x in s && y in s && x != y ==> before(x, y) || before(y, x))
    && (forall x, y, z :: x in s && y in s && z in s && before(x, y) && before(y, z) ==> before(x, z))
  }

  ghost predicate SortedBy<T>(before: (T, T) -> bool, xs: seq<T>) {
    forall i, j :: 0 <= i < j < |xs| ==> before(xs[i], xs[j])
  }

  function Insert<T>(before: (T, T) -> bool, x: T, xs: seq<T>): seq<T> {
    if xs == [] then [x]
    else if before(x, xs[0]) then [x] + xs
    else [xs[0]] + Insert(before, x, xs[1..])
  }

  /** `xs.sort(comparator)`. */
  function Sort<T>(before: (T, T) -> bool, xs: seq<T>): seq<T> {
    if xs == [] then [] else Insert(before, xs[0], Sort(before, xs[1..]))
  }

  lemma {:induction false} InsertKeeps<T>(before: (T, T) -> bool, x: T, xs: seq<T>)
    ensures multiset(Insert(before, x, xs)) == multiset(xs) + multiset{x}
  {
    if xs != [] && !before(x, xs[0]) {
      InsertKeeps(before, x, xs[1..]);
      assert xs == [xs[0]] + xs[1..];
    }
  }

  /** Sorting is a permutation. */
  lemma {:induction false} SortKeeps<T>(before: (T, T) -> bool, xs: seq<T>)
    ensures multiset(Sort(before, xs)) == multiset(xs)
    ensures |Sort(before, xs)| == |xs|
  {
    if xs != [] {
      SortKeeps(before, xs[1..]);
      InsertKeeps(before, xs[0], Sort(before, xs[1..]));
      assert xs == [xs[0]] + xs[1..];
    }
    assert |multiset(Sort(before, xs))| == |Sort(before, xs)|;
  }

  lemma SortMembers<T>(before: (T, T) -> bool, xs: seq<T>)
    ensures forall x :: x in Sort(before, xs) <==> x in xs
  {
    SortKeeps(before, xs);
    assert forall x :: x in xs <==> x in multiset(xs);
    assert forall x :: x in Sort(before, xs) <==> x in multiset(Sort(before, xs));
  }

  lemma {:induction false} InsertSorts<T(!new)>(before: (T, T) -> bool, x: T, xs: seq<T>, s: set<T>)
    requires StrictOrder(before, s) && x in s && x !in xs && (forall y :: y in xs ==> y in s)
    requires SortedBy(before, xs)
    ensures SortedBy(before, Insert(before, x, xs))
  {
    if xs != [] {
      var r := Insert(before, x, xs);
      if before(x, xs[0]) {
        forall j | 0 <= j < |xs| ensures before(x, xs[j]) {
          assert xs[j] in xs;
          if j > 0 { assert before(xs[0], xs[j]); }
        }
      } else {
        var rest := Insert(before, x, xs[1..]);
        assert xs[0] in xs;
        InsertSorts(before, x, xs[1..], s);
        InsertKeeps(before, x, xs[1..]);
        forall j | 0 <= j < |rest| ensures before(xs[0], rest[j]) {
          assert rest[j] in multiset(rest);
          if rest[j] != x {
            assert rest[j] in xs[1..];
            var k :| 0 <= k < |xs| - 1 && xs[1..][k] == rest[j];
            assert before(xs[0], xs[k + 1]);
          }
        }
      }
    }
  }

  lemma {:induction false} SortSorts<T(!new)>(before: (T, T) -> bool, xs: seq<T>, s: set<T>)
    requires StrictOrder(before, s) && (forall y :: y in xs ==> y in s) && NoDuplicates(xs)
    ensures SortedBy(before, Sort(before, xs))
  {
    if xs != [] {
      var rest := xs[1..];
      assert forall y :: y in rest ==> y in xs;
      SortSorts(before, rest, s);
      SortMembers(before, rest);
      assert xs[0] in xs;
      InsertSorts(before, xs[0], Sort(before, rest), s);
    }
  }

  /** Two sorted sequences with the same members are the same sequence. */
  lemma {:induction false} SortedUnique<T(!new)>(before: (T, T) -> bool, xs: seq<T>, ys: seq<T>, s: set<T>)
    requires StrictOrder(before, s) && (forall y :: y in xs ==> y in s)
    requires SortedBy(before, xs) && SortedBy(before, ys)
    requires forall x :: x in xs <==> x in ys
    ensures xs == ys
  {
    if xs == [] {
      if ys != [] { HeadIsMember(ys); }
    } else {
      assert xs[0] in xs && xs[0] in ys;
      assert ys[0] in ys && ys[0] in xs;
      FirstsAgree(before, xs, ys, s);
      RestMembers(before, xs, s);
      RestMembers(before, ys, s);
      SortedUnique(before, xs[1..], ys[1..], s);
      assert xs == [xs[0]] + xs[1..] && ys == [ys[0]] + ys[1..];
    }
  }

  lemma HeadIsMember<T>(xs: seq<T>)
    requires xs != []
    ensures xs[0] in xs
  {
  }

  lemma FirstsAgree<T(!new)>(before: (T, T) -> bool, xs: seq<T>, ys: seq<T>, s: set<T>)
    requires StrictOrder(before, s) && (forall y :: y in xs ==> y in s)
    requires SortedBy(before, xs) && SortedBy(before, ys) && xs != [] && ys != []
    requires xs[0] in ys && ys[0] in xs
    ensures xs[0] == ys[0]
  {
    var i :| 0 <= i < |ys| && ys[i] == xs[0];
    var j :| 0 <= j < |xs| && xs[j] == ys[0];
  }

  lemma RestMembers<T(!new)>(before: (T, T) -> bool, xs: seq<T>, s: set<T>)
    requires StrictOrder(before, s) && (forall y :: y in xs ==> y in s)
    requires SortedBy(before, xs) && xs != []
    ensures forall x :: x in xs[1..] <==> x in xs && x != xs[0]
    ensures SortedBy(before, xs[1..])
  {
    forall x | x in xs[1..] ensures x in xs && x != xs[0] {
      var k :| 0 <= k < |xs| - 1 && xs[1..][k] == x;
      assert xs[k + 1] == x && before(xs[0], xs[k + 1]);
      assert xs[0] in xs && xs[k + 1] in xs;
    }
    forall x | x in xs && x != xs[0] ensures x in xs[1..] {
      var k :| 0 <= k < |xs| && xs[k] == x;
      assert xs[1..][k - 1] == x;
    }
  }
}
