/** Stable sorting by an integer key. */
module Sorting {

  ghost predicate Ascending<T>(s: seq<T>, key: T -> int) {
    forall i, j :: 0 <= i < j < |s| ==> key(s[i]) <= key(s[j])
  }

  function Insert<T>(s: seq<T>, x: T, key: T -> int): (r: seq<T>)
    ensures |r| == |s| + 1
  {
    if s == [] || key(s[|s| - 1]) <= key(x) then s + [x]
    else Insert(s[..|s| - 1], x, key) + [s[|s| - 1]]
  }

  function Sort<T>(s: seq<T>, key: T -> int): (r: seq<T>)
    ensures |r| == |s|
  {
    if s == [] then [] else Insert(Sort(s[..|s| - 1], key), s[|s| - 1], key)
  }

  lemma {:induction false} InsertElems<T>(s: seq<T>, x: T, key: T -> int)
    ensures multiset(Insert(s, x, key)) == multiset(s) + multiset{x}
    ensures forall y :: y in Insert(s, x, key) ==> y == x || y in s
  {
    if s != [] && key(s[|s| - 1]) > key(x) {
      InsertElems(s[..|s| - 1], x, key);
      assert s == s[..|s| - 1] + [s[|s| - 1]];
    }
  }

  lemma {:induction false} InsertKeepsOrder<T>(s: seq<T>, x: T, key: T -> int)
    requires Ascending(s, key)
    ensures Ascending(Insert(s, x, key), key)
  {
    if s != [] && key(s[|s| - 1]) > key(x) {
      InsertKeepsOrder(s[..|s| - 1], x, key);
      InsertElems(s[..|s| - 1], x, key);
      var r := Insert(s[..|s| - 1], x, key);
      assert forall i :: 0 <= i < |r| ==> r[i] in r;
    }
  }

  lemma {:induction false} SortIs<T>(s: seq<T>, key: T -> int)
    ensures Ascending(Sort(s, key), key) && multiset(Sort(s, key)) == multiset(s)
  {
    if s == [] {
    } else {
      SortIs(s[..|s| - 1], key);
      assert s == s[..|s| - 1] + [s[|s| - 1]];
      InsertElems(Sort(s[..|s| - 1], key), s[|s| - 1], key);
      InsertKeepsOrder(Sort(s[..|s| - 1], key), s[|s| - 1], key);
    }
  }

  ghost predicate DistinctBy<T, K>(s: seq<T>, f: T -> K) {
    forall i, j :: 0 <= i < j < |s| ==> f(s[i]) != f(s[j])
  }

  lemma {:induction false} InsertDistinct<T, K>(s: seq<T>, x: T, key: T -> int, f: T -> K)
    requires DistinctBy(s, f) && forall y :: y in s ==> f(y) != f(x)
    ensures DistinctBy(Insert(s, x, key), f)
  {
    if s != [] && key(s[|s| - 1]) > key(x) {
      var init := s[..|s| - 1];
      InsertDistinct(init, x, key, f);
      InsertElems(init, x, key);
      assert forall i :: 0 <= i < |s| ==> Insert(init, x, key)[i] in Insert(init, x, key);
    }
  }

  lemma {:induction false} SortDistinct<T, K>(s: seq<T>, key: T -> int, f: T -> K)
    requires DistinctBy(s, f)
    ensures DistinctBy(Sort(s, key), f)
  {
    if s == [] {
    } else {
      var init, last := s[..|s| - 1], s[|s| - 1];
      SortDistinct(init, key, f);
      SortIs(init, key);
      forall y | y in Sort(init, key)
        ensures f(y) != f(last)
      {
        assert y in multiset(init);
      }
      InsertDistinct(Sort(init, key), last, key, f);
    }
  }

  ghost predicate Ordered<T>(s: seq<T>, le: (T, T) -> bool) {
    forall i, j :: 0 <= i < j < |s| ==> le(s[i], s[j])
  }

  lemma LastIsGreatest<T>(a: seq<T>, b: seq<T>, le: (T, T) -> bool)
    requires Ordered(b, le) && multiset(a) == multiset(b) && a != []
    ensures b != [] && (a[|a| - 1] == b[|b| - 1] || le(a[|a| - 1], b[|b| - 1]))
  {
    assert a[|a| - 1] in multiset(b);
    var i :| 0 <= i < |b| && b[i] == a[|a| - 1];
  }

  lemma DropLast<T>(a: seq<T>)
    requires a != []
    ensures multiset(a[..|a| - 1]) == multiset(a) - multiset{a[|a| - 1]}
  {
    assert a == a[..|a| - 1] + [a[|a| - 1]];
  }

  // Two sequences with the same elements in the same order are the same.
  lemma {:induction false} OrderedUnique<T(!new)>(a: seq<T>, b: seq<T>, le: (T, T) -> bool)
    requires forall x, y :: le(x, y) && le(y, x) ==> x == y
    requires Ordered(a, le) && Ordered(b, le) && multiset(a) == multiset(b)
    ensures a == b
    decreases |a|
  {
    assert |a| == |b| by {
      assert |a| == |multiset(a)| && |b| == |multiset(b)|;
    }
    if a == [] {
    } else {
      LastIsGreatest(a, b, le);
      LastIsGreatest(b, a, le);
      DropLast(a);
      DropLast(b);
      OrderedUnique(a[..|a| - 1], b[..|b| - 1], le);
    }
  }
}
