/** Histories of touched keys: the reference for what a least-recently-used cache holds. */
module Recency {
  import opened Sequences

  function Without(s: seq<string>, x: string): (r: seq<string>)
    ensures |r| <= |s|
  {
    if s == [] then []
    else if s[|s| - 1] == x then Without(s[..|s| - 1], x)
    else Without(s[..|s| - 1], x) + [s[|s| - 1]]
  }

  // The distinct keys of a history, ordered by their last touch, oldest first.
  function ByLastTouch(h: seq<string>): seq<string> {
    if h == [] then [] else Without(ByLastTouch(h[..|h| - 1]), h[|h| - 1]) + [h[|h| - 1]]
  }

  function Last(s: seq<string>, n: nat): seq<string> {
    if |s| <= n then s else s[|s| - n..]
  }

  // The `capacity` most recently touched keys.
  function Recent(h: seq<string>, capacity: nat): seq<string> {
    Last(ByLastTouch(h), capacity)
  }

  lemma DistinctAppend(s: seq<string>, x: string)
    requires Distinct(s) && x !in Elems(s)
    ensures Distinct(s + [x])
  {
  }

  lemma {:induction false} WithoutElems(s: seq<string>, x: string)
    requires Distinct(s)
    ensures Elems(Without(s, x)) == Elems(s) - {x}
    ensures Distinct(Without(s, x))
  {
    if s == [] {
    } else {
      var init, y := s[..|s| - 1], s[|s| - 1];
      WithoutElems(init, x);
      assert s == init + [y];
      ElemsAppend(init, [y]);
      assert y !in Elems(init);
      if y != x {
        ElemsAppend(Without(init, x), [y]);
        DistinctAppend(Without(init, x), y);
      }
    }
  }

  lemma {:induction false} WithoutAbsent(s: seq<string>, x: string)
    requires x !in s
    ensures Without(s, x) == s
  {
    if s == [] {
    } else {
      WithoutAbsent(s[..|s| - 1], x);
      assert s == s[..|s| - 1] + [s[|s| - 1]];
    }
  }

  lemma {:induction false} ByLastTouchElems(h: seq<string>)
    ensures Distinct(ByLastTouch(h)) && Elems(ByLastTouch(h)) == Elems(h)
  {
    if h == [] {
    } else {
      var g, x := h[..|h| - 1], h[|h| - 1];
      ByLastTouchElems(g);
      var w := Without(ByLastTouch(g), x);
      WithoutElems(ByLastTouch(g), x);
      DistinctAppend(w, x);
      assert h == g + [x];
      ElemsAppend(g, [x]);
      ElemsAppend(w, [x]);
    }
  }

  // Where a kept element of Without comes from: the tails agree up to x.
  lemma {:induction false} WithoutTail(s: seq<string>, x: string, p: nat) returns (q: nat)
    requires Distinct(s) && p < |Without(s, x)|
    ensures q < |s| && s[q] == Without(s, x)[p]
    ensures Elems(Without(s, x)[p..]) == Elems(s[q..]) - {x}
    decreases |s|
  {
    var init, y := s[..|s| - 1], s[|s| - 1];
    var w := Without(init, x);
    assert s == init + [y];
    if p < |w| {
      q := WithoutTail(init, x, p);
      assert s[q..] == init[q..] + [y];
      ElemsAppend(init[q..], [y]);
      if y == x {
        assert Without(s, x)[p..] == w[p..];
      } else {
        assert Without(s, x)[p..] == w[p..] + [y];
        ElemsAppend(w[p..], [y]);
      }
    } else {
      q := |s| - 1;
      assert Without(s, x)[p..] == [y] && s[q..] == [y];
    }
  }

  lemma WindowGrows(g: seq<string>, x: string, i: nat)
    requires i < |g| && g[i] != x && g[i] !in g[i + 1..]
    ensures Elems((g + [x])[i..]) == Elems(g[i..]) + {x} && g[i] !in (g + [x])[i + 1..]
  {
    assert (g + [x])[i..] == g[i..] + [x] && (g + [x])[i + 1..] == g[i + 1..] + [x];
    ElemsAppend(g[i..], [x]);
  }

  // The tail of the order from position p holds the keys touched since the last touch of its head.
  lemma {:induction false} TailIsWindow(h: seq<string>, p: nat) returns (i: nat)
    requires p < |ByLastTouch(h)|
    ensures i < |h| && h[i] == ByLastTouch(h)[p] && h[i] !in h[i + 1..]
    ensures Elems(h[i..]) == Elems(ByLastTouch(h)[p..])
    decreases |h|
  {
    var g, x := h[..|h| - 1], h[|h| - 1];
    var order := ByLastTouch(g);
    var w := Without(order, x);
    assert h == g + [x];
    if p == |w| {
      i := |h| - 1;
      assert h[i..] == [x] && ByLastTouch(h)[p..] == [x];
    } else {
      ByLastTouchElems(g);
      WithoutElems(order, x);
      assert w[p] in Elems(w);
      var q := WithoutTail(order, x, p);
      i := TailIsWindow(g, q);
      WindowGrows(g, x, i);
      assert ByLastTouch(h)[p..] == w[p..] + [x];
      ElemsAppend(w[p..], [x]);
    }
  }

  lemma {:induction false} DistinctSize(s: seq<string>)
    requires Distinct(s)
    ensures |Elems(s)| == |s|
  {
    if s == [] {
    } else {
      DistinctSize(s[..|s| - 1]);
      assert s == s[..|s| - 1] + [s[|s| - 1]];
      assert Elems(s) == Elems(s[..|s| - 1]) + {s[|s| - 1]};
    }
  }

  lemma SubsetSize(a: set<string>, b: set<string>)
    requires a <= b
    ensures |a| <= |b|
  {
    assert b == a + (b - a);
  }

  lemma InWindow(h: seq<string>, from: nat, i: nat)
    requires from <= i < |h|
    ensures h[i] in h[from..] && h[i] in Elems(h[from..])
  {
    assert h[i] == h[from..][i - from];
  }

  // Of all windows from a touch of k to the end, the one from its last touch is the smallest.
  lemma LastWindowIsLeast(h: seq<string>, last: nat, i: nat)
    requires last < |h| && i < |h| && h[i] == h[last] && h[last] !in h[last + 1..]
    ensures i <= last && |Elems(h[last..])| <= |Elems(h[i..])|
  {
    assert h[last..] == h[i..][last - i..];
    forall x | x in Elems(h[last..])
      ensures x in Elems(h[i..])
    {
      assert x in h[i..][last - i..];
    }
    SubsetSize(Elems(h[last..]), Elems(h[i..]));
  }

  lemma WindowSize(h: seq<string>, p: nat) returns (last: nat)
    requires p < |ByLastTouch(h)|
    ensures last < |h| && h[last] == ByLastTouch(h)[p] && h[last] !in h[last + 1..]
    ensures |Elems(h[last..])| == |ByLastTouch(h)| - p
  {
    ByLastTouchElems(h);
    last := TailIsWindow(h, p);
    DistinctSize(ByLastTouch(h)[p..]);
  }

  lemma KeptByPosition(order: seq<string>, p: nat, capacity: nat)
    requires Distinct(order) && p < |order|
    ensures order[p] in Last(order, capacity) <==> |order| - p <= capacity
  {
    if |order| > capacity {
      var cut := |order| - capacity;
      assert p >= cut ==> order[cut..][p - cut] == order[p];
    }
  }

  // A key is kept exactly when at most `capacity` distinct keys, itself included, were touched
  // since some touch of it.
  lemma KeptIffRecentlyTouched(h: seq<string>, capacity: nat, k: string)
    ensures k in Recent(h, capacity) <==> exists i :: 0 <= i < |h| && h[i] == k && |Elems(h[i..])| <= capacity
  {
    var order := ByLastTouch(h);
    ByLastTouchElems(h);
    if k in h {
      assert k in Elems(order);
      var p :| 0 <= p < |order| && order[p] == k;
      var last := WindowSize(h, p);
      forall i | 0 <= i < |h| && h[i] == k
        ensures |Elems(h[last..])| <= |Elems(h[i..])|
      {
        LastWindowIsLeast(h, last, i);
      }
      KeptByPosition(order, p, capacity);
    } else {
      assert k !in Elems(order);
      assert forall y :: y in Recent(h, capacity) ==> y in order;
    }
  }

  // The order is that of the last touches.
  lemma KeptInOrderOfLastTouch(h: seq<string>, p: nat, q: nat) returns (i: nat, j: nat)
    requires p < q < |ByLastTouch(h)|
    ensures i < j < |h| && h[i] == ByLastTouch(h)[p] && h[j] == ByLastTouch(h)[q]
    ensures h[i] !in h[i + 1..] && h[j] !in h[j + 1..]
  {
    var order := ByLastTouch(h);
    ByLastTouchElems(h);
    i := TailIsWindow(h, p);
    j := TailIsWindow(h, q);
    assert order[p] !in Elems(order[q..]);
    if j <= i {
      InWindow(h, j, i);
      assert false;
    }
  }

  // A smaller cache keeps a part of what a larger one keeps.
  lemma SmallerIsIncluded(h: seq<string>, small: nat, large: nat)
    requires small <= large
    ensures |Recent(h, small)| <= |Recent(h, large)|
    ensures Recent(h, small) == Recent(h, large)[|Recent(h, large)| - |Recent(h, small)|..]
  {
  }

  lemma LastDrops(a: seq<string>, b: seq<string>, n: nat)
    requires |b| >= n
    ensures Last(a + b, n) == Last(b, n)
  {
    assert (a + b)[|a| + |b| - n..] == b[|b| - n..];
  }

  lemma {:induction false} WithoutSplit(a: seq<string>, b: seq<string>, x: string)
    ensures Without(a + b, x) == Without(a, x) + Without(b, x)
    decreases |b|
  {
    if b == [] {
      assert a + b == a;
    } else {
      var init := b[..|b| - 1];
      WithoutSplit(a, init, x);
      assert (a + b)[..|a + b| - 1] == a + init;
    }
  }

  lemma {:induction false} WithoutLength(s: seq<string>, x: string)
    requires Distinct(s) && x in s
    ensures |Without(s, x)| == |s| - 1
  {
    WithoutElems(s, x);
    DistinctSize(s);
    DistinctSize(Without(s, x));
    assert x in Elems(s);
  }

  // What a hit on a kept key does when older keys have been dropped.
  lemma HitKeepsTail(a: seq<string>, b: seq<string>, x: string)
    requires Distinct(a + b) && x in b
    ensures Without(b, x) + [x] == Last(Without(a + b, x) + [x], |b|)
  {
    assert forall i :: 0 <= i < |b| ==> (a + b)[|a| + i] == b[i];
    assert Distinct(b);
    var k :| 0 <= k < |b| && b[k] == x;
    assert x !in a by {
      assert forall i :: 0 <= i < |a| ==> (a + b)[i] == a[i] && (a + b)[i] != (a + b)[|a| + k];
    }
    assert Distinct(a) by {
      assert forall i :: 0 <= i < |a| ==> (a + b)[i] == a[i];
    }
    WithoutSplit(a, b, x);
    WithoutAbsent(a, x);
    WithoutLength(b, x);
    hide Without, Distinct;
    var c := Without(b, x) + [x];
    assert Without(a + b, x) + [x] == a + c;
    LastDrops(a, c, |b|);
  }

  // What a hit does to the kept keys.
  lemma HitKeeps(s: seq<string>, x: string, n: nat)
    requires Distinct(s) && x in Last(s, n)
    ensures Without(Last(s, n), x) + [x] == Last(Without(s, x) + [x], n)
  {
    if |s| > n {
      var a, b := s[..|s| - n], s[|s| - n..];
      assert s == a + b;
      hide Without, Distinct;
      HitKeepsTail(a, b, x);
    } else {
      WithoutLength(s, x);
    }
  }

  lemma StoreKeepsTail(a: seq<string>, b: seq<string>, x: string)
    requires x !in b
    ensures Last(b + [x], |b|) == Last(Without(a + b, x) + [x], |b|)
  {
    WithoutSplit(a, b, x);
    WithoutAbsent(b, x);
    hide Without;
    var c := b + [x];
    assert Without(a + b, x) + [x] == Without(a, x) + c;
    LastDrops(Without(a, x), c, |b|);
  }

  // What storing a key that is not kept does.
  lemma StoreKeeps(s: seq<string>, x: string, n: nat)
    requires Distinct(s) && x !in Last(s, n)
    ensures Last(Last(s, n) + [x], n) == Last(Without(s, x) + [x], n)
  {
    if |s| > n {
      var a, b := s[..|s| - n], s[|s| - n..];
      assert s == a + b;
      hide Without, Distinct;
      StoreKeepsTail(a, b, x);
    } else {
      WithoutAbsent(s, x);
    }
  }
}
