// The elements of a sequence, and sequences without repetition.
module Sequences {

  ghost function Elems<T>(s: seq<T>): set<T> {
    set x | x in s
  }

  ghost predicate Distinct<T>(s: seq<T>) {
    forall i, j :: 0 <= i < j < |s| ==> s[i] != s[j]
  }

  lemma ElemsAppend<T>(s: seq<T>, t: seq<T>)
    ensures Elems(s + t) == Elems(s) + Elems(t)
  {
    forall x
      ensures x in Elems(s + t) <==> x in Elems(s) + Elems(t)
    {
      assert x in s + t <==> x in s || x in t;
    }
  }
}
