/** Stable sorting by a total preorder, as the library sort does it, and the facts
    about it that the callers rely on. */
module Sorting {

  ghost predicate IsTotal<X(!new)>(le: (X, X) -> bool) {
    forall x, y :: le(x, y) || le(y, x)
  }

  ghost predicate IsTransitive<X(!new)>(le: (X, X) -> bool) {
    forall x, y, z :: le(x, y) && le(y, z) ==> le(x, z)
  }

  predicate IsSorted<X>(le: (X, X) -> bool, s: seq<X>) {
    forall i, j :: 0 <= i < j < |s| ==> le(s[i], s[j])
  }

  /** Put `x` after everything that may stand before it. */
  function Insert<X(!new)>(le: (X, X) -> bool, x: X, s: seq<X>): (r: seq<X>)
    ensures |r| == |s| + 1
    ensures forall y :: y in r <==> y == x || y in s
  {
    if s == [] then [x]
    else if le(s[|s| - 1], x) then s + [x]
    else Insert(le, x, s[..|s| - 1]) + [s[|s| - 1]]
  }

  function Sort<X(!new)>(le: (X, X) -> bool, s: seq<X>): (r: seq<X>)
    ensures |r| == |s|
    ensures forall y :: y in r <==> y in s
  {
    if s == [] then [] else Insert(le, s[|s| - 1], Sort(le, s[..|s| - 1]))
  }

  lemma {:induction false} InsertSorted<X(!new)>(le: (X, X) -> bool, x: X, s: seq<X>)
    requires IsTotal(le) && IsTransitive(le) && IsSorted(le, s)
    ensures IsSorted(le, Insert(le, x, s))
  {
    if s != [] && !le(s[|s| - 1], x) {
      var init, last := s[..|s| - 1], s[|s| - 1];
      InsertSorted(le, x, init);
      forall y | y in Insert(le, x, init) ensures le(y, last) {
        if y in init {
          var i :| 0 <= i < |init| && init[i] == y;
          assert le(s[i], s[|s| - 1]);
        }
      }
    }
  }

  lemma {:induction false} SortSorted<X(!new)>(le: (X, X) -> bool, s: seq<X>)
    requires IsTotal(le) && IsTransitive(le)
    ensures IsSorted(le, Sort(le, s))
  {
    if s != [] {
      SortSorted(le, s[..|s| - 1]);
      InsertSorted(le, s[|s| - 1], Sort(le, s[..|s| - 1]));
    }
  }

  function Elements<X>(s: seq<X>): set<X> {
    set x | x in s
  }

  predicate IsDistinct<X(==)>(s: seq<X>) {
    forall i, j :: 0 <= i < j < |s| ==> s[i] != s[j]
  }

  lemma {:induction false} InsertDistinct<X(!new)>(le: (X, X) -> bool, x: X, s: seq<X>)
    requires IsDistinct(s) && x !in s
    ensures IsDistinct(Insert(le, x, s))
  {
    if s != [] && !le(s[|s| - 1], x) {
      InsertDistinct(le, x, s[..|s| - 1]);
      assert s[|s| - 1] !in s[..|s| - 1];
    }
  }

  lemma {:induction false} SortDistinct<X(!new)>(le: (X, X) -> bool, s: seq<X>)
    requires IsDistinct(s)
    ensures IsDistinct(Sort(le, s))
  {
    if s != [] {
      SortDistinct(le, s[..|s| - 1]);
      InsertDistinct(le, s[|s| - 1], Sort(le, s[..|s| - 1]));
    }
  }
}
