/** Events newest first: by second, then by id, both descending, and the first few
    of a set in that order. */
module Newest {
  import opened Nostr
  import opened Sorting

  // ----- The order ---------------------------------------------------------------

  /** Ids are compared as text. */
  predicate IdLe(a: string, b: string) {
    a == [] || (b != [] && (a[0] < b[0] || (a[0] == b[0] && IdLe(a[1..], b[1..]))))
  }

  lemma {:induction false} IdOrder(a: string, b: string, c: string)
    ensures IdLe(a, b) || IdLe(b, a)
    ensures IdLe(a, b) && IdLe(b, a) ==> a == b
    ensures IdLe(a, b) && IdLe(b, c) ==> IdLe(a, c)
  {
    if a != [] && b != [] {
      IdOrder(a[1..], b[1..], if c == [] then c else c[1..]);
      if a[0] == b[0] && a[1..] == b[1..] { assert a == [a[0]] + a[1..] == b; }
    }
  }

  /** `a` may stand before `b`. */
  predicate Before(a: Event, b: Event) {
    a.createdAt > b.createdAt || (a.createdAt == b.createdAt && IdLe(b.id, a.id))
  }

  /** The later second comes first, and of one second the id whose first differing
      character is larger. */
  lemma {:induction false} LaterComesFirst(a: Event, b: Event, i: nat)
    ensures a.createdAt > b.createdAt ==> Before(a, b) && !Before(b, a)
    ensures a.createdAt == b.createdAt && i < |a.id| && i < |b.id| && a.id[..i] == b.id[..i] && a.id[i] > b.id[i] ==>
      Before(a, b) && !Before(b, a)
  {
    if i < |a.id| && i < |b.id| && a.id[..i] == b.id[..i] && a.id[i] > b.id[i] { LargerId(a.id, b.id, i); }
  }

  lemma {:induction false} LargerId(a: string, b: string, i: nat)
    requires i < |a| && i < |b| && a[..i] == b[..i] && a[i] > b[i]
    ensures IdLe(b, a) && !IdLe(a, b)
    decreases i
  {
    if i > 0 {
      assert a[0] == a[..i][0] == b[..i][0] == b[0];
      assert a[1..][..i - 1] == a[..i][1..] == b[..i][1..] == b[1..][..i - 1];
      LargerId(a[1..], b[1..], i - 1);
    }
  }

  lemma BeforeIsOrder()
    ensures IsTotal(Before) && IsTransitive(Before)
  {
    forall a: Event, b: Event ensures Before(a, b) || Before(b, a) { IdOrder(a.id, b.id, a.id); }
    forall a: Event, b: Event, c: Event | Before(a, b) && Before(b, c) ensures Before(a, c) { IdOrder(c.id, b.id, a.id); }
  }

  /** No two different events share an id. */
  predicate IdsIdentify(all: set<Event>) {
    forall a, b :: a in all && b in all && a.id == b.id ==> a == b
  }

  lemma BeforeEachOther(all: set<Event>, a: Event, b: Event)
    requires IdsIdentify(all) && a in all && b in all && Before(a, b) && Before(b, a)
    ensures a == b
  {
    IdOrder(a.id, b.id, a.id);
  }

  lemma SubsetIds(all: set<Event>, some: set<Event>)
    requires IdsIdentify(all) && some <= all
    ensures IdsIdentify(some)
  {
  }

  // ----- The newest few ------------------------------------------------------------

  lemma {:induction false} DistinctCount<X>(s: seq<X>)
    requires IsDistinct(s)
    ensures |Elements(s)| == |s|
  {
    if s != [] {
      var n := |s| - 1;
      DistinctCount(s[..n]);
      assert Elements(s) == Elements(s[..n]) + {s[n]};
    }
  }

  /** `r` is the first `n` of `all`, newest first. */
  predicate IsNewest(r: seq<Event>, all: set<Event>, n: nat) {
    && IsDistinct(r) && IsSorted(Before, r) && |r| <= n
    && (forall e :: e in r ==> e in all)
    && (forall e :: e in all && e !in r ==> |r| == n && forall f :: f in r ==> Before(f, e))
  }

  lemma WithoutLast<X>(s: seq<X>)
    requires s != [] && IsDistinct(s)
    ensures Elements(s[..|s| - 1]) == Elements(s) - {s[|s| - 1]} && IsDistinct(s[..|s| - 1])
  {
    forall x | x in Elements(s) && x != s[|s| - 1] ensures x in s[..|s| - 1] {
      var i :| 0 <= i < |s| && s[i] == x;
      assert s[..|s| - 1][i] == x;
    }
  }

  lemma {:induction false} SortedIsUnique(r: seq<Event>, s: seq<Event>, all: set<Event>)
    requires IdsIdentify(all) && Elements(r) == Elements(s) <= all
    requires IsDistinct(r) && IsDistinct(s) && IsSorted(Before, r) && IsSorted(Before, s)
    ensures r == s
  {
    hide Before;
    DistinctCount(r);
    DistinctCount(s);
    if r != [] {
      var n := |r| - 1;
      assert r[n] in Elements(r) && s[n] in Elements(s);
      if r[n] != s[n] {
        var i :| 0 <= i < |s| && s[i] == r[n];
        var j :| 0 <= j < |r| && r[j] == s[n];
        assert Before(s[i], s[n]) && Before(r[j], r[n]);
        BeforeEachOther(all, r[n], s[n]);
      }
      WithoutLast(r);
      WithoutLast(s);
      SortedIsUnique(r[..n], s[..n], all);
    }
  }

  lemma NewestHasMore(r: seq<Event>, s: seq<Event>, all: set<Event>, n: nat, x: Event)
    requires IdsIdentify(all) && IsNewest(r, all, n) && IsNewest(s, all, n) && x in r
    ensures x in s
  {
    if x !in s {
      DistinctCount(r);
      DistinctCount(s);
      if Elements(s) <= Elements(r) {
        assert Elements(s) <= Elements(r) - {x};
        Smaller(Elements(s), Elements(r) - {x});
        assert false;
      }
      var y :| y in Elements(s) && y !in Elements(r);
      assert Before(y, x) && Before(x, y);
      BeforeEachOther(all, x, y);
    }
  }

  lemma {:induction false} Smaller<X>(a: set<X>, b: set<X>)
    requires a <= b
    ensures |a| <= |b|
  {
    assert b == a + (b - a);
  }

  lemma DisjointCount<X>(a: set<X>, b: set<X>)
    requires a !! b
    ensures |a + b| == |a| + |b|
  {
  }

  /** There is only one such list. */
  lemma NewestIsUnique(r: seq<Event>, s: seq<Event>, all: set<Event>, n: nat)
    requires IdsIdentify(all) && IsNewest(r, all, n) && IsNewest(s, all, n)
    ensures r == s
  {
    forall x | x in r ensures x in s { NewestHasMore(r, s, all, n, x); }
    forall x | x in s ensures x in r { NewestHasMore(s, r, all, n, x); }
    assert Elements(r) == Elements(s) <= all;
    SortedIsUnique(r, s, all);
  }

  function Take<X>(s: seq<X>, n: nat): seq<X> {
    if |s| <= n then s else s[..n]
  }

  lemma PrefixIsNewest(t: seq<Event>, n: nat)
    requires IsDistinct(t) && IsSorted(Before, t)
    ensures IsNewest(Take(t, n), Elements(t), n)
  {
    if |t| > n {
      hide Before;
      var r := t[..n];
      forall i, j | 0 <= i < j < n ensures Before(r[i], r[j]) { assert Before(t[i], t[j]); }
      forall e | e in t && e !in r ensures forall f :: f in r ==> Before(f, e) {
        var j :| 0 <= j < |t| && t[j] == e;
        forall f | f in r ensures Before(f, e) {
          var i :| 0 <= i < n && r[i] == f;
          NotInPrefix(t, n, j);
          assert Before(t[i], t[j]);
        }
      }
    }
  }

  lemma NotInPrefix<X>(t: seq<X>, n: nat, j: nat)
    requires j < |t| && n < |t| && t[j] !in t[..n]
    ensures n <= j
  {
    assert forall i :: 0 <= i < n ==> t[..n][i] == t[i];
  }

  /** Sorting all of a set and cutting it off after `n` gives the newest `n`. */
  lemma SortedPrefixIsNewest(found: seq<Event>, n: nat)
    requires IsDistinct(found)
    ensures IsNewest(Take(Sort(Before, found), n), Elements(found), n)
  {
    BeforeIsOrder();
    SortSorted(Before, found);
    SortDistinct(Before, found);
    PrefixIsNewest(Sort(Before, found), n);
    assert Elements(Sort(Before, found)) == Elements(found);
  }

  /** Asking for more first, and then for fewer among those, is asking for fewer. */
  lemma NewestOfNewest(r: seq<Event>, q: seq<Event>, all: set<Event>, n: nat, m: nat)
    requires n <= m && IsNewest(q, all, m) && IsNewest(r, Elements(q), n)
    ensures IsNewest(r, all, n)
  {
    BeforeIsOrder();
    forall e | e in all && e !in r ensures |r| == n && forall f :: f in r ==> Before(f, e) {
      if e !in q {
        DistinctCount(q);
        DistinctCount(r);
        assert |q| == m;
        if |r| < n {
          assert Elements(q) <= Elements(r);
          Smaller(Elements(q), Elements(r));
        }
        forall f | f in r ensures Before(f, e) { assert f in Elements(q); }
      } else {
        assert e in Elements(q);
      }
    }
  }
}
