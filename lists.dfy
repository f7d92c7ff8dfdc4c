/** Sequence operations behind the script's `filter` calls and its name-keyed objects. */
module Lists {

  predicate NoDuplicates<T(==)>(s: seq<T>)
  {
    forall i, j :: 0 <= i < j < |s| ==> s[i] != s[j]
  }

  /** `s.filter(x => !excluded.includes(x))`, in order. */
  function Without<T(==,!new)>(s: seq<T>, excluded: set<T>): (r: seq<T>)
    ensures forall x :: x in r <==> x in s && x !in excluded
    ensures |r| <= |s|
  {
    if |s| == 0 then []
    else if s[|s| - 1] in excluded then Without(s[..|s| - 1], excluded)
    else Without(s[..|s| - 1], excluded) + [s[|s| - 1]]
  }

  /** Filtering keeps every occurrence of a kept element and none of an excluded one. */
  lemma {:induction false} WithoutCounts<T(!new)>(s: seq<T>, excluded: set<T>, x: T)
    ensures multiset(Without(s, excluded))[x] == if x in excluded then 0 else multiset(s)[x]
  {
    if |s| > 0 {
      var n := |s| - 1;
      WithoutCounts(s[..n], excluded, x);
      assert s == s[..n] + [s[n]];
    }
  }

  /** The first occurrence of every element, in the order of first appearance. */
  function Dedup<T(==,!new)>(s: seq<T>): (d: seq<T>)
    ensures NoDuplicates(d)
    ensures forall x :: x in d <==> x in s
  {
    if |s| == 0 then []
    else
      var d := Dedup(s[..|s| - 1]);
      if s[|s| - 1] in d then d else d + [s[|s| - 1]]
  }

  /** Position of the first occurrence of `x` (`indexOf`). */
  function IndexOf<T(==)>(s: seq<T>, x: T): (i: nat)
    requires x in s
    ensures i < |s| && s[i] == x && x !in s[..i]
  {
    if s[0] == x then 0 else 1 + IndexOf(s[1..], x)
  }

  lemma IndexOfPrefix<T>(s: seq<T>, k: nat, x: T)
    requires k <= |s| && x in s[..k]
    ensures x in s && IndexOf(s, x) == IndexOf(s[..k], x)
  {
    var i := IndexOf(s[..k], x);
    assert s[..k][..i] == s[..i];
  }

  /** Dedup lists elements in the order in which they first appear. */
  lemma {:induction false} DedupFirstSeen<T(!new)>(s: seq<T>)
    ensures forall i, j :: 0 <= i < j < |Dedup(s)| ==> IndexOf(s, Dedup(s)[i]) < IndexOf(s, Dedup(s)[j])
  {
    if |s| > 0 {
      var n := |s| - 1;
      var p := s[..n];
      var d := Dedup(p);
      DedupFirstSeen(p);
      forall y | y in d ensures IndexOf(s, y) == IndexOf(p, y) < n {
        IndexOfPrefix(s, n, y);
      }
      if s[n] !in d {
        assert s[n] !in p;
        assert s[..n] == p;
        var d' := d + [s[n]];
        assert d' == Dedup(s);
        forall i, j | 0 <= i < j < |d'| ensures IndexOf(s, d'[i]) < IndexOf(s, d'[j]) {
          assert d'[i] in d;
          if j < |d| {
            assert d'[j] in d;
          }
        }
      }
    }
  }

  /** Filtering keeps the relative order of the elements it keeps. */
  lemma {:induction false} WithoutKeepsOrder<T(!new)>(s: seq<T>, excluded: set<T>, x: T, y: T)
    requires x in Without(s, excluded) && y in Without(s, excluded)
    requires IndexOf(Without(s, excluded), x) < IndexOf(Without(s, excluded), y)
    ensures IndexOf(s, x) < IndexOf(s, y)
  {
    var n := |s| - 1;
    var p := s[..n];
    var wp := Without(p, excluded);
    var w := Without(s, excluded);
    assert s == p + [s[n]];
    if x in wp && y in wp {
      IndexOfPrefix(w, |wp|, x);
      IndexOfPrefix(w, |wp|, y);
      assert w[..|wp|] == wp;
      WithoutKeepsOrder(p, excluded, x, y);
      IndexOfPrefix(s, n, x);
      IndexOfPrefix(s, n, y);
    } else if y !in wp {
      WithoutOrderLast(s, excluded, x, y);
    } else {
      assert false;
    }
  }

  /** The case of `WithoutKeepsOrder` where `y` is the last element of `s`. */
  lemma WithoutOrderLast<T(!new)>(s: seq<T>, excluded: set<T>, x: T, y: T)
    requires |s| > 0 && x in Without(s, excluded) && y in Without(s, excluded)
    requires y !in Without(s[..|s| - 1], excluded)
    requires IndexOf(Without(s, excluded), x) < IndexOf(Without(s, excluded), y)
    ensures IndexOf(s, x) < IndexOf(s, y)
  {
    var n := |s| - 1;
    var p := s[..n];
    var wp := Without(p, excluded);
    var w := Without(s, excluded);
    assert s == p + [s[n]];
    assert y !in p && y == s[n];
    assert w == wp + [y];
    assert IndexOf(w, y) == |wp| by {
      assert w[..|wp|] == wp;
    }
    assert x in wp by {
      assert x == w[IndexOf(w, x)] == wp[IndexOf(w, x)];
    }
    assert x in p;
    assert p == s[..n];
    IndexOfPrefix(s, n, x);
    assert IndexOf(s, y) == n by {
      assert forall i :: 0 <= i < n ==> s[i] == p[i];
    }
  }
}
