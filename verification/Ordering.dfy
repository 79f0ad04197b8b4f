/** What a query's ORDER BY, and Go's sort.Slice, return: the elements of a set in the order of a
    strict total order. Such a listing is unique, and filtering it is listing the filtered set. */
module Ordering {

  /** Irreflexive, transitive and total on `s`. */
  ghost predicate StrictTotal<T>(less: (T, T) -> bool, s: set<T>)
  {
    && (forall x | x in s :: !less(x, x))
    && (forall x, y | x in s && y in s && x != y :: less(x, y) || less(y, x))
    && (forall x, y, z | x in s && y in s && z in s && less(x, y) && less(y, z) :: less(x, z))
  }

  ghost predicate Ascending<T>(less: (T, T) -> bool, q: seq<T>)
  {
    forall i, j | 0 <= i < j < |q| :: less(q[i], q[j])
  }

  /** `q` lists each element of `s` once, in the order of `less`. */
  ghost predicate Listing<T>(q: seq<T>, s: set<T>, less: (T, T) -> bool)
  {
    && Ascending(less, q)
    && (forall x | x in q :: x in s)
    && (forall x | x in s :: x in q)
  }

  lemma {:induction false} LeastExists<T>(s: set<T>, less: (T, T) -> bool)
    requires s != {} && StrictTotal(less, s)
    ensures exists m :: m in s && forall y | y in s && y != m :: less(m, y)
  {
    var x :| x in s;
    var rest := s - {x};
    if rest == {} {
      assert forall y | y in s :: y == x || y in rest;
    } else {
      LeastExists(rest, less);
      var m :| m in rest && forall y | y in rest && y != m :: less(m, y);
      if less(m, x) {
        assert m in s && forall y | y in s && y != m :: less(m, y);
      } else {
        assert x in s && forall y | y in s && y != x :: less(x, y);
      }
    }
  }

  /** SELECT ... ORDER BY: repeatedly takes the least remaining element. */
  function Arrange<T(==)>(s: set<T>, less: (T, T) -> bool): (q: seq<T>)
    requires StrictTotal(less, s)
    ensures Listing(q, s, less)
  {
    if s == {} then []
    else
      LeastExists(s, less);
      var m :| m in s && forall y | y in s && y != m :: less(m, y);
      [m] + Arrange(s - {m}, less)
  }

  lemma FirstIsLeast<T>(q: seq<T>, s: set<T>, less: (T, T) -> bool)
    requires q != [] && Listing(q, s, less)
    ensures q[0] in s && forall y | y in s && y != q[0] :: less(q[0], y)
  {
    forall y | y in s && y != q[0] ensures less(q[0], y) {
      var i :| 0 <= i < |q| && q[i] == y;
    }
  }

  lemma ListingTail<T>(q: seq<T>, s: set<T>, less: (T, T) -> bool)
    requires q != [] && Listing(q, s, less) && forall x | x in s :: !less(x, x)
    ensures Listing(q[1..], s - {q[0]}, less)
  {
    forall x | x in q[1..] ensures x in s - {q[0]} {
      var i :| 0 <= i < |q| - 1 && q[1..][i] == x;
      assert less(q[0], q[i + 1]);
      assert x in q;
    }
  }

  /** Two listings of one set in orders that agree on it are the same sequence. */
  lemma {:induction false} ListingUnique<T>(p: seq<T>, q: seq<T>, s: set<T>, less: (T, T) -> bool,
                                            less': (T, T) -> bool)
    requires StrictTotal(less, s) && Listing(p, s, less) && Listing(q, s, less')
    requires forall x, y | x in s && y in s :: less(x, y) == less'(x, y)
    ensures p == q
    decreases |p|
  {
    assert p != [] ==> p[0] in p && p[0] in s && p[0] in q;
    assert q != [] ==> q[0] in q && q[0] in s && q[0] in p;
    if p != [] {
      FirstIsLeast(p, s, less);
      FirstIsLeast(q, s, less');
      ListingTail(p, s, less);
      ListingTail(q, s, less');
      ListingUnique(p[1..], q[1..], s - {p[0]}, less, less');
      assert p == [p[0]] + p[1..];
      assert q == [q[0]] + q[1..];
    }
  }

  function Filter<T>(p: T -> bool, q: seq<T>): seq<T>
  {
    if q == [] then []
    else (if p(q[0]) then [q[0]] else []) + Filter(p, q[1..])
  }

  lemma {:induction false} FilterSnoc<T>(p: T -> bool, q: seq<T>, x: T)
    ensures Filter(p, q + [x]) == Filter(p, q) + (if p(x) then [x] else [])
  {
    if q == [] {
      assert q + [x] == [x];
    } else {
      FilterSnoc(p, q[1..], x);
      assert (q + [x])[1..] == q[1..] + [x];
    }
  }

  lemma {:induction false} FilterElements<T>(p: T -> bool, q: seq<T>, x: T)
    ensures x in Filter(p, q) <==> x in q && p(x)
  {
    if q == [] {
    } else {
      FilterElements(p, q[1..], x);
      assert q == [q[0]] + q[1..];
    }
  }

  lemma {:induction false} FilterAscending<T>(p: T -> bool, q: seq<T>, less: (T, T) -> bool)
    requires Ascending(less, q)
    ensures Ascending(less, Filter(p, q))
  {
    if q == [] {
    } else {
      assert Ascending(less, q[1..]);
      FilterAscending(p, q[1..], less);
      var f := Filter(p, q[1..]);
      forall i | 0 <= i < |f| ensures less(q[0], f[i]) {
        FilterElements(p, q[1..], f[i]);
        var k :| 0 <= k < |q| - 1 && q[1..][k] == f[i];
        assert less(q[0], q[k + 1]);
      }
    }
  }

  /** Sort then filter is filter then sort, for a second order that agrees on what is kept. */
  lemma FilterArrange<T>(p: T -> bool, s: set<T>, less: (T, T) -> bool, kept: set<T>, less': (T, T) -> bool)
    requires StrictTotal(less, s) && StrictTotal(less', kept)
    requires forall x :: x in kept <==> x in s && p(x)
    requires forall x, y | x in kept && y in kept :: less(x, y) == less'(x, y)
    ensures Filter(p, Arrange(s, less)) == Arrange(kept, less')
  {
    var q := Arrange(s, less);
    FilterAscending(p, q, less);
    forall x: T | x in Filter(p, q) ensures x in kept { FilterElements(p, q, x); }
    forall x: T | x in kept ensures x in Filter(p, q) { FilterElements(p, q, x); }
    ListingUnique(Filter(p, q), Arrange(kept, less'), kept, less, less');
  }

  /** Listing depends only on the set and on how the order ranks it. */
  lemma ArrangeCongruent<T>(s: set<T>, less: (T, T) -> bool, less': (T, T) -> bool)
    requires StrictTotal(less, s) && StrictTotal(less', s)
    requires forall x, y | x in s && y in s :: less(x, y) == less'(x, y)
    ensures Arrange(s, less) == Arrange(s, less')
  {
    ListingUnique(Arrange(s, less), Arrange(s, less'), s, less, less');
  }

  /** Text order: by the first differing character, a prefix first. */
  predicate TextLess(a: string, b: string)
  {
    if b == [] then false
    else if a == [] then true
    else a[0] < b[0] || (a[0] == b[0] && TextLess(a[1..], b[1..]))
  }

  /** `a` and `b` agree on their first `k` characters, and there `a` ends or has the smaller one. */
  ghost predicate SmallerAt(a: string, b: string, k: nat)
  {
    k <= |a| && k < |b| && a[..k] == b[..k] && (k == |a| || a[k] < b[k])
  }

  /** The order is decided where the texts first differ. */
  lemma {:induction false} TextLessMeans(a: string, b: string)
    ensures TextLess(a, b) <==> exists k: nat :: SmallerAt(a, b, k)
  {
    if a == [] || b == [] {
      if b != [] { assert SmallerAt(a, b, 0); }
    } else {
      TextLessMeans(a[1..], b[1..]);
      if a[0] < b[0] {
        assert SmallerAt(a, b, 0);
      } else if a[0] == b[0] {
        if k: nat :| SmallerAt(a[1..], b[1..], k) {
          assert a[..k + 1] == [a[0]] + a[1..][..k] && b[..k + 1] == [b[0]] + b[1..][..k];
          assert SmallerAt(a, b, k + 1);
        }
        if k: nat :| SmallerAt(a, b, k) {
          SmallerLater(a, b, k);
        }
      } else if k: nat :| SmallerAt(a, b, k) {
        assert k > 0 ==> a[..k][0] == b[..k][0];
      }
    }
  }

  lemma SmallerLater(a: string, b: string, k: nat)
    requires SmallerAt(a, b, k) && a != [] && b != [] && a[0] == b[0]
    ensures k > 0 && SmallerAt(a[1..], b[1..], k - 1)
  {
    assert a[1..][..k - 1] == a[..k][1..] && b[1..][..k - 1] == b[..k][1..];
  }

  lemma {:induction false} TextLessTotal(a: string, b: string)
    ensures !(TextLess(a, b) && TextLess(b, a))
    ensures a != b ==> TextLess(a, b) || TextLess(b, a)
    ensures !TextLess(a, a)
    decreases |a| + |b|
  {
    if a == [] || b == [] {
      if a != [] { TextLessTotal(a[1..], b); }
    } else {
      TextLessTotal(a[1..], b[1..]);
      assert a == [a[0]] + a[1..] && b == [b[0]] + b[1..];
    }
  }

  lemma {:induction false} TextLessTransitive(a: string, b: string, c: string)
    requires TextLess(a, b) && TextLess(b, c)
    ensures TextLess(a, c)
  {
    if a != [] && a[0] == b[0] && b[0] == c[0] {
      TextLessTransitive(a[1..], b[1..], c[1..]);
    }
  }
}
