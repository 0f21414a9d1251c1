/** Sorting by a total order, as ORDER BY and the standard sort do. */
module Sorting {

  function Insert<T>(x: T, xs: seq<T>, le: (T, T) -> bool): seq<T> {
    if xs == [] || le(x, xs[0]) then [x] + xs else [xs[0]] + Insert(x, xs[1..], le)
  }

  function Sort<T>(xs: seq<T>, le: (T, T) -> bool): seq<T> {
    if xs == [] then [] else Insert(xs[0], Sort(xs[1..], le), le)
  }

  ghost predicate IsAntisymmetric<T(!new)>(le: (T, T) -> bool) {
    forall a, b :: le(a, b) && le(b, a) ==> a == b
  }

  ghost predicate IsOrder<T(!new)>(le: (T, T) -> bool) {
    && IsAntisymmetric(le)
    && (forall a, b :: le(a, b) || le(b, a))
    && (forall a, b, c :: le(a, b) && le(b, c) ==> le(a, c))
  }

  ghost predicate Ascending<T>(xs: seq<T>, le: (T, T) -> bool) {
    forall i, j :: 0 <= i < j < |xs| ==> le(xs[i], xs[j])
  }

  lemma AscendingCons<T(!new)>(x: T, xs: seq<T>, le: (T, T) -> bool)
    requires Ascending(xs, le) && forall y :: y in multiset(xs) ==> le(x, y)
    ensures Ascending([x] + xs, le)
  {
  }

  lemma {:induction false} InsertPermutes<T>(x: T, xs: seq<T>, le: (T, T) -> bool)
    ensures multiset(Insert(x, xs, le)) == multiset(xs) + multiset{x}
  {
    if xs == [] || le(x, xs[0]) {
    } else {
      InsertPermutes(x, xs[1..], le);
      assert xs == [xs[0]] + xs[1..];
    }
  }

  lemma LeastInsert<T(!new)>(x: T, xs: seq<T>, le: (T, T) -> bool)
    requires IsOrder(le) && Ascending(xs, le) && xs != [] && !le(x, xs[0])
    ensures forall y :: y in multiset(Insert(x, xs[1..], le)) ==> le(xs[0], y)
  {
    InsertPermutes(x, xs[1..], le);
    forall y | y in multiset(Insert(x, xs[1..], le)) ensures le(xs[0], y) {
      if y != x {
        var k :| 0 <= k < |xs[1..]| && xs[1..][k] == y;
        assert xs[k + 1] == y;
      }
    }
  }

  lemma {:induction false} InsertAscending<T(!new)>(x: T, xs: seq<T>, le: (T, T) -> bool)
    requires IsOrder(le) && Ascending(xs, le)
    ensures Ascending(Insert(x, xs, le), le)
  {
    if xs == [] {
    } else if le(x, xs[0]) {
      forall y | y in multiset(xs) ensures le(x, y) {
        var k :| 0 <= k < |xs| && xs[k] == y;
        assert k > 0 ==> le(xs[0], y);
      }
      AscendingCons(x, xs, le);
    } else {
      InsertAscending(x, xs[1..], le);
      LeastInsert(x, xs, le);
      AscendingCons(xs[0], Insert(x, xs[1..], le), le);
    }
  }

  /** Sorting gives an ascending permutation. */
  lemma {:induction false} SortPermutes<T(!new)>(xs: seq<T>, le: (T, T) -> bool)
    requires IsOrder(le)
    ensures Ascending(Sort(xs, le), le) && multiset(Sort(xs, le)) == multiset(xs) && |Sort(xs, le)| == |xs|
  {
    if xs == [] {
    } else {
      SortPermutes(xs[1..], le);
      InsertAscending(xs[0], Sort(xs[1..], le), le);
      InsertPermutes(xs[0], Sort(xs[1..], le), le);
      assert xs == [xs[0]] + xs[1..];
    }
    assert |multiset(Sort(xs, le))| == |Sort(xs, le)|;
  }

  lemma SameLeast<T(!new)>(a: seq<T>, b: seq<T>, le: (T, T) -> bool)
    requires IsAntisymmetric(le) && Ascending(a, le) && Ascending(b, le)
    requires multiset(a) == multiset(b) && a != [] && b != []
    ensures a[0] == b[0]
  {
    assert a[0] in multiset(b) && b[0] in multiset(a);
    var i :| 0 <= i < |b| && b[i] == a[0];
    var j :| 0 <= j < |a| && a[j] == b[0];
    if i > 0 && j > 0 {
      assert le(b[0], b[i]) && le(a[0], a[j]);
    }
  }

  /** There is only one ascending arrangement. */
  lemma {:induction false} AscendingUnique<T(!new)>(a: seq<T>, b: seq<T>, le: (T, T) -> bool)
    requires IsAntisymmetric(le) && Ascending(a, le) && Ascending(b, le) && multiset(a) == multiset(b)
    ensures a == b
  {
    assert |a| == |multiset(a)| == |multiset(b)| == |b|;
    if a == [] {
    } else {
      SameLeast(a, b, le);
      assert a == [a[0]] + a[1..] && b == [b[0]] + b[1..];
      assert multiset(a[1..]) == multiset(a) - multiset{a[0]} == multiset(b[1..]);
      AscendingUnique(a[1..], b[1..], le);
    }
  }

  /** Sorting forgets the order in which the elements came, and nothing else. */
  lemma SortEqualIff<T(!new)>(a: seq<T>, b: seq<T>, le: (T, T) -> bool)
    requires IsOrder(le)
    ensures Sort(a, le) == Sort(b, le) <==> multiset(a) == multiset(b)
  {
    SortPermutes(a, le);
    SortPermutes(b, le);
    if multiset(a) == multiset(b) {
      AscendingUnique(Sort(a, le), Sort(b, le), le);
    }
  }
}
