/**
 * JavaScript's stable Array.prototype.sort, as an insertion sort under a
 * comparator `before(a, b)`, meaning compare(a, b) < 0.
 */
module StableSort {

  /** What the language asks of the comparator on the elements it sorts. */
  ghost predicate Consistent<T>(xs: seq<T>, before: (T, T) -> bool) {
    && (forall a, b :: a in xs && b in xs && before(a, b) ==> !before(b, a))
    && (forall a, b, c :: a in xs && b in xs && c in xs && !before(a, b) && !before(b, c) ==> !before(a, c))
  }

  ghost predicate Sorted<T>(xs: seq<T>, before: (T, T) -> bool) {
    forall i, j :: 0 <= i < j < |xs| ==> !before(xs[j], xs[i])
  }

  function Insert<T>(x: T, xs: seq<T>, before: (T, T) -> bool): (r: seq<T>)
    ensures multiset(r) == multiset{x} + multiset(xs)
  {
    if xs == [] || !before(xs[0], x) then [x] + xs
    else
      assert xs == [xs[0]] + xs[1..];
      [xs[0]] + Insert(x, xs[1..], before)
  }

  function Sort<T>(xs: seq<T>, before: (T, T) -> bool): (r: seq<T>)
    ensures multiset(r) == multiset(xs)
  {
    if xs == [] then []
    else
      assert xs == [xs[0]] + xs[1..];
      Insert(xs[0], Sort(xs[1..], before), before)
  }

  lemma SameElements<T>(r: seq<T>, xs: seq<T>)
    requires multiset(r) == multiset(xs)
    ensures |r| == |xs|
    ensures forall x :: x in r <==> x in xs
  {
    assert |multiset(r)| == |multiset(xs)|;
    forall x
      ensures x in r <==> x in xs
    {
      assert x in r <==> x in multiset(r);
      assert x in xs <==> x in multiset(xs);
    }
  }

  lemma {:induction false} InsertSorted<T>(x: T, xs: seq<T>, before: (T, T) -> bool)
    requires Consistent([x] + xs, before) && Sorted(xs, before)
    ensures Sorted(Insert(x, xs, before), before)
  {
    if xs != [] && before(xs[0], x) {
      var rest := Insert(x, xs[1..], before);
      InsertSorted(x, xs[1..], before);
      forall j | 0 <= j < |rest|
        ensures !before(rest[j], xs[0])
      {
        assert rest[j] in multiset(rest);
        assert rest[j] == x || rest[j] in xs[1..];
      }
    } else {
      forall j | 0 <= j < |xs|
        ensures !before(xs[j], x)
      {
        assert xs[0] in [x] + xs && xs[j] in [x] + xs;
      }
    }
  }

  lemma {:induction false} SortSorted<T>(xs: seq<T>, before: (T, T) -> bool)
    requires Consistent(xs, before)
    ensures Sorted(Sort(xs, before), before)
  {
    if xs != [] {
      SortSorted(xs[1..], before);
      var rest := Sort(xs[1..], before);
      SameElements(rest, xs[1..]);
      forall y | y in [xs[0]] + rest
        ensures y in xs
      {
        if y != xs[0] {
          assert y in multiset(rest);
          assert y in xs[1..];
        }
      }
      InsertSorted(xs[0], rest, before);
    }
  }

  /** Stability: a list already in order is returned as it is. */
  lemma {:induction false} SortKeepsSorted<T>(xs: seq<T>, before: (T, T) -> bool)
    requires Sorted(xs, before)
    ensures Sort(xs, before) == xs
  {
    if xs != [] {
      SortKeepsSorted(xs[1..], before);
    }
  }
}
