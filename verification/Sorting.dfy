/** Stable sorting by a total preorder. */
module Sorting {

  ghost predicate TotalPreorder<T(!new)>(leq: (T, T) -> bool) {
    && (forall a, b :: leq(a, b) || leq(b, a))
    && (forall a, b, c :: leq(a, b) && leq(b, c) ==> leq(a, c))
  }

  ghost predicate SortedBy<T>(xs: seq<T>, leq: (T, T) -> bool) {
    forall i, j :: 0 <= i < j < |xs| ==> leq(xs[i], xs[j])
  }

  function Insert<T>(x: T, xs: seq<T>, leq: (T, T) -> bool): seq<T> {
    if xs == [] then [x]
    else if leq(x, xs[0]) then [x] + xs
    else [xs[0]] + Insert(x, xs[1..], leq)
  }

  function Sort<T>(xs: seq<T>, leq: (T, T) -> bool): seq<T> {
    if xs == [] then [] else Insert(xs[0], Sort(xs[1..], leq), leq)
  }

  function Filter<T>(xs: seq<T>, p: T -> bool): seq<T> {
    if xs == [] then [] else (if p(xs[0]) then [xs[0]] else []) + Filter(xs[1..], p)
  }

  /** All elements that satisfy `p` are equal in the order. */
  ghost predicate OneClass<T(!new)>(p: T -> bool, leq: (T, T) -> bool) {
    forall a, b :: p(a) && p(b) ==> leq(a, b)
  }

  lemma {:induction false} InsertElements<T>(x: T, xs: seq<T>, leq: (T, T) -> bool)
    ensures multiset(Insert(x, xs, leq)) == multiset{x} + multiset(xs)
    ensures forall y :: y in Insert(x, xs, leq) <==> y == x || y in xs
  {
    if xs != [] {
      assert xs == [xs[0]] + xs[1..];
      if !leq(x, xs[0]) {
        InsertElements(x, xs[1..], leq);
      }
    }
  }

  lemma {:induction false} InsertSorted<T(!new)>(x: T, xs: seq<T>, leq: (T, T) -> bool)
    requires TotalPreorder(leq) && SortedBy(xs, leq)
    ensures SortedBy(Insert(x, xs, leq), leq)
  {
    if xs != [] && !leq(x, xs[0]) {
      InsertSorted(x, xs[1..], leq);
      InsertElements(x, xs[1..], leq);
      var rest := Insert(x, xs[1..], leq);
      forall j | 0 <= j < |rest|
        ensures leq(xs[0], rest[j])
      {
        assert rest[j] in rest;
        assert leq(xs[0], x);
      }
    }
  }

  lemma {:induction false} InsertKeepsClass<T(!new)>(x: T, xs: seq<T>, leq: (T, T) -> bool, p: T -> bool)
    requires OneClass(p, leq)
    ensures Filter(Insert(x, xs, leq), p) == Filter([x] + xs, p)
  {
    assert ([x] + xs)[1..] == xs;
    if xs != [] && !leq(x, xs[0]) {
      var rest := xs[1..];
      InsertKeepsClass(x, rest, leq, p);
      assert ([xs[0]] + Insert(x, rest, leq))[1..] == Insert(x, rest, leq);
      assert ([x] + rest)[1..] == rest;
      assert !(p(x) && p(xs[0]));
    }
  }

  /** The result is a sorted permutation. */
  lemma {:induction false} SortSorts<T(!new)>(xs: seq<T>, leq: (T, T) -> bool)
    requires TotalPreorder(leq)
    ensures SortedBy(Sort(xs, leq), leq)
    ensures multiset(Sort(xs, leq)) == multiset(xs) && |Sort(xs, leq)| == |xs|
    ensures forall y :: y in Sort(xs, leq) <==> y in xs
  {
    if xs != [] {
      SortSorts(xs[1..], leq);
      InsertSorted(xs[0], Sort(xs[1..], leq), leq);
      InsertElements(xs[0], Sort(xs[1..], leq), leq);
      assert xs == [xs[0]] + xs[1..];
      assert |multiset(Sort(xs, leq))| == |Sort(xs, leq)|;
    }
  }

  /** Elements that are equal in the order keep their order. */
  lemma {:induction false} SortIsStable<T(!new)>(xs: seq<T>, leq: (T, T) -> bool, p: T -> bool)
    requires OneClass(p, leq)
    ensures Filter(Sort(xs, leq), p) == Filter(xs, p)
  {
    if xs != [] {
      SortIsStable(xs[1..], leq, p);
      InsertKeepsClass(xs[0], Sort(xs[1..], leq), leq, p);
      assert ([xs[0]] + Sort(xs[1..], leq))[1..] == Sort(xs[1..], leq);
    }
  }
}
