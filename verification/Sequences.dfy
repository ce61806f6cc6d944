/** Facts about sequences that several components share. */
module Sequences {

  datatype Option<+T> = None | Some(value: T)

  datatype Result<+T, +E> = Success(value: T) | Failure(error: E)

  /** `a` can be obtained from `b` by deleting elements, keeping the order. */
  predicate Subsequence<T(==)>(a: seq<T>, b: seq<T>)
    decreases |b|
  {
    a == [] ||
    (b != [] &&
     (|| (a[|a| - 1] == b[|b| - 1] && Subsequence(a[..|a| - 1], b[..|b| - 1]))
      || Subsequence(a, b[..|b| - 1])))
  }

  predicate NoDuplicates<T(==)>(s: seq<T>) {
    forall i, j :: 0 <= i < j < |s| ==> s[i] != s[j]
  }

  predicate StrictlyIncreasing(s: seq<nat>) {
    forall i, j :: 0 <= i < j < |s| ==> s[i] < s[j]
  }

  /** `a` is the tail end of `b`. */
  predicate Suffix<T(==)>(a: seq<T>, b: seq<T>) {
    |a| <= |b| && b[|b| - |a|..] == a
  }

  lemma SubsequenceSkip<T>(a: seq<T>, b: seq<T>, x: T)
    requires Subsequence(a, b)
    ensures Subsequence(a, b + [x])
  {
  }

  lemma SubsequenceTake<T>(a: seq<T>, b: seq<T>, x: T)
    requires Subsequence(a, b)
    ensures Subsequence(a + [x], b + [x])
  {
  }

  lemma {:induction false} SubsequenceReflexive<T>(a: seq<T>)
    ensures Subsequence(a, a)
  {
    if a != [] {
      SubsequenceReflexive(a[..|a| - 1]);
    }
  }

  lemma {:induction false} SubsequencePrefix<T>(a: seq<T>, b: seq<T>)
    requires a <= b
    ensures Subsequence(a, b)
    decreases |b|
  {
    if |a| == |b| {
      assert a == b;
      SubsequenceReflexive(a);
    } else {
      SubsequencePrefix(a, b[..|b| - 1]);
    }
  }

  lemma {:induction false} SubsequenceTransitive<T>(a: seq<T>, b: seq<T>, c: seq<T>)
    requires Subsequence(a, b) && Subsequence(b, c)
    ensures Subsequence(a, c)
    decreases |b| + |c|
  {
    if a != [] {
      var a', b', c' := a[..|a| - 1], b[..|b| - 1], c[..|c| - 1];
      if Subsequence(b, c') {
        SubsequenceTransitive(a, b, c');
      } else if Subsequence(a, b') {
        SubsequenceTransitive(a, b', c');
      } else {
        SubsequenceTransitive(a', b', c');
      }
    }
  }

  lemma {:induction false} SubsequenceElements<T>(a: seq<T>, b: seq<T>)
    requires Subsequence(a, b)
    ensures |a| <= |b|
    ensures forall x :: x in a ==> x in b
    decreases |b|
  {
    if a != [] {
      var b' := b[..|b| - 1];
      assert b == b' + [b[|b| - 1]];
      if Subsequence(a, b') {
        SubsequenceElements(a, b');
      } else {
        SubsequenceElements(a[..|a| - 1], b');
        assert a == a[..|a| - 1] + [a[|a| - 1]];
      }
    }
  }

  lemma {:induction false} SubsequenceIncreasing(a: seq<nat>, b: seq<nat>)
    requires Subsequence(a, b) && StrictlyIncreasing(b)
    ensures StrictlyIncreasing(a)
    decreases |b|
  {
    if a != [] {
      var b' := b[..|b| - 1];
      if Subsequence(a, b') {
        SubsequenceIncreasing(a, b');
      } else {
        var a' := a[..|a| - 1];
        SubsequenceIncreasing(a', b');
        SubsequenceElements(a', b');
        forall i | 0 <= i < |a'|
          ensures a[i] < a[|a| - 1]
        {
          assert a'[i] in b';
        }
      }
    }
  }

  lemma {:induction false} SubsequenceSameLength<T>(a: seq<T>, b: seq<T>)
    requires Subsequence(a, b) && |a| == |b|
    ensures a == b
    decreases |b|
  {
    if a != [] {
      var b' := b[..|b| - 1];
      if Subsequence(a, b') {
        SubsequenceElements(a, b');
        assert false;
      } else {
        SubsequenceSameLength(a[..|a| - 1], b');
        assert a == a[..|a| - 1] + [a[|a| - 1]];
        assert b == b' + [b[|b| - 1]];
      }
    }
  }
}
