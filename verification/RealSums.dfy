/** Sums of reals, their mean and their spread. */
module RealSums {

  function Sum(xs: seq<real>): real {
    if xs == [] then 0.0 else Sum(xs[..|xs| - 1]) + xs[|xs| - 1]
  }

  function Square(x: real): real {
    x * x
  }

  function Squared(xs: seq<real>): (ys: seq<real>)
    ensures |ys| == |xs|
  {
    seq(|xs|, i requires 0 <= i < |xs| => Square(xs[i]))
  }

  function Squares(xs: seq<real>): real {
    Sum(Squared(xs))
  }

  function Mean(xs: seq<real>): real
    requires xs != []
  {
    Sum(xs) / |xs| as real
  }

  /** Every value less `c`. */
  function Less(xs: seq<real>, c: real): (ys: seq<real>)
    ensures |ys| == |xs|
  {
    seq(|xs|, i requires 0 <= i < |xs| => xs[i] - c)
  }

  function Variance(xs: seq<real>): real
    requires xs != []
  {
    Squares(Less(xs, Mean(xs))) / |xs| as real
  }

  lemma SquaresNext(xs: seq<real>, x: real)
    ensures Squares(xs + [x]) == Squares(xs) + x * x
  {
    assert Squared(xs + [x]) == Squared(xs) + [Square(x)];
  }

  /** The sequence without its element at `k`. */
  function Without(xs: seq<real>, k: nat): seq<real>
    requires k < |xs|
  {
    xs[..k] + xs[k + 1..]
  }

  lemma {:induction false} SumWithout(xs: seq<real>, k: nat)
    requires k < |xs|
    ensures Sum(xs) == Sum(Without(xs, k)) + xs[k]
  {
    var xs', last := xs[..|xs| - 1], xs[|xs| - 1];
    if k == |xs'| {
      assert Without(xs, k) == xs';
    } else {
      SumWithout(xs', k);
      assert Without(xs, k) == Without(xs', k) + [last];
    }
  }

  lemma SquaresWithout(xs: seq<real>, k: nat)
    requires k < |xs|
    ensures Squares(xs) == Squares(Without(xs, k)) + Square(xs[k])
  {
    SumWithout(Squared(xs), k);
    assert Squared(Without(xs, k)) == Without(Squared(xs), k);
  }

  lemma SquaresNonNegative(xs: seq<real>)
    ensures Squares(xs) >= 0.0
  {
    SumNonNegative(Squared(xs));
  }

  lemma {:induction false} SumNonNegative(xs: seq<real>)
    requires forall i :: 0 <= i < |xs| ==> xs[i] >= 0.0
    ensures Sum(xs) >= 0.0
  {
    if xs != [] {
      SumNonNegative(xs[..|xs| - 1]);
    }
  }

  lemma {:induction false} SumLess(xs: seq<real>, c: real)
    ensures Sum(Less(xs, c)) == Sum(xs) - |xs| as real * c
  {
    if xs != [] {
      var xs', x := xs[..|xs| - 1], xs[|xs| - 1];
      SumLess(xs', c);
      assert Less(xs, c) == Less(xs', c) + [x - c];
    }
  }

  /** The values' distances from their mean cancel out. */
  lemma DeviationsCancel(xs: seq<real>)
    requires xs != []
    ensures Sum(Less(xs, Mean(xs))) == 0.0
  {
    SumLess(xs, Mean(xs));
  }

  lemma SquareStep(m: real, s: real, q: real, x: real)
    requires m > 0.0 && s * s <= m * q
    ensures (s + x) * (s + x) <= (m + 1.0) * (q + x * x)
  {
    var gap := q + m * (x * x) - 2.0 * (s * x);
    var side := s - m * x;
    assert side * side >= 0.0;
    assert side * side == s * s + m * (m * (x * x)) - 2.0 * (m * (s * x));
    assert m * gap == m * q + m * (m * (x * x)) - 2.0 * (m * (s * x));
    assert (s + x) * (s + x) == s * s + 2.0 * (s * x) + x * x;
    assert (m + 1.0) * (q + x * x) == m * q + q + m * (x * x) + x * x;
  }

  /** The square of a sum is at most the sum of the squares times their number. */
  lemma {:induction false} SquareOfSum(xs: seq<real>)
    ensures Square(Sum(xs)) <= |xs| as real * Squares(xs)
  {
    if xs != [] {
      var xs', x := xs[..|xs| - 1], xs[|xs| - 1];
      SquareOfSum(xs');
      assert xs == xs' + [x];
      SquaresNext(xs', x);
      if xs' == [] {
        assert Squares(xs') == 0.0;
      } else {
        SquareStep(|xs'| as real, Sum(xs'), Squares(xs'), x);
      }
    }
  }

  /** A squared distance is at most n - 1 times a variance. */
  predicate NotFarther(n: nat, d2: real, v: real)
    requires n >= 1
  {
    d2 <= (n - 1) as real * v
  }

  /** No value is further from the mean than the square root of n - 1 times the standard deviation. */
  lemma DistanceFromMean(xs: seq<real>, k: nat)
    requires k < |xs|
    ensures NotFarther(|xs|, Square(xs[k] - Mean(xs)), Variance(xs))
  {
    DeviationsCancel(xs);
    OneOfCancelling(Less(xs, Mean(xs)), k);
  }

  lemma OneOfCancelling(ds: seq<real>, k: nat)
    requires k < |ds| && Sum(ds) == 0.0
    ensures NotFarther(|ds|, Square(ds[k]), Squares(ds) / |ds| as real)
  {
    var d, others := ds[k], Without(ds, k);
    SumWithout(ds, k);
    SquaresWithout(ds, k);
    OppositeOfOthers(others, d, |ds|, Squares(ds));
  }

  lemma OppositeOfOthers(others: seq<real>, d: real, n: nat, q: real)
    requires |others| == n - 1 && Sum(others) == -d && q == Squares(others) + Square(d)
    ensures NotFarther(n, Square(d), q / n as real)
  {
    SquareOfSum(others);
    assert Square(-d) == Square(d);
  }

  /** The variance is the mean of the squares less the square of the mean. */
  lemma VarianceByMoments(xs: seq<real>)
    requires xs != []
    ensures Variance(xs) == Squares(xs) / |xs| as real - Square(Mean(xs))
  {
    SquaresLess(xs, Mean(xs));
    Moments(Squares(xs), Sum(xs), |xs| as real, Mean(xs), Squares(Less(xs, Mean(xs))));
  }

  lemma Moments(q: real, s: real, n: real, m: real, v: real)
    requires n > 0.0 && m == s / n && v == q - 2.0 * (m * s) + n * (m * m)
    ensures v / n == q / n - m * m
  {
    assert s == m * n;
    assert v == q - n * (m * m);
  }

  /** The squares of all the differences from `c`. */
  lemma {:induction false} SquaresLess(xs: seq<real>, c: real)
    ensures Squares(Less(xs, c)) == Squares(xs) - 2.0 * (c * Sum(xs)) + |xs| as real * (c * c)
  {
    if xs == [] {
      assert Squares(Less(xs, c)) == 0.0 && Squares(xs) == 0.0;
    } else {
      var front, x := xs[..|xs| - 1], xs[|xs| - 1];
      SquaresLess(front, c);
      assert xs == front + [x] && Less(xs, c) == Less(front, c) + [x - c];
      SquaresNext(front, x);
      SquaresNext(Less(front, c), x - c);
      assert (x - c) * (x - c) == x * x - 2.0 * (c * x) + c * c;
      OneMoreSquare(c * c, |front|);
    }
  }

  lemma OneMoreSquare(c2: real, n: nat)
    ensures (n + 1) as real * c2 == n as real * c2 + c2
  {
  }
}
