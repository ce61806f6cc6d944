/** The IV score of a contract against the same-right contracts of its expiry. */
module RelativeValue {
  import opened Sequences
  import opened Collecting
  import opened RealSums

  /** Below this standard deviation every score is 0. */
  const FLAT: real := 0.00000001
  const MIN_CONTRACTS: nat := 3

  /** A snapshot row; the IV is absent when it is not a finite number. */
  datatype Snapshot = Snapshot(contractKey: string, iv: Option<real>)

  datatype Label = Rich | Cheap | Neutral

  datatype Comparison =
    | NotCompared(thisIv: Option<real>, contracts: nat)
    | Compared(mark: Label, score: real, iv: real, average: real, deviation: real, contracts: nat)

  function IvOf(): Snapshot -> Option<real> {
    (row: Snapshot) => row.iv
  }

  function Ivs(rows: seq<Snapshot>): seq<real> {
    Collect(rows, IvOf())
  }

  /** The IV of the last row with the key that has one. */
  function TargetIv(rows: seq<Snapshot>, key: string): Option<real> {
    if rows == [] then None else
    var last := rows[|rows| - 1];
    if last.iv.Some? && last.contractKey == key then last.iv else TargetIv(rows[..|rows| - 1], key)
  }

  /** The label without square roots: more than one standard deviation above or below the mean. */
  function LabelOf(iv: real, ivs: seq<real>): Label
    requires ivs != []
  {
    var d := iv - Mean(ivs);
    if Variance(ivs) < Square(FLAT) || Square(d) <= Variance(ivs) then Neutral
    else if d > 0.0 then Rich else Cheap
  }

  ghost predicate IsRoot(root: real -> real) {
    forall v :: v >= 0.0 ==> root(v) >= 0.0 && Square(root(v)) == v
  }

  /** What a deviation and a score have to be. */
  predicate Scored(c: Comparison, ivs: seq<real>)
    requires c.Compared? && ivs != []
  {
    && c.average == Mean(ivs) && c.deviation >= 0.0 && Square(c.deviation) == Variance(ivs)
    && (if c.deviation < 0.00000001 then c.score == 0.0 else c.score * c.deviation == c.iv - c.average)
  }

  method Compare(rows: seq<Snapshot>, targetKey: string, root: real -> real) returns (c: Comparison)
    requires IsRoot(root)
    ensures var ivs, target := Ivs(rows), TargetIv(rows, targetKey);
      if target.None? || |ivs| < 3 then c == NotCompared(target, |ivs|)
      else && c.Compared? && (c.mark == Rich <==> c.score > 1.0) && (c.mark == Cheap <==> c.score < -1.0)
           && c.iv == target.value && c.contracts == |ivs|
           && c.mark == LabelOf(target.value, ivs) && Scored(c, ivs)
           && Square(c.score) <= (|ivs| - 1) as real
  {
    var ivs: seq<real> := [];
    var target: Option<real> := None;
    for i := 0 to |rows|
      invariant ivs == Ivs(rows[..i]) && target == TargetIv(rows[..i], targetKey)
      invariant target.Some? ==> target.value in ivs
    {
      assert rows[..i + 1][..i] == rows[..i];
      CollectNext(rows, IvOf(), i);
      var iv := rows[i].iv;
      if iv.None? {
        continue;
      }
      ivs := ivs + [iv.value];
      if rows[i].contractKey == targetKey {
        target := iv;
      }
    }
    assert rows[..|rows|] == rows;
    if target.None? || |ivs| < MIN_CONTRACTS {
      return NotCompared(target, |ivs|);
    }
    c := ScoreAgainst(target.value, ivs, root);
  }

  method ScoreAgainst(iv: real, ivs: seq<real>, root: real -> real) returns (c: Comparison)
    requires IsRoot(root) && iv in ivs
    ensures c.Compared? && c.iv == iv && c.contracts == |ivs|
    ensures (c.mark == Rich <==> c.score > 1.0) && (c.mark == Cheap <==> c.score < -1.0)
    ensures c.mark == LabelOf(iv, ivs) && Scored(c, ivs) && Square(c.score) <= (|ivs| - 1) as real
  {
    var mean := Mean(ivs);
    VarianceNonNegative(ivs);
    var std := root(Variance(ivs));
    var z := if std < FLAT then 0.0 else (iv - mean) / std;
    var mark := if z > 1.0 then Rich else if z < -1.0 then Cheap else Neutral;
    c := Compared(mark, z, iv, mean, std, |ivs|);
    LabelAgrees(iv - mean, std, Variance(ivs), z);
    var k :| 0 <= k < |ivs| && ivs[k] == iv;
    DistanceFromMean(ivs, k);
    ScoreIsBounded(iv - mean, std, Variance(ivs), z, |ivs|);
  }

  // ---------------------------------------------------------------- the score and the label

  lemma VarianceNonNegative(xs: seq<real>)
    requires xs != []
    ensures Variance(xs) >= 0.0
  {
    SquaresNonNegative(Less(xs, Mean(xs)));
  }

  lemma SquareLess(a: real, b: real, p: real, q: real)
    requires 0.0 <= a < b && p == Square(a) && q == Square(b)
    ensures p < q
  {
    var c := b - a;
    assert (a + c) * (a + c) == a * a + 2.0 * (a * c) + c * c;
    assert a * c >= 0.0 && c * c > 0.0;
  }

  lemma SquareOrder(a: real, b: real)
    requires a >= 0.0 && b >= 0.0
    ensures Square(a) < Square(b) <==> a < b
  {
    if a < b {
      SquareLess(a, b, Square(a), Square(b));
    } else if b < a {
      SquareLess(b, a, Square(b), Square(a));
    }
  }

  function AbsoluteOf(d: real): (a: real)
    ensures a >= 0.0 && Square(a) == Square(d)
  {
    if d < 0.0 then -d else d
  }

  /** The score's three ranges, decided without a root. */
  lemma LabelAgrees(d: real, std: real, v: real, z: real)
    requires std >= 0.0 && Square(std) == v
    requires if std < FLAT then z == 0.0 else z == d / std
    ensures v < Square(FLAT) <==> std < FLAT
    ensures std >= FLAT ==> z * std == d
    ensures std >= FLAT ==> (z > 1.0 <==> Square(d) > v && d > 0.0) && (z < -1.0 <==> Square(d) > v && d < 0.0)
  {
    SquareOrder(std, FLAT);
    if std >= FLAT {
      SquareOrder(std, AbsoluteOf(d));
    }
  }

  lemma ScoreIsBounded(d: real, std: real, v: real, z: real, n: nat)
    requires n >= 1 && std >= 0.0 && Square(std) == v && NotFarther(n, Square(d), v)
    requires if std < FLAT then z == 0.0 else z * std == d
    ensures Square(z) <= (n - 1) as real
  {
  }

  /** A label needs contracts on the other side: where one is rich, one lies below the mean, and conversely. */
  lemma LabelNeedsOtherSide(iv: real, ivs: seq<real>)
    requires iv in ivs
    ensures LabelOf(iv, ivs) == Rich ==> iv > Mean(ivs) && exists other :: other in ivs && other < Mean(ivs)
    ensures LabelOf(iv, ivs) == Cheap ==> iv < Mean(ivs) && exists other :: other in ivs && other > Mean(ivs)
  {
    var ds := Less(ivs, Mean(ivs));
    DeviationsCancel(ivs);
    var k :| 0 <= k < |ivs| && ivs[k] == iv;
    assert ds[k] == iv - Mean(ivs);
    VarianceNonNegative(ivs);
    if LabelOf(iv, ivs) == Rich {
      var j := BelowZero(ds, k, 1.0);
      assert ivs[j] in ivs && ivs[j] < Mean(ivs);
    }
    if LabelOf(iv, ivs) == Cheap {
      var j := BelowZero(ds, k, -1.0);
      assert ivs[j] in ivs && ivs[j] > Mean(ivs);
    }
  }

  /** Numbers that cancel out and are not all 0 have both signs. */
  lemma BelowZero(ds: seq<real>, k: nat, sign: real) returns (j: nat)
    requires k < |ds| && Sum(ds) == 0.0 && ds[k] * sign > 0.0 && (sign == 1.0 || sign == -1.0)
    ensures j < |ds| && ds[j] * sign < 0.0
  {
    if forall i :: 0 <= i < |ds| ==> ds[i] * sign >= 0.0 {
      SumWithout(ds, k);
      OneSided(Without(ds, k), sign);
      assert false;
    }
    j :| 0 <= j < |ds| && ds[j] * sign < 0.0;
  }

  lemma {:induction false} OneSided(ds: seq<real>, sign: real)
    requires sign == 1.0 || sign == -1.0
    requires forall i :: 0 <= i < |ds| ==> ds[i] * sign >= 0.0
    ensures Sum(ds) * sign >= 0.0
  {
    if ds != [] {
      OneSided(ds[..|ds| - 1], sign);
    }
  }

  /** With at most two contracts nothing is rich or cheap, so the lower limit of three loses no label. */
  lemma FewContractsAreNeutral(iv: real, ivs: seq<real>)
    requires iv in ivs && |ivs| < MIN_CONTRACTS
    ensures LabelOf(iv, ivs) == Neutral
  {
    var k :| 0 <= k < |ivs| && ivs[k] == iv;
    DistanceFromMean(ivs, k);
    VarianceNonNegative(ivs);
    assert (|ivs| - 1) as real == 0.0 || (|ivs| - 1) as real == 1.0;
    assert Square(iv - Mean(ivs)) <= Variance(ivs);
  }

  /** The labels single contracts out: at least one contract of every expiry is neutral. */
  lemma SomeContractIsNeutral(ivs: seq<real>)
    requires ivs != []
    ensures exists iv :: iv in ivs && LabelOf(iv, ivs) == Neutral
  {
    var ds := Less(ivs, Mean(ivs));
    if forall k :: 0 <= k < |ds| ==> Square(ds[k]) > Variance(ivs) {
      SumAbove(Squared(ds), Variance(ivs));
      assert false;
    }
    var k :| 0 <= k < |ds| && Square(ds[k]) <= Variance(ivs);
    assert ivs[k] in ivs && LabelOf(ivs[k], ivs) == Neutral;
  }

  lemma {:induction false} SumAbove(xs: seq<real>, v: real)
    requires xs != [] && forall k :: 0 <= k < |xs| ==> xs[k] > v
    ensures Sum(xs) > |xs| as real * v
  {
    var front := xs[..|xs| - 1];
    if front != [] {
      SumAbove(front, v);
    } else {
      assert Sum(xs) == xs[0];
    }
  }

  /** Moving every IV by the same amount moves the mean and changes neither the variance nor any label. */
  lemma ParallelShift(iv: real, ivs: seq<real>, c: real)
    requires ivs != []
    ensures Mean(Less(ivs, c)) == Mean(ivs) - c && Variance(Less(ivs, c)) == Variance(ivs)
    ensures LabelOf(iv - c, Less(ivs, c)) == LabelOf(iv, ivs)
  {
    SumLess(ivs, c);
    assert Less(Less(ivs, c), Mean(ivs) - c) == Less(ivs, Mean(ivs));
  }

  /** The target's IV is that of the last row with the key and an IV. */
  lemma {:induction false} TargetIsLast(rows: seq<Snapshot>, key: string, i: nat)
    requires i < |rows| && rows[i].contractKey == key && rows[i].iv.Some?
    requires forall j :: i < j < |rows| ==> rows[j].contractKey != key || rows[j].iv.None?
    ensures TargetIv(rows, key) == rows[i].iv
    decreases |rows|
  {
    if i < |rows| - 1 {
      TargetIsLast(rows[..|rows| - 1], key, i);
    }
  }
}
