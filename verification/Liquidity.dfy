/** The spread and open-interest percentiles of a contract among the contracts of its right. */
module Liquidity {
  import opened Sequences
  import opened Collecting
  import opened Rounding
  import opened ContractKeys
  import opened Strikes
  import opened Expiries

  /** A snapshot row; a value that is absent or no number is absent. */
  datatype Quote = Quote(
    contractKey: string, bid: Option<real>, ask: Option<real>, mid: Option<real>, openInterest: Option<int>)

  datatype Summary = Summary(
    spread: Option<real>, spreadPercentile: Option<real>, openInterest: Option<int>,
    openInterestPercentile: Option<real>, compared: nat)

  /** What follows the last bar. */
  function RightPart(key: string): string {
    if key == "" || '|' !in key then "" else
    if key[0] == '|' && '|' !in key[1..] then key[1..] else RightPart(key[1..])
  }

  /** The spread in percent of a positive mid. */
  function SpreadOf(q: Quote): Option<real> {
    if q.bid.Some? && q.ask.Some? && q.mid.Some? && q.mid.value > 0.0
    then Some((q.ask.value - q.bid.value) / q.mid.value * 100.0)
    else None
  }

  /** The values of the rows with the right that have one. */
  function Values<T>(rows: seq<Quote>, right: string, value: Quote -> Option<T>): seq<T> {
    Collect(rows, OfRight(right, value))
  }

  function OfRight<T>(right: string, value: Quote -> Option<T>): Quote -> Option<T> {
    (q: Quote) => if RightPart(q.contractKey) == right then value(q) else None
  }

  function LastWithKey(rows: seq<Quote>, key: string): Option<Quote> {
    if rows == [] then None
    else if rows[|rows| - 1].contractKey == key then Some(rows[|rows| - 1])
    else LastWithKey(rows[..|rows| - 1], key)
  }

  function Count<T>(xs: seq<T>, p: T -> bool): nat {
    if xs == [] then 0 else (if p(xs[0]) then 1 else 0) + Count(xs[1..], p)
  }

  /** The share of values that are not above the target's, in percent; absent unless there are two values. */
  function Percentile<T>(target: Option<T>, xs: seq<T>, leq: (T, T) -> bool): Option<real> {
    if target.None? || |xs| <= 1 then None
    else Some(Count(xs, (x: T) => leq(x, target.value)) as real / |xs| as real * 100.0)
  }

  function SpreadRule(): Quote -> Option<real> {
    q => SpreadOf(q)
  }

  function InterestRule(): Quote -> Option<int> {
    (q: Quote) => q.openInterest
  }

  function RealLeq(): (real, real) -> bool {
    (a, b) => a <= b
  }

  function IntLeq(): (int, int) -> bool {
    (a, b) => a <= b
  }

  function TargetValue<T>(rows: seq<Quote>, key: string, value: Quote -> Option<T>): Option<T> {
    match LastWithKey(rows, key) case None => None case Some(q) => value(q)
  }

  method Summarise(rows: seq<Quote>, targetKey: string, right: string) returns (s: Summary)
    ensures s.spread == TargetValue(rows, targetKey, SpreadRule())
    ensures s.openInterest == TargetValue(rows, targetKey, InterestRule())
    ensures s.spreadPercentile == Percentile(s.spread, Values(rows, right, SpreadRule()), RealLeq())
    ensures s.openInterestPercentile == Percentile(s.openInterest, Values(rows, right, InterestRule()), IntLeq())
    ensures s.compared == |Values(rows, right, SpreadRule())|
  {
    var spreads: seq<real> := [];
    var interests: seq<int> := [];
    var target: Option<Quote> := None;
    for i := 0 to |rows|
      invariant spreads == Values(rows[..i], right, SpreadRule())
      invariant interests == Values(rows[..i], right, InterestRule())
      invariant target == LastWithKey(rows[..i], targetKey)
    {
      assert rows[..i + 1][..i] == rows[..i];
      CollectNext(rows, OfRight(right, SpreadRule()), i);
      CollectNext(rows, OfRight(right, InterestRule()), i);
      var q := rows[i];
      if RightPart(q.contractKey) == right {
        var spread := SpreadOf(q);
        if spread.Some? {
          spreads := spreads + [spread.value];
        }
        if q.openInterest.Some? {
          interests := interests + [q.openInterest.value];
        }
      }
      if q.contractKey == targetKey {
        target := Some(q);
      }
    }
    assert rows[..|rows|] == rows;
    var spread := if target.Some? then SpreadOf(target.value) else None;
    var interest := if target.Some? then target.value.openInterest else None;
    s := Summary(
      spread, Percentile(spread, spreads, RealLeq()),
      interest, Percentile(interest, interests, IntLeq()), |spreads|);
  }

  // ---------------------------------------------------------------- the target is among those compared

  lemma {:induction false} RightPartOf(a: string, rest: string)
    ensures RightPart(Barred(a, rest)) == if '|' in rest then RightPart(rest) else rest
  {
    var key := Barred(a, rest);
    if a == "" {
      assert key == ['|'] + rest;
    } else {
      assert key[1..] == Barred(a[1..], rest);
      assert key[1..][|a| - 1] == '|';
      RightPartOf(a[1..], rest);
    }
  }

  lemma RightOfFive(a: string, b: string, c: string, d: string, right: string)
    requires '|' !in right
    ensures RightPart(Barred(a, Barred(b, Barred(c, Barred(d, right))))) == right
  {
    var last := Barred(d, right);
    RightPartOf(d, right);
    RightPartOf(c, last);
    RightPartOf(b, Barred(c, last));
    RightPartOf(a, Barred(b, Barred(c, last)));
  }

  /** A printed contract key ends in its right, a single letter for a call or a put. */
  lemma KeyEndsInRight(symbol: string, expiry: string, strike: int, right: string)
    requires IsCall(right) || IsPut(right)
    ensures RightPart(ContractKey(symbol, expiry, strike, right)) == if IsCall(right) then "C" else "P"
  {
    RightIff(right);
    RightOfFive(SymbolOf(symbol), "OPT", CompactExpiry(expiry), StrikeText(strike), RightOf(right));
  }

  lemma {:induction false} LastIsThere(rows: seq<Quote>, key: string) returns (i: nat)
    requires LastWithKey(rows, key).Some?
    ensures i < |rows| && rows[i] == LastWithKey(rows, key).value && rows[i].contractKey == key
  {
    i := |rows| - 1;
    if rows[i].contractKey != key {
      i := LastIsThere(rows[..i], key);
    }
  }

  lemma TargetIsCounted<T>(rows: seq<Quote>, key: string, value: Quote -> Option<T>)
    requires TargetValue(rows, key, value).Some?
    ensures TargetValue(rows, key, value).value in Values(rows, RightPart(key), value)
  {
    var i := LastIsThere(rows, key);
    PickedIsCollected(rows, OfRight(RightPart(key), value), i);
  }

  lemma {:induction false} CountBounds<T>(xs: seq<T>, p: T -> bool)
    ensures Count(xs, p) <= |xs|
    ensures Count(xs, p) >= 1 <==> exists x :: x in xs && p(x)
    ensures Count(xs, p) == |xs| <==> forall x :: x in xs ==> p(x)
  {
    if xs != [] {
      CountBounds(xs[1..], p);
      assert xs == [xs[0]] + xs[1..];
    }
  }

  lemma ShareBounds(rank: nat, n: nat)
    requires 1 <= rank <= n
    ensures var share := rank as real / n as real * 100.0;
      100.0 / n as real <= share <= 100.0 && (share == 100.0 <==> rank == n)
  {
  }

  /** A reported percentile of the target among the rows of its own right lies between 100 / n and 100, and is
      100 exactly when none of the n values is above the target's. */
  lemma PercentileBounds<T>(rows: seq<Quote>, key: string, value: Quote -> Option<T>, leq: (T, T) -> bool)
    requires forall x :: leq(x, x)
    requires var xs := Values(rows, RightPart(key), value); Percentile(TargetValue(rows, key, value), xs, leq).Some?
    ensures var xs, target := Values(rows, RightPart(key), value), TargetValue(rows, key, value);
      var percentile := Percentile(target, xs, leq).value;
      && target.Some? && target.value in xs && |xs| > 1
      && 100.0 / |xs| as real <= percentile <= 100.0
      && (percentile == 100.0 <==> forall x :: x in xs ==> leq(x, target.value))
  {
    var xs, target := Values(rows, RightPart(key), value), TargetValue(rows, key, value);
    TargetIsCounted(rows, key, value);
    CountBounds(xs, (x: T) => leq(x, target.value));
    ShareBounds(Count(xs, (x: T) => leq(x, target.value)), |xs|);
  }

  /** Rounding hides no contract above the target as long as fewer than 2000 are compared. */
  lemma RoundedHundred(rank: nat, n: nat)
    requires 1 <= rank <= n < 2000
    ensures OneDecimal(rank as real / n as real * 100.0) == 100.0 <==> rank == n
  {
    ShareBounds(rank, n);
    if rank < n {
      BelowOne(rank as real, n as real);
    }
  }

  lemma BelowOne(a: real, b: real)
    requires 0.0 < a <= b - 1.0 && b < 2000.0
    ensures a / b * 100.0 * 10.0 < 999.5
  {
    var q := a / b;
    assert q * b == a;
    NegativeFactor(0.0005 - (1.0 - q), b);
  }

  lemma NegativeFactor(x: real, b: real)
    requires b > 0.0 && x * b < 0.0
    ensures x < 0.0
  {
  }

  // ---------------------------------------------------------------- what the figures are

  /** The spread is measured where all three prices are there and the mid is positive, in percent of the mid. */
  lemma SpreadIs(q: Quote)
    ensures SpreadRule()(q).Some? <==> q.bid.Some? && q.ask.Some? && q.mid.Some? && q.mid.value > 0.0
    ensures SpreadRule()(q).Some? ==> SpreadRule()(q).value * q.mid.value == 100.0 * (q.ask.value - q.bid.value)
  {
    if SpreadOf(q).Some? {
      var share := (q.ask.value - q.bid.value) / q.mid.value;
      assert share * q.mid.value == q.ask.value - q.bid.value;
      assert SpreadOf(q).value == share * 100.0;
    }
  }

  /** The target is the last row with the key. */
  lemma {:induction false} TargetIsLast(rows: seq<Quote>, key: string, i: nat)
    requires i < |rows| && rows[i].contractKey == key
    requires forall j :: i < j < |rows| ==> rows[j].contractKey != key
    ensures LastWithKey(rows, key) == Some(rows[i])
    decreases |rows|
  {
    if i < |rows| - 1 {
      TargetIsLast(rows[..|rows| - 1], key, i);
    }
  }

  lemma {:induction false} CountNext<T>(xs: seq<T>, x: T, p: T -> bool)
    ensures Count(xs + [x], p) == Count(xs, p) + if p(x) then 1 else 0
  {
    if xs == [] {
      assert xs + [x] == [x];
    } else {
      assert (xs + [x])[1..] == xs[1..] + [x];
      CountNext(xs[1..], x, p);
    }
  }

  /** The places of the values that satisfy `p`. */
  function Places<T>(xs: seq<T>, p: T -> bool): set<int> {
    set i | 0 <= i < |xs| && p(xs[i])
  }

  lemma {:induction false} CountIsSize<T>(xs: seq<T>, p: T -> bool)
    ensures Count(xs, p) == |Places(xs, p)|
  {
    if xs == [] {
      assert Places(xs, p) == {};
    } else {
      var front, n := xs[..|xs| - 1], |xs| - 1;
      CountIsSize(front, p);
      assert xs == front + [xs[n]];
      CountNext(front, xs[n], p);
      assert Places(xs, p) == Places(front, p) + (if p(xs[n]) then {n} else {});
    }
  }

  function NotAbove<T>(xs: seq<T>, target: T, leq: (T, T) -> bool): set<int> {
    set i | 0 <= i < |xs| && leq(xs[i], target)
  }

  lemma PercentileIsCount<T>(target: T, xs: seq<T>, leq: (T, T) -> bool)
    requires |xs| > 1
    ensures Percentile(Some(target), xs, leq) ==
      Some(|NotAbove(xs, target, leq)| as real / |xs| as real * 100.0)
  {
    var some := Some(target);
    var p := (x: T) => leq(x, some.value);
    CountIsSize(xs, p);
    assert Places(xs, p) == NotAbove(xs, target, leq);
  }

  /** A percentile is the number of values that are not above the target's, in percent of all of them. */
  lemma SpreadPercentileIsRank(spread: real, spreads: seq<real>)
    requires |spreads| > 1
    ensures Percentile(Some(spread), spreads, RealLeq()) ==
      Some(|set i | 0 <= i < |spreads| && spreads[i] <= spread| as real / |spreads| as real * 100.0)
  {
    PercentileIsCount(spread, spreads, RealLeq());
    assert NotAbove(spreads, spread, RealLeq()) == set i | 0 <= i < |spreads| && spreads[i] <= spread;
  }

  lemma InterestPercentileIsRank(interest: int, interests: seq<int>)
    requires |interests| > 1
    ensures Percentile(Some(interest), interests, IntLeq()) ==
      Some(|set i | 0 <= i < |interests| && interests[i] <= interest| as real / |interests| as real * 100.0)
  {
    PercentileIsCount(interest, interests, IntLeq());
    assert NotAbove(interests, interest, IntLeq()) == set i | 0 <= i < |interests| && interests[i] <= interest;
  }

  /** One value alone has no percentile. */
  lemma OneValueHasNone<T>(target: Option<T>, xs: seq<T>, leq: (T, T) -> bool)
    ensures Percentile(target, xs, leq).Some? <==> target.Some? && |xs| >= 2
  {
  }

  /** A key without a bar has no right. */
  lemma NoBarNoRight(key: string)
    requires '|' !in key
    ensures RightPart(key) == ""
  {
  }
}
