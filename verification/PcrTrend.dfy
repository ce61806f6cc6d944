/** The put/call trend merged from the open-interest and the volume feed. */
module PcrTrend {
  import opened Sequences
  import opened TextOrder
  import opened Sorting
  import FirstWins

  /** A row of a feed; a day that is absent is "". */
  datatype FeedRow = FeedRow(day: string, put: int, call: int)

  datatype Point = Point(
    day: string, putOi: int, callOi: int, oiRatio: Option<real>,
    putVol: Option<int>, callVol: Option<int>, volRatio: Option<real>)

  function Ratio(num: int, den: int): Option<real> {
    if den <= 0 || num < 0 then None else Some(num as real / den as real)
  }

  /** What each day's last row says. */
  function ByDay(rows: seq<FeedRow>): map<string, (int, int)> {
    if rows == [] then map[] else
    var front, last := ByDay(rows[..|rows| - 1]), rows[|rows| - 1];
    if last.day == "" then front else front[last.day := (last.put, last.call)]
  }

  function At(days: map<string, (int, int)>, day: string): (int, int) {
    if day in days then days[day] else (0, 0)
  }

  function PointAt(day: string, oi: map<string, (int, int)>, vol: map<string, (int, int)>): Point {
    var (putOi, callOi) := At(oi, day);
    var (putVol, callVol) := At(vol, day);
    if vol == map[] then Point(day, putOi, callOi, Ratio(putOi, callOi), None, None, None)
    else Point(day, putOi, callOi, Ratio(putOi, callOi), Some(putVol), Some(callVol), Ratio(putVol, callVol))
  }

  /** The given days in strictly increasing order. */
  ghost predicate AreInOrder(days: seq<string>, all: set<string>) {
    && (forall i, j :: 0 <= i < j < |days| ==> days[i] != days[j] && TextLeq(days[i], days[j]))
    && (forall d :: d in all <==> d in days)
  }

  /** The entries of a feed by day, the days in the order in which they first came, and the latest day. */
  method ReadFeed(rows: seq<FeedRow>, readDay: string -> Option<int>, latest: Option<int>)
    returns (byDay: map<string, (int, int)>, days: seq<string>, asOf: Option<int>)
    ensures byDay == ByDay(rows) && NoDuplicates(days) && (forall d :: d in byDay <==> d in days)
    ensures IsLatest(asOf, latest, rows, readDay)
  {
    byDay, days, asOf := map[], [], latest;
    for i := 0 to |rows|
      invariant byDay == ByDay(rows[..i]) && ListsDays(days, byDay)
      invariant IsLatest(asOf, latest, rows[..i], readDay)
    {
      assert rows[..i + 1] == rows[..i] + [rows[i]];
      var row := rows[i];
      LatestNext(rows[..i], row, latest, asOf, readDay);
      ByDayNext(rows[..i], row);
      ListsNext(days, byDay, row.day, (row.put, row.call));
      if row.day == "" {
        continue;
      }
      if row.day !in byDay {
        days := days + [row.day];
      }
      byDay := byDay[row.day := (row.put, row.call)];
      var d := readDay(row.day);
      if d.Some? && (asOf.None? || d.value > asOf.value) {
        asOf := d;
      }
    }
    assert rows[..|rows|] == rows;
  }

  ghost predicate ListsDays(days: seq<string>, byDay: map<string, (int, int)>) {
    NoDuplicates(days) && forall d :: d in byDay <==> d in days
  }

  lemma ListsNext(days: seq<string>, byDay: map<string, (int, int)>, day: string, counts: (int, int))
    requires ListsDays(days, byDay)
    ensures ListsDays(if day in byDay then days else days + [day], byDay[day := counts])
  {
  }

  lemma ByDayNext(rows: seq<FeedRow>, row: FeedRow)
    ensures ByDay(rows + [row]) == if row.day == "" then ByDay(rows) else ByDay(rows)[row.day := (row.put, row.call)]
  {
    assert (rows + [row])[..|rows|] == rows;
  }

  /** The latest of a day already known and the readable days of the rows, if there are any. */
  ghost predicate IsLatest(asOf: Option<int>, known: Option<int>, rows: seq<FeedRow>, readDay: string -> Option<int>) {
    && (asOf.Some? ==>
          asOf == known || exists i :: 0 <= i < |rows| && rows[i].day != "" && readDay(rows[i].day) == asOf)
    && (known.Some? ==> asOf.Some? && asOf.value >= known.value)
    && (forall i :: 0 <= i < |rows| && rows[i].day != "" && readDay(rows[i].day).Some? ==>
          asOf.Some? && asOf.value >= readDay(rows[i].day).value)
  }

  lemma LatestNext(
    rows: seq<FeedRow>, row: FeedRow, known: Option<int>, asOf: Option<int>, readDay: string -> Option<int>)
    requires IsLatest(asOf, known, rows, readDay)
    ensures var d := readDay(row.day);
      IsLatest(if row.day != "" && d.Some? && (asOf.None? || d.value > asOf.value) then d else asOf,
               known, rows + [row], readDay)
  {
    var all := rows + [row];
    assert all[|rows|] == row;
    assert forall i :: 0 <= i < |rows| ==> all[i] == rows[i];
  }

  /** `sorted` over the union of two lists of days. */
  function SortedUnion(a: seq<string>, b: seq<string>): seq<string> {
    Sort(FirstWins.Distinct(a + b, DayKey()), TextLeq)
  }

  function DayKey(): string -> Option<string> {
    (day: string) => Some(day)
  }

  /** The points are the days of either feed in strictly increasing order, each with both feeds' values; a feed
      that failed has no rows, and without volume days the volume columns are empty. */
  method MergeTrend(oi: seq<FeedRow>, vol: seq<FeedRow>, readDay: string -> Option<int>)
    returns (trend: seq<Point>, asOf: Option<int>)
    ensures AreInOrder(Days(trend), ByDay(oi).Keys + ByDay(vol).Keys)
    ensures forall i :: 0 <= i < |trend| ==> trend[i] == PointAt(trend[i].day, ByDay(oi), ByDay(vol))
    ensures IsLatest(asOf, None, oi + vol, readDay)
  {
    var oiByDay, oiDays, oiAsOf := ReadFeed(oi, readDay, None);
    var volByDay, volDays, volAsOf := ReadFeed(vol, readDay, oiAsOf);
    asOf := volAsOf;
    LatestOfBoth(oi, vol, readDay, oiAsOf, asOf);
    var days := SortedUnion(oiDays, volDays);
    SortedUnionIsOrdered(oiDays, volDays, oiByDay.Keys + volByDay.Keys);
    trend := Points(days, oiByDay, volByDay);
  }

  function Days(trend: seq<Point>): (days: seq<string>)
    ensures |days| == |trend|
  {
    seq(|trend|, i requires 0 <= i < |trend| => trend[i].day)
  }

  method Points(days: seq<string>, oi: map<string, (int, int)>, vol: map<string, (int, int)>)
    returns (trend: seq<Point>)
    ensures Days(trend) == days
    ensures forall i :: 0 <= i < |trend| ==> trend[i] == PointAt(trend[i].day, oi, vol)
  {
    trend := [];
    for i := 0 to |days|
      invariant |trend| == i
      invariant forall k :: 0 <= k < i ==> trend[k] == PointAt(days[k], oi, vol)
    {
      trend := trend + [PointAt(days[i], oi, vol)];
    }
  }

  lemma LatestOfBoth(
    oi: seq<FeedRow>, vol: seq<FeedRow>, readDay: string -> Option<int>, a: Option<int>, b: Option<int>)
    requires IsLatest(a, None, oi, readDay) && IsLatest(b, a, vol, readDay)
    ensures IsLatest(b, None, oi + vol, readDay)
  {
    var all := oi + vol;
    forall i | 0 <= i < |all| && all[i].day != "" && readDay(all[i].day).Some?
      ensures b.Some? && b.value >= readDay(all[i].day).value
    {
      if i < |oi| {
        assert all[i] == oi[i];
      } else {
        assert all[i] == vol[i - |oi|];
      }
    }
    if b.Some? {
      if b == a {
        var i :| 0 <= i < |oi| && oi[i].day != "" && readDay(oi[i].day) == a;
        assert all[i] == oi[i];
      } else {
        var i :| 0 <= i < |vol| && vol[i].day != "" && readDay(vol[i].day) == b;
        assert all[|oi| + i] == vol[i];
      }
    }
  }

  lemma SortedUnionIsOrdered(a: seq<string>, b: seq<string>, all: set<string>)
    requires forall d :: d in all <==> d in a || d in b
    ensures AreInOrder(SortedUnion(a, b), all)
  {
    var distinct := FirstWins.Distinct(a + b, DayKey());
    TextLeqIsOrder();
    SortSorts(distinct, TextLeq);
    FirstWins.DistinctFacts(a + b, DayKey());
    DistinctKeepsAll(a + b);
    SortedIsDistinct(distinct);
  }

  /** There is only one way to list days in order. */
  lemma {:induction false} OrderIsUnique(a: seq<string>, b: seq<string>, all: set<string>)
    requires AreInOrder(a, all) && AreInOrder(b, all)
    ensures a == b
  {
    if a == [] {
      assert forall i :: 0 <= i < |b| ==> b[i] in all;
    } else {
      assert a[0] in all && a[0] in b;
      assert b[0] in all && b[0] in a;
      TextLeqTotal(a[0], b[0]);
      OrderIsUnique(a[1..], b[1..], all - {a[0]});
    }
  }

  lemma TextLeqIsOrder()
    ensures TotalPreorder(TextLeq)
  {
    forall a, b
      ensures TextLeq(a, b) || TextLeq(b, a)
    {
      TextLeqTotal(a, b);
    }
    forall a, b, c | TextLeq(a, b) && TextLeq(b, c)
      ensures TextLeq(a, c)
    {
      TextLeqTransitive(a, b, c);
    }
  }

  lemma {:induction false} DistinctKeepsAll(days: seq<string>)
    ensures forall d :: d in FirstWins.Distinct(days, DayKey()) <==> d in days
  {
    if days != [] {
      DistinctKeepsAll(days[..|days| - 1]);
      assert days == days[..|days| - 1] + [days[|days| - 1]];
    }
  }

  /** A permutation of days without repeats has none either. */
  lemma SortedIsDistinct(days: seq<string>)
    requires FirstWins.UniqueKeys(days, DayKey()) && multiset(Sort(days, TextLeq)) == multiset(days)
    ensures NoDuplicates(Sort(days, TextLeq))
  {
    var sorted := Sort(days, TextLeq);
    forall i, j | 0 <= i < j < |sorted|
      ensures sorted[i] != sorted[j]
    {
      if sorted[i] == sorted[j] {
        OccursTwice(sorted, i, j);
        OccursOnce(days, sorted[i]);
        assert false;
      }
    }
  }

  lemma OccursTwice(days: seq<string>, i: nat, j: nat)
    requires i < j < |days| && days[i] == days[j]
    ensures multiset(days)[days[i]] >= 2
  {
    var rest := days[i + 1..];
    assert rest[j - i - 1] == days[j];
    assert days == (days[..i] + [days[i]]) + rest;
    assert days[i] in rest;
  }

  lemma {:induction false} OccursOnce(days: seq<string>, d: string)
    requires FirstWins.UniqueKeys(days, DayKey())
    ensures multiset(days)[d] <= 1
  {
    if days != [] {
      var front, last := days[..|days| - 1], days[|days| - 1];
      assert days == front + [last];
      assert forall i :: 0 <= i < |front| ==> DayKey()(days[i]) != DayKey()(last);
      OccursOnce(front, d);
      assert last !in front;
    }
  }

  // ---------------------------------------------------------------- what a point says

  predicate IsLast(rows: seq<FeedRow>, i: int, day: string) {
    0 <= i < |rows| && rows[i].day == day && forall j :: i < j < |rows| ==> rows[j].day != day
  }

  lemma {:induction false} ByDayIs(rows: seq<FeedRow>, day: string)
    requires day != ""
    ensures day in ByDay(rows) <==> exists i :: 0 <= i < |rows| && rows[i].day == day
    ensures forall i :: IsLast(rows, i, day) ==> ByDay(rows)[day] == (rows[i].put, rows[i].call)
  {
    if rows != [] {
      var front, n := rows[..|rows| - 1], |rows| - 1;
      ByDayIs(front, day);
      assert rows == front + [rows[n]];
      forall i | IsLast(rows, i, day)
        ensures ByDay(rows)[day] == (rows[i].put, rows[i].call)
      {
        if i < n {
          assert IsLast(front, i, day);
        }
      }
    }
  }

  /** A ratio of two counts: absent where the second is not positive or the first is negative. */
  predicate IsRatio(ratio: Option<real>, num: int, den: int) {
    && (ratio.Some? <==> den > 0 && num >= 0)
    && (ratio.Some? ==> ratio.value * den as real == num as real)
  }

  /** A count of a feed on a day: what its last row of that day says, and 0 without one. */
  ghost predicate IsCount(rows: seq<FeedRow>, day: string, count: int, of: FeedRow -> int) {
    && (forall i :: IsLast(rows, i, day) ==> count == of(rows[i]))
    && ((forall i :: 0 <= i < |rows| ==> rows[i].day != day) ==> count == 0)
  }

  /** A point takes puts and calls, interest and volume, from where they belong; the volumes and their ratio are
      absent where no row of the volume feed names a day. */
  lemma PointsSay(oi: seq<FeedRow>, vol: seq<FeedRow>, day: string)
    requires day != ""
    ensures var p, puts, calls := PointAt(day, ByDay(oi), ByDay(vol)), (r: FeedRow) => r.put, (r: FeedRow) => r.call;
      && p.day == day && IsCount(oi, day, p.putOi, puts) && IsCount(oi, day, p.callOi, calls)
      && IsRatio(p.oiRatio, p.putOi, p.callOi)
      && (p.putVol.Some? <==> exists i :: 0 <= i < |vol| && vol[i].day != "")
      && (p.putVol.None? ==> p.callVol.None? && p.volRatio.None?)
      && (p.putVol.Some? ==>
            && p.callVol.Some? && IsRatio(p.volRatio, p.putVol.value, p.callVol.value)
            && IsCount(vol, day, p.putVol.value, puts) && IsCount(vol, day, p.callVol.value, calls))
  {
    CountsOf(oi, day);
    CountsOf(vol, day);
    NoDayNoEntry(vol);
    RatioIs(At(ByDay(oi), day).0, At(ByDay(oi), day).1);
    RatioIs(At(ByDay(vol), day).0, At(ByDay(vol), day).1);
  }

  lemma RatioIs(num: int, den: int)
    ensures IsRatio(Ratio(num, den), num, den)
  {
  }

  lemma CountsOf(rows: seq<FeedRow>, day: string)
    requires day != ""
    ensures IsCount(rows, day, At(ByDay(rows), day).0, (r: FeedRow) => r.put)
    ensures IsCount(rows, day, At(ByDay(rows), day).1, (r: FeedRow) => r.call)
  {
    ByDayIs(rows, day);
  }

  lemma {:induction false} NoDayNoEntry(rows: seq<FeedRow>)
    ensures ByDay(rows) == map[] <==> forall i :: 0 <= i < |rows| ==> rows[i].day == ""
  {
    if rows != [] {
      var front, last := rows[..|rows| - 1], rows[|rows| - 1];
      NoDayNoEntry(front);
      assert rows == front + [last];
      if last.day != "" {
        assert last.day in ByDay(rows);
      }
    }
  }
}
