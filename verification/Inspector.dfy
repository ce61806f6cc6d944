/** The income rows of the stock inspector: one data format, newest first, one row per key, up to a cap. */
module Inspector {
  import opened Sequences
  import opened TextOrder
  import opened Sorting
  import opened FirstWins
  import opened FiscalQuarter
  import Calendar
  import Expiries

  /** An entry of a row's data: a scalar, read as a number where it is one, or an object. */
  datatype Field = Flat(number: Option<real>) | Nested(entries: map<string, Option<real>>)

  /** An income-statement row. The fiscal year and quarter are as read to whole numbers. */
  datatype Row = Row(
    fiscalYear: Option<int>, fiscalQuarter: Option<int>, periodDate: Option<string>, data: Option<map<string, Field>>)

  datatype QuarterLine = QuarterLine(
    fiscalYear: Option<int>, fiscalQuarter: Option<int>, eps: Option<real>, revenues: Option<real>)

  datatype YearLine = YearLine(fiscalYear: Option<int>, eps: Option<real>, revenues: Option<real>)

  // ---------------------------------------------------------------- reading a row

  predicate IsLegacy(r: Row) {
    r.data.Some? && exists k :: k in r.data.value && r.data.value[k].Nested? && "value" in r.data.value[k].entries
  }

  predicate IsV1(r: Row) {
    r.data.Some? && r.data.value != map[] && !IsLegacy(r)
  }

  /** The scalar under the first of the names that is present. */
  function Figure(data: map<string, Field>, names: seq<string>): Option<real> {
    if names == [] then None
    else if names[0] in data then
      (match data[names[0]]
       case Flat(n) => n
       case Nested(entries) => if "value" in entries then entries["value"] else None)
    else Figure(data, names[1..])
  }

  function RawData(r: Row): map<string, Field> {
    if r.data.Some? then r.data.value else map[]
  }

  function Eps(r: Row): Option<real> {
    Figure(RawData(r), ["basic_earnings_per_share"])
  }

  function Revenues(r: Row): Option<real> {
    Figure(RawData(r), ["revenues", "revenue"])
  }

  /** The day number of a period date that starts with a date. */
  function AsDate(periodDate: Option<string>): Option<int> {
    if periodDate.None? || |periodDate.value| < 10 || periodDate.value[4] != '-' then None else
    var s := periodDate.value[..10];
    Expiries.FromIsoIsValid(s);
    match Expiries.FromIso(s)
    case None => None
    case Some(d) => Some(Calendar.Ordinal(d))
  }

  /** The column, unless it is empty or 0. */
  function QuarterOf(r: Row, ends: map<int, int>): Option<int> {
    if r.fiscalQuarter.Some? && r.fiscalQuarter.value != 0 then r.fiscalQuarter
    else DeriveQuarter(r.fiscalYear, AsDate(r.periodDate), ends)
  }

  function QuarterLineOf(ends: map<int, int>): Row -> QuarterLine {
    (r: Row) => QuarterLine(r.fiscalYear, QuarterOf(r, ends), Eps(r), Revenues(r))
  }

  function YearLineOf(): Row -> YearLine {
    (r: Row) => YearLine(r.fiscalYear, Eps(r), Revenues(r))
  }

  /** A quarterly row has a key when its quarter is known. */
  function QuarterKey(ends: map<int, int>): Row -> Option<(Option<int>, int)> {
    r => match QuarterOf(r, ends) case None => None case Some(q) => Some((r.fiscalYear, q))
  }

  /** An annual row's key is its year, known or not. */
  function YearKey(): Row -> Option<Option<int>> {
    (r: Row) => Some(r.fiscalYear)
  }

  function PeriodText(r: Row): string {
    if r.periodDate.Some? then r.periodDate.value else ""
  }

  predicate Newer(a: Row, b: Row) {
    TextLeq(PeriodText(b), PeriodText(a))
  }

  function NewestFirst(rows: seq<Row>): seq<Row> {
    Sort(rows, Newer)
  }

  function OneFormat(rows: seq<Row>): seq<Row> {
    if exists i :: 0 <= i < |rows| && IsV1(rows[i]) then Filter(rows, r => !IsLegacy(r)) else rows
  }

  /** Later annual rows replace earlier ones. */
  function YearEnds(annual: seq<Row>): map<int, int> {
    if annual == [] then map[] else
    var ends, r := YearEnds(annual[..|annual| - 1]), annual[|annual| - 1];
    match AsDate(r.periodDate)
    case Some(day) => if r.fiscalYear.Some? then ends[r.fiscalYear.value := day] else ends
    case None => ends
  }

  // ---------------------------------------------------------------- the loops

  method FindYearEnds(annual: seq<Row>) returns (ends: map<int, int>)
    ensures ends == YearEnds(annual)
  {
    ends := map[];
    for i := 0 to |annual|
      invariant ends == YearEnds(annual[..i])
    {
      assert annual[..i + 1][..i] == annual[..i];
      var day := AsDate(annual[i].periodDate);
      if annual[i].fiscalYear.Some? && day.Some? {
        ends := ends[annual[i].fiscalYear.value := day.value];
      }
    }
    assert annual[..|annual|] == annual;
  }

  function ShownQuarters(quarterly: seq<Row>, annual: seq<Row>, quarters: int): seq<Row> {
    Kept(NewestFirst(OneFormat(quarterly)), QuarterKey(YearEnds(annual)), quarters)
  }

  function ShownYears(annual: seq<Row>, years: int): seq<Row> {
    Kept(NewestFirst(OneFormat(annual)), YearKey(), years)
  }

  method IncomeRowsForInspector(quarterly: seq<Row>, annual: seq<Row>, quarters: int, years: int)
    returns (quarterLines: seq<QuarterLine>, yearLines: seq<YearLine>)
    ensures quarterLines == Map(ShownQuarters(quarterly, annual, quarters), QuarterLineOf(YearEnds(annual)))
    ensures yearLines == Map(ShownYears(annual, years), YearLineOf())
  {
    var ends := FindYearEnds(annual);
    quarterLines := KeepFirst(NewestFirst(OneFormat(quarterly)), QuarterKey(ends), QuarterLineOf(ends), quarters);
    yearLines := KeepFirst(NewestFirst(OneFormat(annual)), YearKey(), YearLineOf(), years);
  }

  // ---------------------------------------------------------------- what the tables show

  lemma NewerIsOrder()
    ensures TotalPreorder(Newer)
  {
    forall a, b
      ensures Newer(a, b) || Newer(b, a)
    {
      TextLeqTotal(PeriodText(a), PeriodText(b));
    }
    forall a, b, c | Newer(a, b) && Newer(b, c)
      ensures Newer(a, c)
    {
      TextLeqTransitive(PeriodText(c), PeriodText(b), PeriodText(a));
    }
  }

  lemma {:induction false} FilterElements<T>(xs: seq<T>, p: T -> bool)
    ensures forall x :: x in Filter(xs, p) <==> x in xs && p(x)
  {
    if xs != [] {
      FilterElements(xs[1..], p);
      assert xs == [xs[0]] + xs[1..];
    }
  }

  /** One table never holds rows of both formats, and only legacy rows are ever dropped. */
  lemma FormatsNeverMix(rows: seq<Row>)
    ensures var out := OneFormat(rows);
      && !(exists a, b :: a in out && b in out && IsLegacy(a) && IsV1(b))
      && (forall r :: r in out ==> r in rows)
      && (forall r :: r in rows && !IsLegacy(r) ==> r in out)
      && ((forall r :: r in rows ==> r in out) <==> !(exists a, b :: a in rows && b in rows && IsLegacy(a) && IsV1(b)))
  {
    FilterElements(rows, (r: Row) => !IsLegacy(r));
    if b :| b in rows && IsV1(b) {
      var i :| 0 <= i < |rows| && rows[i] == b;
    }
  }

  /** Rows of one date keep their order. */
  lemma NewestFirstSorts(rows: seq<Row>, date: string)
    ensures SortedBy(NewestFirst(rows), Newer) && multiset(NewestFirst(rows)) == multiset(rows)
    ensures forall r :: r in NewestFirst(rows) <==> r in rows
    ensures Filter(NewestFirst(rows), (r: Row) => PeriodText(r) == date) ==
      Filter(rows, (r: Row) => PeriodText(r) == date)
  {
    NewerIsOrder();
    SortSorts(rows, Newer);
    TextLeqTotal(date, date);
    SortIsStable(rows, Newer, (r: Row) => PeriodText(r) == date);
  }

  /** A later row in the table never has a later period text; a missing text counts as an empty one. */
  lemma NewestComesFirst(rows: seq<Row>, i: nat, j: nat)
    requires i < j < |NewestFirst(rows)|
    ensures var a, b := NewestFirst(rows)[i].periodDate, NewestFirst(rows)[j].periodDate;
      TextLeq(if b.Some? then b.value else "", if a.Some? then a.value else "")
  {
    NewestFirstSorts(rows, "");
    assert Newer(NewestFirst(rows)[i], NewestFirst(rows)[j]);
  }

  /** Why a row of the chosen format is missing from a table of rows. */
  ghost predicate Superseded<K>(rows: seq<Row>, out: seq<Row>, key: Row -> Option<K>, cap: int, r: Row) {
    || (key(r).Some? && exists s :: s in out && key(s) == key(r) && Newer(s, r))
    || (|out| == Limit(cap) && forall s :: s in out ==> Newer(s, r))
  }

  /** Every row of the chosen format is shown, or a row at least as new has its key, or the table is full of
      rows at least as new. */
  lemma ShownAreTheNewest<K>(rows: seq<Row>, key: Row -> Option<K>, cap: int)
    ensures var out := Kept(NewestFirst(OneFormat(rows)), key, cap);
      && UniqueKeys(out, key) && SortedBy(out, Newer)
      && (forall r :: r in OneFormat(rows) ==> r in out || Superseded(rows, out, key, cap, r))
      && !(exists a, b :: a in out && b in out && IsLegacy(a) && IsV1(b))
  {
    var sorted := NewestFirst(OneFormat(rows));
    var out := Kept(sorted, key, cap);
    NewestFirstSorts(OneFormat(rows), "");
    FormatsNeverMix(rows);
    KeptFacts(sorted, key, cap);
    SubsequenceElements(out, sorted);
    SubsequenceSorted(out, sorted, Newer);
    forall r | r in OneFormat(rows)
      ensures r in out || Superseded(rows, out, key, cap, r)
    {
      var i :| 0 <= i < |sorted| && sorted[i] == r;
      if r !in out {
        assert Displaced(sorted, key, cap, i);
        if |out| == Limit(cap) && Subsequence(out, sorted[..i]) {
          SubsequenceElements(out, sorted[..i]);
        }
      }
    }
  }

  lemma {:induction false} SubsequenceSorted<T>(a: seq<T>, b: seq<T>, leq: (T, T) -> bool)
    requires Subsequence(a, b) && SortedBy(b, leq)
    ensures SortedBy(a, leq)
    decreases |b|
  {
    if a != [] {
      var b' := b[..|b| - 1];
      if Subsequence(a, b') {
        SubsequenceSorted(a, b', leq);
      } else {
        var a' := a[..|a| - 1];
        SubsequenceSorted(a', b', leq);
        SubsequenceElements(a', b');
        forall i | 0 <= i < |a'|
          ensures leq(a[i], a[|a| - 1])
        {
          assert a'[i] in b';
        }
      }
    }
  }

  /** No two quarterly lines with a known quarter name the same fiscal year and quarter, and no two annual
      lines the same year; a cap below 1 shows one row all the same. */
  lemma TablesAreUnique(quarterly: seq<Row>, annual: seq<Row>, quarters: int, years: int)
    ensures var lines := Map(ShownQuarters(quarterly, annual, quarters), QuarterLineOf(YearEnds(annual)));
      && (|lines| <= quarters <==> quarters >= 1 || (quarters == 0 && OneFormat(quarterly) == []))
      && forall i, j :: 0 <= i < j < |lines| && lines[i].fiscalQuarter.Some? ==>
           lines[i].fiscalYear != lines[j].fiscalYear || lines[i].fiscalQuarter != lines[j].fiscalQuarter
    ensures var lines := Map(ShownYears(annual, years), YearLineOf());
      && (|lines| <= years <==> years >= 1 || (years == 0 && OneFormat(annual) == []))
      && forall i, j :: 0 <= i < j < |lines| ==> lines[i].fiscalYear != lines[j].fiscalYear
  {
    var ends := YearEnds(annual);
    ShownAreTheNewest(quarterly, QuarterKey(ends), quarters);
    ShownAreTheNewest(annual, YearKey(), years);
    CapIsKeptIff(NewestFirst(OneFormat(quarterly)), QuarterKey(ends), quarters);
    CapIsKeptIff(NewestFirst(OneFormat(annual)), YearKey(), years);
    NewestFirstSorts(OneFormat(quarterly), "");
    NewestFirstSorts(OneFormat(annual), "");
  }

  ghost predicate UniqueLines(lines: seq<QuarterLine>) {
    forall i, j :: 0 <= i < j < |lines| ==>
      lines[i].fiscalYear != lines[j].fiscalYear || lines[i].fiscalQuarter != lines[j].fiscalQuarter
  }

  /** Two rows of one fiscal year that both lack a quarter. */
  ghost predicate HasTwins(rows: seq<Row>, ends: map<int, int>) {
    exists i, j :: 0 <= i < j < |rows| && rows[i].fiscalYear == rows[j].fiscalYear &&
      QuarterOf(rows[i], ends).None? && QuarterOf(rows[j], ends).None?
  }

  /** The lines are unique in year and quarter, as the table's row keys have to be, exactly when no two shown rows
      of one fiscal year both lack a quarter. */
  lemma LinesAreUniqueIff(quarterly: seq<Row>, annual: seq<Row>, quarters: int)
    ensures var rows, ends := ShownQuarters(quarterly, annual, quarters), YearEnds(annual);
      UniqueLines(Map(rows, QuarterLineOf(ends))) <==> !HasTwins(rows, ends)
  {
    var rows, ends := ShownQuarters(quarterly, annual, quarters), YearEnds(annual);
    var lines := Map(rows, QuarterLineOf(ends));
    TablesAreUnique(quarterly, annual, quarters, 1);
    assert forall i :: 0 <= i < |rows| ==>
      lines[i].fiscalYear == rows[i].fiscalYear && lines[i].fiscalQuarter == QuarterOf(rows[i], ends);
  }

  lemma PairIn<T>(s: seq<T>, i: nat, j: nat)
    requires i < j < |s|
    ensures multiset([s[i], s[j]]) <= multiset(s)
  {
    assert s == s[..i] + ([s[i]] + (s[i + 1..j] + ([s[j]] + s[j + 1..])));
  }

  lemma PlaceOf<T>(t: seq<T>, a: T) returns (k: nat)
    requires multiset(t)[a] >= 1
    ensures k < |t| && t[k] == a && multiset(t) == multiset(t[..k] + t[k + 1..]) + multiset{a}
  {
    assert a in multiset(t);
    k :| 0 <= k < |t| && t[k] == a;
    assert t == t[..k] + ([a] + t[k + 1..]);
  }

  lemma PlacesOf<T>(t: seq<T>, a: T, b: T) returns (k: nat, l: nat)
    requires multiset([a, b]) <= multiset(t)
    ensures k < |t| && l < |t| && k != l && t[k] == a && t[l] == b
  {
    assert multiset([a, b])[a] >= 1 && multiset([a, b])[b] >= 1 && (a == b ==> multiset([a, b])[a] == 2);
    k := PlaceOf(t, a);
    var m := PlaceOf(t[..k] + t[k + 1..], b);
    l := if m < k then m else m + 1;
  }

  /** Twins are found wherever the rows without a quarter are as often. */
  lemma TwinsMove(s: seq<Row>, t: seq<Row>, ends: map<int, int>)
    requires HasTwins(s, ends)
    requires forall r :: QuarterOf(r, ends).None? ==> multiset(s)[r] <= multiset(t)[r]
    ensures HasTwins(t, ends)
  {
    var i, j :| 0 <= i < j < |s| && s[i].fiscalYear == s[j].fiscalYear &&
      QuarterOf(s[i], ends).None? && QuarterOf(s[j], ends).None?;
    PairIn(s, i, j);
    forall r
      ensures multiset([s[i], s[j]])[r] <= multiset(t)[r]
    {
      assert multiset([s[i], s[j]])[r] <= multiset(s)[r];
    }
    var k, l := PlacesOf(t, s[i], s[j]);
    assert if k < l then 0 <= k < l < |t| else 0 <= l < k < |t|;
  }

  lemma {:induction false} SubsequenceCounts<T>(a: seq<T>, b: seq<T>)
    requires Subsequence(a, b)
    ensures multiset(a) <= multiset(b)
    decreases |b|
  {
    if a != [] {
      var b' := b[..|b| - 1];
      assert b == b' + [b[|b| - 1]];
      if Subsequence(a, b') {
        SubsequenceCounts(a, b');
      } else {
        SubsequenceCounts(a[..|a| - 1], b');
        assert a == a[..|a| - 1] + [a[|a| - 1]];
      }
    }
  }

  /** However often a row without a quarter occurs, it is kept each time. */
  lemma {:induction false} QuarterlessAreKept(rows: seq<Row>, ends: map<int, int>, r: Row)
    requires QuarterOf(r, ends).None?
    ensures multiset(rows)[r] == multiset(Distinct(rows, QuarterKey(ends)))[r]
  {
    if rows != [] {
      var front := rows[..|rows| - 1];
      assert rows == front + [rows[|rows| - 1]];
      QuarterlessAreKept(front, ends, r);
    }
  }

  /** Under every cap the lines are unique exactly when no two rows of the chosen format and of one fiscal year both
      lack a quarter. */
  lemma EveryCapIsUniqueIff(quarterly: seq<Row>, annual: seq<Row>)
    ensures var ends := YearEnds(annual);
      (forall quarters :: UniqueLines(Map(ShownQuarters(quarterly, annual, quarters), QuarterLineOf(ends)))) <==>
      !HasTwins(OneFormat(quarterly), ends)
  {
    var ends, rows := YearEnds(annual), OneFormat(quarterly);
    var sorted := NewestFirst(rows);
    NewestFirstSorts(rows, "");
    if HasTwins(rows, ends) {
      TwinsAreShown(quarterly, annual);
    } else {
      forall quarters
        ensures UniqueLines(Map(ShownQuarters(quarterly, annual, quarters), QuarterLineOf(ends)))
      {
        var shown := ShownQuarters(quarterly, annual, quarters);
        KeptFacts(sorted, QuarterKey(ends), quarters);
        SubsequenceCounts(shown, sorted);
        LinesAreUniqueIff(quarterly, annual, quarters);
        if HasTwins(shown, ends) {
          TwinsMove(shown, rows, ends);
        }
      }
    }
  }

  /** A cap that leaves no row out shows them. */
  lemma TwinsAreShown(quarterly: seq<Row>, annual: seq<Row>)
    requires HasTwins(OneFormat(quarterly), YearEnds(annual))
    ensures !UniqueLines(Map(ShownQuarters(quarterly, annual, |OneFormat(quarterly)|), QuarterLineOf(YearEnds(annual))))
  {
    var ends, rows := YearEnds(annual), OneFormat(quarterly);
    var sorted := NewestFirst(rows);
    var all := Distinct(sorted, QuarterKey(ends));
    NewestFirstSorts(rows, "");
    assert |sorted| == |multiset(sorted)| == |multiset(rows)| == |rows|;
    DistinctFacts(sorted, QuarterKey(ends));
    SubsequenceElements(all, sorted);
    forall r | QuarterOf(r, ends).None?
      ensures multiset(rows)[r] <= multiset(all)[r]
    {
      QuarterlessAreKept(sorted, ends, r);
    }
    TwinsMove(rows, all, ends);
    LinesAreUniqueIff(quarterly, annual, |rows|);
  }

  /** Two rows of one fiscal year without a quarter column, and no annual row: both are shown under one key. */
  lemma TwoRowsShareKey(a: Row, b: Row, quarters: int)
    requires a.fiscalYear == b.fiscalYear && a.fiscalQuarter.None? && b.fiscalQuarter.None?
    requires IsLegacy(a) == IsLegacy(b) && quarters >= 2
    ensures var lines := Map(ShownQuarters([a, b], [], quarters), QuarterLineOf(YearEnds([])));
      |lines| == 2 && !UniqueLines(lines)
  {
    var rows, ends := NewestFirst([a, b]), YearEnds([]);
    BothKept(a, b);
    NewestFirstSorts([a, b], "");
    TwoOfTwo(a, b, rows);
    KeylessPair(rows, ends, quarters);
  }

  lemma KeylessPair(rows: seq<Row>, ends: map<int, int>, quarters: int)
    requires |rows| == 2 && rows[0].fiscalYear == rows[1].fiscalYear && quarters >= 2
    requires QuarterOf(rows[0], ends).None? && QuarterOf(rows[1], ends).None?
    ensures var lines := Map(Kept(rows, QuarterKey(ends), quarters), QuarterLineOf(ends));
      |lines| == 2 && !UniqueLines(lines)
  {
    KeylessAreKept(rows, QuarterKey(ends));
    SameKeyTwice(Map(rows, QuarterLineOf(ends)));
  }

  lemma TwoOfTwo(a: Row, b: Row, rows: seq<Row>)
    requires multiset(rows) == multiset([a, b])
    ensures |rows| == 2 && rows[0] in [a, b] && rows[1] in [a, b]
  {
    assert |rows| == |multiset(rows)| == |multiset([a, b])| == 2;
    assert rows[0] in multiset(rows) && rows[1] in multiset(rows);
  }

  lemma SameKeyTwice(lines: seq<QuarterLine>)
    requires |lines| == 2
    requires lines[0].fiscalYear == lines[1].fiscalYear && lines[0].fiscalQuarter == lines[1].fiscalQuarter
    ensures !UniqueLines(lines)
  {
  }

  lemma BothKept(a: Row, b: Row)
    requires IsLegacy(a) == IsLegacy(b)
    ensures OneFormat([a, b]) == [a, b]
  {
    if IsV1(a) || IsV1(b) {
      assert Filter([b], (r: Row) => !IsLegacy(r)) == [b] + Filter([], (r: Row) => !IsLegacy(r));
      assert [a, b][1..] == [b] && [b][1..] == [];
    }
  }

  // ---------------------------------------------------------------- what a line says

  /** The figure under a key: the number itself, or an object's "value". */
  predicate Shows(data: map<string, Field>, key: string, figure: Option<real>) {
    if key !in data then figure.None? else
    match data[key]
    case Flat(number) => figure == number
    case Nested(entries) => figure == if "value" in entries then entries["value"] else None
  }

  lemma FigureOfOne(data: map<string, Field>, key: string)
    ensures Shows(data, key, Figure(data, [key]))
  {
    assert [key][1..] == [];
  }

  lemma FigureOfTwo(data: map<string, Field>, a: string, b: string)
    ensures Shows(data, if a in data then a else b, Figure(data, [a, b]))
  {
    assert [a, b][1..] == [b];
    FigureOfOne(data, b);
  }

  /** A line shows the row's year, the basic earnings per share, and the revenues, under either of their two keys. */
  lemma LinesShow(r: Row, ends: map<int, int>)
    ensures var q, y, data := QuarterLineOf(ends)(r), YearLineOf()(r), if r.data.Some? then r.data.value else map[];
      && q.fiscalYear == r.fiscalYear && y.fiscalYear == r.fiscalYear
      && Shows(data, "basic_earnings_per_share", q.eps) && Shows(data, "basic_earnings_per_share", y.eps)
      && Shows(data, if "revenues" in data then "revenues" else "revenue", q.revenues)
      && Shows(data, if "revenues" in data then "revenues" else "revenue", y.revenues)
      && (r.fiscalQuarter.Some? && r.fiscalQuarter.value != 0 ==> q.fiscalQuarter == r.fiscalQuarter)
      && (r.fiscalQuarter.None? || r.fiscalQuarter == Some(0) ==>
            q.fiscalQuarter == DeriveQuarter(r.fiscalYear, AsDate(r.periodDate), ends))
  {
    FigureOfOne(RawData(r), "basic_earnings_per_share");
    FigureOfTwo(RawData(r), "revenues", "revenue");
  }

  /** An annual row that names a fiscal year and the day it ended. */
  predicate EndsYear(r: Row, fy: int, day: int) {
    r.fiscalYear == Some(fy) && AsDate(r.periodDate) == Some(day)
  }

  lemma NextEnd(annual: seq<Row>, r: Row, fy: int)
    ensures var ends, more := YearEnds(annual), YearEnds(annual + [r]);
      if r.fiscalYear == Some(fy) && AsDate(r.periodDate).Some?
      then fy in more && more[fy] == AsDate(r.periodDate).value
      else (fy in more <==> fy in ends) && (fy in ends ==> more[fy] == ends[fy])
  {
    assert (annual + [r])[..|annual|] == annual;
  }

  lemma {:induction false} YearEndIsNamed(annual: seq<Row>, fy: int)
    requires fy in YearEnds(annual)
    ensures exists i :: 0 <= i < |annual| && EndsYear(annual[i], fy, YearEnds(annual)[fy])
  {
    var n := |annual| - 1;
    assert annual == annual[..n] + [annual[n]];
    NextEnd(annual[..n], annual[n], fy);
    if !EndsYear(annual[n], fy, YearEnds(annual)[fy]) {
      YearEndIsNamed(annual[..n], fy);
      var i :| 0 <= i < n && EndsYear(annual[..n][i], fy, YearEnds(annual[..n])[fy]);
      assert EndsYear(annual[i], fy, YearEnds(annual)[fy]);
    }
  }

  /** A year's end is that of the last annual row that names both. */
  lemma {:induction false} LastEndCounts(annual: seq<Row>, i: nat, fy: int, day: int)
    requires i < |annual| && EndsYear(annual[i], fy, day)
    requires forall j, d :: i < j < |annual| ==> !EndsYear(annual[j], fy, d)
    ensures fy in YearEnds(annual) && YearEnds(annual)[fy] == day
    decreases |annual|
  {
    var n := |annual| - 1;
    assert annual == annual[..n] + [annual[n]];
    NextEnd(annual[..n], annual[n], fy);
    if i < n {
      LastEndCounts(annual[..n], i, fy, day);
      if annual[n].fiscalYear == Some(fy) && AsDate(annual[n].periodDate).Some? {
        assert !EndsYear(annual[n], fy, AsDate(annual[n].periodDate).value);
      }
    }
  }

  /** Where some row holds plain scalars only, every row with a nested "value" is dropped and that one is kept. */
  lemma NestedIsDropped(rows: seq<Row>, nested: Row, key: string, flat: Row)
    requires nested in rows && flat in rows
    requires nested.data.Some? && key in nested.data.value && nested.data.value[key].Nested?
    requires "value" in nested.data.value[key].entries
    requires flat.data.Some? && flat.data.value != map[]
    requires forall k :: k in flat.data.value ==> flat.data.value[k].Flat?
    ensures nested !in OneFormat(rows) && flat in OneFormat(rows)
  {
    assert IsLegacy(nested) && IsV1(flat);
    var i :| 0 <= i < |rows| && rows[i] == flat;
    assert IsV1(rows[i]);
    FilteredAre(rows, (r: Row) => !IsLegacy(r), nested);
    FilteredAre(rows, (r: Row) => !IsLegacy(r), flat);
  }

  lemma {:induction false} FilteredAre(rows: seq<Row>, p: Row -> bool, r: Row)
    ensures r in Filter(rows, p) <==> r in rows && p(r)
  {
    if rows != [] {
      FilteredAre(rows[1..], p, r);
      assert rows == [rows[0]] + rows[1..];
    }
  }
}
