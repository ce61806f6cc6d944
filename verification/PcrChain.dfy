/** The option chain rolled up by expiry, with bars scaled to the largest value of each column. */
module PcrChain {
  import opened Sequences
  import opened Sorting
  import opened Collecting
  import opened Rounding
  import Calendar
  import Expiries

  /** Expired rows without interest or volume stay this many days. */
  const KEPT_DAYS: int := 14

  datatype ChainRow = ChainRow(expiry: string, putOi: int, callOi: int, putVol: int, callVol: int)

  datatype Column = PutOi | CallOi | PutVol | CallVol | TotalOi | TotalVol

  /** A surviving row with its day number and its bars in percent. */
  datatype Line = Line(row: ChainRow, day: int, bars: map<Column, real>)

  const COLUMNS: set<Column> := {PutOi, CallOi, PutVol, CallVol, TotalOi, TotalVol}

  function Value(r: ChainRow, c: Column): int {
    match c
    case PutOi => r.putOi
    case CallOi => r.callOi
    case PutVol => r.putVol
    case CallVol => r.callVol
    case TotalOi => r.putOi + r.callOi
    case TotalVol => r.putVol + r.callVol
  }

  function DayOf(expiry: string): Option<int> {
    match Expiries.ParseExpiryDate(expiry)
    case None => None
    case Some(d) =>
      Expiries.ParsedIsValid(expiry);
      Some(Calendar.Ordinal(d))
  }

  function Max(a: int, b: int): int {
    if a < b then b else a
  }

  /** The largest value of a column over all rows, at least 1. */
  function Largest(rows: seq<ChainRow>, c: Column): (m: int)
    ensures m >= 1
  {
    if rows == [] then 1 else Max(Largest(rows[..|rows| - 1], c), Value(rows[|rows| - 1], c))
  }

  predicate Survives(r: ChainRow, today: int) {
    && DayOf(r.expiry).Some?
    && (Value(r, TotalOi) > 0 || Value(r, TotalVol) > 0 || DayOf(r.expiry).value - today >= -KEPT_DAYS)
  }

  function Survivor(today: int): ChainRow -> Option<(int, ChainRow)> {
    (r: ChainRow) => if Survives(r, today) then Some((DayOf(r.expiry).value, r)) else None
  }

  /** The surviving rows with their day numbers. */
  function Parsed(rows: seq<ChainRow>, today: int): seq<(int, ChainRow)> {
    Collect(rows, Survivor(today))
  }

  predicate Earlier(a: (int, ChainRow), b: (int, ChainRow)) {
    a.0 <= b.0
  }

  function Bar(value: int, largest: int): real
    requires largest >= 1
  {
    OneDecimal(value as real / largest as real * 100.0)
  }

  function Scale(rows: seq<ChainRow>): (largest: map<Column, int>)
    ensures largest.Keys == COLUMNS && forall c :: c in COLUMNS ==> largest[c] >= 1
  {
    map c | c in COLUMNS :: Largest(rows, c)
  }

  /** The six maxima, over every row. */
  method Maxima(rows: seq<ChainRow>) returns (largest: map<Column, int>)
    ensures largest == Scale(rows)
  {
    var putOi, callOi, putVol, callVol, totalOi, totalVol := 1, 1, 1, 1, 1, 1;
    for i := 0 to |rows|
      invariant putOi == Largest(rows[..i], PutOi) && callOi == Largest(rows[..i], CallOi)
      invariant putVol == Largest(rows[..i], PutVol) && callVol == Largest(rows[..i], CallVol)
      invariant totalOi == Largest(rows[..i], TotalOi) && totalVol == Largest(rows[..i], TotalVol)
    {
      assert rows[..i + 1][..i] == rows[..i];
      var r := rows[i];
      putOi, callOi := Max(putOi, r.putOi), Max(callOi, r.callOi);
      putVol, callVol := Max(putVol, r.putVol), Max(callVol, r.callVol);
      totalOi, totalVol := Max(totalOi, r.putOi + r.callOi), Max(totalVol, r.putVol + r.callVol);
    }
    assert rows[..|rows|] == rows;
    largest := map[
      PutOi := putOi, CallOi := callOi, PutVol := putVol, CallVol := callVol, TotalOi := totalOi, TotalVol := totalVol];
  }

  function LineOf(parsed: (int, ChainRow), largest: map<Column, int>): Line
    requires largest.Keys == COLUMNS && forall c :: c in COLUMNS ==> largest[c] >= 1
  {
    Line(parsed.1, parsed.0, map c | c in COLUMNS :: Bar(Value(parsed.1, c), largest[c]))
  }

  method Lines(kept: seq<(int, ChainRow)>, largest: map<Column, int>) returns (lines: seq<Line>)
    requires largest.Keys == COLUMNS && forall c :: c in COLUMNS ==> largest[c] >= 1
    ensures |lines| == |kept| && forall k :: 0 <= k < |kept| ==> lines[k] == LineOf(kept[k], largest)
  {
    lines := [];
    for i := 0 to |kept|
      invariant |lines| == i && forall k :: 0 <= k < i ==> lines[k] == LineOf(kept[k], largest)
    {
      lines := lines + [LineOf(kept[i], largest)];
    }
  }

  method RollUp(rows: seq<ChainRow>, today: int) returns (lines: seq<Line>)
    ensures var kept := Sort(Parsed(rows, today), Earlier);
      |lines| == |kept| && forall k :: 0 <= k < |kept| ==> lines[k] == LineOf(kept[k], Scale(rows))
  {
    var largest := Maxima(rows);
    var parsed := CollectAll(rows, Survivor(today));
    lines := Lines(Sort(parsed, Earlier), largest);
  }

  // ---------------------------------------------------------------- the bars

  lemma {:induction false} LargestIsUpperBound(rows: seq<ChainRow>, c: Column, r: ChainRow)
    requires r in rows
    ensures Value(r, c) <= Largest(rows, c)
  {
    var front, last := rows[..|rows| - 1], rows[|rows| - 1];
    assert rows == front + [last];
    if r != last {
      LargestIsUpperBound(front, c, r);
    }
  }

  lemma {:induction false} LargestIsReached(rows: seq<ChainRow>, c: Column)
    ensures Largest(rows, c) == 1 || exists r :: r in rows && Value(r, c) == Largest(rows, c)
  {
    if rows != [] {
      var front, last := rows[..|rows| - 1], rows[|rows| - 1];
      assert rows == front + [last];
      LargestIsReached(front, c);
      assert last in rows;
    }
  }

  lemma BarScale(value: int, largest: int)
    requires largest >= 1 && value <= largest
    ensures Bar(value, largest) <= 100.0
    ensures value >= 0 ==> Bar(value, largest) >= 0.0
    ensures value == largest ==> Bar(value, largest) == 100.0
  {
    ShareScale(value as real, largest as real);
  }

  lemma ShareScale(a: real, b: real)
    requires b >= 1.0 && a <= b
    ensures a / b <= 1.0 && (a >= 0.0 ==> a / b >= 0.0) && (a == b ==> a / b == 1.0)
  {
  }

  lemma BarIsMonotone(a: int, b: int, largest: int)
    requires largest >= 1 && a <= b
    ensures Bar(a, largest) <= Bar(b, largest)
  {
    var x, y := a as real / largest as real, b as real / largest as real;
    assert largest as real * (y - x) == b as real - a as real;
    RoundingIsMonotone(x * 100.0 * 10.0, y * 100.0 * 10.0);
  }

  lemma ParsedRows(rows: seq<ChainRow>, today: int)
    ensures forall p :: p in Parsed(rows, today) <==>
      p.1 in rows && Survives(p.1, today) && p.0 == DayOf(p.1.expiry).value
  {
    forall p | p in Parsed(rows, today)
      ensures p.1 in rows && Survives(p.1, today) && p.0 == DayOf(p.1.expiry).value
    {
      var i := CollectedComesFrom(rows, Survivor(today), p);
    }
    forall i | 0 <= i < |rows| && Survives(rows[i], today)
      ensures (DayOf(rows[i].expiry).value, rows[i]) in Parsed(rows, today)
    {
      PickedIsCollected(rows, Survivor(today), i);
    }
  }

  /** A row is kept exactly when its date is readable and it has interest or volume, or expired at most 14 days
      ago. */
  lemma SurvivesIff(r: ChainRow, today: int)
    ensures Survives(r, today) <==>
      DayOf(r.expiry).Some? &&
      (r.putOi + r.callOi > 0 || r.putVol + r.callVol > 0 || today - DayOf(r.expiry).value <= 14)
  {
  }

  /** The lines are the surviving rows by expiry, rows of one expiry in their own order. */
  lemma LinesAreTheSurvivors(rows: seq<ChainRow>, today: int, day: int)
    ensures var kept := Sort(Parsed(rows, today), Earlier);
      && SortedBy(kept, Earlier) && multiset(kept) == multiset(Parsed(rows, today))
      && (forall r :: r in rows && Survives(r, today) <==> exists p :: p in kept && p.1 == r)
      && Filter(kept, (p: (int, ChainRow)) => p.0 == day) ==
         Filter(Parsed(rows, today), (p: (int, ChainRow)) => p.0 == day)
  {
    SortSorts(Parsed(rows, today), Earlier);
    SortIsStable(Parsed(rows, today), Earlier, (p: (int, ChainRow)) => p.0 == day);
    ParsedRows(rows, today);
    forall r | r in rows && Survives(r, today)
      ensures exists p :: p in Sort(Parsed(rows, today), Earlier) && p.1 == r
    {
      assert (DayOf(r.expiry).value, r) in Parsed(rows, today);
    }
  }

  /** No bar passes 100, one without a negative value is at least 0, longer bars belong to larger values, and
      the row with the largest value of a column has a full bar if it survives. */
  lemma BarsWithinScale(rows: seq<ChainRow>, today: int, c: Column)
    ensures var kept := Sort(Parsed(rows, today), Earlier);
      && (forall p :: p in kept ==> LineOf(p, Scale(rows)).bars[c] <= 100.0)
      && (forall p :: p in kept && Value(p.1, c) >= 0 ==> LineOf(p, Scale(rows)).bars[c] >= 0.0)
      && (forall p, q :: p in kept && q in kept && Value(p.1, c) <= Value(q.1, c) ==>
            LineOf(p, Scale(rows)).bars[c] <= LineOf(q, Scale(rows)).bars[c])
      && (forall p :: p in kept && Value(p.1, c) == Largest(rows, c) ==> LineOf(p, Scale(rows)).bars[c] == 100.0)
  {
    var kept := Sort(Parsed(rows, today), Earlier);
    SortSorts(Parsed(rows, today), Earlier);
    ParsedRows(rows, today);
    forall p | p in kept
      ensures Value(p.1, c) <= Largest(rows, c)
    {
      LargestIsUpperBound(rows, c, p.1);
    }
    forall p | p in kept
      ensures LineOf(p, Scale(rows)).bars[c] <= 100.0
      ensures Value(p.1, c) >= 0 ==> LineOf(p, Scale(rows)).bars[c] >= 0.0
      ensures Value(p.1, c) == Largest(rows, c) ==> LineOf(p, Scale(rows)).bars[c] == 100.0
    {
      BarScale(Value(p.1, c), Largest(rows, c));
    }
    forall p, q | p in kept && q in kept && Value(p.1, c) <= Value(q.1, c)
      ensures LineOf(p, Scale(rows)).bars[c] <= LineOf(q, Scale(rows)).bars[c]
    {
      BarIsMonotone(Value(p.1, c), Value(q.1, c), Largest(rows, c));
    }
  }

  /** A bar in percent of a scale, to one decimal. */
  predicate IsBar(bar: real, value: int, scale: int) {
    scale >= 1 && -0.05 <= bar - 100.0 * value as real / scale as real <= 0.05
  }

  /** Each bar measures its own column, against a scale that no row of that column passes. */
  lemma BarsAre(rows: seq<ChainRow>, parsed: (int, ChainRow))
    ensures var line, s, r := LineOf(parsed, Scale(rows)), Scale(rows), parsed.1;
      && line.row == r && line.day == parsed.0
      && IsBar(line.bars[PutOi], r.putOi, s[PutOi]) && IsBar(line.bars[CallOi], r.callOi, s[CallOi])
      && IsBar(line.bars[PutVol], r.putVol, s[PutVol]) && IsBar(line.bars[CallVol], r.callVol, s[CallVol])
      && IsBar(line.bars[TotalOi], r.putOi + r.callOi, s[TotalOi])
      && IsBar(line.bars[TotalVol], r.putVol + r.callVol, s[TotalVol])
    ensures var s := Scale(rows);
      forall r :: r in rows ==>
        && r.putOi <= s[PutOi] && r.callOi <= s[CallOi] && r.putVol <= s[PutVol] && r.callVol <= s[CallVol]
        && r.putOi + r.callOi <= s[TotalOi] && r.putVol + r.callVol <= s[TotalVol]
  {
    forall c | c in COLUMNS
      ensures IsBar(LineOf(parsed, Scale(rows)).bars[c], Value(parsed.1, c), Scale(rows)[c])
    {
      BarIsClose(Value(parsed.1, c), Largest(rows, c));
    }
    forall r, c | r in rows && c in COLUMNS
      ensures Value(r, c) <= Scale(rows)[c]
    {
      LargestIsUpperBound(rows, c, r);
    }
    assert forall r :: r in rows ==>
      && Value(r, PutOi) <= Scale(rows)[PutOi] && Value(r, CallOi) <= Scale(rows)[CallOi]
      && Value(r, PutVol) <= Scale(rows)[PutVol] && Value(r, CallVol) <= Scale(rows)[CallVol]
      && Value(r, TotalOi) <= Scale(rows)[TotalOi] && Value(r, TotalVol) <= Scale(rows)[TotalVol];
  }

  lemma BarIsClose(value: int, scale: int)
    requires scale >= 1
    ensures IsBar(Bar(value, scale), value, scale)
  {
    var share := value as real / scale as real;
    assert 100.0 * value as real / scale as real == share * 100.0;
  }

  /** The lines are in order of their expiry, the earliest first. */
  lemma EarliestFirst(rows: seq<ChainRow>, today: int, i: nat, j: nat)
    requires i < j < |Sort(Parsed(rows, today), Earlier)|
    ensures var kept := Sort(Parsed(rows, today), Earlier);
      && DayOf(kept[i].1.expiry) == Some(kept[i].0) && DayOf(kept[j].1.expiry) == Some(kept[j].0)
      && kept[i].0 <= kept[j].0
  {
    var kept := Sort(Parsed(rows, today), Earlier);
    SortSorts(Parsed(rows, today), Earlier);
    ParsedRows(rows, today);
    assert kept[i] in kept && kept[j] in kept;
    assert Earlier(kept[i], kept[j]);
  }
}
