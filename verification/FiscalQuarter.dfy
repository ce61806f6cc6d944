/** The fiscal quarter of a row that does not carry one, counted back from the end of its fiscal year.
    Dates are day numbers. */
module FiscalQuarter {
  import opened Sequences
  import opened Rounding

  /** 365.25 / 4. */
  const QUARTER_DAYS: real := 91.3125

  const YEAR_DAYS: int := 365

  /** The end of the fiscal year, or a neighbouring end moved by a year. */
  function YearEnd(fy: int, ends: map<int, int>): Option<int> {
    if fy in ends then Some(ends[fy])
    else if fy - 1 in ends then Some(ends[fy - 1] + YEAR_DAYS)
    else if fy + 1 in ends then Some(ends[fy + 1] - YEAR_DAYS)
    else None
  }

  function QuarterBefore(days: int): Option<int> {
    var quarter := 4 - RoundHalfEven(days as real / QUARTER_DAYS);
    if 1 <= quarter <= 4 then Some(quarter) else None
  }

  function DeriveQuarter(fiscalYear: Option<int>, periodEnd: Option<int>, ends: map<int, int>): Option<int> {
    if fiscalYear.None? || periodEnd.None? then None
    else match YearEnd(fiscalYear.value, ends)
      case None => None
      case Some(end) => QuarterBefore(end - periodEnd.value)
  }

  /** A day count is never half-way between two numbers of quarters, so ties do not arise. */
  lemma QuartersNeverTie(days: int, k: int)
    ensures days as real / QUARTER_DAYS != k as real + 0.5
  {
  }

  /** The days before the year end that each quarter covers; every other day has no quarter. */
  lemma QuarterBands(days: int)
    ensures QuarterBefore(days) ==
      if -45 <= days <= 45 then Some(4)
      else if 46 <= days <= 136 then Some(3)
      else if 137 <= days <= 228 then Some(2)
      else if 229 <= days <= 319 then Some(1)
      else None
  {
  }

  /** A later period end never has an earlier quarter of the same fiscal year. */
  lemma QuarterIsMonotone(fy: int, early: int, late: int, ends: map<int, int>)
    requires early <= late
    ensures var q, r := DeriveQuarter(Some(fy), Some(early), ends), DeriveQuarter(Some(fy), Some(late), ends);
      q.Some? && r.Some? ==> q.value <= r.value
  {
  }

  predicate HasQuarter(fy: int, periodEnd: int, ends: map<int, int>) {
    DeriveQuarter(Some(fy), Some(periodEnd), ends).Some?
  }

  /** A year without an end of its own has its neighbour's moved by 365 days, the year before coming first. */
  lemma EndOrNeighbour(fy: int, ends: map<int, int>)
    ensures fy in ends ==> YearEnd(fy, ends) == Some(ends[fy])
    ensures fy !in ends && fy - 1 in ends ==> YearEnd(fy, ends) == Some(ends[fy - 1] + 365)
    ensures fy !in ends && fy - 1 !in ends && fy + 1 in ends ==> YearEnd(fy, ends) == Some(ends[fy + 1] - 365)
    ensures YearEnd(fy, ends).None? <==> fy !in ends && fy - 1 !in ends && fy + 1 !in ends
  {
  }

  lemma HasQuarterIff(fy: int, periodEnd: int, ends: map<int, int>)
    ensures HasQuarter(fy, periodEnd, ends) <==>
      YearEnd(fy, ends).Some? && -45 <= YearEnd(fy, ends).value - periodEnd <= 319
  {
  }

  /** The period ends that lie between the two years' windows, or in either. */
  predicate InTwoYears(fy: int, periodEnd: int, ends: map<int, int>)
    requires YearEnd(fy, ends).Some? && YearEnd(fy + 1, ends).Some?
  {
    YearEnd(fy, ends).value - 319 <= periodEnd <= YearEnd(fy + 1, ends).value + 45
  }

  /** No period end gets a quarter in both of two consecutive fiscal years exactly when their ends are at
      least 365 days apart. */
  lemma OneOfTwoYearsIff(fy: int, ends: map<int, int>)
    requires YearEnd(fy, ends).Some? && YearEnd(fy + 1, ends).Some?
    requires YearEnd(fy, ends).value < YearEnd(fy + 1, ends).value
    ensures (forall day :: !(HasQuarter(fy, day, ends) && HasQuarter(fy + 1, day, ends)))
      <==> YearEnd(fy + 1, ends).value - YearEnd(fy, ends).value >= YEAR_DAYS
  {
    var a, b := YearEnd(fy, ends).value, YearEnd(fy + 1, ends).value;
    forall day
      ensures HasQuarter(fy, day, ends) <==> -45 <= a - day <= 319
      ensures HasQuarter(fy + 1, day, ends) <==> -45 <= b - day <= 319
    {
      HasQuarterIff(fy, day, ends);
      HasQuarterIff(fy + 1, day, ends);
    }
    if b - a < YEAR_DAYS {
      assert HasQuarter(fy, a + 45, ends) && HasQuarter(fy + 1, a + 45, ends);
    }
  }

  /** No period end in between is left without a quarter exactly when the ends are at most 365 days apart:
      a leap day, or the 53rd week of a 52/53-week year, opens a gap. */
  lemma NoGapIff(fy: int, ends: map<int, int>)
    requires YearEnd(fy, ends).Some? && YearEnd(fy + 1, ends).Some?
    requires YearEnd(fy, ends).value < YearEnd(fy + 1, ends).value
    ensures (forall day :: InTwoYears(fy, day, ends) ==> HasQuarter(fy, day, ends) || HasQuarter(fy + 1, day, ends))
      <==> YearEnd(fy + 1, ends).value - YearEnd(fy, ends).value <= YEAR_DAYS
  {
    var a, b := YearEnd(fy, ends).value, YearEnd(fy + 1, ends).value;
    forall day
      ensures HasQuarter(fy, day, ends) <==> -45 <= a - day <= 319
      ensures HasQuarter(fy + 1, day, ends) <==> -45 <= b - day <= 319
    {
      HasQuarterIff(fy, day, ends);
      HasQuarterIff(fy + 1, day, ends);
    }
    if b - a > YEAR_DAYS {
      assert InTwoYears(fy, a + 46, ends) && !HasQuarter(fy, a + 46, ends) && !HasQuarter(fy + 1, a + 46, ends);
    }
  }

  /** Consecutive fiscal years whose ends are 365 days apart. */
  ghost predicate IsFamily(lo: int, hi: int, end: int, ends: map<int, int>) {
    lo <= hi && forall y :: lo <= y <= hi ==> YearEnd(y, ends) == Some(end + YEAR_DAYS * (y - lo))
  }

  /** In any such family a period end gets a quarter in exactly one year if it lies between the first window's
      start and the last one's end, and in none otherwise. */
  lemma FamilyIsExact(lo: int, hi: int, end: int, ends: map<int, int>, periodEnd: int)
    requires IsFamily(lo, hi, end, ends)
    ensures (exists y :: lo <= y <= hi && HasQuarter(y, periodEnd, ends)) <==>
      end - 319 <= periodEnd <= end + YEAR_DAYS * (hi - lo) + 45
    ensures forall y, z | lo <= y <= hi && lo <= z <= hi ::
      HasQuarter(y, periodEnd, ends) && HasQuarter(z, periodEnd, ends) ==> y == z
  {
    forall y | lo <= y <= hi
      ensures HasQuarter(y, periodEnd, ends) <==> -45 <= end + YEAR_DAYS * (y - lo) - periodEnd <= 319
    {
      HasQuarterIff(y, periodEnd, ends);
    }
    if end - 319 <= periodEnd <= end + YEAR_DAYS * (hi - lo) + 45 {
      var y := lo + (periodEnd - (end - 319)) / YEAR_DAYS;
      assert lo <= y <= hi && HasQuarter(y, periodEnd, ends);
    }
  }

  /** With one annual row the fallback makes such a family of the three fiscal years around it. */
  lemma FallbackIsExact(fy: int, end: int, periodEnd: int)
    ensures var ends := map[fy := end];
      && IsFamily(fy - 1, fy + 1, end - YEAR_DAYS, ends)
      && (forall y, z :: HasQuarter(y, periodEnd, ends) && HasQuarter(z, periodEnd, ends) ==> y == z)
      && ((exists y :: HasQuarter(y, periodEnd, ends)) <==> end - 684 <= periodEnd <= end + 410)
  {
    var ends := map[fy := end];
    FamilyIsExact(fy - 1, fy + 1, end - YEAR_DAYS, ends, periodEnd);
    forall y | HasQuarter(y, periodEnd, ends)
      ensures fy - 1 <= y <= fy + 1
    {
      HasQuarterIff(y, periodEnd, ends);
    }
  }
}
