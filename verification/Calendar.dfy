/** The proleptic Gregorian calendar, by day numbers. */
module Calendar {
  import opened Sequences

  const MIN_YEAR: nat := 1
  const MAX_YEAR: nat := 9999

  datatype Date = Date(year: nat, month: nat, day: nat)

  predicate IsLeap(y: nat) {
    y % 4 == 0 && (y % 100 != 0 || y % 400 == 0)
  }

  function DaysInYear(y: nat): nat {
    if IsLeap(y) then 366 else 365
  }

  function DaysInMonth(y: nat, m: nat): nat
    requires 1 <= m <= 12
  {
    if m == 2 then (if IsLeap(y) then 29 else 28)
    else if m == 4 || m == 6 || m == 9 || m == 11 then 30
    else 31
  }

  predicate ValidDate(d: Date) {
    MIN_YEAR <= d.year <= MAX_YEAR && 1 <= d.month <= 12 && 1 <= d.day <= DaysInMonth(d.year, d.month)
  }

  /** Days before 1 January of year `y`. */
  function DaysBeforeYear(y: nat): nat
    requires 1 <= y
  {
    365 * (y - 1) + (y - 1) / 4 - (y - 1) / 100 + (y - 1) / 400
  }

  function DaysBeforeMonth(y: nat, m: nat): nat
    requires 1 <= m <= 13
  {
    if m == 1 then 0 else DaysBeforeMonth(y, m - 1) + DaysInMonth(y, m - 1)
  }

  /** The day number; 1 January of year 1 is day 1. */
  function Ordinal(d: Date): nat
    requires ValidDate(d)
  {
    DaysBeforeYear(d.year) + DaysBeforeMonth(d.year, d.month) + d.day
  }

  /** Monday is 0. */
  function WeekdayOf(n: nat): nat {
    (n + 6) % 7
  }

  function Weekday(d: Date): nat
    requires ValidDate(d)
  {
    WeekdayOf(Ordinal(d))
  }

  const FRIDAY: nat := 4

  // ---------------------------------------------------------------- day numbers and dates

  lemma FourTimes(n: nat)
    ensures (4 * n) % 4 == 0
  {
  }

  lemma CenturyIsFourYears(y: nat)
    requires y % 100 == 0
    ensures y % 4 == 0
  {
    FourTimes(25 * (y / 100));
  }

  lemma FourCenturiesIsCentury(y: nat)
    requires y % 400 == 0
    ensures y % 100 == 0
  {
  }

  lemma YearStep(y: nat)
    requires 1 <= y
    ensures DaysBeforeYear(y + 1) == DaysBeforeYear(y) + DaysInYear(y)
  {
    if y % 100 == 0 { CenturyIsFourYears(y); }
    if y % 400 == 0 { FourCenturiesIsCentury(y); }
    var a, b, c := y / 4 - (y - 1) / 4, y / 100 - (y - 1) / 100, y / 400 - (y - 1) / 400;
    assert (y + 1) - 1 == y;
    assert DaysBeforeYear(y + 1) - DaysBeforeYear(y) == 365 + a - b + c;
  }

  lemma MonthsAddUp(y: nat)
    ensures DaysBeforeMonth(y, 13) == DaysInYear(y)
  {
    var february := DaysInMonth(y, 2);
    assert DaysBeforeMonth(y, 2) == 31 && DaysBeforeMonth(y, 3) == 31 + february;
    assert DaysBeforeMonth(y, 4) == 62 + february;
    assert DaysBeforeMonth(y, 5) == 92 + february;
    assert DaysBeforeMonth(y, 6) == 123 + february;
    assert DaysBeforeMonth(y, 7) == 153 + february;
    assert DaysBeforeMonth(y, 8) == 184 + february;
    assert DaysBeforeMonth(y, 9) == 215 + february;
    assert DaysBeforeMonth(y, 10) == 245 + february;
    assert DaysBeforeMonth(y, 11) == 276 + february;
    assert DaysBeforeMonth(y, 12) == 306 + february;
  }

  lemma {:induction false} MonthsIncrease(y: nat, m: nat, n: nat)
    requires 1 <= m <= n <= 13
    ensures DaysBeforeMonth(y, m) <= DaysBeforeMonth(y, n)
    ensures m < n ==> DaysBeforeMonth(y, m) + DaysInMonth(y, m) <= DaysBeforeMonth(y, n)
    decreases n
  {
    if m < n {
      MonthsIncrease(y, m, n - 1);
    }
  }

  lemma {:induction false} YearsIncrease(y: nat, z: nat)
    requires 1 <= y <= z
    ensures DaysBeforeYear(y) <= DaysBeforeYear(z)
    ensures y < z ==> DaysBeforeYear(y) + DaysInYear(y) <= DaysBeforeYear(z)
    decreases z
  {
    if y < z {
      YearsIncrease(y, z - 1);
      YearStep(z - 1);
      YearStep(y);
    }
  }

  predicate Earlier(a: Date, b: Date) {
    a.year < b.year || (a.year == b.year && (a.month < b.month || (a.month == b.month && a.day < b.day)))
  }

  lemma DayInYear(d: Date)
    requires ValidDate(d)
    ensures DaysBeforeYear(d.year) < Ordinal(d) <= DaysBeforeYear(d.year) + DaysInYear(d.year)
  {
    MonthsIncrease(d.year, d.month, 13);
    MonthsAddUp(d.year);
  }

  /** Day numbers keep the calendar order. */
  lemma OrdinalIncreases(a: Date, b: Date)
    requires ValidDate(a) && ValidDate(b)
    ensures Earlier(a, b) <==> Ordinal(a) < Ordinal(b)
    ensures a == b <==> Ordinal(a) == Ordinal(b)
  {
    if Earlier(a, b) {
      EarlierIsLess(a, b);
    } else if Earlier(b, a) {
      EarlierIsLess(b, a);
    } else {
      assert a == b;
    }
  }

  lemma EarlierIsLess(a: Date, b: Date)
    requires ValidDate(a) && ValidDate(b) && Earlier(a, b)
    ensures Ordinal(a) < Ordinal(b)
  {
    DayInYear(a);
    DayInYear(b);
    if a.year < b.year {
      YearsIncrease(a.year, b.year);
    } else if a.month < b.month {
      MonthsIncrease(a.year, a.month, b.month);
    }
  }

  function YearOf(n: nat, y: nat): nat
    requires 1 <= y <= MAX_YEAR
    decreases MAX_YEAR - y
  {
    if y == MAX_YEAR || n <= DaysBeforeYear(y + 1) then y else YearOf(n, y + 1)
  }

  function MonthOf(y: nat, k: nat, m: nat): nat
    requires 1 <= m <= 12
    decreases 12 - m
  {
    if m == 12 || k <= DaysBeforeMonth(y, m + 1) then m else MonthOf(y, k, m + 1)
  }

  /** The date with a given day number, or none when it lies outside the calendar's years. */
  function FromOrdinal(n: int): Option<Date> {
    if n < 1 || DaysBeforeYear(MAX_YEAR + 1) < n then None else
    var y := YearOf(n, 1);
    YearOfBounds(n, 1);
    var k := n - DaysBeforeYear(y);
    var m := MonthOf(y, k, 1);
    MonthOfBounds(y, k, 1);
    Some(Date(y, m, k - DaysBeforeMonth(y, m)))
  }

  lemma {:induction false} YearOfBounds(n: nat, y: nat)
    requires 1 <= y <= MAX_YEAR && DaysBeforeYear(y) < n <= DaysBeforeYear(MAX_YEAR + 1)
    ensures var z := YearOf(n, y); y <= z <= MAX_YEAR && DaysBeforeYear(z) < n <= DaysBeforeYear(z + 1)
    decreases MAX_YEAR - y
  {
    if y < MAX_YEAR && DaysBeforeYear(y + 1) < n {
      YearOfBounds(n, y + 1);
    }
  }

  lemma {:induction false} MonthOfBounds(y: nat, k: nat, m: nat)
    requires 1 <= m <= 12 && DaysBeforeMonth(y, m) < k
    ensures var r := MonthOf(y, k, m);
            m <= r <= 12 && DaysBeforeMonth(y, r) < k && (r < 12 ==> k <= DaysBeforeMonth(y, r + 1))
    decreases 12 - m
  {
    if m < 12 && DaysBeforeMonth(y, m + 1) < k {
      MonthOfBounds(y, k, m + 1);
    }
  }

  /** `FromOrdinal` inverts `Ordinal`, and is total on the calendar's days. */
  lemma FromOrdinalInverts(n: int)
    ensures FromOrdinal(n).Some? ==> ValidDate(FromOrdinal(n).value) && Ordinal(FromOrdinal(n).value) == n
    ensures FromOrdinal(n).Some? <==> 1 <= n <= DaysBeforeYear(MAX_YEAR + 1)
  {
    if FromOrdinal(n).Some? {
      var y := YearOf(n, 1);
      YearOfBounds(n, 1);
      YearStep(y);
      var k := n - DaysBeforeYear(y);
      MonthOfBounds(y, k, 1);
      MonthsAddUp(y);
    }
  }

  lemma OrdinalInverts(d: Date)
    requires ValidDate(d)
    ensures FromOrdinal(Ordinal(d)) == Some(d)
  {
    DayInYear(d);
    YearsIncrease(d.year, MAX_YEAR + 1);
    FromOrdinalInverts(Ordinal(d));
    OrdinalIncreases(d, FromOrdinal(Ordinal(d)).value);
  }

  // ---------------------------------------------------------------- third Friday

  function DaysUntilFriday(n: nat): nat {
    (FRIDAY - WeekdayOf(n)) % 7
  }

  /** The third Friday is found from the first of the month. */
  function ThirdFridayOf(year: nat, month: nat): Option<Date>
    requires ValidDate(Date(year, month, 1))
  {
    var first := Ordinal(Date(year, month, 1));
    FromOrdinal(first + DaysUntilFriday(first) + 14)
  }

  predicate IsThirdFriday(d: Date)
    requires ValidDate(d)
  {
    Weekday(d) == FRIDAY && Some(d) == ThirdFridayOf(d.year, d.month)
  }

  /** The offset to the next Friday, and the only Friday in the week that starts 14 days later. */
  lemma FridayOffset(n: nat, k: nat)
    ensures DaysUntilFriday(n) < 7 && WeekdayOf(n + DaysUntilFriday(n) + 14) == FRIDAY
    ensures 14 <= k <= 20 && WeekdayOf(n + k) == FRIDAY ==> k == 14 + DaysUntilFriday(n)
  {
  }

  lemma LaterInMonth(year: nat, month: nat, k: nat)
    requires ValidDate(Date(year, month, 1)) && k < 28
    ensures ValidDate(Date(year, month, 1 + k))
    ensures Ordinal(Date(year, month, 1 + k)) == Ordinal(Date(year, month, 1)) + k
  {
  }

  lemma ThirdFridayDay(year: nat, month: nat)
    requires ValidDate(Date(year, month, 1))
    ensures var t := Date(year, month, 15 + DaysUntilFriday(Ordinal(Date(year, month, 1))));
            ValidDate(t) && ThirdFridayOf(year, month) == Some(t) && Weekday(t) == FRIDAY && 15 <= t.day <= 21
  {
    var n := Ordinal(Date(year, month, 1));
    var offset := DaysUntilFriday(n);
    FridayOffset(n, 0);
    LaterInMonth(year, month, offset + 14);
    assert 1 + (offset + 14) == 15 + offset;
    OrdinalInverts(Date(year, month, 15 + offset));
  }

  /** A date is the third Friday exactly when it is a Friday from the 15th to the 21st. */
  lemma ThirdFridayIffMidMonth(d: Date)
    requires ValidDate(d)
    ensures IsThirdFriday(d) <==> Weekday(d) == FRIDAY && 15 <= d.day <= 21
  {
    ThirdFridayDay(d.year, d.month);
    if Weekday(d) == FRIDAY && 15 <= d.day <= 21 {
      OneFridayInWeek(d);
    }
  }

  lemma OneFridayInWeek(d: Date)
    requires ValidDate(d) && Weekday(d) == FRIDAY && 15 <= d.day <= 21
    ensures d.day == 15 + DaysUntilFriday(Ordinal(Date(d.year, d.month, 1)))
  {
    LaterInMonth(d.year, d.month, d.day - 1);
    assert Date(d.year, d.month, 1 + (d.day - 1)) == d;
    FridayOffset(Ordinal(Date(d.year, d.month, 1)), d.day - 1);
  }

  predicate ThirdFridayOn(year: nat, month: nat, day: nat) {
    ValidDate(Date(year, month, day)) && IsThirdFriday(Date(year, month, day))
  }

  /** Every month has exactly one third Friday. */
  lemma OneThirdFridayPerMonth(year: nat, month: nat)
    requires ValidDate(Date(year, month, 1))
    ensures exists day :: ThirdFridayOn(year, month, day)
    ensures forall a, b ::
              ThirdFridayOn(year, month, a) && ThirdFridayOn(year, month, b) ==> a == b
  {
    ThirdFridayDay(year, month);
    assert ThirdFridayOn(year, month, 15 + DaysUntilFriday(Ordinal(Date(year, month, 1))));
  }

  /** The label of an expiry: weekly for a Friday that is not the third one. */
  function ExpirySuffix(expiry: Option<Date>): string
    requires expiry.Some? ==> ValidDate(expiry.value)
  {
    match expiry
    case None => ""
    case Some(d) => if IsThirdFriday(d) then " (m)" else if Weekday(d) == FRIDAY then " (w)" else " (m)"
  }

  lemma WeeklyIffOtherFriday(d: Date)
    requires ValidDate(d)
    ensures ExpirySuffix(Some(d)) == " (w)" <==> Weekday(d) == 4 && !(15 <= d.day <= 21)
    ensures ExpirySuffix(Some(d)) == " (m)" <==> !(Weekday(d) == 4 && !(15 <= d.day <= 21))
  {
    ThirdFridayIffMidMonth(d);
    assert " (m)"[2] != " (w)"[2];
  }

  // ---------------------------------------------------------------- the calendar itself

  /** Which days exist. */
  lemma DaysThatExist(d: Date)
    ensures ValidDate(d) <==>
      && 1 <= d.year <= 9999 && 1 <= d.month <= 12 && 1 <= d.day
      && d.day <= (if d.month in {4, 6, 9, 11} then 30
                   else if d.month != 2 then 31
                   else if d.year % 4 == 0 && (d.year % 100 != 0 || d.year % 400 == 0) then 29 else 28)
  {
  }

  /** Day 1 is a Monday, and the days of the week follow each other. */
  lemma WeekdaysFollow(n: nat)
    ensures WeekdayOf(1) == 0 && WeekdayOf(n + 1) == (if WeekdayOf(n) == 6 then 0 else WeekdayOf(n) + 1)
    ensures Ordinal(Date(1, 1, 1)) == 1 && FRIDAY == 4
  {
  }
}
