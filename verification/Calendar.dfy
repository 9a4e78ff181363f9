/** The Gregorian calendar in UTC, in days since 1 January 1970, as JavaScript's Date counts them. */
module Calendar {
  datatype Date = Date(year: int, month: int, day: int)

  predicate IsLeap(year: int) {
    year % 4 == 0 && (year % 100 != 0 || year % 400 == 0)
  }

  function YearLength(year: int): (n: int)
    ensures 365 <= n <= 366
  {
    if IsLeap(year) then 366 else 365
  }

  /** The day number of 1 January. */
  function NewYear(year: int): int
    decreases if year < 1970 then 1970 - year else year - 1970
  {
    if year == 1970 then 0
    else if year > 1970 then NewYear(year - 1) + YearLength(year - 1)
    else NewYear(year + 1) - YearLength(year)
  }

  lemma YearsFollow(year: int)
    ensures NewYear(year + 1) == NewYear(year) + YearLength(year)
  {
  }

  function Forward(year: int, day: int): (y: int)
    requires NewYear(year) <= day
    ensures NewYear(y) <= day < NewYear(y + 1)
    decreases day - NewYear(year)
  {
    YearsFollow(year);
    if day < NewYear(year + 1) then year else Forward(year + 1, day)
  }

  function Backward(year: int, day: int): (y: int)
    requires day < NewYear(year + 1)
    ensures NewYear(y) <= day < NewYear(y + 1)
    decreases NewYear(year + 1) - day
  {
    YearsFollow(year);
    if NewYear(year) <= day then year else Backward(year - 1, day)
  }

  /** getUTCFullYear */
  function YearOf(day: int): (y: int)
    ensures NewYear(y) <= day < NewYear(y + 1)
  {
    if day >= 0 then Forward(1970, day) else Backward(1969, day)
  }

  lemma {:induction false} YearsIncrease(a: int, b: int)
    requires a <= b
    ensures NewYear(a) + 365 * (b - a) <= NewYear(b)
    decreases b - a
  {
    if a < b {
      YearsIncrease(a, b - 1);
      YearsFollow(b - 1);
    }
  }

  lemma YearIs(day: int, year: int)
    requires NewYear(year) <= day < NewYear(year + 1)
    ensures YearOf(day) == year
  {
    var y := YearOf(day);
    if y < year {
      YearsIncrease(y + 1, year);
    }
    if y > year {
      YearsIncrease(year + 1, y);
    }
  }

  /** The days of the year before a month. */
  function DaysBefore(month: int, leap: bool): int {
    var extra := if leap then 1 else 0;
    if month <= 1 then 0
    else if month == 2 then 31
    else extra + (if month == 3 then 59 else if month == 4 then 90 else if month == 5 then 120 else if month == 6 then 151
                  else if month == 7 then 181 else if month == 8 then 212 else if month == 9 then 243 else if month == 10 then 273
                  else if month == 11 then 304 else if month == 12 then 334 else 365)
  }

  predicate IsDate(d: Date) {
    1 <= d.month <= 12 && 1 <= d.day <= DaysBefore(d.month + 1, IsLeap(d.year)) - DaysBefore(d.month, IsLeap(d.year))
  }

  function DayNumber(d: Date): int {
    NewYear(d.year) + DaysBefore(d.month, IsLeap(d.year)) + d.day - 1
  }

  function MonthAt(dayOfYear: int, leap: bool, month: int): (m: int)
    requires 1 <= month <= 12 && DaysBefore(month, leap) <= dayOfYear < DaysBefore(13, leap)
    ensures month <= m <= 12 && DaysBefore(m, leap) <= dayOfYear < DaysBefore(m + 1, leap)
    decreases 12 - month
  {
    if dayOfYear < DaysBefore(month + 1, leap) then month else MonthAt(dayOfYear, leap, month + 1)
  }

  /** getUTCFullYear, getUTCMonth and getUTCDate. */
  function DateOf(day: int): (d: Date)
    ensures IsDate(d) && d.year == YearOf(day) && DayNumber(d) == day
  {
    var year := YearOf(day);
    YearsFollow(year);
    var leap := IsLeap(year);
    var dayOfYear := day - NewYear(year);
    var month := MonthAt(dayOfYear, leap, 1);
    Date(year, month, dayOfYear - DaysBefore(month, leap) + 1)
  }

  lemma DaysIncrease(m: int, n: int, leap: bool)
    requires 1 <= m < n <= 13
    ensures DaysBefore(m + 1, leap) <= DaysBefore(n, leap)
  {
  }

  lemma DaysInYear(d: Date)
    requires IsDate(d)
    ensures NewYear(d.year) <= DayNumber(d) < NewYear(d.year + 1)
    ensures YearOf(DayNumber(d)) == d.year
  {
    YearsFollow(d.year);
    if d.month < 12 {
      DaysIncrease(d.month, 13, IsLeap(d.year));
    }
    YearIs(DayNumber(d), d.year);
  }

  predicate Earlier(a: Date, b: Date) {
    a.year < b.year || (a.year == b.year && (a.month < b.month || (a.month == b.month && a.day < b.day)))
  }

  lemma EarlierYear(a: Date, b: Date)
    requires IsDate(a) && IsDate(b) && a.year < b.year
    ensures DayNumber(a) < DayNumber(b)
  {
    DaysInYear(a);
    DaysInYear(b);
    YearsIncrease(a.year + 1, b.year);
  }

  lemma EarlierInYear(a: Date, b: Date)
    requires IsDate(a) && IsDate(b) && a.year == b.year && (a.month < b.month || (a.month == b.month && a.day < b.day))
    ensures DayNumber(a) < DayNumber(b)
  {
    if a.month < b.month {
      DaysIncrease(a.month, b.month, IsLeap(a.year));
    }
  }

  lemma OneWay(a: Date, b: Date)
    requires IsDate(a) && IsDate(b) && Earlier(a, b)
    ensures DayNumber(a) < DayNumber(b)
  {
    if a.year < b.year {
      EarlierYear(a, b);
    } else {
      EarlierInYear(a, b);
    }
  }

  /** Day numbers are in the order of the calendar. */
  lemma EarlierIsLower(a: Date, b: Date)
    requires IsDate(a) && IsDate(b)
    ensures Earlier(a, b) <==> DayNumber(a) < DayNumber(b)
    ensures a == b <==> DayNumber(a) == DayNumber(b)
  {
    if Earlier(a, b) {
      OneWay(a, b);
    }
    if Earlier(b, a) {
      OneWay(b, a);
    }
  }

  /** getUTCDay: 0 for Sunday. */
  function Weekday(day: int): (w: int)
    ensures 0 <= w < 7
  {
    (day + 4) % 7
  }

  /** Date.UTC, in days: it reads the years 0 to 99 as 1900 to 1999. */
  function Utc(d: Date): int {
    DayNumber(if 0 <= d.year <= 99 then d.(year := 1900 + d.year) else d)
  }

  /** The day after. */
  function Tomorrow(d: Date): Date {
    if IsDate(d.(day := d.day + 1)) then d.(day := d.day + 1)
    else if d.month < 12 then Date(d.year, d.month + 1, 1)
    else Date(d.year + 1, 1, 1)
  }

  /** Days are numbered without gaps from 1 January 1970, a Thursday; thirty days have April, June, September and November. */
  lemma DaysAreNumbered(d: Date)
    requires IsDate(d)
    ensures DayNumber(Tomorrow(d)) == DayNumber(d) + 1
    ensures DayNumber(Date(1970, 1, 1)) == 0 && Weekday(0) == 4 && Weekday(DayNumber(d) + 1) == (Weekday(DayNumber(d)) + 1) % 7
    ensures 1 <= d.day <= if d.month in {4, 6, 9, 11} then 30 else if d.month != 2 then 31
                          else if d.year % 400 == 0 || (d.year % 4 == 0 && d.year % 100 != 0) then 29 else 28
  {
    YearsFollow(d.year);
  }
}
