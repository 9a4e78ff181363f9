/** The levels of a period and their keys (packages/commands/src/Period.ts), in UTC: equal periods have equal keys, and the
    keys of one level sort in time order as strings. */
module PeriodLevels {
  import opened Text
  import opened Calendar

  /** `padStart` with zeros. */
  function Zeros(n: int): string {
    if n <= 0 then "" else "0" + Zeros(n - 1)
  }

  /** `String(n)`. */
  function Numeral(n: int): string {
    if n < 0 then "-" + Decimal(-n) else Decimal(n)
  }

  function Pad(n: int, width: nat): string {
    Zeros(width - |Numeral(n)|) + Numeral(n)
  }

  function Pow10(w: nat): nat {
    if w == 0 then 1 else 10 * Pow10(w - 1)
  }

  /** The last `w` decimal digits. */
  function Digits(n: nat, w: nat): (s: string)
    ensures |s| == w
  {
    if w == 0 then "" else Digits(n / 10, w - 1) + [Digit(n % 10)]
  }

  lemma {:induction false} DigitsOfZero(w: nat)
    ensures Digits(0, w) == Zeros(w)
  {
    if w > 0 {
      DigitsOfZero(w - 1);
      ZerosEnd(w);
    }
  }

  lemma {:induction false} ZerosEnd(w: nat)
    requires w > 0
    ensures Zeros(w) == Zeros(w - 1) + "0"
  {
    if w > 1 {
      ZerosEnd(w - 1);
    }
  }

  lemma {:induction false} PadIsDigits(n: nat, w: nat)
    requires n < Pow10(w) && w > 0
    ensures Pad(n, w) == Digits(n, w) && |Decimal(n)| <= w
    decreases w
  {
    if n < 10 {
      DigitsOfZero(w - 1);
    } else {
      PadIsDigits(n / 10, w - 1);
      assert w - |Decimal(n)| == w - 1 - |Decimal(n / 10)|;
      assert Zeros(w - |Decimal(n)|) + (Decimal(n / 10) + [Digit(n % 10)]) == Zeros(w - 1 - |Decimal(n / 10)|) + Decimal(n / 10) + [Digit(n % 10)];
    }
  }

  /** Equal lengths: the first difference decides, whatever follows. */
  lemma {:induction false} LessThenAnything(p: string, q: string, x: string, y: string)
    requires |p| == |q| && Less(p, q)
    ensures Less(p + x, q + y)
    decreases |p|
  {
    if p != "" {
      assert (p + x)[1..] == p[1..] + x && (q + y)[1..] == q[1..] + y;
      if p[0] == q[0] {
        LessThenAnything(p[1..], q[1..], x, y);
      }
    }
  }

  lemma {:induction false} SamePrefix(p: string, x: string, y: string)
    ensures Less(p + x, p + y) <==> Less(x, y)
  {
    if p == "" {
      assert p + x == x && p + y == y;
    } else {
      assert (p + x)[1..] == p[1..] + x && (p + y)[1..] == p[1..] + y;
      SamePrefix(p[1..], x, y);
    }
  }

  lemma {:induction false} DigitsSort(a: nat, b: nat, w: nat)
    requires a < b < Pow10(w)
    ensures Less(Digits(a, w), Digits(b, w))
    decreases w
  {
    var x, y := [Digit(a % 10)], [Digit(b % 10)];
    if a / 10 < b / 10 {
      DigitsSort(a / 10, b / 10, w - 1);
      LessThenAnything(Digits(a / 10, w - 1), Digits(b / 10, w - 1), x, y);
    } else {
      SamePrefix(Digits(a / 10, w - 1), x, y);
    }
  }

  lemma PadSorts(a: nat, b: nat, w: nat)
    requires w > 0 && a < Pow10(w) && b < Pow10(w)
    ensures |Pad(a, w)| == w && |Pad(b, w)| == w
    ensures a < b <==> Less(Pad(a, w), Pad(b, w))
    ensures a == b <==> Pad(a, w) == Pad(b, w)
  {
    PadIsDigits(a, w);
    PadIsDigits(b, w);
    if a < b { DigitsSort(a, b, w); }
    if b < a { DigitsSort(b, a, w); }
    LessTotal(Pad(a, w), Pad(b, w));
  }

  lemma Bounds()
    ensures Pow10(2) == 100 && Pow10(4) == 10000
  {
    assert Pow10(1) == 10 && Pow10(2) == 100 && Pow10(3) == 1000;
  }

  // ---- Years ----

  lemma MinusComesFirst(digits: string)
    requires |digits| == 4 && AllDigits(digits)
    ensures Less("00-1", digits) && !Less(digits, "00-1") && digits != "00-1"
  {
    LessTotal("00-1", digits);
    var one, two := "00-1"[1..], digits[1..];
    assert one == "0-1" && one[1..] == "-1" && two[1..] == digits[2..];
    assert IsDigit(digits[0]) && IsDigit(digits[1]) && IsDigit(digits[2]);
    assert Less("-1", digits[2..]);
    assert Less("0-1", two);
  }

  lemma {:induction false} DigitsAreDigits(n: nat, w: nat)
    ensures AllDigits(Digits(n, w))
    decreases w
  {
    if w > 0 {
      DigitsAreDigits(n / 10, w - 1);
    }
  }

  lemma YearBeforeZero()
    ensures Pad(-1, 4) == "00-1"
  {
    assert Numeral(-1) == "-1";
    assert Zeros(2) == "00";
  }

  /** The years whose texts have four characters and sort: those of four digits, and the one before. */
  lemma YearsSort(a: int, b: int)
    requires -1 <= a <= 9999 && -1 <= b <= 9999
    ensures |Pad(a, 4)| == |Pad(b, 4)| == 4
    ensures a < b <==> Less(Pad(a, 4), Pad(b, 4))
    ensures a == b <==> Pad(a, 4) == Pad(b, 4)
  {
    Bounds();
    YearBeforeZero();
    if a >= 0 && b >= 0 {
      PadSorts(a, b, 4);
    } else if a >= 0 {
      FourDigits(a);
    } else if b >= 0 {
      FourDigits(b);
    } else {
      LessTotal("00-1", "00-1");
    }
  }

  lemma FourDigits(n: nat)
    requires n <= 9999
    ensures |Pad(n, 4)| == 4 && Less("00-1", Pad(n, 4)) && !Less(Pad(n, 4), "00-1") && Pad(n, 4) != "00-1"
  {
    Bounds();
    PadIsDigits(n, 4);
    DigitsAreDigits(n, 4);
    MinusComesFirst(Digits(n, 4));
  }

  lemma TwoYearsBeforeZero()
    ensures |Pad(-2, 4)| == |Pad(-1, 4)| && !Less(Pad(-2, 4), Pad(-1, 4))
  {
    YearBeforeZero();
    assert Numeral(-2) == "-2" && Zeros(2) == "00" && Pad(-2, 4) == "00-2";
    SamePrefix("00-", "2", "1");
    assert "00-" + "2" == "00-2" && "00-" + "1" == "00-1";
  }

  lemma FiveDigits()
    ensures Pad(9999, 4) == "9999" && Pad(10000, 4) == "10000" && !Less(Pad(9999, 4), Pad(10000, 4))
  {
    assert Decimal(99) == "99" && Decimal(999) == "999" && Decimal(9999) == "9999";
    assert Decimal(100) == "100" && Decimal(1000) == "1000" && Decimal(10000) == "10000";
    assert Pad(9999, 4) == "9999" && Pad(10000, 4) == "10000";
    assert "9999"[0] == '9' && "10000"[0] == '1';
  }

  // ---- The keys ----

  /** Two fields, of four digits and of two. */
  function Pair(year: int, sep: string, n: nat): string {
    Pad(year, 4) + sep + Pad(n, 2)
  }

  /** Two parts: the first decides, then the second. */
  lemma TextsSort(p: string, q: string, sep: string, x: string, y: string)
    requires |p| == |q| && |x| == |y|
    ensures Less(p + sep + x, q + sep + y) <==> Less(p, q) || (p == q && Less(x, y))
    ensures p + sep + x == q + sep + y <==> p == q && x == y
  {
    assert p + sep + x == p + (sep + x) && q + sep + y == q + (sep + y);
    LessTotal(p, q);
    LessTotal(p + sep + x, q + sep + y);
    if Less(p, q) {
      LessThenAnything(p, q, sep + x, sep + y);
    } else if Less(q, p) {
      LessThenAnything(q, p, sep + y, sep + x);
    } else {
      SamePrefix(p, sep + x, sep + y);
      SamePrefix(sep, x, y);
      SamePrefix(p, sep + y, sep + x);
      SamePrefix(sep, y, x);
      LessTotal(x, y);
    }
  }

  lemma PairsSort(y: int, m: nat, y': int, m': nat, sep: string)
    requires -1 <= y <= 9999 && -1 <= y' <= 9999 && m < 100 && m' < 100
    ensures |Pair(y, sep, m)| == |Pair(y', sep, m')|
    ensures Less(Pair(y, sep, m), Pair(y', sep, m')) <==> y < y' || (y == y' && m < m')
    ensures Pair(y, sep, m) == Pair(y', sep, m') <==> y == y' && m == m'
  {
    Bounds();
    YearsSort(y, y');
    PadSorts(m, m', 2);
    TextsSort(Pad(y, 4), Pad(y', 4), sep, Pad(m, 2), Pad(m', 2));
  }

  function YearKey(d: Date): string {
    Pad(d.year, 4)
  }

  function MonthKey(d: Date): string
    requires IsDate(d)
  {
    Pair(d.year, "-", d.month)
  }

  function DayKey(d: Date): string
    requires IsDate(d)
  {
    Pad(d.year, 4) + "-" + Pad(d.month, 2) + "-" + Pad(d.day, 2)
  }

  /** Days, months and years, from the year before 0 to 9999: the string order of the keys is the order of time. */
  lemma KeysSortInTime(a: Date, b: Date)
    requires IsDate(a) && IsDate(b) && -1 <= a.year <= 9999 && -1 <= b.year <= 9999
    ensures Less(DayKey(a), DayKey(b)) <==> DayNumber(a) < DayNumber(b)
    ensures Less(MonthKey(a), MonthKey(b)) <==> a.year < b.year || (a.year == b.year && a.month < b.month)
    ensures MonthKey(a) == MonthKey(b) <==> a.year == b.year && a.month == b.month
    ensures Less(YearKey(a), YearKey(b)) <==> a.year < b.year
  {
    Bounds();
    YearsSort(a.year, b.year);
    PairsSort(a.year, a.month, b.year, b.month, "-");
    EarlierIsLower(a, b);
    DaysOfTheMonth(a);
    DaysOfTheMonth(b);
    PadSorts(a.day, b.day, 2);
    TextsSort(MonthKey(a), MonthKey(b), "-", Pad(a.day, 2), Pad(b.day, 2));
    LessTotal(MonthKey(a), MonthKey(b));
  }

  predicate DaysInOrder(a: Date, b: Date)
    requires IsDate(a) && IsDate(b)
  {
    Less(DayKey(a), DayKey(b)) <==> DayNumber(a) < DayNumber(b)
  }

  predicate MonthsInOrder(a: Date, b: Date)
    requires IsDate(a) && IsDate(b)
  {
    Less(MonthKey(a), MonthKey(b)) <==> a.year < b.year || (a.year == b.year && a.month < b.month)
  }

  predicate YearsInOrder(a: Date, b: Date) {
    Less(YearKey(a), YearKey(b)) <==> a.year < b.year
  }

  predicate IsDateWithin(d: Date, low: int, high: int) {
    IsDate(d) && low <= d.year < high
  }

  ghost predicate DaysSort(low: int, high: int) {
    forall a, b :: IsDateWithin(a, low, high) && IsDateWithin(b, low, high) ==> DaysInOrder(a, b)
  }

  ghost predicate MonthsSort(low: int, high: int) {
    forall a, b :: IsDateWithin(a, low, high) && IsDateWithin(b, low, high) ==> MonthsInOrder(a, b)
  }

  ghost predicate YearKeysSort(low: int, high: int) {
    forall a, b :: IsDateWithin(a, low, high) && IsDateWithin(b, low, high) ==> YearsInOrder(a, b)
  }

  /** The keys of a range of years around zero sort, by day, by month and by year, exactly when it lies within those years. */
  lemma KeysSortExactly(low: int, high: int)
    requires low <= 0 < high
    ensures DaysSort(low, high) <==> -1 <= low && high <= 10000
    ensures MonthsSort(low, high) <==> -1 <= low && high <= 10000
    ensures YearKeysSort(low, high) <==> -1 <= low && high <= 10000
  {
    if -1 <= low && high <= 10000 {
      KeysSortWithin(low, high);
    } else {
      KeysDoNotSort(low, high, if low < -1 then -2 else 9999);
    }
  }

  lemma KeysSortWithin(low: int, high: int)
    requires -1 <= low && high <= 10000
    ensures DaysSort(low, high) && MonthsSort(low, high) && YearKeysSort(low, high)
  {
    forall a, b | IsDateWithin(a, low, high) && IsDateWithin(b, low, high) ensures DaysInOrder(a, b) && MonthsInOrder(a, b) && YearsInOrder(a, b) {
      KeysInOrder(a, b);
    }
  }

  lemma KeysDoNotSort(low: int, high: int, year: int)
    requires low <= year < year + 1 < high && (year == -2 || year == 9999)
    ensures !DaysSort(low, high) && !MonthsSort(low, high) && !YearKeysSort(low, high)
  {
    NewYearsDoNotSort(year);
    NotInOrder(low, high, Date(year, 1, 1), Date(year + 1, 1, 1));
  }

  lemma NotInOrder(low: int, high: int, a: Date, b: Date)
    requires IsDateWithin(a, low, high) && IsDateWithin(b, low, high)
    requires !DaysInOrder(a, b) && !MonthsInOrder(a, b) && !YearsInOrder(a, b)
    ensures !DaysSort(low, high) && !MonthsSort(low, high) && !YearKeysSort(low, high)
  {
  }

  lemma KeysInOrder(a: Date, b: Date)
    requires IsDate(a) && IsDate(b) && -1 <= a.year <= 9999 && -1 <= b.year <= 9999
    ensures DaysInOrder(a, b) && MonthsInOrder(a, b) && YearsInOrder(a, b)
  {
    KeysSortInTime(a, b);
  }

  lemma NewYearsDoNotSort(year: int)
    requires year == -2 || year == 9999
    ensures var a, b := Date(year, 1, 1), Date(year + 1, 1, 1);
            IsDate(a) && IsDate(b) && !DaysInOrder(a, b) && !MonthsInOrder(a, b) && !YearsInOrder(a, b)
  {
    var a, b := Date(year, 1, 1), Date(year + 1, 1, 1);
    EarlierIsLower(a, b);
    if year == -2 {
      TwoYearsBeforeZero();
      TextsSort(Pad(-2, 4), Pad(-1, 4), "-", Pad(1, 2), Pad(1, 2));
      TextsSort(MonthKey(a), MonthKey(b), "-", Pad(1, 2), Pad(1, 2));
      LessTotal(Pad(1, 2), Pad(1, 2));
    } else {
      FiveDigits();
      assert MonthKey(a)[0] == DayKey(a)[0] == Pad(9999, 4)[0] == '9';
      assert MonthKey(b)[0] == DayKey(b)[0] == Pad(10000, 4)[0] == '1';
    }
  }

  lemma DaysOfTheMonth(d: Date)
    requires IsDate(d)
    ensures d.day <= 31
  {
  }

  /** What the keys look like. */
  lemma KeysAreWritten()
    ensures DayKey(Date(2026, 10, 9)) == "2026-10-09" && MonthKey(Date(2026, 10, 9)) == "2026-10" && YearKey(Date(2026, 10, 9)) == "2026"
    ensures WeekKey(Week(2026, 5)) == "2026-W05"
  {
    PadIsWritten();
    assert Pad(2026, 4) + "-" + Pad(10, 2) == "2026-10";
    assert Pad(2026, 4) + "-" + Pad(10, 2) + "-" + Pad(9, 2) == "2026-10-09";
    assert Pad(2026, 4) + "-W" + Pad(5, 2) == "2026-W05";
  }

  lemma PadIsWritten()
    ensures Pad(2026, 4) == "2026" && Pad(10, 2) == "10" && Pad(9, 2) == "09" && Pad(5, 2) == "05"
  {
    assert Decimal(2) == "2" && Decimal(20) == "20" && Decimal(202) == "202" && Decimal(2026) == "2026";
    assert Decimal(1) == "1" && Decimal(10) == "10" && Zeros(1) == "0" && Zeros(0) == "";
  }

  // ---- Weeks ----

  datatype Week = Week(year: int, week: int)

  /** The first day of the week a day falls in; `firstDay`: 0 for Sunday, 1 for Monday. */
  function StartOf(day: int, firstDay: int): int {
    day - (Weekday(day) - firstDay + 7) % 7
  }

  /** It is the last one not after the day. */
  lemma WeeksStart(day: int, firstDay: int)
    requires 0 <= firstDay <= 1
    ensures StartOf(day, firstDay) <= day < StartOf(day, firstDay) + 7 && Weekday(StartOf(day, firstDay)) == firstDay
  {
  }

  /** The year of a week's fourth day, and the number of the week in it. */
  function WeekFrom(fourth: int): Week {
    var anchor := DateOf(fourth);
    var dayOfYear := Utc(anchor) - Utc(Date(anchor.year, 1, 1));
    Week(anchor.year, dayOfYear / 7 + 1)
  }

  function WeekOf(d: Date, firstDay: int): Week {
    WeekOfDay(Utc(d), firstDay)
  }

  function WeekOfDay(day: int, firstDay: int): Week {
    WeekFrom(StartOf(day, firstDay) + 3)
  }

  function WeekKey(w: Week): string
    requires w.week >= 0
  {
    Pair(w.year, "-W", w.week)
  }

  /** The week of the calendar: the year of its fourth day, and how many weeks into it that day is. */
  function WeekAt(anchor: int): Week {
    Week(YearOf(anchor), (anchor - NewYear(YearOf(anchor))) / 7 + 1)
  }

  lemma YearBetween(day: int, low: int, high: int)
    requires NewYear(low) <= day < NewYear(high + 1)
    ensures low <= YearOf(day) <= high
  {
    var y := YearOf(day);
    if y < low { YearsIncrease(y + 1, low); }
    if y > high { YearsIncrease(high + 1, y); }
  }

  /** Whether a day of a year is counted the same when the year is read 1900 later. */
  predicate Cancels(year: int, day: int) {
    0 <= year <= 99 ==> IsLeap(year) == IsLeap(year + 1900) || day < NewYear(year) + 31
  }

  /** Date.UTC reads the years 0 to 99 as nineteen hundreds; of the fourth days, only the last of the year 99 and the first
      of the year 0 can belong to a date it reads rightly, and there the two readings of the year cancel. */
  lemma FromTheFourthDay(fourth: int)
    requires Cancels(YearOf(fourth), fourth)
    ensures WeekFrom(fourth) == WeekAt(fourth)
  {
    var anchor := DateOf(fourth);
    FirstOfJanuary(anchor.year);
    if !(0 <= anchor.year <= 99) {
      UtcIsTheDay(anchor);
      UtcIsTheDay(Date(anchor.year, 1, 1));
    } else {
      FourthDayCancels(anchor);
    }
  }

  lemma FourthDayCancels(d: Date)
    requires IsDate(d) && 0 <= d.year <= 99 && Cancels(d.year, DayNumber(d))
    ensures Utc(d) - Utc(Date(d.year, 1, 1)) == DayNumber(d) - NewYear(d.year)
  {
    if DayNumber(d) < NewYear(d.year) + 31 {
      InJanuary(d);
    }
    ReadingsCancel(d);
  }

  lemma ReadingsCancel(d: Date)
    requires 0 <= d.year <= 99 && (d.month == 1 || IsLeap(d.year) == IsLeap(d.year + 1900))
    ensures Utc(d) - Utc(Date(d.year, 1, 1)) == DayNumber(d) - NewYear(d.year)
  {
    FirstOfJanuary(d.year + 1900);
  }

  lemma FirstOfJanuary(year: int)
    ensures DayNumber(Date(year, 1, 1)) == NewYear(year)
  {
  }

  lemma InJanuary(d: Date)
    requires IsDate(d) && DayNumber(d) < NewYear(d.year) + 31
    ensures d.month == 1
  {
  }

  lemma UtcIsTheDay(d: Date)
    requires !(0 <= d.year <= 99)
    ensures Utc(d) == DayNumber(d)
  {
  }

  lemma FourthDayIsNear(day: int, year: int, firstDay: int)
    requires NewYear(year) <= day < NewYear(year + 1)
    ensures var fourth := StartOf(day, firstDay) + 3;
            && year - 1 <= YearOf(fourth) <= year + 1
            && (YearOf(fourth) == year + 1 ==> fourth < NewYear(year + 1) + 31)
  {
    YearsFollow(year - 1);
    YearsFollow(year + 1);
    YearBetween(StartOf(day, firstDay) + 3, year - 1, year + 1);
  }

  lemma NearDatesCancel(day: int, year: int, firstDay: int)
    requires NewYear(year) <= day < NewYear(year + 1) && !(0 <= year <= 99)
    ensures Cancels(YearOf(StartOf(day, firstDay) + 3), StartOf(day, firstDay) + 3)
  {
    FourthDayIsNear(day, year, firstDay);
    LeapBefore(year);
  }

  lemma LeapBefore(year: int)
    ensures year == 100 ==> IsLeap(year - 1) == IsLeap(year - 1 + 1900)
  {
  }

  lemma CountedRightly(d: Date, firstDay: int)
    requires IsDate(d) && 0 <= firstDay <= 1 && !(0 <= d.year <= 99)
    ensures WeekOf(d, firstDay) == WeekAt(StartOf(DayNumber(d), firstDay) + 3)
  {
    DaysInYear(d);
    UtcIsTheDay(d);
    DayCountedRightly(DayNumber(d), d.year, firstDay);
  }

  lemma DayCountedRightly(day: int, year: int, firstDay: int)
    requires NewYear(year) <= day < NewYear(year + 1) && !(0 <= year <= 99)
    ensures WeekOfDay(day, firstDay) == WeekAt(StartOf(day, firstDay) + 3)
  {
    NearDatesCancel(day, year, firstDay);
    FromTheFourthDay(StartOf(day, firstDay) + 3);
  }

  /** A date of the years 0 to 99 gets a week of the nineteen hundreds, or of a day or two before or after them. */
  lemma YearsBelowOneHundredAreMisread(d: Date, firstDay: int)
    requires IsDate(d) && 0 <= firstDay <= 1 && 0 <= d.year <= 99
    ensures d.year + 1899 <= WeekOf(d, firstDay).year <= d.year + 1901
    ensures d.year - 1 <= WeekAt(StartOf(DayNumber(d), firstDay) + 3).year <= d.year + 1
  {
    DaysInYear(d);
    WeekYearIsNear(DayNumber(d), d.year, firstDay);
    MisreadDayIsNear(d.(year := d.year + 1900));
    WeekYearIsNear(Utc(d), d.year + 1900, firstDay);
  }

  lemma WeekYearIsNear(day: int, year: int, firstDay: int)
    requires NewYear(year) <= day < NewYear(year + 1)
    ensures year - 1 <= WeekOfDay(day, firstDay).year <= year + 1
    ensures year - 1 <= WeekAt(StartOf(day, firstDay) + 3).year <= year + 1
  {
    FourthDayIsNear(day, year, firstDay);
  }

  /** The year may not have the date (29 February 1900): it is then the day after. */
  lemma MisreadDayIsNear(d: Date)
    requires 1 <= d.month <= 12 && 1 <= d.day <= DaysBefore(d.month + 1, true) - DaysBefore(d.month, true)
    ensures NewYear(d.year) <= DayNumber(d) < NewYear(d.year + 1)
  {
    YearsFollow(d.year);
  }

  /** The level gives the week of the calendar exactly for dates outside the years 0 to 99. */
  lemma WeekIsRightExactly(d: Date, firstDay: int)
    requires IsDate(d) && 0 <= firstDay <= 1
    ensures WeekOf(d, firstDay) == WeekAt(StartOf(DayNumber(d), firstDay) + 3) <==> !(0 <= d.year <= 99)
  {
    if 0 <= d.year <= 99 {
      YearsBelowOneHundredAreMisread(d, firstDay);
    } else {
      CountedRightly(d, firstDay);
    }
  }

  lemma FourthDaysAreWeeksApart(a: int, b: int, firstDay: int)
    requires 0 <= firstDay <= 1
    ensures var s, t := StartOf(a, firstDay), StartOf(b, firstDay); s + 7 <= t || t + 7 <= s || s == t
  {
    assert (StartOf(a, firstDay) + 4) % 7 == firstDay;
    assert (StartOf(b, firstDay) + 4) % 7 == firstDay;
  }

  /** The number of a week is 1 to 53. */
  lemma WeekNumbers(anchor: int)
    ensures 1 <= WeekAt(anchor).week <= 53
  {
    YearsFollow(YearOf(anchor));
  }

  lemma WeeksIncrease(a: int, b: int)
    requires a + 7 <= b
    ensures var v, w := WeekAt(a), WeekAt(b); v.year < w.year || (v.year == w.year && v.week < w.week)
  {
    if YearOf(b) < YearOf(a) {
      YearsIncrease(YearOf(b) + 1, YearOf(a));
    }
  }

  lemma WeeksOfAnchors(s: int, t: int)
    requires -1 <= YearOf(s) <= 9999 && -1 <= YearOf(t) <= 9999
    requires s + 7 <= t || t + 7 <= s || s == t
    ensures var v, w := WeekAt(s), WeekAt(t);
            && v.week >= 0 && w.week >= 0
            && (WeekKey(v) == WeekKey(w) <==> s == t)
            && (Less(WeekKey(v), WeekKey(w)) <==> s < t)
  {
    var v, w := WeekAt(s), WeekAt(t);
    WeekNumbers(s);
    WeekNumbers(t);
    PairsSort(v.year, v.week, w.year, w.week, "-W");
    if s < t {
      WeeksIncrease(s, t);
    }
    if t < s {
      WeeksIncrease(t, s);
    }
  }

  lemma WeekNumber(d: Date, firstDay: int)
    requires IsDate(d) && 0 <= firstDay <= 1 && !(0 <= d.year <= 99)
    ensures 1 <= WeekOf(d, firstDay).week <= 53
  {
    CountedRightly(d, firstDay);
    WeekNumbers(StartOf(DayNumber(d), firstDay) + 3);
  }

  /** Of the dates the level counts rightly, as far as the texts of years sort: two have the same key exactly when they are in
      the same week, and a later week has a greater key. */
  lemma WeekKeysSortInTime(a: Date, b: Date, firstDay: int)
    requires IsDate(a) && IsDate(b) && 0 <= firstDay <= 1 && !(0 <= a.year <= 99) && !(0 <= b.year <= 99)
    requires -1 <= WeekOf(a, firstDay).year <= 9999 && -1 <= WeekOf(b, firstDay).year <= 9999
    ensures var v, w := WeekOf(a, firstDay), WeekOf(b, firstDay);
            && 1 <= v.week <= 53 && 1 <= w.week <= 53
            && (WeekKey(v) == WeekKey(w) <==> StartOf(DayNumber(a), firstDay) == StartOf(DayNumber(b), firstDay))
            && (Less(WeekKey(v), WeekKey(w)) <==> StartOf(DayNumber(a), firstDay) < StartOf(DayNumber(b), firstDay))
  {
    WeekNumber(a, firstDay);
    WeekNumber(b, firstDay);
    CountedRightly(a, firstDay);
    CountedRightly(b, firstDay);
    FourthDaysAreWeeksApart(DayNumber(a), DayNumber(b), firstDay);
    WeeksOfAnchors(StartOf(DayNumber(a), firstDay) + 3, StartOf(DayNumber(b), firstDay) + 3);
  }

  /** All dates of the years 100 to 9998 are among them. */
  lemma FourDigitYearsAreInRange(d: Date, firstDay: int)
    requires IsDate(d) && 100 <= d.year <= 9998 && 0 <= firstDay <= 1
    ensures 99 <= WeekOf(d, firstDay).year <= 9999
  {
    DaysInYear(d);
    UtcIsTheDay(d);
    WeekYearIsNear(DayNumber(d), d.year, firstDay);
  }

  /** From a week to the next, the number grows by one, or starts again at 1 in the next year. */
  lemma WeeksCount(a: Date, b: Date, firstDay: int)
    requires IsDate(a) && IsDate(b) && 0 <= firstDay <= 1 && !(0 <= a.year <= 99) && !(0 <= b.year <= 99)
    requires StartOf(DayNumber(b), firstDay) == StartOf(DayNumber(a), firstDay) + 7
    ensures var v, w := WeekOf(a, firstDay), WeekOf(b, firstDay);
            w == Week(v.year, v.week + 1) || w == Week(v.year + 1, 1)
  {
    CountedRightly(a, firstDay);
    CountedRightly(b, firstDay);
    NextWeek(StartOf(DayNumber(a), firstDay) + 3);
  }

  lemma NextWeek(anchor: int)
    ensures var v, w := WeekAt(anchor), WeekAt(anchor + 7); w == Week(v.year, v.week + 1) || w == Week(v.year + 1, 1)
  {
    var y := YearOf(anchor);
    YearsFollow(y);
    YearsFollow(y + 1);
    if anchor + 7 < NewYear(y + 1) {
      YearIs(anchor + 7, y);
    } else {
      YearIs(anchor + 7, y + 1);
    }
  }

  /** Week 1 of a year is the week of its 4 January. */
  lemma FirstWeekHoldsTheFourth(year: int, firstDay: int)
    requires !(0 <= year <= 99) && 0 <= firstDay <= 1
    ensures WeekOf(Date(year, 1, 4), firstDay) == Week(year, 1)
  {
    var fourth := Date(year, 1, 4);
    YearsFollow(year);
    YearIs(StartOf(DayNumber(fourth), firstDay) + 3, year);
    CountedRightly(fourth, firstDay);
  }
}
