/**
  The calendar helpers of libs/sacutils.py:162-223: the Gregorian leap-year
  rule, the count of leap years before a year, day-of-year from month and
  day, and seconds elapsed since 1 January of year 1 (proleptic Gregorian).

  Python's `//` and `%` with a positive divisor round towards minus
  infinity, which is what Dafny's `/` and `%` do for a positive divisor, so
  they are used as they are. The source's float arithmetic is modelled on
  exact integers and reals.
 */
module Calendar {
  import opened Wrappers

  const DAY_SECONDS: int := 86400
  const YEAR_DAYS: int := 365

  /** `_leapcheck`: divisible by 4 and not by 100, or divisible by 400. */
  predicate LeapCheck(year: int)
    ensures LeapCheck(year) ==> year % 4 == 0
    ensures year % 100 == 0 ==> (LeapCheck(year) <==> year % 400 == 0)
  {
    (year % 4 == 0 && year % 100 != 0) || year % 400 == 0
  }

  /** `_leapnum`: (year-1)//4 - (year-1)//100 + (year-1)//400. */
  function LeapNum(year: int): (n: int)
    ensures year >= 1 ==> 0 <= n < year
  {
    (year - 1) / 4 - (year - 1) / 100 + (year - 1) / 400
  }

  /** The days in a year. */
  function YearLength(year: int): (n: int)
    ensures n == 365 || n == 366
    ensures n == 366 <==> LeapCheck(year)
  {
    if LeapCheck(year) then 366 else 365
  }

  /** `MDAYS` of `_ordinalday` in a leap year: the days before each month. */
  const MDAYS_LEAP: seq<int> := [0, 31, 60, 91, 121, 152, 182, 213, 244, 274, 305, 335]

  /** `MDAYS` of `_ordinalday` in a common year. */
  const MDAYS_COMMON: seq<int> := [0, 31, 59, 90, 120, 151, 181, 212, 243, 273, 304, 334]

  /** The table `_ordinalday` picks for `year`. */
  function MonthTable(year: int): (t: seq<int>)
    ensures |t| == 12
  {
    if LeapCheck(year) then MDAYS_LEAP else MDAYS_COMMON
  }

  /** The length of month `m` (1..12), defined independently of the tables. */
  function MonthLength(leap: bool, m: int): (n: int)
    requires 1 <= m <= 12
    ensures 28 <= n <= 31
  {
    if m == 2 then (if leap then 29 else 28)
    else if m == 4 || m == 6 || m == 9 || m == 11 then 30
    else 31
  }

  /**
    `_ordinalday(year, month, day)`: `MDAYS[month-1] + day`. Python indexing
    accepts `month - 1` from -12 to 11, a negative index counting from the
    end of the table; any other month raises IndexError (`None` here).
   */
  function OrdinalDay(year: int, month: int, day: int): (r: Option<int>)
    ensures r.Some? <==> -11 <= month <= 12
  {
    var t := MonthTable(year);
    var i := month - 1;
    if 0 <= i < 12 then Some(t[i] + day)
    else if -12 <= i < 0 then Some(t[12 + i] + day)
    else None
  }

  /**
    `_dateconvert(date)`: [year, month, day, hour, min, sec] becomes
    [year, ordinal day, hour, min, sec]. A list too short, or a month out of
    range, raises (`None` here); elements past the sixth are ignored.
   */
  function DateConvert(date: seq<int>): (r: Option<seq<int>>)
    ensures r.Some? <==> |date| >= 6 && -11 <= date[1] <= 12
    ensures r.Some? ==>
      && |r.value| == 5
      && r.value[0] == date[0]
      && Some(r.value[1]) == OrdinalDay(date[0], date[1], date[2])
      && r.value[2..] == date[3..6]
  {
    if |date| < 3 then None
    else
      match OrdinalDay(date[0], date[1], date[2])
      case None => None
      case Some(oday) =>
        if |date| < 6 then None else Some([date[0], oday, date[3], date[4], date[5]])
  }

  /**
    `_date2sec(year, oday, hour, min, sec, msec)`: seconds since 1 January of
    year 1, counting 365 days a year plus one per leap year before `year`.
   */
  function Date2Sec(year: int, oday: int, hour: int, min: int, sec: real, msec: real := 0.0): (t: real)
    ensures year >= 1 && oday >= 1 && hour >= 0 && min >= 0 && sec >= 0.0 && msec >= 0.0 ==> t >= 0.0
  {
    var dsec := 86400.0;
    var ysec := (year - 1) as real * 365.0 * dsec + LeapNum(year) as real * dsec;
    var daysec := (oday - 1) as real * dsec;
    ysec + daysec + hour as real * 3600.0 + min as real * 60.0 + sec * 1.0 + msec / 1000.0
  }

  // ---------------------------------------------------------------------------
  // Leap years

  lemma LeapExamples()
    ensures LeapCheck(2000) && LeapCheck(2004) && !LeapCheck(1900) && !LeapCheck(2001)
  {
  }

  /** The rule repeats every 400 years. */
  lemma LeapPeriod(year: int)
    ensures LeapCheck(year + 400) == LeapCheck(year)
  {
    ModShift(year, 4, 100);
    ModShift(year, 100, 4);
    ModShift(year, 400, 1);
  }

  /** Adding a multiple of `d` leaves the remainder alone. */
  lemma ModShift(y: int, d: int, k: int)
    requires d > 0
    ensures (y + d * k) % d == y % d
  {
    var q, r := y / d, y % d;
    assert y + d * k == d * (q + k) + r;
    DivUnique(y + d * k, d, q + k, r);
  }

  /** Leap years before `year`, counted one year at a time: the reference for `LeapNum`. */
  function LeapsBefore(year: int): (n: nat)
    requires year >= 1
    ensures n < year
    decreases year
  {
    if year == 1 then 0 else LeapsBefore(year - 1) + (if LeapCheck(year - 1) then 1 else 0)
  }

  /** Crossing a multiple of `d` raises the floor quotient by one. */
  lemma FloorStep(y: int, d: int)
    requires d > 0
    ensures y / d - (y - 1) / d == if y % d == 0 then 1 else 0
  {
    var q, r := (y - 1) / d, (y - 1) % d;
    assert y - 1 == d * q + r && 0 <= r < d;
    if r == d - 1 {
      assert y == d * (q + 1) + 0;
      DivUnique(y, d, q + 1, 0);
    } else {
      assert y == d * q + (r + 1);
      DivUnique(y, d, q, r + 1);
    }
  }

  /** Euclidean division is unique. */
  lemma DivUnique(y: int, d: int, q: int, r: int)
    requires d > 0 && 0 <= r < d && y == d * q + r
    ensures y / d == q && y % d == r
  {
    var q', r' := y / d, y % d;
    assert y == d * q' + r' && 0 <= r' < d;
    if q' > q {
      assert d * q' >= d * (q + 1) by { MulMono(d, q + 1, q'); }
    } else if q' < q {
      assert d * q >= d * (q' + 1) by { MulMono(d, q' + 1, q); }
    }
  }

  lemma MulMono(d: int, a: int, b: int)
    requires d > 0 && a <= b
    ensures d * a <= d * b
  {
    assert d * b - d * a == d * (b - a);
  }

  /** `LeapNum` grows by one exactly past a leap year. */
  lemma LeapNumStep(year: int)
    ensures LeapNum(year + 1) - LeapNum(year) == if LeapCheck(year) then 1 else 0
  {
    FloorStep(year, 4);
    FloorStep(year, 100);
    FloorStep(year, 400);
  }

  /** From year 1 on, `LeapNum` is the count of leap years before the year. */
  lemma {:induction false} LeapNumCounts(year: int)
    requires year >= 1
    ensures LeapNum(year) == LeapsBefore(year)
    decreases year
  {
    if year > 1 {
      LeapNumCounts(year - 1);
      LeapNumStep(year - 1);
    }
  }

  lemma LeapNumExample()
    ensures LeapNum(2001) == 485
  {
  }

  // ---------------------------------------------------------------------------
  // Month tables and ordinal days

  /** Each table entry is the previous one plus the length of the month before. */
  lemma TablesCumulative(leap: bool, m: int)
    requires 1 <= m < 12
    ensures var t := if leap then MDAYS_LEAP else MDAYS_COMMON;
      t[m] - t[m - 1] == MonthLength(leap, m)
  {
  }

  /** Both tables start at 0 and end one month short of the year. */
  lemma TablesEnds(leap: bool)
    ensures var t := if leap then MDAYS_LEAP else MDAYS_COMMON;
      t[0] == 0 && t[11] + MonthLength(leap, 12) == if leap then 366 else 365
  {
  }

  /** Both tables are strictly increasing. */
  lemma TablesIncreasing(leap: bool, i: int, j: int)
    requires 0 <= i < j < 12
    ensures var t := if leap then MDAYS_LEAP else MDAYS_COMMON;
      t[i] < t[j]
    decreases j - i
  {
    if i < j - 1 {
      TablesIncreasing(leap, i, j - 1);
    }
    TablesCumulative(leap, j);
  }

  /** The leap table agrees with the common one for January and February, and is one more from March. */
  lemma TablesDiffer(i: int)
    requires 0 <= i < 12
    ensures MDAYS_LEAP[i] == MDAYS_COMMON[i] + (if i >= 2 then 1 else 0)
  {
  }

  lemma OrdinalDayExamples()
    ensures OrdinalDay(2001, 3, 1) == Some(60)
    ensures OrdinalDay(2000, 3, 1) == Some(61)
    ensures OrdinalDay(2001, 1, 1) == Some(1)
    ensures OrdinalDay(2000, 12, 31) == Some(366)
  {
  }

  /** For a real date, the ordinal day runs from 1 to the length of the year. */
  lemma OrdinalDayRange(year: int, month: int, day: int)
    requires 1 <= month <= 12 && 1 <= day <= MonthLength(LeapCheck(year), month)
    ensures var r := OrdinalDay(year, month, day);
      r.Some? && 1 <= r.value <= YearLength(year)
  {
    var leap := LeapCheck(year);
    TablesEnds(leap);
    if month < 12 {
      TablesIncreasing(leap, month - 1, 11);
      TablesCumulative(leap, month);
      if month < 11 {
        TablesIncreasing(leap, month, 11);
      }
    }
  }

  /** The day after the last of a month (but December) is the first of the next. */
  lemma OrdinalDayNextMonth(year: int, month: int)
    requires 1 <= month < 12
    ensures OrdinalDay(year, month, MonthLength(LeapCheck(year), month)).value + 1
         == OrdinalDay(year, month + 1, 1).value
  {
    TablesCumulative(LeapCheck(year), month);
  }

  // ---------------------------------------------------------------------------
  // Seconds

  lemma Date2SecEpoch()
    ensures Date2Sec(1, 1, 0, 0, 0.0) == 0.0
  {
  }

  /** One ordinal day more is 86400 seconds more. */
  lemma Date2SecDayStep(year: int, oday: int, hour: int, min: int, sec: real, msec: real)
    ensures Date2Sec(year, oday + 1, hour, min, sec, msec) - Date2Sec(year, oday, hour, min, sec, msec) == 86400.0
  {
  }

  /** From 1 January of one year to 1 January of the next is the length of that year in seconds. */
  lemma Date2SecYearStep(year: int, hour: int, min: int, sec: real, msec: real)
    ensures Date2Sec(year + 1, 1, hour, min, sec, msec) - Date2Sec(year, 1, hour, min, sec, msec)
         == YearLength(year) as real * 86400.0
  {
    LeapNumStep(year);
  }

  /** The day after the last of a year is 1 January of the next. */
  lemma Date2SecRollover(year: int, hour: int, min: int, sec: real, msec: real)
    ensures Date2Sec(year, YearLength(year) + 1, hour, min, sec, msec) == Date2Sec(year + 1, 1, hour, min, sec, msec)
  {
    LeapNumStep(year);
  }

  /** Milliseconds count for a thousandth of a second each, on top of the rest. */
  lemma Date2SecMillis(year: int, oday: int, hour: int, min: int, sec: real, msec: real)
    ensures Date2Sec(year, oday, hour, min, sec, msec) == Date2Sec(year, oday, hour, min, sec) + msec / 1000.0
  {
  }

  /** Days from 1 January of year 1 to 1 January of `year`, year by year: the reference for `Date2Sec`. */
  function DaysBefore(year: int): (n: nat)
    requires year >= 1
    decreases year
  {
    if year == 1 then 0 else DaysBefore(year - 1) + YearLength(year - 1)
  }

  /** `Date2Sec` of midnight, 1 January, is the number of days before that year in seconds. */
  lemma {:induction false} Date2SecCountsDays(year: int)
    requires year >= 1
    ensures Date2Sec(year, 1, 0, 0, 0.0) == DaysBefore(year) as real * 86400.0
    decreases year
  {
    if year > 1 {
      Date2SecCountsDays(year - 1);
      Date2SecYearStep(year - 1, 0, 0, 0.0, 0.0);
    }
  }
}
