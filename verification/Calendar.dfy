/** Calendar time to seconds since the epoch. */
module Calendar {

  datatype Date = Date(year: int, month: int, day: int, hour: int, minute: int, second: int)

  /** isLeapYear */
  predicate IsLeap(y: int) { (y % 4 == 0 && y % 100 != 0) || y % 400 == 0 }

  function DaysInMonth(leap: bool, m: int): int
    requires 0 <= m < 12
  {
    [31, if leap then 29 else 28, 31, 30, 31, 30, 31, 31, 30, 31, 30, 31][m]
  }

  ghost predicate Valid(d: Date) {
    && 1970 <= d.year && 1 <= d.month <= 12 && 1 <= d.day <= DaysInMonth(IsLeap(d.year), d.month - 1)
    && 0 <= d.hour < 24 && 0 <= d.minute < 60 && 0 <= d.second < 60
  }

  /** Days of the year before the given month, by table. */
  function DaysBefore(leap: bool, month: int): int
    requires 1 <= month <= 12
  {
    [0, 31, 59, 90, 120, 151, 181, 212, 243, 273, 304, 334][month - 1] + if leap && month > 2 then 1 else 0
  }

  /** The day count of POSIX.1-2017 section 4.16, where year is the full year and yday counts from January 1. */
  function PosixDays(year: int, yday: int): int {
    yday + (year - 1970) * 365 + (year - 1969) / 4 - (year - 1901) / 100 + (year - 1601) / 400
  }

  /** Seconds since the epoch, by the formula of POSIX.1-2017 section 4.16. */
  function Posix(d: Date): int
    requires 1 <= d.month <= 12
  {
    d.second + d.minute * 60 + d.hour * 3600
    + PosixDays(d.year, DaysBefore(IsLeap(d.year), d.month) + d.day - 1) * 86400
  }

  lemma LeapStep(y: int)
    requires y >= 1970
    ensures PosixDays(y + 1, 0) == PosixDays(y, 0) + 365 + if IsLeap(y) then 1 else 0
  {
    Fourth(y);
    Hundredth(y);
    FourHundredth(y);
    Centuries(y);
  }

  lemma Fourth(y: int)
    ensures (y - 1968) / 4 == (y - 1969) / 4 + if y % 4 == 0 then 1 else 0
  {
  }

  lemma Hundredth(y: int)
    ensures (y - 1900) / 100 == (y - 1901) / 100 + if y % 100 == 0 then 1 else 0
  {
  }

  lemma FourHundredth(y: int)
    ensures (y - 1600) / 400 == (y - 1601) / 400 + if y % 400 == 0 then 1 else 0
  {
  }

  lemma Centuries(y: int)
    ensures y % 400 == 0 ==> y % 100 == 0
    ensures y % 100 == 0 ==> y % 4 == 0
  {
    Multiple100(y / 400);
    Multiple4(y / 100);
  }

  lemma Multiple100(q: int)
    ensures (400 * q) % 100 == 0
  {
    assert 400 * q == 100 * (4 * q);
  }

  lemma Multiple4(q: int)
    ensures (100 * q) % 4 == 0
  {
    assert 100 * q == 4 * (25 * q);
  }

  /** rtcToUnix, on an already decoded clock reading from 1970 on. */
  method RtcToUnix(d: Date) returns (seconds: int)
    requires 1 <= d.month <= 12 && 1970 <= d.year
    ensures seconds == Posix(d)
  {
    seconds := 0;
    var y := 1970;
    while y < d.year
      invariant 1970 <= y <= d.year && seconds == PosixDays(y, 0) * 86400
    {
      LeapStep(y);
      seconds := seconds + (365 + if IsLeap(y) then 1 else 0) * 86400;
      y := y + 1;
    }
    var leap := IsLeap(d.year);
    var m := 0;
    while m < d.month - 1
      invariant 0 <= m <= d.month - 1 && seconds == (PosixDays(d.year, 0) + DaysBefore(leap, m + 1)) * 86400
    {
      seconds := seconds + DaysInMonth(leap, m) * 86400;
      m := m + 1;
    }
    seconds := seconds + (d.day - 1) * 86400;
    seconds := seconds + d.hour * 3600;
    seconds := seconds + d.minute * 60;
    seconds := seconds + d.second;
  }

  /** One second later, with every carry. */
  function Later(d: Date): Date
    requires 1 <= d.month <= 12
  {
    if d.second < 59 then d.(second := d.second + 1)
    else if d.minute < 59 then d.(second := 0, minute := d.minute + 1)
    else if d.hour < 23 then d.(second := 0, minute := 0, hour := d.hour + 1)
    else if d.day < DaysInMonth(IsLeap(d.year), d.month - 1) then
      d.(second := 0, minute := 0, hour := 0, day := d.day + 1)
    else if d.month < 12 then d.(second := 0, minute := 0, hour := 0, day := 1, month := d.month + 1)
    else Date(d.year + 1, 1, 1, 0, 0, 0)
  }

  /** The clock counts seconds: the next second, across the ends of months, leap days and years, is one more. */
  lemma LaterIsOneMore(d: Date)
    requires Valid(d)
    ensures Valid(Later(d)) && Posix(Later(d)) == Posix(d) + 1
  {
    hide PosixDays, DaysBefore, DaysInMonth, IsLeap;
    MonthStep(IsLeap(d.year), d.month);
    MonthStep(IsLeap(d.year + 1), 1);
    DaysOfYear(d.year, DaysBefore(IsLeap(d.year), d.month) + d.day - 1);
    DaysOfYear(d.year, DaysBefore(IsLeap(d.year), d.month) + d.day);
    LeapStep(d.year);
    if d.month < 12 { DaysOfYear(d.year, DaysBefore(IsLeap(d.year), d.month + 1)); }
    DaysOfYear(d.year + 1, 0);
  }

  lemma MonthStep(leap: bool, m: int)
    requires 1 <= m <= 12
    ensures m < 12 ==>
              DaysBefore(leap, m + 1) == DaysBefore(leap, m) + DaysInMonth(leap, m - 1) && DaysInMonth(leap, m) >= 1
    ensures DaysInMonth(leap, m - 1) >= 1 && DaysBefore(leap, 1) == 0
    ensures m == 12 ==> DaysBefore(leap, m) + DaysInMonth(leap, m - 1) == 365 + if leap then 1 else 0
  {
  }

  lemma DaysOfYear(year: int, yday: int)
    ensures PosixDays(year, yday) == PosixDays(year, 0) + yday
  {
  }

  ghost predicate Before(d: Date, e: Date) {
    || d.year < e.year
    || (d.year == e.year && (d.month < e.month
        || (d.month == e.month && (d.day < e.day || (d.day == e.day && SecondOfDay(d) < SecondOfDay(e))))))
  }

  function SecondOfDay(d: Date): int { d.second + d.minute * 60 + d.hour * 3600 }

  function DayOfYear(d: Date): int
    requires 1 <= d.month <= 12
  {
    DaysBefore(IsLeap(d.year), d.month) + d.day - 1
  }

  lemma MonthsGrow(leap: bool, m: int, n: int)
    requires 1 <= m < n <= 12
    ensures DaysBefore(leap, m) + DaysInMonth(leap, m - 1) <= DaysBefore(leap, n)
  {
  }

  lemma {:induction false} YearsGrow(y: int, z: int)
    requires 1970 <= y < z
    ensures PosixDays(y, 0) + 365 + (if IsLeap(y) then 1 else 0) <= PosixDays(z, 0)
    decreases z
  {
    hide PosixDays;
    if y + 1 < z {
      YearsGrow(y, z - 1);
      LeapStep(z - 1);
    } else {
      LeapStep(y);
    }
  }

  lemma InYear(d: Date)
    requires Valid(d)
    ensures 0 <= DayOfYear(d) < 365 + if IsLeap(d.year) then 1 else 0
    ensures 0 <= SecondOfDay(d) < 86400
    ensures Posix(d) == SecondOfDay(d) + (PosixDays(d.year, 0) + DayOfYear(d)) * 86400
  {
    if d.month < 12 { MonthsGrow(IsLeap(d.year), d.month, 12); }
    DaysOfYear(d.year, DayOfYear(d));
  }

  /** Later dates have larger times, so the map is injective. */
  lemma StrictlyIncreasing(d: Date, e: Date)
    requires Valid(d) && Valid(e) && Before(d, e)
    ensures Posix(d) < Posix(e)
  {
    hide Posix, PosixDays;
    InYear(d);
    InYear(e);
    if d.year < e.year {
      YearsGrow(d.year, e.year);
    } else if d.month < e.month {
      MonthsGrow(IsLeap(d.year), d.month, e.month);
    }
  }
}
