/** The proleptic Gregorian calendar: dates, their ordinals, and stepping by days and by months. */
module Dates {

  predicate IsLeap(year: int) {
    year % 4 == 0 && (year % 100 != 0 || year % 400 == 0)
  }

  function DaysInMonth(year: int, month: int): (n: int)
    requires 1 <= month <= 12
    ensures 28 <= n <= 31
  {
    if month == 2 then (if IsLeap(year) then 29 else 28)
    else if month in {4, 6, 9, 11} then 30
    else 31
  }

  datatype Date = Date(year: int, month: int, day: int) {

    predicate Valid() {
      year >= 1 && 1 <= month <= 12 && 1 <= day <= DaysInMonth(year, month)
    }
  }

  function DaysBeforeYear(year: int): int {
    365 * (year - 1) + (year - 1) / 4 - (year - 1) / 100 + (year - 1) / 400
  }

  function DaysBeforeMonth(year: int, month: int): int
    requires 1 <= month <= 12
  {
    if month == 1 then 0 else DaysBeforeMonth(year, month - 1) + DaysInMonth(year, month - 1)
  }

  /** Day number; 0001-01-01 is day 1. */
  function Ordinal(date: Date): int
    requires date.Valid()
  {
    DaysBeforeYear(date.year) + DaysBeforeMonth(date.year, date.month) + date.day
  }

  lemma YearsFollowOn(year: int)
    ensures DaysBeforeYear(year + 1) == DaysBeforeYear(year) + DaysBeforeMonth(year, 12) + 31
  {
    assert DaysBeforeMonth(year, 12) == (if IsLeap(year) then 335 else 334) by {
      var march := if IsLeap(year) then 60 else 59;
      assert DaysBeforeMonth(year, 2) == 31;
      assert DaysBeforeMonth(year, 3) == march;
      assert DaysBeforeMonth(year, 5) == march + 61;
      assert DaysBeforeMonth(year, 7) == march + 122;
      assert DaysBeforeMonth(year, 9) == march + 184;
      assert DaysBeforeMonth(year, 11) == march + 245;
    }
    var y := year - 1;
    assert (y + 1) / 4 - y / 4 == if year % 4 == 0 then 1 else 0;
    assert (y + 1) / 100 - y / 100 == if year % 100 == 0 then 1 else 0;
    assert (y + 1) / 400 - y / 400 == if year % 400 == 0 then 1 else 0;
  }

  // -------------------------------------------------------------------------
  // Stepping
  // -------------------------------------------------------------------------

  function NextDay(date: Date): (next: Date)
    requires date.Valid()
    ensures next.Valid()
  {
    if date.day < DaysInMonth(date.year, date.month) then date.(day := date.day + 1)
    else if date.month < 12 then Date(date.year, date.month + 1, 1)
    else Date(date.year + 1, 1, 1)
  }

  function AddDays(date: Date, n: nat): (later: Date)
    requires date.Valid()
    ensures later.Valid()
  {
    if n == 0 then date else NextDay(AddDays(date, n - 1))
  }

  lemma NextDayCounts(date: Date)
    requires date.Valid()
    ensures Ordinal(NextDay(date)) == Ordinal(date) + 1
  {
    if date.day == DaysInMonth(date.year, date.month) {
      if date.month == 12 {
        YearsFollowOn(date.year);
      }
    }
  }

  lemma {:induction false} AddDaysCounts(date: Date, n: nat)
    requires date.Valid()
    ensures Ordinal(AddDays(date, n)) == Ordinal(date) + n
  {
    if n > 0 {
      AddDaysCounts(date, n - 1);
      NextDayCounts(AddDays(date, n - 1));
    }
  }

  /** The same day next month, or that month's last day when it is shorter. */
  function AddMonth(date: Date): (later: Date)
    requires date.Valid()
    ensures later.Valid()
  {
    var month := if date.month == 12 then 1 else date.month + 1;
    var year := if date.month == 12 then date.year + 1 else date.year;
    var last := DaysInMonth(year, month);
    Date(year, month, if date.day < last then date.day else last)
  }

  /** A monthly step is 28 to 31 days long and never moves to a later day of the month. */
  lemma AddMonthSpans(date: Date)
    requires date.Valid()
    ensures 28 <= Ordinal(AddMonth(date)) - Ordinal(date) <= 31
    ensures AddMonth(date).day <= date.day
    ensures var later := AddMonth(date); later.day < date.day ==> later.day == DaysInMonth(later.year, later.month)
  {
    YearsFollowOn(date.year);
  }
}
