/**
 Calendar days: time.Parse of the layout "2006-01-02", as day numbers of the
 proleptic Gregorian calendar.
 */
module Dates {
  import opened Text

  predicate IsLeap(year: nat) {
    year % 4 == 0 && (year % 100 != 0 || year % 400 == 0)
  }

  function DaysIn(year: nat, month: nat): nat {
    if month == 2 then if IsLeap(year) then 29 else 28
    else if month in {4, 6, 9, 11} then 30
    else 31
  }

  function DaysBefore(year: nat, month: nat): nat
    decreases month
  {
    if month <= 1 then 0 else DaysBefore(year, month - 1) + DaysIn(year, month - 1)
  }

  function DayNumber(year: nat, month: nat, day: nat): int {
    365 * year + (year + 3) / 4 - (year + 99) / 100 + (year + 399) / 400 + DaysBefore(year, month) + day
  }

  /** The day of a YYYY-MM-DD date, or None when the text is not one. */
  function ParseDay(s: string): Option<int> {
    if !(|s| == 10 && RunLength(s, 0, IsDigit) == 4 && s[4] == '-' && RunLength(s, 5, IsDigit) == 2 && s[7] == '-'
         && RunLength(s, 8, IsDigit) == 2) then
      None
    else
      var year, month, day := Value(s[..4]), Value(s[5..7]), Value(s[8..]);
      if 1 <= month <= 12 && 1 <= day <= DaysIn(year, month) then Some(DayNumber(year, month, day)) else None
  }

  /** The day of Go's zero time, 1 January of the year 1. */
  const ZERO_DAY: int := DayNumber(1, 1, 1)

  // ---- the day numbers count days ----

  predicate IsDay(year: nat, month: nat, day: nat) {
    1 <= month <= 12 && 1 <= day <= DaysIn(year, month)
  }

  lemma YearLength(year: nat)
    ensures DaysBefore(year, 12) + DaysIn(year, 12) == if IsLeap(year) then 366 else 365
  {
    assert DaysBefore(year, 4) == 59 + 31 + if IsLeap(year) then 1 else 0;
    assert DaysBefore(year, 8) == DaysBefore(year, 4) + 122;
  }

  lemma FourYears(year: nat)
    ensures (year + 4) / 4 - (year + 3) / 4 == if year % 4 == 0 then 1 else 0
  {
  }

  lemma Century(year: nat)
    ensures (year + 100) / 100 - (year + 99) / 100 == if year % 100 == 0 then 1 else 0
  {
  }

  lemma FourCenturies(year: nat)
    ensures (year + 400) / 400 - (year + 399) / 400 == if year % 400 == 0 then 1 else 0
  {
    var q := year / 400;
    assert (year + 400) / 400 == q + 1;
    assert (year + 399) / 400 == if year % 400 == 0 then q else q + 1;
  }

  lemma CenturiesAreFourYears(year: nat)
    ensures year % 400 == 0 ==> year % 100 == 0
    ensures year % 100 == 0 ==> year % 4 == 0
  {
    if year % 400 == 0 {
      Hundreds(year, 4 * (year / 400));
    }
    if year % 100 == 0 {
      Fours(year, 25 * (year / 100));
    }
  }

  lemma Hundreds(n: nat, q: nat)
    requires n == 100 * q
    ensures n % 100 == 0
  {
  }

  lemma Fours(n: nat, q: nat)
    requires n == 4 * q
    ensures n % 4 == 0
  {
  }

  lemma NewYear(year: nat)
    ensures DayNumber(year + 1, 1, 1) == DayNumber(year, 12, DaysIn(year, 12)) + 1
  {
    hide DaysIn;
    YearLength(year);
    FourYears(year);
    Century(year);
    FourCenturies(year);
    CenturiesAreFourYears(year);
    assert DaysBefore(year + 1, 1) == 0;
  }

  /** The day after a day has the next number, across months, years and leap days, so differences are days apart. */
  lemma NextDayIsNextNumber(year: nat, month: nat, day: nat)
    requires IsDay(year, month, day)
    ensures day < DaysIn(year, month) ==> DayNumber(year, month, day + 1) == DayNumber(year, month, day) + 1
    ensures day == DaysIn(year, month) && month < 12 ==> DayNumber(year, month + 1, 1) == DayNumber(year, month, day) + 1
    ensures day == DaysIn(year, month) && month == 12 ==> DayNumber(year + 1, 1, 1) == DayNumber(year, month, day) + 1
  {
    hide DaysIn, IsLeap;
    if day == DaysIn(year, month) && month == 12 {
      NewYear(year);
    }
  }

  // ---- the day of a text ----

  /** A text of four, two and two digits, with hyphens between, is the day of that year, month and day, if there is one. */
  lemma ParsedDay(year: string, month: string, day: string)
    requires AllDigits(year) && AllDigits(month) && AllDigits(day) && |year| == 4 && |month| == |day| == 2
    ensures ParseDay(year + "-" + month + "-" + day) ==
              if IsDay(Value(year), Value(month), Value(day)) then Some(DayNumber(Value(year), Value(month), Value(day))) else None
  {
    hide DayNumber, DaysIn, Value;
    var s := year + "-" + month + "-" + day;
    assert s[..4] == year && s[5..7] == month && s[8..] == day;
    assert s[4] == '-' && s[7] == '-';
    forall k | 0 <= k < 4 ensures IsDigit(s[k]) { assert s[k] == year[k]; }
    forall k | 5 <= k < 7 ensures IsDigit(s[k]) { assert s[k] == month[k - 5]; }
    forall k | 8 <= k < 10 ensures IsDigit(s[k]) { assert s[k] == day[k - 8]; }
    RunLengthIs(s, 0, IsDigit, 4);
    RunLengthIs(s, 5, IsDigit, 2);
    RunLengthIs(s, 8, IsDigit, 2);
  }

  /** Nothing else is a day. */
  lemma OnlyDatesParse(s: string)
    requires ParseDay(s).Some?
    ensures |s| == 10 && s[4] == '-' && s[7] == '-' && AllDigits(s[..4]) && AllDigits(s[5..7]) && AllDigits(s[8..])
    ensures ParseDay(s) == Some(DayNumber(Value(s[..4]), Value(s[5..7]), Value(s[8..])))
    ensures IsDay(Value(s[..4]), Value(s[5..7]), Value(s[8..]))
  {
    hide DayNumber, DaysIn, Value;
  }
}
