/** `System.DateTime` values as tick counts: 100-nanosecond intervals since
    0001-01-01T00:00:00 in the proleptic Gregorian calendar. Comparison of two
    `DateTime` values compares their ticks and ignores their `Kind`. */
module Dates {

  type Ticks = int

  const TicksPerSecond: int := 10_000_000
  const SecondsPerDay: int := 86_400

  predicate IsLeapYear(year: int) {
    year % 4 == 0 && (year % 100 != 0 || year % 400 == 0)
  }

  function DaysInMonth(year: int, month: int): int
    requires 1 <= month <= 12
  {
    if month == 2 then (if IsLeapYear(year) then 29 else 28)
    else if month == 4 || month == 6 || month == 9 || month == 11 then 30
    else 31
  }

  /** Days from 0001-01-01 to January 1st of `year`. */
  function DaysBeforeYear(year: int): nat
    requires year >= 1
  {
    var y := year - 1;
    365 * y + y / 4 - y / 100 + y / 400
  }

  /** Days from January 1st of `year` to the first day of `month`. */
  function DaysBeforeMonth(year: int, month: int): nat
    requires 1 <= month <= 12
  {
    if month == 1 then 0 else DaysBeforeMonth(year, month - 1) + DaysInMonth(year, month - 1)
  }

  predicate IsCalendarTime(year: int, month: int, day: int, hour: int, minute: int, second: int) {
    && 1 <= year <= 9999 && 1 <= month <= 12 && 1 <= day <= DaysInMonth(year, month)
    && 0 <= hour < 24 && 0 <= minute < 60 && 0 <= second < 60
  }

  /** The ticks of `new DateTime(year, month, day, hour, minute, second)`. */
  function DateTime(year: int, month: int, day: int, hour: int, minute: int, second: int): Ticks
    requires IsCalendarTime(year, month, day, hour, minute, second)
  {
    var days := DaysBeforeYear(year) + DaysBeforeMonth(year, month) + day - 1;
    (days * SecondsPerDay + hour * 3600 + minute * 60 + second) * TicksPerSecond
  }
}
