/**
 * The proleptic Gregorian calendar of ECMAScript's `Date`, as far as
 * `new Date(year, monthIndex, day)` and the `getFullYear`/`getMonth`/
 * `getDate` read-back need it: out-of-range months carry into years, and
 * out-of-range days carry into months, in either direction.
 */
module Calendar {
  predicate IsLeapYear(y: int) {
    y % 4 == 0 && (y % 100 != 0 || y % 400 == 0)
  }

  /** Days of the zero-based month `m` (0 is January). */
  function DaysInMonth(y: int, m: int): (n: int)
    requires 0 <= m < 12
    ensures 28 <= n <= 31
    ensures m == 1 ==> (n == 29 <==> IsLeapYear(y))
  {
    if m == 1 then (if IsLeapYear(y) then 29 else 28)
    else if m == 3 || m == 5 || m == 8 || m == 10 then 30
    else 31
  }

  /** A calendar date with a zero-based month, as `Date`'s getters report it. */
  datatype Date = Date(year: int, month: int, day: int)

  /** A date that exists: month 0..11 and a day within that month. */
  predicate Proper(d: Date) {
    0 <= d.month < 12 && 1 <= d.day <= DaysInMonth(d.year, d.month)
  }

  /** Day `d` counted from the start of month `m` of year `y` (day 0 is the
      last day of the month before), carried into the date it falls on. */
  function Settle(y: int, m: int, d: int): (r: Date)
    requires 0 <= m < 12
    ensures Proper(r)
    ensures Proper(Date(y, m, d)) ==> r == Date(y, m, d)
    decreases if d < 1 then 1 - d else 0, if d < 1 then 0 else d
  {
    if d < 1 then
      var py := if m == 0 then y - 1 else y;
      var pm := if m == 0 then 11 else m - 1;
      Settle(py, pm, d + DaysInMonth(py, pm))
    else if d > DaysInMonth(y, m) then
      var ny := if m == 11 then y + 1 else y;
      var nm := if m == 11 then 0 else m + 1;
      Settle(ny, nm, d - DaysInMonth(y, m))
    else Date(y, m, d)
  }

  /** `new Date(year, monthIndex, day)` read back through its getters: a
      year from 0 to 99 means 1900 + year, the month index carries into the
      year (floor division), the day into the month. */
  function MakeDate(year: int, monthIndex: int, day: int): (r: Date)
    ensures Proper(r)
  {
    var y := if 0 <= year <= 99 then 1900 + year else year;
    Settle(y + monthIndex / 12, monthIndex % 12, day)
  }

  /** Moving forward from a positive day never goes back a year. */
  lemma {:induction false} SettleForward(y: int, m: int, d: int)
    requires 0 <= m < 12 && d >= 1
    ensures Settle(y, m, d).year >= y
    decreases d
  {
    if d > DaysInMonth(y, m) {
      var ny := if m == 11 then y + 1 else y;
      var nm := if m == 11 then 0 else m + 1;
      SettleForward(ny, nm, d - DaysInMonth(y, m));
    }
  }

  /** Day 0 steps back one day at most, so the year drops by one at most. */
  lemma SettleYearBound(y: int, m: int, d: int)
    requires 0 <= m < 12 && d >= 0
    ensures Settle(y, m, d).year >= y - 1
  {
    if d >= 1 {
      SettleForward(y, m, d);
    }
  }

  /** A proper date is its own `new Date`, for years from 100 on. */
  lemma MakeDateOfProper(year: int, month: int, day: int)
    requires year >= 100 && Proper(Date(year, month, day))
    ensures MakeDate(year, month, day) == Date(year, month, day)
  {
  }

  /** A year below 100 never reads back as itself, whatever the month and
      day (within what a two-digit field can hold). */
  lemma SmallYearMoves(year: int, monthIndex: int, day: int)
    requires 0 <= year <= 99 && -1 <= monthIndex && 0 <= day
    ensures MakeDate(year, monthIndex, day).year > year
  {
    var y := 1900 + year;
    assert y + monthIndex / 12 >= y - 1;
    SettleYearBound(y + monthIndex / 12, monthIndex % 12, day);
  }
}
