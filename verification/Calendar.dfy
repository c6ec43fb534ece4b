/**
 The proleptic Gregorian calendar in UTC: seconds since the epoch to civil fields and back.
 */
module Calendar {
  import opened Wrappers

  const DAY: int := 86400
  /** Days from 0001-01-01 to 1970-01-01. */
  const EPOCH: int := 719162
  /** The last year the date library represents. */
  const MAX_YEAR: int := 262142

  // ----- years, months, days -----

  predicate Leap(y: int) {
    y % 4 == 0 && (y % 100 != 0 || y % 400 == 0)
  }

  function YearLength(y: int): int {
    if Leap(y) then 366 else 365
  }

  /** Days from 0001-01-01 to the first of January of `y`. */
  function YearStart(y: int): int {
    365 * (y - 1) + (y - 1) / 4 - (y - 1) / 100 + (y - 1) / 400
  }

  lemma Div4(y: int)
    ensures y / 4 == (y - 1) / 4 + if y % 4 == 0 then 1 else 0
  {
  }

  lemma Quotient(x: int, w: int, q: int, r: int)
    requires (w == 4 || w == 100 || w == 400) && 0 <= r < w && x == w * q + r
    ensures x / w == q && x % w == r
  {
  }

  lemma Div100(y: int)
    ensures y / 100 == (y - 1) / 100 + if y % 100 == 0 then 1 else 0
    ensures y % 100 == 0 ==> y % 4 == 0
  {
    var q, r := y / 100, y % 100;
    if r == 0 {
      Quotient(y - 1, 100, q - 1, 99);
      Quotient(y, 4, 25 * q, 0);
    } else {
      Quotient(y - 1, 100, q, r - 1);
    }
  }

  lemma Div400(y: int)
    ensures y / 400 == (y - 1) / 400 + if y % 400 == 0 then 1 else 0
    ensures y % 400 == 0 ==> y % 100 == 0
  {
    var q, r := y / 400, y % 400;
    if r == 0 {
      Quotient(y - 1, 400, q - 1, 399);
      Quotient(y, 100, 4 * q, 0);
    } else {
      Quotient(y - 1, 400, q, r - 1);
    }
  }

  lemma YearStep(y: int)
    ensures YearStart(y + 1) == YearStart(y) + YearLength(y)
  {
    Div4(y);
    Div100(y);
    Div400(y);
  }

  lemma {:induction false} YearMono(a: int, b: int)
    requires a <= b
    ensures YearStart(a) + 365 * (b - a) <= YearStart(b)
    decreases b - a
  {
    if a < b {
      YearMono(a, b - 1);
      YearStep(b - 1);
    }
  }

  ghost predicate IsYear(day: int, y: int) {
    YearStart(y) <= day < YearStart(y + 1)
  }

  /** The year of a day, counted from 0001-01-01. */
  function YearOf(day: int): (y: int)
    ensures IsYear(day, y)
  {
    if day >= 0 then YearUp(1, day) else YearDown(1, day)
  }

  function YearUp(y: int, day: int): (r: int)
    requires YearStart(y) <= day
    ensures IsYear(day, r)
    decreases day - YearStart(y)
  {
    YearStep(y);
    if day < YearStart(y + 1) then y else YearUp(y + 1, day)
  }

  function YearDown(y: int, day: int): (r: int)
    requires day < YearStart(y)
    ensures IsYear(day, r)
    decreases YearStart(y) - day
  {
    YearStep(y - 1);
    if YearStart(y - 1) <= day then y - 1 else YearDown(y - 1, day)
  }

  lemma YearUnique(day: int, a: int, b: int)
    requires IsYear(day, a) && IsYear(day, b)
    ensures a == b
  {
    if a < b { YearMono(a + 1, b); }
    if b < a { YearMono(b + 1, a); }
  }

  function MonthLength(y: int, m: int): int {
    if m == 2 then (if Leap(y) then 29 else 28)
    else if m == 4 || m == 6 || m == 9 || m == 11 then 30
    else 31
  }

  /** Days of year `y` before the first of month `m`; month 13 is the next January. */
  function MonthStart(y: int, m: int): int
    requires 1 <= m <= 13
  {
    (if m <= 6 then
       (if m == 1 then 0 else if m == 2 then 31 else if m == 3 then 59 else if m == 4 then 90 else if m == 5 then 120
        else 151)
     else
       (if m == 7 then 181 else if m == 8 then 212 else if m == 9 then 243 else if m == 10 then 273
        else if m == 11 then 304 else if m == 12 then 334 else 365))
    + (if m > 2 && Leap(y) then 1 else 0)
  }

  lemma MonthStep(y: int, m: int)
    requires 1 <= m <= 12
    ensures MonthStart(y, m + 1) == MonthStart(y, m) + MonthLength(y, m)
  {
  }

  lemma {:induction false} MonthMono(y: int, a: int, b: int)
    requires 1 <= a <= b <= 13
    ensures MonthStart(y, a) + 28 * (b - a) <= MonthStart(y, b)
    decreases b - a
  {
    if a < b {
      MonthMono(y, a, b - 1);
      MonthStep(y, b - 1);
    }
  }

  ghost predicate IsMonth(y: int, doy: int, m: int) {
    1 <= m <= 12 && MonthStart(y, m) <= doy < MonthStart(y, m + 1)
  }

  function MonthOf(y: int, doy: int): (m: int)
    requires 0 <= doy < YearLength(y)
    ensures IsMonth(y, doy, m)
  {
    MonthFrom(y, doy, 1)
  }

  function MonthFrom(y: int, doy: int, m: int): (r: int)
    requires 1 <= m <= 12 && MonthStart(y, m) <= doy < MonthStart(y, 13)
    ensures IsMonth(y, doy, r)
    decreases 12 - m
  {
    if doy < MonthStart(y, m + 1) then m else MonthFrom(y, doy, m + 1)
  }

  lemma MonthUnique(y: int, doy: int, a: int, b: int)
    requires IsMonth(y, doy, a) && IsMonth(y, doy, b)
    ensures a == b
  {
    if a < b { MonthMono(y, a + 1, b); }
    if b < a { MonthMono(y, b + 1, a); }
  }

  // ----- instants -----

  /** A broken-down UTC date and time. */
  datatype Civil = Civil(year: int, month: int, day: int, hour: int, minute: int, second: int) {
    predicate Valid() {
      && 1 <= month <= 12 && 1 <= day <= MonthLength(year, month)
      && 0 <= hour < 24 && 0 <= minute < 60 && 0 <= second < 60
    }

    function DayNumber(): int
      requires 1 <= month <= 12
    {
      YearStart(year) + MonthStart(year, month) + day - 1 - EPOCH
    }

    /** Epoch seconds. */
    function Timestamp(): int
      requires 1 <= month <= 12
    {
      DayNumber() * DAY + hour * 3600 + minute * 60 + second
    }
  }

  lemma SecondsJoin(s: int)
    requires 0 <= s < DAY
    ensures 0 <= s / 3600 < 24 && 0 <= s % 3600 / 60 < 60 && 0 <= s % 60 < 60
    ensures s == s / 3600 * 3600 + s % 3600 / 60 * 60 + s % 60
  {
    var r := s % 3600;
    assert s == s / 3600 * 3600 + r;
    assert r == r / 60 * 60 + r % 60;
    assert r % 60 == s % 60;
  }

  /** Break epoch seconds down into calendar fields. */
  function CivilOf(t: int): (c: Civil)
    ensures c.Valid() && c.Timestamp() == t
  {
    var d := t / DAY + EPOCH;
    var s := t % DAY;
    SecondsJoin(s);
    CivilOfDay(d, YearOf(d), s / 3600, s % 3600 / 60, s % 60)
  }

  function CivilOfDay(d: int, y: int, h: int, mi: int, s: int): (c: Civil)
    requires IsYear(d, y) && 0 <= h < 24 && 0 <= mi < 60 && 0 <= s < 60
    ensures c.Valid() && c.Timestamp() == (d - EPOCH) * DAY + h * 3600 + mi * 60 + s
  {
    YearStep(y);
    var doy := d - YearStart(y);
    var m := MonthOf(y, doy);
    MonthStep(y, m);
    Civil(y, m, doy - MonthStart(y, m) + 1, h, mi, s)
  }

  lemma DayOfYear(c: Civil)
    requires c.Valid()
    ensures IsYear(c.DayNumber() + EPOCH, c.year)
    ensures IsMonth(c.year, c.DayNumber() + EPOCH - YearStart(c.year), c.month)
  {
    YearStep(c.year);
    MonthStep(c.year, c.month);
    MonthMono(c.year, c.month + 1, 13);
    MonthMono(c.year, 1, c.month);
  }

  lemma SecondsSplit(d: int, h: int, mi: int, s: int, t: int)
    requires 0 <= h < 24 && 0 <= mi < 60 && 0 <= s < 60 && t == d * DAY + h * 3600 + mi * 60 + s
    ensures t / DAY == d && t % DAY == h * 3600 + mi * 60 + s
    ensures t % DAY / 3600 == h && t % DAY % 3600 / 60 == mi && t % DAY % 60 == s
  {
    var r := h * 3600 + mi * 60 + s;
    assert 0 <= r < DAY;
    assert t % DAY == r;
    assert r % 3600 == mi * 60 + s;
  }

  /** The breakdown is unique: a valid date is the breakdown of its own timestamp. */
  lemma CivilUnique(c: Civil)
    requires c.Valid()
    ensures CivilOf(c.Timestamp()) == c
  {
    var o := CivilOf(c.Timestamp());
    hide CivilOf, YearStart, MonthStart;
    SecondsSplit(c.DayNumber(), c.hour, c.minute, c.second, c.Timestamp());
    SecondsSplit(o.DayNumber(), o.hour, o.minute, o.second, c.Timestamp());
    DayOfYear(c);
    DayOfYear(o);
    YearUnique(c.DayNumber() + EPOCH, c.year, o.year);
    MonthUnique(c.year, c.DayNumber() + EPOCH - YearStart(c.year), c.month, o.month);
  }
}
