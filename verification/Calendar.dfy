/**
 The proleptic Gregorian calendar, as far as a backup's file name needs it:
 days are counted from the first of January of the year 0.
 */
module Calendar {

  datatype Date = Date(year: int, month: int, day: int)

  predicate IsLeap(y: int) {
    y % 4 == 0 && (y % 100 != 0 || y % 400 == 0)
  }

  function YearLength(y: int): int {
    if IsLeap(y) then 366 else 365
  }

  /** Days before the first of January of a year. */
  function YearStart(y: int): int {
    365 * y + (y + 3) / 4 - (y + 99) / 100 + (y + 399) / 400
  }

  lemma YearsFollow(y: int)
    ensures YearStart(y + 1) == YearStart(y) + YearLength(y)
  {
    LeapDays(y, 4, 3);
    LeapDays(y, 100, 99);
    LeapDays(y, 400, 399);
    Centuries(y);
    AddUp(y, (y + 3) / 4, (y + 99) / 100, (y + 399) / 400, y % 4 == 0, y % 100 == 0, y % 400 == 0);
  }

  /** A year divisible by 400 is divisible by 100, and one divisible by 100 is divisible by 4. */
  lemma Centuries(y: int)
    ensures y % 400 == 0 ==> y % 100 == 0
    ensures y % 100 == 0 ==> y % 4 == 0
  {
    if y % 400 == 0 {
      ModIs(y, 100, 4 * (y / 400), 0);
    }
    if y % 100 == 0 {
      ModIs(y, 4, 25 * (y / 100), 0);
    }
  }

  lemma AddUp(y: int, n4: int, n100: int, n400: int, by4: bool, by100: bool, by400: bool)
    requires by400 ==> by100
    requires by100 ==> by4
    ensures 365 * (y + 1) + (n4 + if by4 then 1 else 0) - (n100 + if by100 then 1 else 0) + (n400 + if by400 then 1 else 0)
            == 365 * y + n4 - n100 + n400 + if by4 && (!by100 || by400) then 366 else 365
  {
  }

  lemma LeapDays(y: int, n: int, m: int)
    requires n > 1 && m == n - 1
    ensures (y + 1 + m) / n == (y + m) / n + if y % n == 0 then 1 else 0
  {
    var q, r := y / n, y % n;
    assert y == n * q + r;
    if r == 0 {
      DivIs(y + 1 + m, n, q + 1, 0);
      DivIs(y + m, n, q, m);
    } else {
      DivIs(y + 1 + m, n, q + 1, r);
      DivIs(y + m, n, q + 1, r - 1);
    }
  }

  lemma DivIs(x: int, n: int, q: int, r: int)
    requires n > 0 && 0 <= r < n && x == n * q + r
    ensures x / n == q
  {
    var d := x / n - q;
    assert n * d == r - x % n;
    MultipleIsFar(n, d);
  }

  lemma ModIs(x: int, n: int, q: int, r: int)
    requires n > 0 && 0 <= r < n && x == n * q + r
    ensures x % n == r
  {
    DivIs(x, n, q, r);
  }

  lemma MultipleIsFar(n: int, d: int)
    requires n > 0
    ensures d >= 1 ==> n * d >= n
    ensures d <= -1 ==> n * d <= -n
  {
  }

  function MonthLength(y: int, m: int): int {
    if m == 2 then (if IsLeap(y) then 29 else 28)
    else if m == 4 || m == 6 || m == 9 || m == 11 then 30
    else 31
  }

  /** Days of a year before the first of a month. */
  function MonthStart(y: int, m: int): int {
    (match m
     case 1 => 0 case 2 => 31 case 3 => 59 case 4 => 90 case 5 => 120 case 6 => 151
     case 7 => 181 case 8 => 212 case 9 => 243 case 10 => 273 case 11 => 304 case _ => 334)
    + if m > 2 && IsLeap(y) then 1 else 0
  }

  predicate IsDate(d: Date) {
    0 <= d.year && 1 <= d.month <= 12 && 1 <= d.day <= MonthLength(d.year, d.month)
  }

  function Day(d: Date): int {
    YearStart(d.year) + MonthStart(d.year, d.month) + d.day - 1
  }

  /** A date as a day number, months and days past their range carrying over as Go's `time.Date` carries them. */
  function DayNumber(y: int, m: int, d: int): int {
    var year := y + (m - 1) / 12;
    YearStart(year) + MonthStart(year, (m - 1) % 12 + 1) + d - 1
  }

  /** A real date carries nothing over. */
  lemma NothingCarried(d: Date)
    requires IsDate(d)
    ensures DayNumber(d.year, d.month, d.day) == Day(d)
  {
    DivIs(d.month - 1, 12, 0, d.month - 1);
    assert (d.month - 1) % 12 == d.month - 1;
  }

  function YearOf(day: int, y: int): (r: int)
    requires YearStart(y) <= day
    ensures YearStart(r) <= day < YearStart(r + 1)
    decreases day - YearStart(y)
  {
    YearsFollow(y);
    if day < YearStart(y + 1) then y else YearOf(day, y + 1)
  }

  function MonthOf(y: int, rest: int, m: int): (r: int)
    requires 1 <= m <= 12 && MonthStart(y, m) <= rest < YearLength(y)
    ensures 1 <= r <= 12 && MonthStart(y, r) <= rest < MonthStart(y, r) + MonthLength(y, r)
    decreases 12 - m
  {
    if rest < MonthStart(y, m) + MonthLength(y, m) then m else MonthOf(y, rest, m + 1)
  }

  lemma YearsAreNotNegative(y: int, day: nat)
    requires day < YearStart(y + 1)
    ensures y >= 0
  {
    if y + 1 <= 0 {
      YearsAscend(y + 1, 0);
    }
  }

  /** The date so many days into a year. */
  function DateInYear(y: int, rest: int): (d: Date)
    requires y >= 0 && 0 <= rest < YearLength(y)
    ensures IsDate(d) && d.year == y && MonthStart(y, d.month) + d.day - 1 == rest
  {
    var m := MonthOf(y, rest, 1);
    Date(y, m, rest - MonthStart(y, m) + 1)
  }

  function YearOfDay(day: nat): (y: int)
    ensures y >= 0 && 0 <= day - YearStart(y) < YearLength(y)
  {
    assert YearStart(0) == 0;
    var y := YearOf(day, 0);
    YearsFollow(y);
    YearsAreNotNegative(y, day);
    y
  }

  /** The date a day number falls on. */
  function DateOf(day: nat): (d: Date)
    ensures IsDate(d) && Day(d) == day
  {
    var y := YearOfDay(day);
    DateInYear(y, day - YearStart(y))
  }

  ghost predicate Before(a: Date, b: Date) {
    a.year < b.year || (a.year == b.year && (a.month < b.month || (a.month == b.month && a.day < b.day)))
  }

  lemma {:induction false} YearsAscend(y: int, z: int)
    requires y <= z
    ensures YearStart(y) <= YearStart(z)
    decreases z - y
  {
    if y < z {
      YearsFollow(y);
      YearsAscend(y + 1, z);
    }
  }

  /** An earlier date is an earlier day. */
  lemma EarlierDate(a: Date, b: Date)
    requires IsDate(a) && IsDate(b) && Before(a, b)
    ensures Day(a) < Day(b)
  {
    if a.year < b.year {
      YearsFollow(a.year);
      YearsAscend(a.year + 1, b.year);
    }
  }
}
