/** Week numbers over the proleptic Gregorian calendar, in time without clock changes. Day 0 is Monday, 1 January of
    year 1. */
module IsoWeek {
  const DAY_MS := 86400000

  // --- the calendar ---

  predicate Leap(y: int) {
    y % 4 == 0 && (y % 100 != 0 || y % 400 == 0)
  }

  function YearLength(y: int): (n: nat)
    ensures n == 365 || n == 366
  {
    if Leap(y) then 366 else 365
  }

  /** The day of 1 January. */
  function Jan1(y: int): int {
    365 * (y - 1) + (y - 1) / 4 - (y - 1) / 100 + (y - 1) / 400
  }

  /** Every fourth year is a leap year, but of the centuries only every fourth. */
  lemma YearsFollow(y: int)
    ensures Jan1(y + 1) == Jan1(y) + YearLength(y)
  {
    DivStep(y, 4);
    DivStep(y, 100);
    DivStep(y, 400);
    Centuries(y);
  }

  lemma Centuries(y: int)
    ensures (y % 400 == 0 ==> y % 100 == 0) && (y % 100 == 0 ==> y % 4 == 0)
  {
    Multiple(y / 400, y, 400, 100, 4);
    Multiple(y / 100, y, 100, 4, 25);
  }

  lemma Multiple(q: int, y: int, k: nat, d: nat, e: nat)
    requires (d == 100 && e == 4 && k == 400) || (d == 4 && e == 25 && k == 100)
    requires q == y / k
    ensures y % k == 0 ==> y % d == 0
  {
    if y % k == 0 {
      assert y == d * (e * q);
    }
  }

  lemma DivStep(y: int, k: int)
    requires k == 4 || k == 100 || k == 400
    ensures y / k - (y - 1) / k == if y % k == 0 then 1 else 0
  {
  }

  /** The year a day lies in. */
  function YearOf(n: int): (y: int)
    ensures Jan1(y) <= n < Jan1(y + 1)
  {
    YearFrom(n, n / 365 + 1)
  }

  function YearFrom(n: int, y: int): (r: int)
    ensures Jan1(r) <= n < Jan1(r + 1)
    decreases if n < Jan1(y) then Jan1(y) - n else n - Jan1(y)
  {
    YearsFollow(y);
    YearsFollow(y - 1);
    if n < Jan1(y) then
      if n >= Jan1(y - 1) then y - 1 else YearFrom(n, y - 1)
    else if n >= Jan1(y + 1) then YearFrom(n, y + 1)
    else y
  }

  lemma {:induction false} YearsAscend(y: int, z: int)
    requires y <= z
    ensures Jan1(y) + 365 * (z - y) <= Jan1(z)
    decreases z - y
  {
    if y < z {
      YearsAscend(y, z - 1);
      YearsFollow(z - 1);
    }
  }

  lemma YearIs(n: int, y: int)
    requires Jan1(y) <= n < Jan1(y + 1)
    ensures YearOf(n) == y
  {
    var r := YearOf(n);
    if r < y {
      YearsAscend(r + 1, y);
    } else if y < r {
      YearsAscend(y + 1, r);
    }
  }

  // --- the code, on milliseconds ---

  /** The weekday as the host language counts it, from Sunday. */
  function GetDay(n: int): int { (n + 1) % 7 }

  /** The nearest integer to a / b, halves rounded up. */
  function Round(a: int, b: nat): int
    requires b > 0
  {
    (2 * a + b) / (2 * b)
  }

  function Iso8601Week(date: int): int {
    var day, time := date / DAY_MS, date % DAY_MS;
    var thursday := day + 4 - (if GetDay(day) == 0 then 7 else GetDay(day));
    var checkDate := thursday * DAY_MS + time;
    var jan1 := Jan1(YearOf(thursday)) * DAY_MS + time;
    Round(checkDate - jan1, DAY_MS) / 7 + 1
  }

  // --- ISO 8601: weeks run from Monday, and week 1 is the week with 4 January ---

  function Monday(n: int): (m: int)
    ensures m % 7 == 0 && m <= n < m + 7
  {
    n - n % 7
  }

  /** The Monday on which week 1 of a year begins. */
  function WeekOne(y: int): int {
    Monday(Jan1(y) + 3)
  }

  /** Number `w` in week-year `y` is the ISO week of a day. */
  ghost predicate IsWeek(n: int, y: int, w: int) {
    WeekOne(y) <= n < WeekOne(y + 1) && WeekOne(y) + 7 * (w - 1) <= n < WeekOne(y) + 7 * w
  }

  lemma WeekOfDay(n: int, time: int)
    requires 0 <= time < DAY_MS
    ensures var thursday := Monday(n) + 3;
      Iso8601Week(n * DAY_MS + time) == (thursday - Jan1(YearOf(thursday))) / 7 + 1
  {
    hide Jan1, YearOf, GetDay, Round, Monday;
    SplitInstant(n, time);
    ThursdayOf(n);
    var thursday := Monday(n) + 3;
    RoundDays(thursday - Jan1(YearOf(thursday)));
  }

  lemma SplitInstant(n: int, time: int)
    requires 0 <= time < DAY_MS
    ensures (n * DAY_MS + time) / DAY_MS == n && (n * DAY_MS + time) % DAY_MS == time
  {
  }

  lemma ThursdayOf(n: int)
    ensures n + 4 - (if GetDay(n) == 0 then 7 else GetDay(n)) == Monday(n) + 3
  {
  }

  lemma RoundDays(days: int)
    ensures Round(days * DAY_MS, DAY_MS) == days
  {
  }

  /** The code returns the ISO week of every instant, a number from 1 to 53. */
  lemma ReturnsIsoWeek(n: int, time: int)
    requires 0 <= time < DAY_MS
    ensures var w, y := Iso8601Week(n * DAY_MS + time), YearOf(Monday(n) + 3);
      1 <= w <= 53 && IsWeek(n, y, w)
  {
    hide Jan1, YearOf, Iso8601Week, Monday;
    var m, y := Monday(n), YearOf(Monday(n) + 3);
    WeekOfDay(n, time);
    YearsFollow(y);
    Multiples(m, WeekOne(y), Jan1(y));
    Multiples(m, WeekOne(y + 1), Jan1(y + 1));
    InWeek(n, m, WeekOne(y), (m - WeekOne(y)) / 7);
    SameSide(n, m, WeekOne(y + 1));
  }

  lemma InWeek(n: int, m: int, w: int, k: int)
    requires m % 7 == 0 && w % 7 == 0 && m <= n < m + 7 && k == (m - w) / 7
    ensures w + 7 * k <= n < w + 7 * (k + 1)
  {
  }

  lemma SameSide(n: int, m: int, w: int)
    requires m % 7 == 0 && w % 7 == 0 && m <= n < m + 7
    ensures n < w <==> m < w
  {
  }

  /** Of two Mondays, the one in the week of `j` + 3 is the first that is not before `j` - 3. */
  lemma Multiples(m: int, w: int, j: int)
    requires m % 7 == 0 && w % 7 == 0 && w <= j + 3 < w + 7
    ensures j <= m + 3 <==> w <= m
    ensures (m + 3 - j) / 7 == (m - w) / 7
  {
  }

  /** The number and the week-year of a day are unique, so the code's answer is the only one. */
  lemma IsoWeekIsUnique(n: int, y: int, w: int, z: int, v: int)
    ensures IsWeek(n, y, w) && IsWeek(n, z, v) ==> y == z && w == v
  {
    hide Jan1;
    if y < z {
      YearsAscend(y + 1, z);
    } else if z < y {
      YearsAscend(z + 1, y);
    }
  }

  /** All seven days from Monday to Sunday have one number, at any time of day. */
  lemma SameAllWeek(n: int, k: int, time: int, time': int)
    requires n % 7 == 0 && 0 <= k < 7 && 0 <= time < DAY_MS && 0 <= time' < DAY_MS
    ensures Iso8601Week(n * DAY_MS + time) == Iso8601Week((n + k) * DAY_MS + time')
  {
    hide Iso8601Week, Jan1, YearOf, Monday;
    WeekOfDay(n, time);
    WeekOfDay(n + k, time');
    SameMonday(n + k, n);
    SameMonday(n, n);
    MondayItself(n);
  }

  lemma MondayItself(n: int)
    requires n % 7 == 0
    ensures Monday(n) == n
  {
  }

  /** Week 1 is exactly the week that contains a 4 January. */
  lemma WeekOneHasFourthOfJanuary(n: int, time: int)
    requires 0 <= time < DAY_MS
    ensures Iso8601Week(n * DAY_MS + time) == 1 <==> exists y :: Monday(n) == Monday(Jan1(y) + 3)
  {
    hide Iso8601Week, Jan1, YearOf, Monday;
    ReturnsIsoWeek(n, time);
    var w, y := Iso8601Week(n * DAY_MS + time), YearOf(Monday(n) + 3);
    if w == 1 {
      SameMonday(n, Jan1(y) + 3);
    }
    if z :| Monday(n) == Monday(Jan1(z) + 3) {
      WeekOnesAscend(z);
      InWeekOne(n, z);
      IsoWeekIsUnique(n, y, w, z, 1);
    }
  }

  lemma SameMonday(n: int, k: int)
    ensures Monday(k) <= n < Monday(k) + 7 <==> Monday(n) == Monday(k)
  {
  }

  lemma WeekOnesAscend(y: int)
    ensures WeekOne(y) + 7 <= WeekOne(y + 1)
  {
    YearsFollow(y);
    hide Jan1;
  }

  lemma InWeekOne(n: int, y: int)
    ensures Monday(n) == WeekOne(y) && WeekOne(y) + 7 <= WeekOne(y + 1) ==> IsWeek(n, y, 1)
  {
    hide Jan1;
  }

  /** From one week to the next the number grows by one or starts again. */
  lemma NextWeek(n: int, time: int)
    requires 0 <= time < DAY_MS
    ensures var w, v := Iso8601Week(n * DAY_MS + time), Iso8601Week((n + 7) * DAY_MS + time);
      v == w + 1 || (v == 1 && w >= 52)
  {
    hide Iso8601Week, Jan1, YearOf;
    var t := Monday(n) + 3;
    WeekOfDay(n, time);
    WeekOfDay(n + 7, time);
    assert Monday(n + 7) + 3 == t + 7;
    YearsFollow(YearOf(t));
    YearsFollow(YearOf(t) + 1);
    if t + 7 < Jan1(YearOf(t) + 1) {
      YearIs(t + 7, YearOf(t));
    } else {
      YearIs(t + 7, YearOf(t) + 1);
    }
  }
}
