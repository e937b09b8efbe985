/** The instants that dates denote: the calendar day by day, and what is parsed shows the fields that were written. */
module IsoInstants {
  import opened IsoWeek
  import opened IsoDates
  import opened IsoDateGrammar
  import opened Wrappers
  import Numerals

  // --- the Gregorian calendar ---

  function DaysIn(leap: bool, m: nat): (n: nat)
    requires m < 12
    ensures 28 <= n <= 31
  {
    [31, if leap then 29 else 28, 31, 30, 31, 30, 31, 31, 30, 31, 30, 31][m]
  }

  lemma MonthLengths(leap: bool, m: nat)
    requires m < 12
    ensures MonthStart(leap, 0) == 0 && MonthStart(leap, m + 1) == MonthStart(leap, m) + DaysIn(leap, m)
    ensures MonthStart(leap, 12) == if leap then 366 else 365
  {
  }

  lemma {:induction false} MonthsAscend(leap: bool, m: nat, n: nat)
    requires m <= n <= 12
    ensures MonthStart(leap, m) <= MonthStart(leap, n)
    decreases n
  {
    hide MonthStart, DaysIn;
    if m < n {
      MonthsAscend(leap, m, n - 1);
      MonthLengths(leap, n - 1);
    }
  }

  lemma MonthIs(leap: bool, k: int, m: nat)
    requires m < 12 && MonthStart(leap, m) <= k < MonthStart(leap, m + 1)
    ensures 0 <= k < MonthStart(leap, 12) && MonthOf(leap, k) == m
  {
    hide MonthStart, MonthOf;
    MonthLengths(leap, 0);
    MonthsAscend(leap, 0, m);
    MonthsAscend(leap, m + 1, 12);
    var r := MonthOf(leap, k);
    if r < m {
      MonthsAscend(leap, r + 1, m);
    } else if m < r {
      MonthsAscend(leap, m + 1, r);
    }
  }

  /** A date that exists. */
  predicate RealDay(y: int, m: int, d: int) {
    0 <= m < 12 && 1 <= d <= DaysIn(Leap(y), m)
  }

  lemma InYear(y: int, m: int, d: int)
    requires RealDay(y, m, d)
    ensures DayNumber(y, m, d) == Jan1(y) + MonthStart(Leap(y), m) + d - 1
    ensures MonthStart(Leap(y), m) <= DayNumber(y, m, d) - Jan1(y) < MonthStart(Leap(y), m + 1)
    ensures Jan1(y) <= DayNumber(y, m, d) < Jan1(y + 1)
  {
    hide MonthStart, DaysIn, Jan1;
    MonthLengths(Leap(y), m);
    MonthsAscend(Leap(y), 0, m);
    MonthsAscend(Leap(y), m + 1, 12);
    YearsFollow(y);
    assert m / 12 == 0 && m % 12 == m;
  }

  /** The fields of a date that exists are found again. */
  lemma CivilIs(y: int, m: int, d: int, h: nat, mi: nat, s: nat, ms: nat)
    requires RealDay(y, m, d) && h < 24 && mi < 60 && s < 60 && ms < 1000
    ensures CivilOf(DayNumber(y, m, d) * DAY_MS + TimeOf(h, mi, s, ms)) == Civil(y, m, d, h, mi, s, ms)
  {
    hide MonthStart, Jan1, DayNumber, MonthOf, YearOf, TimeOf, RealDay, Leap;
    var n, time := DayNumber(y, m, d), TimeOf(h, mi, s, ms);
    InYear(y, m, d);
    InMonths(y, m, d);
    TimeFields(h, mi, s, ms);
    SplitInstant(n, time);
    YearIs(n, y);
    MonthIs(Leap(y), n - Jan1(y), m);
  }

  lemma InMonths(y: int, m: int, d: int)
    requires RealDay(y, m, d)
    ensures 0 <= m < 12
  {
  }

  lemma TimeFields(h: nat, mi: nat, s: nat, ms: nat)
    requires h < 24 && mi < 60 && s < 60 && ms < 1000
    ensures var t := TimeOf(h, mi, s, ms);
      && 0 <= t < DAY_MS && t / HOUR_MS == h && t / MINUTE_MS % 60 == mi && t / 1000 % 60 == s && t % 1000 == ms
  {
    var t := TimeOf(h, mi, s, ms);
    assert t == 1000 * (3600 * h + 60 * mi + s) + ms;
    assert t / 1000 == 60 * (60 * h + mi) + s;
    assert t == 60000 * (60 * h + mi) + (1000 * s + ms);
    assert t / MINUTE_MS == 60 * h + mi;
  }

  lemma CivilIsReal(t: int)
    ensures var c := CivilOf(t); RealDay(c.year, c.month, c.date)
  {
    hide MonthStart, Jan1, DaysIn;
    var c := CivilOf(t);
    YearsFollow(c.year);
    MonthLengths(Leap(c.year), 0);
    MonthLengths(Leap(c.year), c.month);
  }

  /** One day later: the next of the month, or the first of the next month. */
  function DayAfter(c: Civil): Civil
    requires RealDay(c.year, c.month, c.date)
  {
    if c.date < DaysIn(Leap(c.year), c.month) then c.(date := c.date + 1)
    else if c.month < 11 then c.(month := c.month + 1, date := 1)
    else c.(year := c.year + 1, month := 0, date := 1)
  }

  lemma DayAfterNumber(c: Civil)
    requires RealDay(c.year, c.month, c.date)
    ensures var n := DayAfter(c);
      && RealDay(n.year, n.month, n.date)
      && DayNumber(n.year, n.month, n.date) == DayNumber(c.year, c.month, c.date) + 1
  {
    hide MonthStart, Jan1, DaysIn, Leap;
    var n := DayAfter(c);
    InYear(c.year, c.month, c.date);
    YearsFollow(c.year);
    MonthLengths(Leap(c.year), c.month);
    MonthLengths(Leap(n.year), 0);
    assert n.month / 12 == 0 && n.month % 12 == n.month;
  }

  /** The calendar goes on day by day, at the same time of day. */
  lemma NextDay(t: int)
    ensures var c := CivilOf(t);
      RealDay(c.year, c.month, c.date) && CivilOf(t + DAY_MS) == DayAfter(c)
  {
    hide DayNumber, TimeOf, CivilOf, RealDay, DayAfter;
    var c := CivilOf(t);
    CivilIsReal(t);
    CivilRoundTrip(t);
    DayAfterNumber(c);
    SameTime(c);
    var n := DayAfter(c);
    CivilIs(n.year, n.month, n.date, c.hours, c.minutes, c.seconds, c.millis);
  }

  lemma SameTime(c: Civil)
    requires RealDay(c.year, c.month, c.date)
    ensures DayAfter(c) == c.(year := DayAfter(c).year, month := DayAfter(c).month, date := DayAfter(c).date)
  {
  }

  /** 1 January 1970 was a Thursday. */
  const EPOCH_DAY := 719162

  lemma EpochDay()
    ensures CivilOf(EPOCH_DAY * DAY_MS) == Civil(1970, 0, 1, 0, 0, 0, 0) && GetDay(EPOCH_DAY) == 4
  {
    hide CivilOf;
    assert DayNumber(1970, 0, 1) == EPOCH_DAY && TimeOf(0, 0, 0, 0) == 0;
    CivilIs(1970, 0, 1, 0, 0, 0, 0);
  }

  // --- what is parsed ---

  /** The digit at `i`, 0 behind the last. */
  function DigitOrZero(t: string, i: nat): nat
    requires AllDigits(t)
  {
    if i < |t| then DigitValue(t[i]) else 0
  }

  lemma {:induction false} FractionBound(t: string)
    requires AllDigits(t)
    ensures 0.0 <= Fraction(t) < 1.0
  {
    if t != "" {
      FractionBound(t[1..]);
    }
  }

  lemma FractionStep(t: string, i: nat)
    requires AllDigits(t)
    ensures var u, v := if i <= |t| then t[i..] else "", if i + 1 <= |t| then t[i + 1..] else "";
      AllDigits(v) && 10.0 * Fraction(u) == DigitOrZero(t, i) as real + Fraction(v)
  {
    if i < |t| {
      assert t[i..][1..] == t[i + 1..];
    }
  }

  /** The milliseconds are the first three digits behind the point. */
  lemma FractionMillis(t: string)
    requires AllDigits(t)
    ensures (Fraction(t) * 1000.0).Floor == 100 * DigitOrZero(t, 0) + 10 * DigitOrZero(t, 1) + DigitOrZero(t, 2)
  {
    hide Fraction, AllDigits, DigitOrZero;
    assert t[0..] == t;
    FractionStep(t, 0);
    FractionStep(t, 1);
    FractionStep(t, 2);
    var rest := if 3 <= |t| then t[3..] else "";
    FractionBound(rest);
    var n := 100 * DigitOrZero(t, 0) + 10 * DigitOrZero(t, 1) + DigitOrZero(t, 2);
    assert Fraction(t) * 1000.0 == n as real + Fraction(rest);
  }

  /** The fields stand for a date and a time of day that exist. */
  predicate Real(f: Fields, year: nat) {
    && RealDay(year, MonthIn(f), DateIn(f)) && f.hours < 24 && f.minutes < 60 && f.seconds < 60 && AllDigits(f.fraction)
  }

  /** January and the first where nothing is written. */
  function MonthIn(f: Fields): int { if f.month.Some? then f.month.value - 1 else 0 }
  function DateIn(f: Fields): int { if f.date.Some? then f.date.value else 1 }

  /** What the fields show, in a given year. */
  function Shown(f: Fields, year: nat): Civil
    requires AllDigits(f.fraction)
  {
    var millis := 100 * DigitOrZero(f.fraction, 0) + 10 * DigitOrZero(f.fraction, 1) + DigitOrZero(f.fraction, 2);
    Civil(year, MonthIn(f), DateIn(f), f.hours, f.minutes, f.seconds, millis)
  }

  /** Minutes by which the written zone is ahead of UTC. */
  function Ahead(z: Zone): int { if z.Offset? then -z.minutes else 0 }

  /** Without a zone, or with one that is ignored, it is the written time in the local zone, years below 100 being
      taken for those of the twentieth century; otherwise it is the written time in the written zone. */
  lemma ResolvedShows(f: Fields, ignoreTimezone: bool, ahead: int)
    ensures var local := ignoreTimezone || f.zone.Unzoned?;
      var year := if local && f.year < 100 then 1900 + f.year else f.year;
      Real(f, year) ==>
        CivilOf(Resolve(f, ignoreTimezone, ahead) + if local then ahead else Ahead(f.zone) * 60000) == Shown(f, year)
  {
    hide DayNumber, CivilOf, TimeOf, RealDay, AllDigits, Fraction;
    var local := ignoreTimezone || f.zone.Unzoned?;
    var year := if local && f.year < 100 then 1900 + f.year else f.year;
    if Real(f, year) {
      FractionMillis(f.fraction);
      var c := Shown(f, year);
      ThreeDigits(f.fraction);
      TimeFields(c.hours, c.minutes, c.seconds, c.millis);
      CivilIs(year, c.month, c.date, c.hours, c.minutes, c.seconds, c.millis);
    }
  }

  lemma ThreeDigits(t: string)
    requires AllDigits(t)
    ensures 0 <= 100 * DigitOrZero(t, 0) + 10 * DigitOrZero(t, 1) + DigitOrZero(t, 2) < 1000
  {
  }

  /** A time past the end of the day falls back by whole hours to the last hour of the day. */
  lemma {:induction false} FixTimeStays(time: nat)
    ensures FixTime(time) < DAY_MS && FixTime(time) % HOUR_MS == time % HOUR_MS
    ensures if time < DAY_MS then FixTime(time) == time else FixTime(time) >= DAY_MS - HOUR_MS
  {
    if time >= DAY_MS {
      FixTimeStays(time - HOUR_MS);
      assert (time - HOUR_MS) % HOUR_MS == time % HOUR_MS;
    }
  }

  /** A month or day out of range carries over: thirteen months on is a year and a month. */
  lemma DatesCarry(y: int, m: int, d: int)
    ensures DayNumber(y, m + 12, d) == DayNumber(y + 1, m, d) && DayNumber(y, m, d + 1) == DayNumber(y, m, d) + 1
  {
    hide Jan1, MonthStart, Leap;
    assert (m + 12) / 12 == m / 12 + 1 && (m + 12) % 12 == m % 12;
  }

  /** The written forms of a zone: the sign, two digits of hours, and two of minutes with or without a colon. */
  lemma OffsetTakenOff(w: DateText, utc: DateText, bare: DateText, ahead: int)
    requires Good(w) && w.DateTime? && (w.time.zone.HoursOnly? || w.time.zone.HoursMinutes?)
    requires utc == w.(time := w.time.(zone := Z)) && bare == w.(time := w.time.(zone := NoZone))
    ensures Good(utc) && Good(bare)
    ensures ParseISO8601(Spell(w), true, ahead) == ParseISO8601(Spell(bare), false, ahead)
    ensures var z := w.time.zone;
      var minutes := 60 * z.h + if z.HoursMinutes? then z.m else 0;
      var at := ParseISO8601(Spell(utc), false, ahead);
      at.Some? && ParseISO8601(Spell(w), false, ahead)
        == Some(at.value - (if z.sign == '+' then 1 else -1) * minutes * 60000)
  {
    hide Match, Spell, DayNumber, Fraction, FixTime;
    SpelledIsMatched(w);
    SpelledIsMatched(utc);
    SpelledIsMatched(bare);
  }

  // --- what is printed ---

  lemma DigitIs(n: nat)
    requires n < 10
    ensures Digit(n) == "0123456789"[n]
  {
  }

  /** A year is printed in decimal. */
  lemma {:induction false} YearInDecimal(n: nat)
    ensures |Decimal(n)| == |Numerals.Decimal(n)|
    ensures forall i :: 0 <= i < |Decimal(n)| ==>
                      Numerals.Decimal(n)[i] < 10 && Decimal(n)[i] == Digit(Numerals.Decimal(n)[i])
  {
    hide Digit;
    if n >= 10 {
      YearInDecimal(n / 10);
    }
  }

  /** What is printed for a year of four digits is a date and time of the written forms, with a Z. */
  lemma PrintIsSpelled(local: int)
    ensures var c := CivilOf(local);
      1000 <= c.year < 10000 ==>
        var time := TimeText('T', c.hours, c.minutes, Some(c.seconds), "", Z);
        var w := DateTime(c.year, c.month + 1, c.date, time);
        Good(w) && PrintU(local) == Spell(w)
  {
    hide CivilOf, ZeroPad, Decimal, Four;
    var c := CivilOf(local);
    if 1000 <= c.year < 10000 {
      FourIsDecimal(c.year);
    }
  }

  lemma FourIsDecimal(y: nat)
    requires 1000 <= y < 10000
    ensures Decimal(y) == Four(y)
  {
    hide Digit;
    FourDigits(y);
    TwoPairs(y);
    assert y / 100 % 10 == y / 100 - 10 * (y / 1000);
  }
}
