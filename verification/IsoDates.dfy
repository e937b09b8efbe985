/** Printing dates with the format `u` and parsing ISO 8601 dates, in time without clock changes. Instants are UTC
    milliseconds; local time runs a fixed number of milliseconds ahead of them. */
module IsoDates {
  import opened IsoWeek
  import opened Wrappers

  const HOUR_MS := 3600000
  const MINUTE_MS := 60000

  // --- the calendar ---

  /** Days of the year before month `m`, counted from 0. */
  function MonthStart(leap: bool, m: int): int {
    var l := if leap then 1 else 0;
    if m <= 0 then 0 else if m == 1 then 31
    else l + (if m == 2 then 59 else if m == 3 then 90 else if m == 4 then 120 else if m == 5 then 151
              else if m == 6 then 181 else if m == 7 then 212 else if m == 8 then 243 else if m == 9 then 273
              else if m == 10 then 304 else if m == 11 then 334 else 365)
  }

  /** The month a day of the year lies in. */
  function MonthOf(leap: bool, k: int): (m: int)
    requires 0 <= k < MonthStart(leap, 12)
    ensures 0 <= m < 12 && MonthStart(leap, m) <= k < MonthStart(leap, m + 1) <= MonthStart(leap, m) + 31
  {
    MonthFrom(leap, k, 11)
  }

  function MonthFrom(leap: bool, k: int, m: nat): (r: int)
    requires m <= 11 && 0 <= k < MonthStart(leap, m + 1)
    ensures 0 <= r <= m && MonthStart(leap, r) <= k < MonthStart(leap, r + 1) <= MonthStart(leap, r) + 31
  {
    if MonthStart(leap, m) <= k then m else MonthFrom(leap, k, m - 1)
  }

  datatype Civil = Civil(year: int, month: int, date: int, hours: int, minutes: int, seconds: int, millis: int)

  predicate Proper(c: Civil) {
    && 0 <= c.month < 12 && 1 <= c.date <= 31 && 0 <= c.hours < 24 && 0 <= c.minutes < 60 && 0 <= c.seconds < 60
    && 0 <= c.millis < 1000
  }

  /** The fields of a local time. */
  function CivilOf(t: int): (c: Civil)
    ensures Proper(c)
  {
    var day, time := t / DAY_MS, t % DAY_MS;
    var y := YearOf(day);
    YearsFollow(y);
    var k := day - Jan1(y);
    var m := MonthOf(Leap(y), k);
    Civil(y, m, k - MonthStart(Leap(y), m) + 1,
          time / HOUR_MS, time / MINUTE_MS % 60, time / 1000 % 60, time % 1000)
  }

  /** The day that setting year, month and date gives; month and date may lie outside the year and the month. */
  function DayNumber(y: int, m: int, d: int): int {
    Jan1(y + m / 12) + MonthStart(Leap(y + m / 12), m % 12) + d - 1
  }

  function TimeOf(hours: int, minutes: int, seconds: int, millis: int): int {
    hours * HOUR_MS + minutes * MINUTE_MS + seconds * 1000 + millis
  }

  /** The fields of a local time determine it. */
  lemma CivilRoundTrip(t: int)
    ensures var c := CivilOf(t);
      && DayNumber(c.year, c.month, c.date) * DAY_MS + TimeOf(c.hours, c.minutes, c.seconds, c.millis) == t
      && c.millis == t % 1000
  {
    hide Jan1, MonthStart, MonthOf, YearOf, Leap, TimeOf;
    var c := CivilOf(t);
    assert c.month / 12 == 0 && c.month % 12 == c.month;
    SplitTime(t % DAY_MS);
    MillisOf(t);
  }

  lemma MillisOf(t: int)
    ensures t % DAY_MS % 1000 == t % 1000
  {
    assert t == 1000 * (86400 * (t / DAY_MS)) + t % DAY_MS;
  }

  lemma SplitTime(time: int)
    requires 0 <= time < DAY_MS
    ensures TimeOf(time / HOUR_MS, time / MINUTE_MS % 60, time / 1000 % 60, time % 1000) == time
  {
    assert time / HOUR_MS == time / MINUTE_MS / 60 && time / MINUTE_MS == time / 1000 / 60;
  }

  // --- printing ---

  function Digit(n: int): char
    requires 0 <= n < 10
  {
    '0' + n as char
  }

  function Decimal(n: nat): string {
    if n < 10 then [Digit(n)] else Decimal(n / 10) + [Digit(n % 10)]
  }

  /** zeroPad on a number of at most two digits. */
  function ZeroPad(n: int): (t: string)
    requires 0 <= n < 100
    ensures |t| == 2
  {
    [Digit(n / 10), Digit(n % 10)]
  }

  /** getFullYear is printed without padding. */
  function Year(y: int): string {
    if y < 0 then "-" + Decimal(-y) else Decimal(y)
  }

  /** formatDate(d, "u"): the local time, marked with a Z. */
  function PrintU(local: int): string {
    var c := CivilOf(local);
    Year(c.year) + "-" + ZeroPad(c.month + 1) + "-" + ZeroPad(c.date)
    + "T" + ZeroPad(c.hours) + ":" + ZeroPad(c.minutes) + ":" + ZeroPad(c.seconds) + "Z"
  }

  // --- parsing ---

  datatype Zone = Unzoned | Zulu | Offset(minutes: int)

  datatype Fields = Fields(year: nat, month: Option<nat>, date: Option<nat>, hours: nat, minutes: nat, seconds: nat,
    fraction: string, zone: Zone)

  predicate IsDigit(c: char) { '0' <= c <= '9' }

  function DigitValue(c: char): nat
    requires IsDigit(c)
  {
    c as nat - '0' as nat
  }

  predicate HasDigits(s: string, i: nat, n: nat) {
    i + n <= |s| && forall k :: i <= k < i + n ==> IsDigit(s[k])
  }

  function Two(s: string, i: nat): nat
    requires HasDigits(s, i, 2)
  {
    10 * DigitValue(s[i]) + DigitValue(s[i + 1])
  }

  /** The end of the run of digits at `i`. */
  function DigitsEnd(s: string, i: nat): (j: nat)
    requires i <= |s|
    ensures i <= j <= |s| && HasDigits(s, i, j - i)
    decreases |s| - i
  {
    if i < |s| && IsDigit(s[i]) then DigitsEnd(s, i + 1) else i
  }

  /** The pattern: a year, then each time optionally a month, a date, and a time with an optional zone. */
  function Match(s: string): Option<Fields> {
    if !HasDigits(s, 0, 4) then None
    else
      var f := Fields(100 * Two(s, 0) + Two(s, 2), None, None, 0, 0, 0, "", Unzoned);
      if |s| == 4 then Some(f)
      else if s[4] != '-' || !HasDigits(s, 5, 2) then None
      else
        var g := f.(month := Some(Two(s, 5)));
        if |s| == 7 then Some(g)
        else if s[7] != '-' || !HasDigits(s, 8, 2) then None
        else if |s| == 10 then Some(g.(date := Some(Two(s, 8))))
        else MatchTime(s, g.(date := Some(Two(s, 8))))
  }

  function MatchTime(s: string, f: Fields): Option<Fields>
    requires |s| > 10
  {
    if s[10] !in "T " || !HasDigits(s, 11, 2) || |s| == 13 || s[13] != ':' || !HasDigits(s, 14, 2) then None
    else
      MatchSeconds(s, f.(hours := Two(s, 11), minutes := Two(s, 14)))
  }

  function MatchSeconds(s: string, f: Fields): Option<Fields>
    requires |s| >= 16
  {
    if |s| > 16 && s[16] == ':' && HasDigits(s, 17, 2) then
      var g := f.(seconds := Two(s, 17));
      if |s| > 19 && s[19] == '.' && DigitsEnd(s, 20) > 20 then
        MatchZone(s, DigitsEnd(s, 20), g.(fraction := s[20..DigitsEnd(s, 20)]))
      else MatchZone(s, 19, g)
    else MatchZone(s, 16, f)
  }

  function MatchZone(s: string, i: nat, f: Fields): Option<Fields>
    requires i <= |s|
  {
    if i == |s| then Some(f)
    else if s[i] == 'Z' then (if i + 1 == |s| then Some(f.(zone := Zulu)) else None)
    else if (s[i] != '+' && s[i] != '-') || !HasDigits(s, i + 1, 2) then None
    else
      var sign, hours := if s[i] == '-' then 1 else -1, Two(s, i + 1);
      var j := if i + 3 < |s| && s[i + 3] == ':' then i + 4 else i + 3;
      if i + 3 == |s| then Some(f.(zone := Offset(sign * hours * 60)))
      else if HasDigits(s, j, 2) && j + 2 == |s| then Some(f.(zone := Offset(sign * (hours * 60 + Two(s, j)))))
      else None
  }

  /** The number "0." followed by the digits. */
  function Fraction(digits: string): real {
    if digits == "" then 0.0
    else ((if IsDigit(digits[0]) then DigitValue(digits[0]) else 0) as real + Fraction(digits[1..])) / 10.0
  }

  /** fixDate takes off hours until the day is the one that was set. */
  function FixTime(time: nat): nat {
    if time < DAY_MS then time else FixTime(time - HOUR_MS)
  }

  /** The date constructor takes years below 100 for years of the twentieth century. */
  function LocalYear(y: nat): nat { if y < 100 then 1900 + y else y }

  /** The instant that the fields denote when local time is `ahead` of UTC. */
  function Resolve(f: Fields, ignoreTimezone: bool, ahead: int): int {
    var local := ignoreTimezone || f.zone.Unzoned?;
    var day := DayNumber(if local then LocalYear(f.year) else f.year,
                         (if f.month.Some? then f.month.value else 1) - 1, if f.date.Some? then f.date.value else 1);
    var millis := (Fraction(f.fraction) * 1000.0).Floor;
    var time := TimeOf(f.hours, f.minutes, f.seconds, if millis >= 0 then millis else 0);
    if local then day * DAY_MS + FixTime(time) - ahead
    else day * DAY_MS + time + if f.zone.Offset? then f.zone.minutes * MINUTE_MS else 0
  }

  function ParseISO8601(s: string, ignoreTimezone: bool, ahead: int): Option<int> {
    var m := Match(s);
    if m.None? then None else Some(Resolve(m.value, ignoreTimezone, ahead))
  }

  // --- there and back ---

  lemma {:induction false} DecimalShape(n: nat)
    ensures Decimal(n) != [] && forall k :: 0 <= k < |Decimal(n)| ==> IsDigit(Decimal(n)[k])
    ensures (|Decimal(n)| == 1 <==> n < 10) && (|Decimal(n)| <= 2 <==> n < 100)
    ensures (|Decimal(n)| <= 3 <==> n < 1000) && (|Decimal(n)| <= 4 <==> n < 10000)
  {
    if n >= 10 {
      DecimalShape(n / 10);
    }
  }

  lemma FourDigits(n: nat)
    requires 1000 <= n < 10000
    ensures Decimal(n) == [Digit(n / 1000), Digit(n / 100 % 10), Digit(n / 10 % 10), Digit(n % 10)]
  {
    assert n / 10 / 10 == n / 100 && n / 100 / 10 == n / 1000;
    assert Decimal(n / 1000) == [Digit(n / 1000)];
    assert Decimal(n / 100) == [Digit(n / 1000), Digit(n / 100 % 10)];
    assert Decimal(n / 10) == [Digit(n / 1000), Digit(n / 100 % 10), Digit(n / 10 % 10)];
  }

  lemma TwoBack(s: string, i: nat, n: nat)
    requires n < 100 && i + 2 <= |s| && s[i] == Digit(n / 10) && s[i + 1] == Digit(n % 10)
    ensures HasDigits(s, i, 2) && Two(s, i) == n
  {
  }

  /** What follows the year. */
  function PrintRest(c: Civil): (r: string)
    requires Proper(c)
    ensures |r| == 16 && r[0] == '-'
  {
    "-" + ZeroPad(c.month + 1) + "-" + ZeroPad(c.date)
    + "T" + ZeroPad(c.hours) + ":" + ZeroPad(c.minutes) + ":" + ZeroPad(c.seconds) + "Z"
  }

  lemma PrintSplits(local: int)
    ensures PrintU(local) == Year(CivilOf(local).year) + PrintRest(CivilOf(local))
  {
    hide CivilOf, Year, ZeroPad, Decimal;
  }

  /** The characters of a date with a year of four digits, as the pattern reads them. */
  lemma PrintedAt(y: string, c: Civil)
    requires Proper(c) && 1000 <= c.year < 10000 && y == Decimal(c.year)
    ensures var s := y + PrintRest(c);
      && |s| == 20 && s[4] == '-' && s[7] == '-' && s[10] == 'T' && s[13] == ':' && s[16] == ':' && s[19] == 'Z'
      && HasDigits(s, 0, 4) && 100 * Two(s, 0) + Two(s, 2) == c.year
      && HasDigits(s, 5, 2) && Two(s, 5) == c.month + 1 && HasDigits(s, 8, 2) && Two(s, 8) == c.date
      && HasDigits(s, 11, 2) && Two(s, 11) == c.hours && HasDigits(s, 14, 2) && Two(s, 14) == c.minutes
      && HasDigits(s, 17, 2) && Two(s, 17) == c.seconds
  {
    hide PrintRest, Digit, Two, HasDigits, Decimal;
    var s, r := y + PrintRest(c), PrintRest(c);
    FourDigits(c.year);
    assert forall k :: 4 <= k < 20 ==> s[k] == r[k - 4];
    YearAt(s, c.year);
    RestAt(c);
    TwoBack(s, 5, c.month + 1);
    TwoBack(s, 8, c.date);
    TwoBack(s, 11, c.hours);
    TwoBack(s, 14, c.minutes);
    TwoBack(s, 17, c.seconds);
  }

  lemma YearAt(s: string, y: nat)
    requires 1000 <= y < 10000 && |s| >= 4 && s[0] == Digit(y / 1000) && s[1] == Digit(y / 100 % 10)
    requires s[2] == Digit(y / 10 % 10) && s[3] == Digit(y % 10)
    ensures HasDigits(s, 0, 4) && 100 * Two(s, 0) + Two(s, 2) == y
  {
    hide Digit, Two, HasDigits;
    TwoPairs(y);
    TwoBack(s, 0, y / 100);
    TwoBack(s, 2, y % 100);
    FourOfTwo(s);
  }

  lemma TwoPairs(y: nat)
    ensures y / 100 / 10 == y / 1000 && y % 100 / 10 == y / 10 % 10 && y % 100 % 10 == y % 10
    ensures 100 * (y / 100) + y % 100 == y
  {
    var h, t := y / 100, y % 100;
    assert y / 10 == 10 * h + t / 10;
  }

  lemma FourOfTwo(s: string)
    requires |s| >= 4 && HasDigits(s, 0, 2) && HasDigits(s, 2, 2)
    ensures HasDigits(s, 0, 4)
  {
  }

  lemma RestAt(c: Civil)
    requires Proper(c)
    ensures var r := PrintRest(c);
      && r[0] == '-' && r[1] == Digit((c.month + 1) / 10) && r[2] == Digit((c.month + 1) % 10)
      && r[3] == '-' && r[4] == Digit(c.date / 10) && r[5] == Digit(c.date % 10)
      && r[6] == 'T' && r[7] == Digit(c.hours / 10) && r[8] == Digit(c.hours % 10)
      && r[9] == ':' && r[10] == Digit(c.minutes / 10) && r[11] == Digit(c.minutes % 10)
      && r[12] == ':' && r[13] == Digit(c.seconds / 10) && r[14] == Digit(c.seconds % 10) && r[15] == 'Z'
  {
  }

  /** The match finds every field again. */
  lemma MatchPrinted(y: string, c: Civil)
    requires Proper(c) && 1000 <= c.year < 10000 && y == Decimal(c.year)
    ensures Match(y + PrintRest(c))
      == Some(Fields(c.year, Some(c.month + 1), Some(c.date), c.hours, c.minutes, c.seconds, "", Zulu))
  {
    hide PrintRest, Decimal, HasDigits, Two, DigitsEnd;
    PrintedAt(y, c);
  }

  /** Any other year leaves no match. */
  lemma NoMatch(y: int, rest: string)
    requires !(1000 <= y < 10000) && |rest| == 16 && rest[0] == '-'
    ensures Match(Year(y) + rest) == None
  {
    var s := Year(y) + rest;
    if y < 0 {
      assert s[0] == '-';
    } else {
      DecimalShape(y);
      assert s[|Decimal(y)|] == '-';
    }
  }

  /** Parsing what was printed gives the instant back, to the second, exactly for years of four digits when the zone is
      ignored; when it is honoured, only where local time is UTC: the format prints local time and calls it Z. */
  lemma PrintParse(t: int, ahead: int)
    ensures var s, second := PrintU(t + ahead), t - (t + ahead) % 1000;
      && (ParseISO8601(s, true, ahead) == Some(second) <==> 1000 <= CivilOf(t + ahead).year < 10000)
      && (ParseISO8601(s, false, ahead) == Some(second) <==> 1000 <= CivilOf(t + ahead).year < 10000 && ahead == 0)
  {
    hide Match, Resolve, CivilOf, DayNumber, PrintU, PrintRest, Decimal;
    var c := CivilOf(t + ahead);
    PrintSplits(t + ahead);
    if 1000 <= c.year < 10000 {
      MatchPrinted(Decimal(c.year), c);
      CivilRoundTrip(t + ahead);
      ResolvePrinted(c, ahead);
    } else {
      NoMatch(c.year, PrintRest(c));
    }
  }

  lemma ResolvePrinted(c: Civil, ahead: int)
    requires Proper(c) && c.year >= 100
    ensures var f := Fields(c.year, Some(c.month + 1), Some(c.date), c.hours, c.minutes, c.seconds, "", Zulu);
      var local := DayNumber(c.year, c.month, c.date) * DAY_MS + TimeOf(c.hours, c.minutes, c.seconds, 0);
      Resolve(f, true, ahead) == local - ahead && Resolve(f, false, ahead) == local
  {
    hide DayNumber;
    assert (Fraction("") * 1000.0).Floor == 0;
  }
}
