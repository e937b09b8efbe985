/** The dates parseISO8601 understands, as they are written, and what each of them denotes. */
module IsoDateGrammar {
  import opened IsoDates
  import opened Sequences
  import opened Wrappers

  datatype ZoneText = NoZone | Z | HoursOnly(sign: char, h: nat) | HoursMinutes(sign: char, h: nat, colon: bool, m: nat)

  datatype TimeText = TimeText(sep: char, hours: nat, minutes: nat, seconds: Option<nat>, fraction: string,
    zone: ZoneText)

  datatype DateText =
    | YearOnly(year: nat)
    | YearMonth(year: nat, month: nat)
    | FullDate(year: nat, month: nat, date: nat)
    | DateTime(year: nat, month: nat, date: nat, time: TimeText)

  // --- how it is written ---

  function Four(y: nat): (t: string)
    requires y < 10000
    ensures |t| == 4
  {
    ZeroPad(y / 100) + ZeroPad(y % 100)
  }

  predicate Sign(c: char) { c == '+' || c == '-' }

  predicate GoodZone(z: ZoneText) {
    match z
    case NoZone => true
    case Z => true
    case HoursOnly(sign, h) => Sign(sign) && h < 100
    case HoursMinutes(sign, h, _, m) => Sign(sign) && h < 100 && m < 100
  }

  predicate AllDigits(t: string) {
    forall k :: 0 <= k < |t| ==> IsDigit(t[k])
  }

  /** A fraction is only written behind seconds. */
  predicate GoodTime(t: TimeText) {
    && (t.sep == 'T' || t.sep == ' ') && t.hours < 100 && t.minutes < 100
    && (t.seconds.Some? ==> t.seconds.value < 100) && AllDigits(t.fraction) && (t.seconds.None? ==> t.fraction == "")
    && GoodZone(t.zone)
  }

  predicate Good(w: DateText) {
    && w.year < 10000 && (!w.YearOnly? ==> w.month < 100) && (w.FullDate? || w.DateTime? ==> w.date < 100)
    && (w.DateTime? ==> GoodTime(w.time))
  }

  function SpellZone(z: ZoneText): string
    requires GoodZone(z)
  {
    match z
    case NoZone => ""
    case Z => "Z"
    case HoursOnly(sign, h) => [sign] + ZeroPad(h)
    case HoursMinutes(sign, h, colon, m) => [sign] + ZeroPad(h) + (if colon then ":" else "") + ZeroPad(m)
  }

  function SpellSeconds(t: TimeText): string
    requires GoodTime(t)
  {
    if t.seconds.None? then ""
    else ":" + ZeroPad(t.seconds.value) + if t.fraction == "" then "" else "." + t.fraction
  }

  function SpellTime(t: TimeText): string
    requires GoodTime(t)
  {
    [t.sep] + ZeroPad(t.hours) + ":" + ZeroPad(t.minutes) + SpellSeconds(t) + SpellZone(t.zone)
  }

  function Spell(w: DateText): string
    requires Good(w)
  {
    match w
    case YearOnly(y) => Four(y)
    case YearMonth(y, m) => Four(y) + "-" + ZeroPad(m)
    case FullDate(y, m, d) => Four(y) + "-" + ZeroPad(m) + "-" + ZeroPad(d)
    case DateTime(y, m, d, t) => Four(y) + "-" + ZeroPad(m) + "-" + ZeroPad(d) + SpellTime(t)
  }

  // --- what it denotes ---

  /** Minutes to add for UTC: a zone ahead of UTC has them taken off. */
  function Denoted(z: ZoneText): Zone {
    match z
    case NoZone => Unzoned
    case Z => Zulu
    case HoursOnly(sign, h) => Offset(if sign == '+' then -60 * h else 60 * h)
    case HoursMinutes(sign, h, _, m) => Offset(if sign == '+' then -60 * h - m else 60 * h + m)
  }

  function Denotes(w: DateText): Fields {
    match w
    case YearOnly(y) => Fields(y, None, None, 0, 0, 0, "", Unzoned)
    case YearMonth(y, m) => Fields(y, Some(m), None, 0, 0, 0, "", Unzoned)
    case FullDate(y, m, d) => Fields(y, Some(m), Some(d), 0, 0, 0, "", Unzoned)
    case DateTime(y, m, d, t) =>
      Fields(y, Some(m), Some(d), t.hours, t.minutes, if t.seconds.Some? then t.seconds.value else 0, t.fraction,
             Denoted(t.zone))
  }

  // --- reading what is written ---

  lemma Cut(s: string, i: nat, u: string, v: string)
    requires i <= |s| && s[i..] == u + v
    ensures i + |u| <= |s| && s[i..i + |u|] == u && s[i + |u|..] == v
  {
    assert |s| == i + |u| + |v|;
    assert s[i..][..|u|] == u && s[i..][|u|..] == v;
  }

  lemma Paste(s: string, i: nat, j: nat)
    requires i <= j <= |s|
    ensures s[i..] == s[i..j] + s[j..]
  {
  }

  lemma CharAt(s: string, i: nat, c: char)
    requires i < |s|
    ensures s[i..i + 1] == [c] <==> s[i] == c
  {
    assert s[i..i + 1] == [s[i]];
  }

  /** Two characters are the digits of their number. */
  lemma PadAt(s: string, i: nat, n: nat)
    requires i + 2 <= |s| && n < 100
    ensures s[i..i + 2] == ZeroPad(n) <==> HasDigits(s, i, 2) && Two(s, i) == n
  {
    hide Digit, HasDigits, Two;
    assert s[i..i + 2] == [s[i], s[i + 1]];
    if s[i..i + 2] == ZeroPad(n) {
      assert [s[i], s[i + 1]][0] == ZeroPad(n)[0] && [s[i], s[i + 1]][1] == ZeroPad(n)[1];
      TwoBack(s, i, n);
    }
    if HasDigits(s, i, 2) {
      PadOfTwo(s, i);
    }
  }

  lemma PadOfTwo(s: string, i: nat)
    requires HasDigits(s, i, 2)
    ensures Two(s, i) < 100 && ZeroPad(Two(s, i)) == [s[i], s[i + 1]]
  {
    var a, b := DigitValue(s[i]), DigitValue(s[i + 1]);
    assert (10 * a + b) / 10 == a && (10 * a + b) % 10 == b;
    assert Digit(a) == s[i] && Digit(b) == s[i + 1];
  }

  /** The zone read at `i` is the one written there. */
  lemma ZoneSpelled(s: string, i: nat, f: Fields, z: ZoneText)
    requires i <= |s| && f.zone.Unzoned? && GoodZone(z) && s[i..] == SpellZone(z)
    ensures MatchZone(s, i, f) == Some(f.(zone := Denoted(z)))
  {
    hide ZeroPad, HasDigits, Two;
    match z
    case NoZone =>
      assert i == |s| && f == f.(zone := Denoted(z));
    case Z =>
      assert s[i..][0] == 'Z';
    case HoursOnly(sign, h) =>
      Cut(s, i, [sign], ZeroPad(h));
      Cut(s, i + 1, ZeroPad(h), "");
      CharAt(s, i, sign);
      PadAt(s, i + 1, h);
    case HoursMinutes(sign, h, colon, m) =>
      HoursMinutesSpelled(s, i, f, sign, h, colon, m);
  }

  lemma HoursMinutesSpelled(s: string, i: nat, f: Fields, sign: char, h: nat, colon: bool, m: nat)
    requires i <= |s| && Sign(sign) && h < 100 && m < 100
    requires s[i..] == SpellZone(HoursMinutes(sign, h, colon, m))
    ensures MatchZone(s, i, f) == Some(f.(zone := Denoted(HoursMinutes(sign, h, colon, m))))
  {
    hide ZeroPad, HasDigits, Two, IsDigit, DigitsEnd;
    var mark := if colon then ":" else "";
    assert s[i..] == [sign] + (ZeroPad(h) + (mark + ZeroPad(m)));
    Cut(s, i, [sign], ZeroPad(h) + (mark + ZeroPad(m)));
    Cut(s, i + 1, ZeroPad(h), mark + ZeroPad(m));
    Cut(s, i + 3, mark, ZeroPad(m));
    var j := i + 3 + |mark|;
    assert s[j..j + 2] == s[j..];
    CharAt(s, i, sign);
    PadAt(s, i + 1, h);
    PadAt(s, j, m);
    if colon {
      CharAt(s, i + 3, ':');
    } else {
      NoColon(s, i + 3);
    }
  }

  lemma NoColon(s: string, i: nat)
    requires HasDigits(s, i, 2)
    ensures i < |s| && s[i] != ':'
  {
  }

  /** What is read as a zone is the writing of one. */
  lemma ZoneRead(s: string, i: nat, f: Fields) returns (z: ZoneText)
    requires i <= |s| && f.zone.Unzoned? && MatchZone(s, i, f).Some?
    ensures GoodZone(z) && s[i..] == SpellZone(z)
    ensures MatchZone(s, i, f) == Some(f.(zone := Denoted(z)))
  {
    hide ZeroPad, HasDigits, Two;
    if i == |s| {
      z := NoZone;
      assert f == f.(zone := Denoted(z));
    } else if s[i] == 'Z' {
      z := Z;
    } else {
      TwoSmall(s, i + 1);
      PadAt(s, i + 1, Two(s, i + 1));
      CharAt(s, i, s[i]);
      Paste(s, i, i + 1);
      Paste(s, i + 1, i + 3);
      if i + 3 == |s| {
        z := HoursOnly(s[i], Two(s, i + 1));
        assert s[i + 3..] == "";
      } else {
        z := MinutesRead(s, i, f);
      }
    }
  }

  lemma TwoSmall(s: string, i: nat)
    requires HasDigits(s, i, 2)
    ensures i + 2 <= |s| && Two(s, i) < 100
  {
  }

  lemma MinutesRead(s: string, i: nat, f: Fields) returns (z: ZoneText)
    requires i + 3 < |s| && Sign(s[i]) && HasDigits(s, i + 1, 2) && MatchZone(s, i, f).Some?
    requires s[i..] == [s[i]] + s[i + 1..] && s[i + 1..] == ZeroPad(Two(s, i + 1)) + s[i + 3..]
    ensures GoodZone(z) && s[i..] == SpellZone(z)
    ensures MatchZone(s, i, f) == Some(f.(zone := Denoted(z)))
  {
    hide ZeroPad, HasDigits, Two;
    var colon := s[i + 3] == ':';
    var j := if colon then i + 4 else i + 3;
    TwoSmall(s, i + 1);
    TwoSmall(s, j);
    PadAt(s, j, Two(s, j));
    assert s[j..j + 2] == s[j..];
    Paste(s, i + 3, j);
    CharAt(s, i + 3, ':');
    z := HoursMinutes(s[i], Two(s, i + 1), colon, Two(s, j));
    var mark := if colon then ":" else "";
    assert s[i + 3..] == mark + ZeroPad(Two(s, j));
    assert [s[i]] + (ZeroPad(Two(s, i + 1)) + (mark + ZeroPad(Two(s, j)))) == SpellZone(z);
  }

  lemma ZoneStart(z: ZoneText)
    requires GoodZone(z)
    ensures SpellZone(z) != "" ==> SpellZone(z)[0] == 'Z' || Sign(SpellZone(z)[0])
  {
  }

  lemma {:induction false} DigitsEndAt(s: string, i: nat, u: string, v: string)
    requires i <= |s| && s[i..] == u + v && AllDigits(u) && (v != "" ==> !IsDigit(v[0]))
    ensures DigitsEnd(s, i) == i + |u|
    decreases |u|
  {
    hide IsDigit;
    Cut(s, i, u, v);
    if u == "" {
      assert v != "" ==> s[i] == v[0];
    } else {
      assert s[i] == u[0];
      assert s[i + 1..] == u[1..] + v;
      DigitsEndAt(s, i + 1, u[1..], v);
    }
  }

  ghost predicate NoTime(f: Fields) {
    f.seconds == 0 && f.fraction == "" && f.zone.Unzoned?
  }

  function WithSeconds(f: Fields, t: TimeText): Fields {
    f.(seconds := if t.seconds.Some? then t.seconds.value else 0, fraction := t.fraction, zone := Denoted(t.zone))
  }

  lemma SecondsSpelled(s: string, f: Fields, t: TimeText)
    requires |s| >= 16 && NoTime(f) && GoodTime(t) && s[16..] == SpellSeconds(t) + SpellZone(t.zone)
    ensures MatchSeconds(s, f) == Some(WithSeconds(f, t))
  {
    hide ZeroPad, HasDigits, Two, DigitsEnd, SpellZone, MatchZone, GoodZone, Denoted, IsDigit, AllDigits;
    if t.seconds.None? {
      NoSecondsSpelled(s, f, t);
    } else {
      var dot := if t.fraction == "" then "" else "." + t.fraction;
      SecondsAt(s, t.seconds.value, dot, SpellZone(t.zone));
      FractionSpelled(s, f.(seconds := t.seconds.value), t, dot + SpellZone(t.zone));
    }
  }

  lemma NoSecondsSpelled(s: string, f: Fields, t: TimeText)
    requires |s| >= 16 && NoTime(f) && GoodTime(t) && t.seconds.None? && s[16..] == SpellSeconds(t) + SpellZone(t.zone)
    ensures MatchSeconds(s, f) == Some(WithSeconds(f, t))
  {
    hide HasDigits, Two, DigitsEnd, SpellZone, MatchZone, GoodZone, Denoted, IsDigit, AllDigits;
    ZoneStart(t.zone);
    assert s[16..] == SpellZone(t.zone);
    assert |s| > 16 ==> s[16] == s[16..][0];
    assert f.(zone := Denoted(t.zone)) == WithSeconds(f, t);
    ZoneSpelled(s, 16, f, t.zone);
  }

  lemma SecondsAt(s: string, n: nat, dot: string, zone: string)
    requires |s| >= 16 && n < 100 && s[16..] == ":" + ZeroPad(n) + dot + zone
    ensures |s| >= 19 && s[16] == ':' && HasDigits(s, 17, 2) && Two(s, 17) == n && s[19..] == dot + zone
  {
    hide ZeroPad, HasDigits, Two;
    assert s[16..] == ":" + (ZeroPad(n) + (dot + zone));
    Cut(s, 16, ":", ZeroPad(n) + (dot + zone));
    Cut(s, 17, ZeroPad(n), dot + zone);
    CharAt(s, 16, ':');
    PadAt(s, 17, n);
  }

  lemma TimeParts(t: TimeText)
    requires GoodTime(t)
    ensures GoodZone(t.zone) && AllDigits(t.fraction) && (t.seconds.None? ==> t.fraction == "")
  {
  }

  lemma NoDigitSign()
    ensures !IsDigit('Z') && !IsDigit('+') && !IsDigit('-')
  {
  }

  lemma FractionSpelled(s: string, f: Fields, t: TimeText, rest: string)
    requires |s| >= 19 && f.fraction == "" && f.zone.Unzoned? && GoodTime(t)
    requires s[19..] == rest == (if t.fraction == "" then "" else "." + t.fraction) + SpellZone(t.zone)
    ensures var g := f.(fraction := t.fraction, zone := Denoted(t.zone));
      if |s| > 19 && s[19] == '.' && DigitsEnd(s, 20) > 20
      then MatchZone(s, DigitsEnd(s, 20), f.(fraction := s[20..DigitsEnd(s, 20)])) == Some(g)
      else MatchZone(s, 19, f) == Some(g)
  {
    hide DigitsEnd, SpellZone, MatchZone, GoodZone, Denoted, IsDigit, HasDigits, AllDigits, GoodTime, SpellSeconds;
    TimeParts(t);
    if t.fraction == "" {
      assert s[19..] == SpellZone(t.zone);
      assert f.(zone := Denoted(t.zone)) == f.(fraction := t.fraction, zone := Denoted(t.zone));
      NoPoint(s, t.zone);
      ZoneSpelled(s, 19, f, t.zone);
    } else {
      ZoneStart(t.zone);
      NoDigitSign();
      PointAndDigits(s, t.fraction, SpellZone(t.zone));
      ZoneSpelled(s, 20 + |t.fraction|, f.(fraction := t.fraction), t.zone);
    }
  }

  lemma NoPoint(s: string, z: ZoneText)
    requires |s| >= 19 && GoodZone(z) && s[19..] == SpellZone(z)
    ensures !(|s| > 19 && s[19] == '.')
  {
    hide SpellZone, GoodZone;
    ZoneStart(z);
    assert |s| > 19 ==> s[19] == s[19..][0];
  }

  lemma PointAndDigits(s: string, fraction: string, zone: string)
    requires |s| >= 19 && AllDigits(fraction) && fraction != "" && (zone != "" ==> !IsDigit(zone[0]))
    requires s[19..] == "." + fraction + zone
    ensures |s| > 19 && s[19] == '.' && DigitsEnd(s, 20) == 20 + |fraction|
    ensures s[20..20 + |fraction|] == fraction && s[20 + |fraction|..] == zone
  {
    hide IsDigit, AllDigits, DigitsEnd, HasDigits;
    Assoc(".", fraction, zone);
    Cut(s, 19, ".", fraction + zone);
    Cut(s, 20, fraction, zone);
    CharAt(s, 19, '.');
    DigitsEndAt(s, 20, fraction, zone);
  }

  lemma TimeSpelled(s: string, f: Fields, t: TimeText)
    requires |s| > 10 && NoTime(f) && GoodTime(t) && s[10..] == SpellTime(t)
    ensures MatchTime(s, f) == Some(WithSeconds(f.(hours := t.hours, minutes := t.minutes), t))
  {
    hide ZeroPad, HasDigits, Two, SpellSeconds, SpellZone, MatchSeconds, GoodZone, WithSeconds;
    var tail := SpellSeconds(t) + SpellZone(t.zone);
    assert s[10..] == [t.sep] + (ZeroPad(t.hours) + (":" + (ZeroPad(t.minutes) + tail)));
    Cut(s, 10, [t.sep], ZeroPad(t.hours) + (":" + (ZeroPad(t.minutes) + tail)));
    Cut(s, 11, ZeroPad(t.hours), ":" + (ZeroPad(t.minutes) + tail));
    Cut(s, 13, ":", ZeroPad(t.minutes) + tail);
    Cut(s, 14, ZeroPad(t.minutes), tail);
    CharAt(s, 10, t.sep);
    CharAt(s, 13, ':');
    PadAt(s, 11, t.hours);
    PadAt(s, 14, t.minutes);
    SecondsSpelled(s, f.(hours := t.hours, minutes := t.minutes), t);
  }

  lemma FourAt(s: string, y: nat)
    requires |s| >= 4 && y < 10000
    ensures s[..4] == Four(y) <==> HasDigits(s, 0, 4) && 100 * Two(s, 0) + Two(s, 2) == y
  {
    hide ZeroPad, Two, HasDigits;
    assert s[..4] == s[0..2] + s[2..4];
    PadAt(s, 0, y / 100);
    PadAt(s, 2, y % 100);
    HalvesOfFour(s);
    if HasDigits(s, 0, 4) {
      TwoSmall(s, 0);
      TwoSmall(s, 2);
    }
    if s[..4] == Four(y) {
      assert s[0..2] == s[..4][..2] == ZeroPad(y / 100);
      assert s[2..4] == s[..4][2..] == ZeroPad(y % 100);
    }
  }

  lemma HalvesOfFour(s: string)
    requires |s| >= 4
    ensures HasDigits(s, 0, 4) <==> HasDigits(s, 0, 2) && HasDigits(s, 2, 2)
  {
  }

  /** Every way of writing a date is matched, and denotes what it says. */
  lemma SpelledIsMatched(w: DateText)
    requires Good(w)
    ensures Match(Spell(w)) == Some(Denotes(w))
  {
    hide ZeroPad, HasDigits, Two, Four, MatchTime, SpellTime, GoodTime;
    var s := Spell(w);
    match w
    case YearOnly(y) =>
      assert s[..4] == s;
      FourAt(s, y);
    case YearMonth(y, m) =>
      MonthSpelled(s, y, m, "");
    case FullDate(y, m, d) =>
      DateSpelled(s, y, m, d, "");
    case DateTime(y, m, d, t) =>
      DateSpelled(s, y, m, d, SpellTime(t));
      assert SpellTime(t) != "" by { TimeNotEmpty(t); }
      TimeSpelled(s, Fields(y, Some(m), Some(d), 0, 0, 0, "", Unzoned), t);
  }

  lemma TimeNotEmpty(t: TimeText)
    requires GoodTime(t)
    ensures SpellTime(t) != ""
  {
  }

  lemma MonthSpelled(s: string, y: nat, m: nat, rest: string)
    requires y < 10000 && m < 100 && s == Four(y) + "-" + ZeroPad(m) + rest
    ensures |s| == 7 + |rest| && HasDigits(s, 0, 4) && 100 * Two(s, 0) + Two(s, 2) == y
    ensures s[4] == '-' && HasDigits(s, 5, 2) && Two(s, 5) == m && s[7..] == rest
  {
    hide ZeroPad, HasDigits, Two, Four;
    assert s[0..] == Four(y) + ("-" + (ZeroPad(m) + rest));
    Cut(s, 0, Four(y), "-" + (ZeroPad(m) + rest));
    Cut(s, 4, "-", ZeroPad(m) + rest);
    Cut(s, 5, ZeroPad(m), rest);
    assert s[..4] == s[0..4];
    FourAt(s, y);
    CharAt(s, 4, '-');
    PadAt(s, 5, m);
  }

  lemma DateSpelled(s: string, y: nat, m: nat, d: nat, rest: string)
    requires y < 10000 && m < 100 && d < 100 && s == Four(y) + "-" + ZeroPad(m) + "-" + ZeroPad(d) + rest
    ensures |s| == 10 + |rest| && HasDigits(s, 0, 4) && 100 * Two(s, 0) + Two(s, 2) == y
    ensures s[4] == '-' && HasDigits(s, 5, 2) && Two(s, 5) == m
    ensures s[7] == '-' && HasDigits(s, 8, 2) && Two(s, 8) == d && s[10..] == rest
  {
    hide ZeroPad, HasDigits, Two, Four;
    assert s == Four(y) + "-" + ZeroPad(m) + ("-" + (ZeroPad(d) + rest));
    MonthSpelled(s, y, m, "-" + (ZeroPad(d) + rest));
    Cut(s, 7, "-", ZeroPad(d) + rest);
    Cut(s, 8, ZeroPad(d), rest);
    CharAt(s, 7, '-');
    PadAt(s, 8, d);
  }

  // --- whatever is matched is the writing of a date ---

  lemma DigitsRead(s: string, i: nat, j: nat)
    requires i <= j <= |s| && HasDigits(s, i, j - i)
    ensures AllDigits(s[i..j])
  {
  }

  lemma FractionRead(s: string, f: Fields) returns (fraction: string, zone: ZoneText)
    requires |s| >= 19 && f.fraction == "" && f.zone.Unzoned?
    requires var j := if |s| > 19 && s[19] == '.' && DigitsEnd(s, 20) > 20 then DigitsEnd(s, 20) else 19;
      MatchZone(s, j, if j > 19 then f.(fraction := s[20..j]) else f).Some?
    ensures AllDigits(fraction) && GoodZone(zone)
    ensures s[19..] == (if fraction == "" then "" else "." + fraction) + SpellZone(zone)
    ensures var j := if |s| > 19 && s[19] == '.' && DigitsEnd(s, 20) > 20 then DigitsEnd(s, 20) else 19;
      MatchZone(s, j, if j > 19 then f.(fraction := s[20..j]) else f)
      == Some(f.(fraction := fraction, zone := Denoted(zone)))
  {
    hide DigitsEnd, SpellZone, MatchZone, GoodZone, Denoted, IsDigit, HasDigits, AllDigits;
    if |s| > 19 && s[19] == '.' && DigitsEnd(s, 20) > 20 {
      var j := DigitsEnd(s, 20);
      fraction := s[20..j];
      DigitsRead(s, 20, j);
      Paste(s, 19, 20);
      Paste(s, 20, j);
      CharAt(s, 19, '.');
      zone := ZoneRead(s, j, f.(fraction := fraction));
      assert s[19..] == "." + (fraction + s[j..]);
    } else {
      fraction := "";
      zone := ZoneRead(s, 19, f);
      DigitsRead(s, 19, 19);
      assert s[19..19] == "";
    }
  }

  lemma SecondsWritten(s: string, dot: string, zone: string)
    requires |s| >= 19 && s[16] == ':' && HasDigits(s, 17, 2) && s[19..] == dot + zone
    ensures Two(s, 17) < 100 && s[16..] == ":" + ZeroPad(Two(s, 17)) + dot + zone
  {
    hide ZeroPad, HasDigits, Two;
    TwoSmall(s, 17);
    Paste(s, 16, 17);
    Paste(s, 17, 19);
    CharAt(s, 16, ':');
    PadAt(s, 17, Two(s, 17));
    assert s[16..] == ":" + (ZeroPad(Two(s, 17)) + (dot + zone));
  }

  /** The seconds and the zone of `t` are what stands at 16. */
  lemma SecondsRead(s: string, f: Fields, t: TimeText) returns (r: TimeText)
    requires |s| >= 16 && NoTime(f) && MatchSeconds(s, f).Some? && GoodTime(t)
    ensures GoodTime(r) && r.sep == t.sep && r.hours == t.hours && r.minutes == t.minutes
    ensures s[16..] == SpellSeconds(r) + SpellZone(r.zone) && MatchSeconds(s, f) == Some(WithSeconds(f, r))
  {
    hide ZeroPad, HasDigits, Two, DigitsEnd, SpellZone, MatchZone, GoodZone, Denoted, AllDigits, IsDigit;
    if |s| > 16 && s[16] == ':' && HasDigits(s, 17, 2) {
      TwoSmall(s, 17);
      var g := f.(seconds := Two(s, 17));
      var fraction, zone := FractionRead(s, g);
      r := t.(seconds := Some(Two(s, 17)), fraction := fraction, zone := zone);
      SecondsWritten(s, if fraction == "" then "" else "." + fraction, SpellZone(zone));
    } else {
      var zone := ZoneRead(s, 16, f);
      r := t.(seconds := None, fraction := "", zone := zone);
      DigitsRead(s, 16, 16);
      assert s[16..16] == "";
      assert f.(zone := Denoted(zone)) == WithSeconds(f, r);
    }
  }

  lemma TimeRead(s: string, f: Fields) returns (t: TimeText)
    requires |s| > 10 && NoTime(f) && MatchTime(s, f).Some?
    ensures GoodTime(t) && s[10..] == SpellTime(t)
    ensures MatchTime(s, f) == Some(WithSeconds(f.(hours := t.hours, minutes := t.minutes), t))
  {
    hide ZeroPad, HasDigits, Two, SpellSeconds, SpellZone, MatchSeconds, GoodZone, WithSeconds, AllDigits;
    TwoSmall(s, 11);
    TwoSmall(s, 14);
    PadAt(s, 11, Two(s, 11));
    PadAt(s, 14, Two(s, 14));
    CharAt(s, 10, s[10]);
    CharAt(s, 13, ':');
    NoZoneIsGood();
    t := SecondsRead(s, f.(hours := Two(s, 11), minutes := Two(s, 14)),
                     TimeText(s[10], Two(s, 11), Two(s, 14), None, "", NoZone));
    Paste(s, 10, 11);
    Paste(s, 11, 13);
    Paste(s, 13, 14);
    Paste(s, 14, 16);
    var tail := SpellSeconds(t) + SpellZone(t.zone);
    assert s[10..] == [t.sep] + (ZeroPad(t.hours) + (":" + (ZeroPad(t.minutes) + tail)));
  }

  lemma NoZoneIsGood()
    ensures GoodZone(NoZone) && AllDigits("")
  {
  }

  lemma DigitsFit(s: string, i: nat, n: nat)
    requires HasDigits(s, i, n)
    ensures i + n <= |s|
  {
  }

  lemma YearRead(s: string)
    requires HasDigits(s, 0, 4)
    ensures |s| >= 4 && HasDigits(s, 0, 2) && HasDigits(s, 2, 2)
    ensures 100 * Two(s, 0) + Two(s, 2) < 10000 && s[..4] == Four(100 * Two(s, 0) + Two(s, 2))
  {
    hide Two, HasDigits;
    DigitsFit(s, 0, 4);
    HalvesOfFour(s);
    TwoSmall(s, 0);
    TwoSmall(s, 2);
    FourAt(s, 100 * Two(s, 0) + Two(s, 2));
  }

  /** Whatever is matched is the writing of a date that denotes the fields found. */
  lemma MatchedIsSpelled(s: string) returns (w: DateText)
    requires Match(s).Some?
    ensures Good(w) && Spell(w) == s && Match(s) == Some(Denotes(w))
  {
    hide ZeroPad, HasDigits, Two, Four, MatchTime, SpellTime, GoodTime;
    YearRead(s);
    var y := 100 * Two(s, 0) + Two(s, 2);
    if |s| == 4 {
      w := YearOnly(y);
      assert s[..4] == s;
    } else {
      var m := Two(s, 5);
      TwoSmall(s, 5);
      PadAt(s, 5, m);
      CharAt(s, 4, '-');
      assert s[..7] == s[..4] + s[4..5] + s[5..7];
      if |s| == 7 {
        w := YearMonth(y, m);
        assert s[..7] == s;
      } else {
        w := DateRead(s, y, m);
      }
    }
  }

  lemma DateRead(s: string, y: nat, m: nat) returns (w: DateText)
    requires HasDigits(s, 0, 2) && HasDigits(s, 2, 2) && HasDigits(s, 5, 2)
    requires Match(s).Some? && |s| > 7 && y == 100 * Two(s, 0) + Two(s, 2) < 10000 && m == Two(s, 5) < 100
    requires s[..7] == Four(y) + "-" + ZeroPad(m)
    ensures Good(w) && Spell(w) == s && Match(s) == Some(Denotes(w))
  {
    hide ZeroPad, HasDigits, Two, Four, MatchTime, SpellTime, GoodTime;
    var d := Two(s, 8);
    TwoSmall(s, 8);
    PadAt(s, 8, d);
    CharAt(s, 7, '-');
    assert s[..10] == s[..7] + s[7..8] + s[8..10];
    if |s| == 10 {
      w := FullDate(y, m, d);
      assert s[..10] == s;
    } else {
      var t := TimeRead(s, Fields(y, Some(m), Some(d), 0, 0, 0, "", Unzoned));
      w := DateTime(y, m, d, t);
      assert s == s[..10] + s[10..];
    }
  }

  /** The pattern matches exactly the written dates, and finds what they denote. */
  lemma MatchIff(s: string, f: Fields)
    ensures Match(s) == Some(f) <==> exists w :: Good(w) && Spell(w) == s && Denotes(w) == f
  {
    hide Match, Spell, Good, Denotes;
    if Match(s) == Some(f) {
      var w := MatchedIsSpelled(s);
    }
    if w :| Good(w) && Spell(w) == s && Denotes(w) == f {
      SpelledIsMatched(w);
    }
  }
}
