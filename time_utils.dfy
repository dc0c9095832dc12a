/** `timestamp_to_iso` (utils/time_utils.py): a non-negative Unix timestamp
    to `YYYY-MM-DDTHH:MM:SSZ` in UTC, by proleptic Gregorian civil-date
    arithmetic counted from 1970-01-01. */
module TimeUtils {
  import opened Base
  import opened Text
  import opened Assoc

  datatype DateTime = DateTime(year: nat, month: nat, day: nat, hour: nat, minute: nat, second: nat)

  predicate IsLeap(y: nat) {
    y % 4 == 0 && (y % 100 != 0 || y % 400 == 0)
  }

  function DaysInYear(y: nat): nat {
    if IsLeap(y) then 366 else 365
  }

  function DaysInMonth(m: nat, y: nat): nat
    requires 1 <= m <= 12
  {
    if m == 2 then (if IsLeap(y) then 29 else 28)
    else if m == 4 || m == 6 || m == 9 || m == 11 then 30
    else 31
  }

  /** Days in the months of year `y` before month `m` (so `m = 13` gives the
      whole year). */
  function DaysBeforeMonth(m: nat, y: nat): nat
    requires 1 <= m <= 13
  {
    [0, 31, 59, 90, 120, 151, 181, 212, 243, 273, 304, 334, 365][m - 1]
      + (if m > 2 && IsLeap(y) then 1 else 0)
  }

  lemma DaysBeforeMonthStep(m: nat, y: nat)
    requires 1 <= m <= 12
    ensures DaysBeforeMonth(m + 1, y) == DaysBeforeMonth(m, y) + DaysInMonth(m, y)
    ensures DaysBeforeMonth(13, y) == DaysInYear(y)
  {
  }

  /** Days from January 1st of `y0` to January 1st of `y1`. */
  function DaysBetween(y0: nat, y1: nat): nat
    requires y0 <= y1
    decreases y1 - y0
  {
    if y0 == y1 then 0 else DaysInYear(y0) + DaysBetween(y0 + 1, y1)
  }

  /** The year holding day `days` counted from January 1st of `y`, and the
      day within that year. */
  function YearOf(days: nat, y: nat): (r: (nat, nat))
    ensures r.0 >= y && r.1 < DaysInYear(r.0)
    ensures DaysBetween(y, r.0) + r.1 == days
    decreases days
  {
    if days < DaysInYear(y) then (y, days) else YearOf(days - DaysInYear(y), y + 1)
  }

  /** The month holding day `doy` of year `y`, counted from the start of
      month `m`, and the day within that month. */
  function MonthOf(doy: nat, m: nat, y: nat): (r: (nat, nat))
    requires 1 <= m <= 12
    requires DaysBeforeMonth(m, y) + doy < DaysInYear(y)
    ensures m <= r.0 <= 12 && r.1 < DaysInMonth(r.0, y)
    ensures DaysBeforeMonth(r.0, y) + r.1 == DaysBeforeMonth(m, y) + doy
    decreases 12 - m
  {
    DaysBeforeMonthStep(m, y);
    if doy < DaysInMonth(m, y) then (m, doy) else MonthOf(doy - DaysInMonth(m, y), m + 1, y)
  }

  /** What `datetime.fromtimestamp(t, timezone.utc)` holds. */
  function Civil(t: nat): (dt: DateTime)
  {
    var days := t / 86400;
    var secs := t % 86400;
    var yd := YearOf(days, 1970);
    DaysBeforeMonthStep(1, yd.0);
    var md := MonthOf(yd.1, 1, yd.0);
    DateTime(yd.0, md.0, md.1 + 1, secs / 3600, secs % 3600 / 60, secs % 60)
  }

  /** The timestamp of a civil date and time: the inverse of `Civil`. */
  function Seconds(dt: DateTime): int
    requires 1970 <= dt.year && 1 <= dt.month <= 12
  {
    (DaysBetween(1970, dt.year) + DaysBeforeMonth(dt.month, dt.year) + dt.day - 1) * 86400
      + dt.hour * 3600 + dt.minute * 60 + dt.second
  }

  ghost predicate ValidDateTime(dt: DateTime) {
    && 1970 <= dt.year
    && 1 <= dt.month <= 12
    && 1 <= dt.day <= DaysInMonth(dt.month, dt.year)
    && dt.hour < 24 && dt.minute < 60 && dt.second < 60
  }

  /** Every field of the decomposition is in range: month 1-12, a day that
      exists in that month of that year, hour below 24, minute and second
      below 60; and the decomposition reads back as the same timestamp. */
  lemma CivilValid(t: nat)
    ensures ValidDateTime(Civil(t))
    ensures Seconds(Civil(t)) == t
  {
    var dt := Civil(t);
    var days := t / 86400;
    var secs := t % 86400;
    var yd := YearOf(days, 1970);
    var md := MonthOf(yd.1, 1, yd.0);
    assert dt.year == yd.0 && dt.month == md.0 && dt.day == md.1 + 1;
    assert dt.hour * 3600 + dt.minute * 60 + dt.second == secs;
    assert DaysBetween(1970, dt.year) + DaysBeforeMonth(dt.month, dt.year) + dt.day - 1 == days;
  }

  /** `n` written in exactly `w` decimal digits, zero-padded on the left. */
  function Pad(n: nat, w: nat): (s: string)
    ensures |s| == w
  {
    if w == 0 then "" else Pad(n / 10, w - 1) + [DigitChar(n % 10)]
  }

  function Pow10(w: nat): nat {
    if w == 0 then 1 else 10 * Pow10(w - 1)
  }

  /** Zero-padded numbers of the same width sort as the numbers do. */
  lemma {:induction false} PadLt(x: nat, y: nat, w: nat)
    requires x < y < Pow10(w)
    ensures Lt(Pad(x, w), Pad(y, w))
  {
    var dx := [DigitChar(x % 10)];
    var dy := [DigitChar(y % 10)];
    if x / 10 < y / 10 {
      PadLt(x / 10, y / 10, w - 1);
      LtExtend(Pad(x / 10, w - 1), Pad(y / 10, w - 1), dx, dy);
    } else {
      assert "0123456789"[x % 10] < "0123456789"[y % 10];
      assert Lt(dx, dy);
      LtShared(Pad(x / 10, w - 1), dx, dy);
    }
  }

  // The text right-nested field by field, so that each step of a
  // comparison is one shared or same-width prefix.
  function SecondOn(dt: DateTime): string { Pad(dt.second, 2) + "Z" }
  function MinuteOn(dt: DateTime): string { Pad(dt.minute, 2) + (":" + SecondOn(dt)) }
  function HourOn(dt: DateTime): string { Pad(dt.hour, 2) + (":" + MinuteOn(dt)) }
  function DayOn(dt: DateTime): string { Pad(dt.day, 2) + ("T" + HourOn(dt)) }
  function MonthOn(dt: DateTime): string { Pad(dt.month, 2) + ("-" + DayOn(dt)) }

  /** `strftime("%Y-%m-%dT%H:%M:%SZ")`. */
  function Format(dt: DateTime): (s: string)
    ensures |s| == 20
  {
    Pad(dt.year, 4) + ("-" + MonthOn(dt))
  }

  /** Timestamps from 2^63 on do not fit the platform's signed 64-bit
      `time_t`. */
  const TimeTBound: nat := 0x8000_0000_0000_0000

  /** The last year `gmtime` represents: its `tm_year` is a C `int` counting
      from 1900. */
  const MaxTmYear: nat := 0x7FFF_FFFF + 1900

  /** `timestamp_to_iso(t)` through `datetime.fromtimestamp(t, timezone.utc)`:
      OverflowError for a timestamp beyond `time_t`, OSError (EOVERFLOW) when
      `gmtime` cannot hold the year, ValueError when the year passes 9999, the
      last year `datetime` represents. */
  function TimestampToIso(t: nat): (r: Result<string>)
    ensures r.Ok? <==> Civil(t).year <= 9999
    ensures t >= TimeTBound ==> r.Err? && r.error.OverflowError?
    ensures t < TimeTBound && Civil(t).year > MaxTmYear ==> r.Err? && r.error.OSError?
    ensures t < TimeTBound && 9999 < Civil(t).year <= MaxTmYear ==> r.Err? && r.error.ValueError?
  {
    if t >= TimeTBound then
      CivilYearAtLeast(t);
      Err(OverflowError("timestamp out of range for platform time_t"))
    else
      var dt := Civil(t);
      if dt.year > MaxTmYear then Err(OSError("Value too large for defined data type"))
      else if dt.year > 9999 then Err(ValueError("year " + NatToDecimal(dt.year) + " is out of range"))
      else Ok(Format(dt))
  }

  /** No year holds more than 366 days. */
  lemma {:induction false} YearOfAtLeast(days: nat, y: nat)
    ensures YearOf(days, y).0 >= y + days / 366
    decreases days
  {
    if days >= DaysInYear(y) {
      YearOfAtLeast(days - DaysInYear(y), y + 1);
    }
  }

  /** A timestamp beyond `time_t` is far past the year 9999. */
  lemma CivilYearAtLeast(t: nat)
    requires t >= TimeTBound
    ensures Civil(t).year > 9999
  {
    YearOfAtLeast(t / 86400, 1970);
  }

  lemma EpochCivil()
    ensures Civil(0) == DateTime(1970, 1, 1, 0, 0, 0)
  {
    assert YearOf(0, 1970) == (1970, 0);
    DaysBeforeMonthStep(1, 1970);
    assert MonthOf(0, 1, 1970) == (1, 0);
  }

  lemma EpochYear()
    ensures Pad(1970, 4) == "1970"
  {
    assert DigitChar(1) == '1' && DigitChar(9) == '9' && DigitChar(7) == '7' && DigitChar(0) == '0';
    assert Pad(1, 1) == Pad(0, 0) + ['1'] == "1";
    assert Pad(19, 2) == Pad(1, 1) + ['9'] == "19";
    assert Pad(197, 3) == Pad(19, 2) + ['7'] == "197";
    assert Pad(1970, 4) == Pad(197, 3) + ['0'];
  }

  lemma EpochSmall()
    ensures Pad(1, 2) == "01" && Pad(0, 2) == "00"
  {
    assert DigitChar(1) == '1' && DigitChar(0) == '0';
    assert Pad(0, 1) == Pad(0, 0) + ['0'] == "0";
    assert Pad(1, 2) == Pad(0, 1) + ['1'];
    assert Pad(0, 2) == Pad(0, 1) + ['0'];
  }

  /** The epoch prints as 1970-01-01T00:00:00Z. */
  lemma IsoOfEpoch()
    ensures TimestampToIso(0) == Ok("1970-01-01T00:00:00Z")
  {
    EpochCivil();
    FormatJoin(Civil(0), "1970", "01-01T00:00:00Z");
    assert "1970" + ("-" + "01-01T00:00:00Z") == "1970-01-01T00:00:00Z";
  }

  lemma EpochDate(dt: DateTime)
    requires dt == DateTime(1970, 1, 1, 0, 0, 0)
    ensures MonthOn(dt) == "01-01T00:00:00Z"
  {
    EpochSmall();
    EpochClock(dt);
    assert DayOn(dt) == "01" + ("T" + "00:00:00Z");
    assert MonthOn(dt) == "01" + ("-" + "01T00:00:00Z");
  }

  lemma EpochClock(dt: DateTime)
    requires dt == DateTime(1970, 1, 1, 0, 0, 0)
    ensures HourOn(dt) == "00:00:00Z"
  {
    EpochSmall();
    assert SecondOn(dt) == "00" + "Z";
    assert MinuteOn(dt) == "00" + (":" + "00Z");
    assert HourOn(dt) == "00" + (":" + "00:00Z");
  }

  lemma FormatJoin(dt: DateTime, year: string, rest: string)
    requires dt == DateTime(1970, 1, 1, 0, 0, 0) && year == "1970" && rest == "01-01T00:00:00Z"
    ensures Format(dt) == year + ("-" + rest)
  {
    EpochYear();
    EpochDate(dt);
  }

  /** The text of a representable timestamp is 20 characters, with the
      separators of `YYYY-MM-DDTHH:MM:SSZ` at their places. */
  lemma IsoShape(t: nat)
    requires TimestampToIso(t).Ok?
    ensures |TimestampToIso(t).value| == 20
    ensures var s := TimestampToIso(t).value;
      s[4] == '-' && s[7] == '-' && s[10] == 'T' && s[13] == ':' && s[16] == ':' && s[19] == 'Z'
    ensures var s := TimestampToIso(t).value;
      forall i | i in {0, 1, 2, 3, 5, 6, 8, 9, 11, 12, 14, 15, 17, 18} :: IsDigit(s[i])
  {
    var dt := Civil(t);
    FormatLayout(dt);
    PadDigits(dt.year, 4);
    PadDigits(dt.month, 2);
    PadDigits(dt.day, 2);
    PadDigits(dt.hour, 2);
    PadDigits(dt.minute, 2);
    PadDigits(dt.second, 2);
  }

  /** Where each field of `Format(dt)` sits. */
  lemma FormatLayout(dt: DateTime)
    ensures var s := Format(dt);
      && |s| == 20
      && s[4] == '-' && s[7] == '-' && s[10] == 'T' && s[13] == ':' && s[16] == ':' && s[19] == 'Z'
      && (forall i | 0 <= i < 4 :: s[i] == Pad(dt.year, 4)[i])
      && s[5] == Pad(dt.month, 2)[0] && s[6] == Pad(dt.month, 2)[1]
      && s[8] == Pad(dt.day, 2)[0] && s[9] == Pad(dt.day, 2)[1]
      && s[11] == Pad(dt.hour, 2)[0] && s[12] == Pad(dt.hour, 2)[1]
      && s[14] == Pad(dt.minute, 2)[0] && s[15] == Pad(dt.minute, 2)[1]
      && s[17] == Pad(dt.second, 2)[0] && s[18] == Pad(dt.second, 2)[1]
      && s[11..19] == Pad(dt.hour, 2) + ":" + Pad(dt.minute, 2) + ":" + Pad(dt.second, 2)
  {
    Layout(Pad(dt.year, 4), Pad(dt.month, 2), Pad(dt.day, 2), Pad(dt.hour, 2), Pad(dt.minute, 2), Pad(dt.second, 2));
  }

  /** The layout of the nested text, for any fields of the right widths. */
  lemma Layout(y: string, mo: string, d: string, h: string, mi: string, sec: string)
    requires |y| == 4 && |mo| == 2 && |d| == 2 && |h| == 2 && |mi| == 2 && |sec| == 2
    ensures var s := y + ("-" + (mo + ("-" + (d + ("T" + (h + (":" + (mi + (":" + (sec + "Z"))))))))));
      && |s| == 20
      && s[4] == '-' && s[7] == '-' && s[10] == 'T' && s[13] == ':' && s[16] == ':' && s[19] == 'Z'
      && (forall i | 0 <= i < 4 :: s[i] == y[i])
      && s[5] == mo[0] && s[6] == mo[1] && s[8] == d[0] && s[9] == d[1]
      && s[11] == h[0] && s[12] == h[1] && s[14] == mi[0] && s[15] == mi[1]
      && s[17] == sec[0] && s[18] == sec[1]
      && s[11..19] == h + ":" + mi + ":" + sec
  {
    var s := y + ("-" + (mo + ("-" + (d + ("T" + (h + (":" + (mi + (":" + (sec + "Z"))))))))));
    var clock := h + ":" + mi + ":" + sec;
    assert |clock| == 8;
    forall i | 0 <= i < 8 ensures s[11..19][i] == clock[i] {
      assert s[11..19][i] == s[11 + i];
    }
  }

  lemma {:induction false} PadDigits(n: nat, w: nat)
    ensures AllDigits(Pad(n, w))
  {
    if w > 0 { PadDigits(n / 10, w - 1); }
  }

  /** The character positions 11-18 (`HH:MM:SS`) hold the time of day only. */
  lemma TimeOfDayText(dt: DateTime)
    ensures Format(dt)[11..19] == Pad(dt.hour, 2) + ":" + Pad(dt.minute, 2) + ":" + Pad(dt.second, 2)
  {
    FormatLayout(dt);
  }

  /** A representable timestamp prints as its civil time. */
  lemma IsoValue(t: nat)
    requires Civil(t).year <= 9999
    ensures TimestampToIso(t) == Ok(Format(Civil(t)))
  {
    if t >= TimeTBound {
      CivilYearAtLeast(t);
    }
  }

  /** A timestamp one day later shows the same `HH:MM:SS`. */
  lemma SameTimeNextDay(t: nat)
    requires TimestampToIso(t + 86400).Ok?
    ensures TimestampToIso(t).Ok?
    ensures TimestampToIso(t).value[11..19] == TimestampToIso(t + 86400).value[11..19]
  {
    IsoValue(t + 86400);
    CivilYearMonotone(t, t + 86400);
    IsoValue(t);
    DayLater(t);
    CivilTimeOfDay(t);
    CivilTimeOfDay(t + 86400);
    TimeOfDayText(Civil(t));
    TimeOfDayText(Civil(t + 86400));
  }

  lemma DayLater(t: nat)
    ensures (t + 86400) % 86400 == t % 86400
  {
  }

  lemma CivilTimeOfDay(t: nat)
    ensures Civil(t).hour == t % 86400 / 3600
    ensures Civil(t).minute == t % 86400 % 3600 / 60
    ensures Civil(t).second == t % 86400 % 60
  {
  }

  lemma DivOrder(a: nat, b: nat)
    requires a < b
    ensures a / 86400 <= b / 86400
    ensures a / 86400 == b / 86400 ==> a % 86400 < b % 86400
  {
  }

  lemma ClockOrder(s1: nat, s2: nat)
    requires s1 < s2 < 86400
    ensures || s1 / 3600 < s2 / 3600
            || (s1 / 3600 == s2 / 3600 && s1 % 3600 / 60 < s2 % 3600 / 60)
            || (s1 / 3600 == s2 / 3600 && s1 % 3600 / 60 == s2 % 3600 / 60 && s1 % 60 < s2 % 60)
  {
  }

  /** Strict lexicographic order of the six fields. */
  predicate Before(a: DateTime, b: DateTime) {
    || a.year < b.year
    || (a.year == b.year && a.month < b.month)
    || (a.year == b.year && a.month == b.month && a.day < b.day)
    || (a.year == b.year && a.month == b.month && a.day == b.day && a.hour < b.hour)
    || (a.year == b.year && a.month == b.month && a.day == b.day && a.hour == b.hour
        && a.minute < b.minute)
    || (a.year == b.year && a.month == b.month && a.day == b.day && a.hour == b.hour
        && a.minute == b.minute && a.second < b.second)
  }

  lemma {:induction false} YearOfMonotone(d1: nat, d2: nat, y: nat)
    requires d1 < d2
    ensures YearOf(d1, y).0 <= YearOf(d2, y).0
    ensures YearOf(d1, y).0 == YearOf(d2, y).0 ==> YearOf(d1, y).1 < YearOf(d2, y).1
    decreases d1
  {
    if d1 >= DaysInYear(y) {
      YearOfMonotone(d1 - DaysInYear(y), d2 - DaysInYear(y), y + 1);
    }
  }

  lemma {:induction false} MonthOfMonotone(d1: nat, d2: nat, m: nat, y: nat)
    requires 1 <= m <= 12 && d1 < d2
    requires DaysBeforeMonth(m, y) + d2 < DaysInYear(y)
    ensures MonthOf(d1, m, y).0 <= MonthOf(d2, m, y).0
    ensures MonthOf(d1, m, y).0 == MonthOf(d2, m, y).0 ==> MonthOf(d1, m, y).1 < MonthOf(d2, m, y).1
    decreases 12 - m
  {
    DaysBeforeMonthStep(m, y);
    if d1 >= DaysInMonth(m, y) {
      MonthOfMonotone(d1 - DaysInMonth(m, y), d2 - DaysInMonth(m, y), m + 1, y);
    }
  }

  lemma CivilYearMonotone(t1: nat, t2: nat)
    requires t1 <= t2
    ensures Civil(t1).year <= Civil(t2).year
  {
    if t1 / 86400 < t2 / 86400 {
      YearOfMonotone(t1 / 86400, t2 / 86400, 1970);
    }
  }

  /** Later timestamps decompose to later civil times. */
  lemma CivilMonotone(t1: nat, t2: nat)
    requires t1 < t2
    ensures Before(Civil(t1), Civil(t2))
  {
    var days1, days2 := t1 / 86400, t2 / 86400;
    DivOrder(t1, t2);
    if days1 < days2 {
      YearOfMonotone(days1, days2, 1970);
      var yd1, yd2 := YearOf(days1, 1970), YearOf(days2, 1970);
      if yd1.0 == yd2.0 {
        DaysBeforeMonthStep(1, yd1.0);
        MonthOfMonotone(yd1.1, yd2.1, 1, yd1.0);
      }
    } else {
      ClockOrder(t1 % 86400, t2 % 86400);
      CivilTimeOfDay(t1);
      CivilTimeOfDay(t2);
    }
  }

  /** The text order of two valid civil times is their time order. */
  lemma FormatMonotone(a: DateTime, b: DateTime)
    requires Before(a, b)
    requires a.year < 10000 && b.year < 10000
    requires a.month < 100 && b.month < 100 && a.day < 100 && b.day < 100
    requires a.hour < 100 && b.hour < 100 && a.minute < 100 && b.minute < 100
    requires a.second < 100 && b.second < 100
    ensures Lt(Format(a), Format(b))
  {
    assert Pow10(2) == 100 && Pow10(4) == 10000;
    if a.year < b.year {
      PadLt(a.year, b.year, 4);
      LtExtend(Pad(a.year, 4), Pad(b.year, 4), "-" + MonthOn(a), "-" + MonthOn(b));
      return;
    }
    assert Lt(MonthOn(a), MonthOn(b)) by {
      if a.month < b.month {
        PadLt(a.month, b.month, 2);
        LtExtend(Pad(a.month, 2), Pad(b.month, 2), "-" + DayOn(a), "-" + DayOn(b));
      } else {
        assert Lt(DayOn(a), DayOn(b)) by {
          if a.day < b.day {
            PadLt(a.day, b.day, 2);
            LtExtend(Pad(a.day, 2), Pad(b.day, 2), "T" + HourOn(a), "T" + HourOn(b));
          } else {
            assert Lt(HourOn(a), HourOn(b)) by {
              if a.hour < b.hour {
                PadLt(a.hour, b.hour, 2);
                LtExtend(Pad(a.hour, 2), Pad(b.hour, 2), ":" + MinuteOn(a), ":" + MinuteOn(b));
              } else {
                assert Lt(MinuteOn(a), MinuteOn(b)) by {
                  if a.minute < b.minute {
                    PadLt(a.minute, b.minute, 2);
                    LtExtend(Pad(a.minute, 2), Pad(b.minute, 2), ":" + SecondOn(a), ":" + SecondOn(b));
                  } else {
                    PadLt(a.second, b.second, 2);
                    LtExtend(Pad(a.second, 2), Pad(b.second, 2), "Z", "Z");
                  }
                }
                LtShared(":", MinuteOn(a), MinuteOn(b));
                LtShared(Pad(a.hour, 2), ":" + MinuteOn(a), ":" + MinuteOn(b));
              }
            }
            LtShared("T", HourOn(a), HourOn(b));
            LtShared(Pad(a.day, 2), "T" + HourOn(a), "T" + HourOn(b));
          }
        }
        LtShared("-", DayOn(a), DayOn(b));
        LtShared(Pad(a.month, 2), "-" + DayOn(a), "-" + DayOn(b));
      }
    }
    LtShared("-", MonthOn(a), MonthOn(b));
    LtShared(Pad(a.year, 4), "-" + MonthOn(a), "-" + MonthOn(b));
  }

  /** Text order of outputs is numeric order of timestamps. */
  lemma IsoOrderMatchesTime(t1: nat, t2: nat)
    requires t1 < t2
    requires TimestampToIso(t2).Ok?
    ensures TimestampToIso(t1).Ok?
    ensures Lt(TimestampToIso(t1).value, TimestampToIso(t2).value)
  {
    CivilYearMonotone(t1, t2);
    CivilMonotone(t1, t2);
    CivilValid(t1);
    CivilValid(t2);
    FormatMonotone(Civil(t1), Civil(t2));
  }
}
