/** The `strftime` fields the identifier generator reads from the UTC clock,
    computed from a count of seconds since 1970-01-01T00:00:00Z with the
    days-to-civil conversion of the proleptic Gregorian calendar. */
module Calendar {
  import opened Text

  datatype DateTime = DateTime(year: int, month: int, day: int, hour: int, minute: int, second: int)

  /** Leap years of the proleptic Gregorian calendar. */
  predicate IsLeapYear(y: int) {
    y % 4 == 0 && (y % 100 != 0 || y % 400 == 0)
  }

  function DaysInMonth(y: int, m: int): (n: int)
    requires 1 <= m <= 12
    ensures 28 <= n <= 31
  {
    if m == 2 then (if IsLeapYear(y) then 29 else 28)
    else if m == 4 || m == 6 || m == 9 || m == 11 then 30
    else 31
  }

  /** Days of a 400-year era, which starts on 1 March, before its year `yoe`. */
  function DaysBeforeYear(yoe: int): int {
    365 * yoe + yoe / 4 - yoe / 100
  }

  /** Days of a year that starts on 1 March before its month `mp` (0 is
      March, 11 is February). */
  function DaysBeforeMonth(mp: int): int {
    (153 * mp + 2) / 5
  }

  /** Calendar month of a March-based month index, and back. */
  function MonthOfIndex(mp: int): int {
    if mp < 10 then mp + 3 else mp - 9
  }

  function IndexOfMonth(m: int): int {
    if m > 2 then m - 3 else m + 9
  }

  /** Year of the era holding day `doe` of the era. */
  function YearOfEra(doe: int): int {
    (doe - doe / 1460 + doe / 36524 - doe / 146096) / 365
  }

  /** Within century `k` (0 to 3), four-year block `q` and day `r` of the
      block, the year of the era is the block's first year plus the number
      of whole years of the block before day `r`. */
  lemma BlockYear(k: int, q: int, r: int)
    requires 0 <= k < 4 && 0 <= q < 25 && 0 <= r < 1461 && (q == 24 ==> r < 1460)
    ensures YearOfEra(36524 * k + 1461 * q + r) == 100 * k + 4 * q + (r - (24 * k + q + r) / 1460) / 365
  {
    var doe := 36524 * k + 1461 * q + r;
    var t := (24 * k + q + r) / 1460;
    assert doe / 1460 == 25 * k + q + t;
    assert doe / 36524 == k;
    assert doe / 146096 == 0;
  }

  /** In the same terms, the day of the year is at most 365, and 365 only on
      the last day of a four-year block that does not close a century. */
  lemma BlockDay(k: int, q: int, r: int)
    requires 0 <= k < 4 && 0 <= q < 25 && 0 <= r < 1461 && (q == 24 ==> r < 1460)
    ensures var j := (r - (24 * k + q + r) / 1460) / 365;
      var yoe := 100 * k + 4 * q + j;
      && 0 <= j < 4
      && 0 <= 36524 * k + 1461 * q + r - DaysBeforeYear(yoe) <= 365
      && (36524 * k + 1461 * q + r - DaysBeforeYear(yoe) == 365 ==> j == 3 && q < 24)
  {
    var t := (24 * k + q + r) / 1460;
    var j := (r - t) / 365;
    var yoe := 100 * k + 4 * q + j;
    assert 0 <= t <= 1 && 0 <= j < 4;
    assert yoe / 4 == 25 * k + q && yoe / 100 == k;
    assert 36524 * k + 1461 * q + r - DaysBeforeYear(yoe) == r - 365 * j;
  }

  /** The year after the last full year of such a block is a leap year of
      the era that is not a century. */
  lemma BlockEndYear(k: int, q: int)
    requires 0 <= k < 4 && 0 <= q < 24
    ensures (100 * k + 4 * q + 4) % 4 == 0 && (100 * k + 4 * q + 4) % 100 != 0
  {
    assert (100 * k + 4 * q + 4) / 4 == 25 * k + q + 1;
    assert (100 * k + 4 * q + 4) / 100 == k;
  }

  /** The year of the era is in range, its day of the year is at most 365,
      and day 365 is 29 February of the following calendar year, which is
      then a leap year. */
  lemma YearOfEraBounds(doe: int)
    requires 0 <= doe < 146097
    ensures var yoe := YearOfEra(doe);
      && 0 <= yoe < 400
      && 0 <= doe - DaysBeforeYear(yoe) <= 365
      && (doe - DaysBeforeYear(yoe) == 365 ==>
            (yoe + 1) % 4 == 0 && ((yoe + 1) % 100 != 0 || yoe == 399))
  {
    if doe == 146096 {
      assert YearOfEra(doe) == 399;
    } else {
      // doe = 36524 k + 1461 q + r: century k, four-year block q, day r of the block
      var k := doe / 36524;
      var q := (doe - 36524 * k) / 1461;
      var r := doe - 36524 * k - 1461 * q;
      assert 0 <= k < 4 && 0 <= q < 25 && 0 <= r < 1461 && (q == 24 ==> r < 1460);
      BlockYear(k, q, r);
      BlockDay(k, q, r);
      if q < 24 {
        BlockEndYear(k, q);
      }
    }
  }

  /** The month index and day of month of day `doy` of a March-based year:
      the day fits the month, and 29 February is day 365. */
  lemma MonthOfDay(doy: int)
    requires 0 <= doy <= 365
    ensures var mp := MonthIndex(doy);
      var d := doy - DaysBeforeMonth(mp) + 1;
      && 0 <= mp < 12
      && 1 <= d <= 31
      && (mp in {1, 3, 6, 8} ==> d <= 30)
      && (mp == 11 ==> d <= 28 || (d == 29 && doy == 365))
  {
  }

  /** Leap years repeat every 400 years. */
  lemma LeapAcrossEras(a: int, era: int)
    ensures a % 4 == 0 && (a % 100 != 0 || a == 400) ==> IsLeapYear(a + era * 400)
  {
    if a % 4 == 0 && (a % 100 != 0 || a == 400) {
      var y := a + era * 400;
      if a == 400 {
        MultipleOf400(y, era + 1);
      } else {
        ShiftByCenturies(a, era * 4);
      }
    }
  }

  lemma MultipleOf400(y: int, n: int)
    requires y == 400 * n
    ensures IsLeapYear(y)
  {
  }

  lemma ShiftByCenturies(a: int, c: int)
    ensures (a + 100 * c) % 4 == a % 4 && (a + 100 * c) % 100 == a % 100
  {
    assert (a + 100 * c) / 4 == a / 4 + 25 * c;
    assert (a + 100 * c) / 100 == a / 100 + c;
  }

  /** Calendar date (year, month, day) of a day count since 1970-01-01
      (Howard Hinnant's `civil_from_days`), taken in steps: the 400-year era
      and day of the era, then the year of the era and day of the year, then
      the month and day of the month. It is a valid date
      (`CivilFromDaysValid`), and `DaysFromCivil` recovers the count
      (`CivilRoundTrip`). Dafny's `/` and `%` floor for a positive divisor,
      which is what the conversion needs for days before 1970 too. */
  function CivilFromDays(days: int): (int, int, int) {
    CivilOfEraDay((days + 719468) / 146097, (days + 719468) % 146097)
  }

  function CivilOfEraDay(era: int, doe: int): (int, int, int) {
    CivilOfYearDay(era, YearOfEra(doe), doe - DaysBeforeYear(YearOfEra(doe)))
  }

  function CivilOfYearDay(era: int, yoe: int, doy: int): (int, int, int) {
    CivilOfMonthDay(era, yoe, MonthIndex(doy), doy - DaysBeforeMonth(MonthIndex(doy)) + 1)
  }

  /** The March-based month holding day `doy` of a March-based year. */
  function MonthIndex(doy: int): int {
    (5 * doy + 2) / 153
  }

  /** January and February belong to the following calendar year. */
  function CivilOfMonthDay(era: int, yoe: int, mp: int, d: int): (int, int, int) {
    var m := MonthOfIndex(mp);
    (yoe + era * 400 + (if m <= 2 then 1 else 0), m, d)
  }

  /** Every day count gives a month from 1 to 12 and a day that exists in
      that month of that year, 29 February only in leap years. */
  lemma CivilFromDaysValid(days: int)
    ensures var (y, m, d) := CivilFromDays(days); 1 <= m <= 12 && 1 <= d <= DaysInMonth(y, m)
  {
    var era, doe := (days + 719468) / 146097, (days + 719468) % 146097;
    YearOfEraBounds(doe);
    var yoe := YearOfEra(doe);
    var doy := doe - DaysBeforeYear(yoe);
    YearDayValid(era, yoe, doy);
    assert CivilFromDays(days) == CivilOfEraDay(era, doe) == CivilOfYearDay(era, yoe, doy);
  }

  /** A day of the year from 0 to 364, or 365 when the following calendar
      year is a leap year, gives a valid date. */
  lemma YearDayValid(era: int, yoe: int, doy: int)
    requires 0 <= doy <= 365
    requires doy == 365 ==> (yoe + 1) % 4 == 0 && ((yoe + 1) % 100 != 0 || yoe == 399)
    ensures var (y, m, d) := CivilOfYearDay(era, yoe, doy); 1 <= m <= 12 && 1 <= d <= DaysInMonth(y, m)
  {
    MonthOfDay(doy);
    LeapAcrossEras(yoe + 1, era);
  }

  /** Day count since 1970-01-01 of a calendar date. */
  function DaysFromCivil(y: int, m: int, d: int): int {
    var y' := if m <= 2 then y - 1 else y;
    var era := y' / 400;
    var yoe := y' - era * 400;
    era * 146097 + DaysBeforeYear(yoe) + DaysBeforeMonth(IndexOfMonth(m)) + d - 1 - 719468
  }

  /** `DaysFromCivil` of a date given by its era, year of the era, March-based
      month and day of month. */
  lemma DaysFromEraDate(era: int, yoe: int, mp: int, d: int)
    requires 0 <= yoe < 400 && 0 <= mp < 12
    ensures var (y, m, d') := CivilOfMonthDay(era, yoe, mp, d);
      DaysFromCivil(y, m, d') == era * 146097 + DaysBeforeYear(yoe) + DaysBeforeMonth(mp) + d - 1 - 719468
  {
    var m := MonthOfIndex(mp);
    assert IndexOfMonth(m) == mp && (m <= 2 <==> mp >= 10);
    assert (yoe + era * 400) / 400 == era;
  }

  /** The conversion loses nothing: every day count is recovered from its
      date, so distinct days have distinct dates. */
  lemma {:induction false} CivilRoundTrip(days: int)
    ensures var (y, m, d) := CivilFromDays(days); DaysFromCivil(y, m, d) == days
  {
    var era, doe := (days + 719468) / 146097, (days + 719468) % 146097;
    YearOfEraBounds(doe);
    var yoe := YearOfEra(doe);
    var doy := doe - DaysBeforeYear(yoe);
    MonthOfDay(doy);
    var mp := MonthIndex(doy);
    var d := doy - DaysBeforeMonth(mp) + 1;
    assert CivilFromDays(days) == CivilOfMonthDay(era, yoe, mp, d);
    DaysFromEraDate(era, yoe, mp, d);
    assert era * 146097 + doe == days + 719468;
  }

  /** `datetime.utcfromtimestamp(t)` for whole seconds: the date is the one
      `t / 86400` days after 1970-01-01, the time the rest of the day. */
  function FromEpoch(t: int): (r: DateTime)
    ensures DaysFromCivil(r.year, r.month, r.day) == t / SecondsPerDayC
    ensures 1 <= r.month <= 12 && 1 <= r.day <= DaysInMonth(r.year, r.month)
    ensures 0 <= r.hour < 24 && 0 <= r.minute < 60 && 0 <= r.second < 60
    ensures r.hour * 3600 + r.minute * 60 + r.second == t % SecondsPerDayC
  {
    CivilFromDaysValid(t / SecondsPerDayC);
    CivilRoundTrip(t / SecondsPerDayC);
    var (y, m, d) := CivilFromDays(t / SecondsPerDayC);
    var s := t % SecondsPerDayC;
    var h, rest := s / 3600, s % 3600;
    assert s == h * 3600 + rest && 0 <= rest < 3600;
    assert rest == rest / 60 * 60 + rest % 60;
    DateTime(y, m, d, h, rest / 60, rest % 60)
  }

  const SecondsPerDayC: int := 86400

  /** Two zero-padded digits of a field (Python's %y, %m, %d, %H, %M, %S):
      they spell the field modulo 100. */
  function Two(n: int): (r: string)
    ensures |r| == 2 && AllDigits(r)
    ensures DigitsValue(r) == n % 100
  {
    Pad(n % 100, 2)
  }

  /** `strftime('%y')`: the year modulo 100. */
  function YY(t: int): (r: string)
    ensures |r| == 2 && AllDigits(r)
    ensures DigitsValue(r) == FromEpoch(t).year % 100
  {
    Two(FromEpoch(t).year)
  }

  /** A field below 100 is its own last two digits. */
  lemma TwoDigitField(n: int)
    requires 0 <= n < 100
    ensures n % 100 == n
  {
  }

  /** The fields `%y%m%d` of a date, two digits each. */
  function DateDigits(dt: DateTime): (r: string)
    ensures |r| == 6 && AllDigits(r)
    ensures r[..2] == Two(dt.year)
    ensures DigitsValue(r[..2]) == dt.year % 100 &&
      DigitsValue(r[2..4]) == dt.month % 100 && DigitsValue(r[4..]) == dt.day % 100
  {
    var yy, mm, dd := Two(dt.year), Two(dt.month), Two(dt.day);
    var r := yy + mm + dd;
    assert r[..2] == yy && r[2..4] == mm && r[4..] == dd;
    r
  }

  /** `strftime('%y%m%d')`: year modulo 100, month and day, two digits each. */
  function YYMMDD(t: int): (r: string)
    ensures |r| == 6 && AllDigits(r)
    ensures r[..2] == YY(t)
    ensures var dt := FromEpoch(t);
      DigitsValue(r[..2]) == dt.year % 100 &&
      DigitsValue(r[2..4]) == dt.month && DigitsValue(r[4..]) == dt.day
  {
    var dt := FromEpoch(t);
    TwoDigitField(dt.month);
    TwoDigitField(dt.day);
    DateDigits(dt)
  }

  /** The fields `%H%M%S` of a time of day, two digits each. */
  function TimeDigits(dt: DateTime): (r: string)
    ensures |r| == 6 && AllDigits(r)
    ensures DigitsValue(r[..2]) == dt.hour % 100 &&
      DigitsValue(r[2..4]) == dt.minute % 100 && DigitsValue(r[4..]) == dt.second % 100
  {
    var hh, mi, ss := Two(dt.hour), Two(dt.minute), Two(dt.second);
    var r := hh + mi + ss;
    assert r[..2] == hh && r[2..4] == mi && r[4..] == ss;
    r
  }

  /** `strftime('%y%m%d%H%M%S')`: the date as `YYMMDD`, then hour, minute and
      second, two digits each. */
  function YYMMDDHHMMSS(t: int): (r: string)
    ensures |r| == 12 && AllDigits(r)
    ensures r[..6] == YYMMDD(t)
    ensures var dt := FromEpoch(t);
      DigitsValue(r[..2]) == dt.year % 100 &&
      DigitsValue(r[2..4]) == dt.month && DigitsValue(r[4..6]) == dt.day &&
      DigitsValue(r[6..8]) == dt.hour && DigitsValue(r[8..10]) == dt.minute &&
      DigitsValue(r[10..]) == dt.second
  {
    var dt := FromEpoch(t);
    TwoDigitField(dt.hour);
    TwoDigitField(dt.minute);
    TwoDigitField(dt.second);
    var date, time := YYMMDD(t), TimeDigits(dt);
    var r := date + time;
    assert r[..6] == date && r[6..] == time;
    assert r[..2] == date[..2] && r[2..4] == date[2..4] && r[4..6] == date[4..];
    assert r[6..8] == time[..2] && r[8..10] == time[2..4] && r[10..] == time[4..];
    r
  }

  /** Two sample points of the conversion, as a sanity check: day 0 is 1970-01-01 and day 20088
      (the one holding second 1735689599) is 2024-12-31. */
  lemma KnownDates()
    ensures CivilFromDays(0) == (1970, 1, 1)
    ensures CivilFromDays(20088) == (2024, 12, 31)
  {
    assert 719468 / 146097 == 4 && 719468 - 4 * 146097 == 135080;
    assert (135080 - 135080 / 1460 + 135080 / 36524 - 135080 / 146096) / 365 == 369;
    assert 135080 - (365 * 369 + 369 / 4 - 369 / 100) == 306;
    assert (5 * 306 + 2) / 153 == 10 && 306 - (153 * 10 + 2) / 5 + 1 == 1;
    assert 739556 / 146097 == 5 && 739556 - 5 * 146097 == 9071;
    assert (9071 - 9071 / 1460 + 9071 / 36524 - 9071 / 146096) / 365 == 24;
    assert 9071 - (365 * 24 + 24 / 4 - 24 / 100) == 305;
    assert (5 * 305 + 2) / 153 == 9 && 305 - (153 * 9 + 2) / 5 + 1 == 31;
  }
}
