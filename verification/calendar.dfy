/** The proleptic Gregorian calendar behind every timestamp of the pipeline:
    days since 1970-01-01 to a civil date and back, and the `%Y-%m-%d` rendering
    of `format_date_utc8` (apps/umbreon-mobile/src/timeline.rs,
    apps/umbreon-mobile/src/storage.rs). Day numbers are split into 400-year eras of
    146097 days whose years start on March 1, so that the leap day ends a year. */
module Calendar {
  import opened Wrappers
  import opened Text

  datatype Date = Date(year: int, month: int, day: int)

  predicate IsLeapYear(y: int) {
    y % 4 == 0 && (y % 100 != 0 || y % 400 == 0)
  }

  function DaysInMonth(y: int, m: int): int
    requires 1 <= m <= 12
  {
    if m == 2 then (if IsLeapYear(y) then 29 else 28)
    else if m == 4 || m == 6 || m == 9 || m == 11 then 30
    else 31
  }

  predicate ValidDate(d: Date) {
    1 <= d.month <= 12 && 1 <= d.day <= DaysInMonth(d.year, d.month)
  }

  const SecondsPerDay: int := 86400
  const DaysPerEra: int := 146097
  /** Days from 0000-03-01 to 1970-01-01. */
  const EpochShift: int := 719468

  /** The first day-of-year of March-based month `mp` (0 is March, 11 is February). */
  function MonthStart(mp: int): int
    requires 0 <= mp <= 12
  {
    (153 * mp + 2) / 5
  }

  /** The first day-of-era of year-of-era `yoe`. */
  function YearStart(yoe: int): int
    requires 0 <= yoe <= 399
  {
    365 * yoe + yoe / 4 - yoe / 100
  }

  /** Year-of-era `yoe` (March to February) holds a February 29. */
  predicate LongYear(yoe: int) {
    (yoe + 1) % 4 == 0 && ((yoe + 1) % 100 != 0 || yoe == 399)
  }

  function YearLength(yoe: int): int {
    if LongYear(yoe) then 366 else 365
  }

  /** The March-based year of a date: January and February count with the year
      before. */
  function MarchYear(d: Date): int {
    if d.month <= 2 then d.year - 1 else d.year
  }

  /** The March-based month index: 0 for March through 11 for February. */
  function MarchMonth(d: Date): int {
    if d.month > 2 then d.month - 3 else d.month + 9
  }

  /** Days since March 1 of the date's March-based year. */
  function DayOfYear(d: Date): int
    requires 1 <= d.month <= 12
  {
    MonthStart(MarchMonth(d)) + d.day - 1
  }

  /** Days from 0000-03-01 to March 1 of March-based year `y`. */
  function YearDays(y: int): int {
    (y / 400) * 146097 + YearStart(y % 400)
  }

  /** Days since 1970-01-01 of a civil date. */
  function DaysFromCivil(d: Date): int
    requires 1 <= d.month <= 12
  {
    YearDays(MarchYear(d)) + DayOfYear(d) - 719468
  }

  /** Splits a day-of-era into year-of-era and day-of-year: whole centuries (the
      last one a day longer), then four-year blocks, then years. */
  function YearOfEra(doe: int): (r: (int, int))
    requires 0 <= doe < 146097
    ensures 0 <= r.0 <= 399 && 0 <= r.1 < YearLength(r.0)
    ensures doe == YearStart(r.0) + r.1
  {
    var c := if doe / 36524 < 4 then doe / 36524 else 3;
    var rc := doe - 36524 * c;
    var q := rc / 1461;
    var rq := rc - 1461 * q;
    var yy := if rq / 365 < 4 then rq / 365 else 3;
    var doy := rq - 365 * yy;
    var yoe := 100 * c + 4 * q + yy;
    assert 0 <= q <= 24 && 0 <= yy <= 3;
    assert yoe / 4 == 25 * c + q;
    assert yoe / 100 == c;
    assert doy == 365 ==> LongYear(yoe) by {
      if doy == 365 {
        assert yy == 3 && rq == 1460;
        if q == 24 {
          assert rc == 36524;
          assert c == 3;
        }
      }
    }
    (yoe, doy)
  }

  /** The March-based month of a day-of-year. */
  lemma MonthOfDay(doy: int)
    requires 0 <= doy <= 365
    ensures var mp := (5 * doy + 2) / 153;
      0 <= mp <= 11 && MonthStart(mp) <= doy < MonthStart(mp + 1)
  {
  }

  /** The date `doy` days after March 1 of March-based year `y`. */
  function FromYearDay(y: int, doy: int): (d: Date)
    requires 0 <= doy < YearLength(y % 400)
    ensures ValidDate(d) && MarchYear(d) == y && DayOfYear(d) == doy
  {
    MonthOfDay(doy);
    var mp := (5 * doy + 2) / 153;
    var month := if mp < 10 then mp + 3 else mp - 9;
    var year := y + (if month <= 2 then 1 else 0);
    MonthLengths(year, mp);
    LeapAcrossEras(y / 400, y % 400);
    Date(year, month, doy - MonthStart(mp) + 1)
  }

  /** The 400-year era holding day number `z`, counted from 0000-03-01. */
  function EraOf(z: int): int {
    (z + 719468) / 146097
  }

  /** The position of day number `z` in its era. */
  function DayOfEra(z: int): (r: int)
    ensures 0 <= r < 146097
    ensures z + 719468 == EraOf(z) * 146097 + r
  {
    z + 719468 - EraOf(z) * 146097
  }

  /** The March-based year holding day number `z`, with its day-of-year. */
  function YearAndDay(z: int): (r: (int, int))
    ensures r.0 / 400 == EraOf(z) && r.0 % 400 == YearOfEra(DayOfEra(z)).0
    ensures r.1 == YearOfEra(DayOfEra(z)).1
    ensures 0 <= r.1 < YearLength(r.0 % 400)
  {
    var yd := YearOfEra(DayOfEra(z));
    ModShift400(yd.0, EraOf(z));
    (yd.0 + 400 * EraOf(z), yd.1)
  }

  /** Days since 1970-01-01 to a civil date. */
  function CivilFromDays(z: int): (d: Date)
    ensures ValidDate(d)
  {
    var yd := YearAndDay(z);
    FromYearDay(yd.0, yd.1)
  }

  /** Month lengths in March-based numbering agree with the civil month lengths;
      February's slot is bounded by the year length instead. */
  lemma MonthLengths(y: int, mp: int)
    requires 0 <= mp <= 11
    ensures var m := if mp < 10 then mp + 3 else mp - 9;
      1 <= m <= 12 && (mp < 11 ==> MonthStart(mp + 1) - MonthStart(mp) == DaysInMonth(y, m))
    ensures MonthStart(11) == 337 && MonthStart(12) == 367
  {
  }

  /** The leap rule read in era coordinates. */
  lemma LeapAcrossEras(era: int, yoe: int)
    requires 0 <= yoe <= 399
    ensures IsLeapYear(era * 400 + yoe + 1) <==> LongYear(yoe)
  {
    var n := yoe + 1;
    var y := era * 400 + n;
    ModShift4(n, 100 * era);
    ModShift100(n, 4 * era);
    ModShift400(n, era);
  }

  lemma ModShift4(n: int, q: int)
    ensures (n + 4 * q) % 4 == n % 4
  {
  }

  lemma ModShift100(n: int, q: int)
    ensures (n + 100 * q) % 100 == n % 100
  {
  }

  lemma ModShift400(n: int, q: int)
    ensures (n + 400 * q) % 400 == n % 400
  {
  }

  /** `YearOfEra` undoes `YearStart` plus a day-of-year. */
  lemma YearOfEraInverse(yoe: int, doy: int)
    requires 0 <= yoe <= 399 && 0 <= doy < YearLength(yoe)
    ensures 0 <= YearStart(yoe) + doy < 146097
    ensures YearOfEra(YearStart(yoe) + doy) == (yoe, doy)
  {
    DayInEra(yoe, doy);
    var r := YearOfEra(YearStart(yoe) + doy);
    assert r.0 == yoe by {
      YearStartMonotone(yoe, r.0, doy, r.1);
    }
  }

  /** A day of a year of the era is a day of the era. */
  lemma DayInEra(yoe: int, doy: int)
    requires 0 <= yoe <= 399 && 0 <= doy < YearLength(yoe)
    ensures 0 <= YearStart(yoe) + doy < 146097
  {
    var c := yoe / 100;
    var q := (yoe % 100) / 4;
    var yy := yoe % 4;
    assert yoe == 100 * c + 4 * q + yy;
    assert yoe / 4 == 25 * c + q;
    var doe := YearStart(yoe) + doy;
    assert doe == 36524 * c + 1461 * q + 365 * yy + doy;
    assert 365 * yy + doy <= 1460;
    assert 1461 * q + 365 * yy + doy <= 36524;
    assert 1461 * q + 365 * yy + doy == 36524 ==> c == 3;
  }

  /** Year starts are strictly increasing with gaps of the year length, so a
      day-of-era determines its year. */
  lemma YearStartMonotone(a: int, b: int, da: int, db: int)
    requires 0 <= a <= 399 && 0 <= b <= 399
    requires 0 <= da < YearLength(a) && 0 <= db < YearLength(b)
    requires YearStart(a) + da == YearStart(b) + db
    ensures a == b
  {
    if a < b {
      YearStartGap(a, b);
    } else if b < a {
      YearStartGap(b, a);
    }
  }

  lemma YearStartGap(a: int, b: int)
    requires 0 <= a < b <= 399
    ensures YearStart(b) >= YearStart(a) + YearLength(a)
  {
    assert YearStart(a + 1) == YearStart(a) + YearLength(a) by {
      assert (a + 1) / 4 == a / 4 + (if (a + 1) % 4 == 0 then 1 else 0);
      assert (a + 1) / 100 == a / 100 + (if (a + 1) % 100 == 0 then 1 else 0);
    }
    if a + 1 < b {
      YearStartStep(a + 1, b);
    }
  }

  lemma YearStartStep(a: int, b: int)
    requires 0 <= a < b <= 399
    ensures YearStart(b) > YearStart(a)
  {
    assert b / 4 >= a / 4;
    assert b / 100 - a / 100 <= (b - a) / 100 + 1;
  }

  /** Every day number is the day number of its civil date. */
  lemma DaysFromCivilOfCivil(z: int)
    ensures DaysFromCivil(CivilFromDays(z)) == z
  {
    var yd := YearAndDay(z);
    DaysOfFromYearDay(yd.0, yd.1);
  }

  lemma DaysOfFromYearDay(y: int, doy: int)
    requires 0 <= doy < YearLength(y % 400)
    ensures DaysFromCivil(FromYearDay(y, doy)) == YearDays(y) + doy - 719468
  {
  }

  /** A valid date is the one `FromYearDay` builds from its March-based year and
      day-of-year. */
  lemma FromYearDayOfDate(d: Date)
    requires ValidDate(d)
    ensures 0 <= DayOfYear(d) < YearLength(MarchYear(d) % 400)
    ensures FromYearDay(MarchYear(d), DayOfYear(d)) == d
  {
    var y := MarchYear(d);
    var mp := MarchMonth(d);
    var doy := DayOfYear(d);
    MonthLengths(d.year, mp);
    LeapAcrossEras(y / 400, y % 400);
    assert 0 <= doy < YearLength(y % 400);
    MonthUnique(doy, mp);
  }

  /** The March-based year and day-of-year are recovered from the day number. */
  lemma YearAndDayOfDays(y: int, doy: int)
    requires 0 <= doy < YearLength(y % 400)
    ensures YearAndDay(YearDays(y) + doy - 719468) == (y, doy)
  {
    var z := YearDays(y) + doy - 719468;
    YearOfEraInverse(y % 400, doy);
    var doe := YearStart(y % 400) + doy;
    EraSplit(z, y / 400, doe);
    var r := YearAndDay(z);
    assert r.0 == 400 * (r.0 / 400) + r.0 % 400;
  }

  /** A day number given as era and day-of-era splits back into those two. */
  lemma EraSplit(z: int, era: int, doe: int)
    requires 0 <= doe < 146097 && z + 719468 == era * 146097 + doe
    ensures EraOf(z) == era && DayOfEra(z) == doe
  {
  }

  /** Every valid civil date is the civil date of its day number. */
  lemma CivilOfDaysFromCivil(d: Date)
    requires ValidDate(d)
    ensures CivilFromDays(DaysFromCivil(d)) == d
  {
    FromYearDayOfDate(d);
    YearAndDayOfDays(MarchYear(d), DayOfYear(d));
  }

  /** The month found for a day-of-year is the one whose span contains it. */
  lemma MonthUnique(doy: int, mp: int)
    requires 0 <= mp <= 11 && MonthStart(mp) <= doy < MonthStart(mp + 1)
    ensures (5 * doy + 2) / 153 == mp
  {
  }

  /** 2024-01-01 is day 19723 after 1970-01-01. */
  lemma NewYear2024()
    ensures DaysFromCivil(Date(2024, 1, 1)) == 19723
    ensures DaysFromCivil(Date(2024, 1, 1)) * SecondsPerDay == 1704067200
  {
  }

  // ----- `format_date_utc8` -----

  /** chrono's `NaiveDate` range: January 1, 262144 BCE to December 31, 262142 CE. */
  const MinYear: int := -262143
  const MaxYear: int := 262142

  /** The fixed UTC+8 offset of the display date. */
  const Utc8Offset: int := 8 * 3600

  /** The UTC date of a timestamp lies in chrono's range, so `timestamp_opt` is
      `Single`. */
  predicate Representable(ts: int) {
    MinYear <= CivilFromDays(ts / SecondsPerDay).year <= MaxYear
  }

  /** The UTC+8 calendar day holding the instant `ts`. */
  function LocalDate(ts: int): (d: Date)
    ensures ValidDate(d)
    ensures DaysFromCivil(d) * SecondsPerDay <= ts + Utc8Offset < (DaysFromCivil(d) + 1) * SecondsPerDay
  {
    var days := (ts + Utc8Offset) / SecondsPerDay;
    DaysFromCivilOfCivil(days);
    CivilFromDays(days)
  }

  /** chrono's `%Y`: four zero-padded digits for years 0 to 9999, otherwise an
      explicit sign followed by at least four digits. */
  function RenderYear(y: int): string {
    if 0 <= y <= 9999 then Four(y)
    else (if y < 0 then "-" else "+") + ZeroPad(Decimal(if y < 0 then -y else y), 4)
  }

  /** `%Y-%m-%d`. */
  function RenderDate(d: Date): string
    requires ValidDate(d)
  {
    RenderYear(d.year) + "-" + Two(d.month) + "-" + Two(d.day)
  }

  /** `format_date_utc8` of storage.rs: the UTC+8 day, or nothing when chrono cannot
      represent the instant. */
  function FormatDateUtc8Opt(ts: int): (r: Option<string>)
    ensures r.Some? <==> Representable(ts)
    ensures r.Some? ==> r.value == RenderDate(LocalDate(ts))
  {
    if Representable(ts) then Some(RenderDate(LocalDate(ts))) else None
  }

  /** `format_date_utc8` of timeline.rs: the same date, with "1970-01-01" for an
      instant chrono cannot represent. */
  function FormatDateUtc8(ts: int): (r: string)
    ensures Representable(ts) ==> r == RenderDate(LocalDate(ts))
    ensures !Representable(ts) ==> r == "1970-01-01"
  {
    FormatDateUtc8Opt(ts).GetOr("1970-01-01")
  }

  /** Reads back a `YYYY-MM-DD` date. */
  function ParseIsoDate(s: string): (r: Option<Date>)
    ensures r.Some? ==> ValidDate(r.value) && 0 <= r.value.year <= 9999
  {
    if |s| == 10 && s[4] == '-' && s[7] == '-' && DigitsAt(s, 0, 4) && DigitsAt(s, 5, 2)
       && DigitsAt(s, 8, 2)
    then
      var d := Date(Value4(s, 0), Value2(s, 5), Value2(s, 8));
      if ValidDate(d) then Some(d) else None
    else None
  }

  /** For the years of four digits, `%Y-%m-%d` reads back as the date it renders. */
  lemma RenderDateRoundTrip(d: Date)
    requires ValidDate(d) && 0 <= d.year <= 9999
    ensures |RenderDate(d)| == 10
    ensures ParseIsoDate(RenderDate(d)) == Some(d)
  {
    assert d.day < 100 by {
      assert DaysInMonth(d.year, d.month) <= 31;
    }
    var ys := Four(d.year);
    var ms := Two(d.month);
    var ds := Two(d.day);
    var s := ys + "-" + ms + "-" + ds;
    assert RenderDate(d) == s;
    assert forall j :: 0 <= j < 4 ==> s[j] == ys[j];
    assert forall j :: 0 <= j < 2 ==> s[5 + j] == ms[j] && s[8 + j] == ds[j];
    assert Value4(s, 0) == Value4(ys, 0);
    assert Value2(s, 5) == Value2(ms, 0);
    assert Value2(s, 8) == Value2(ds, 0);
  }

  /** For the years of four digits, the rendered display date reads back as the
      UTC+8 day of the instant. */
  lemma FormatDateRoundTrip(ts: int)
    requires Representable(ts)
    requires 0 <= LocalDate(ts).year <= 9999
    ensures |FormatDateUtc8(ts)| == 10
    ensures ParseIsoDate(FormatDateUtc8(ts)) == Some(LocalDate(ts))
  {
    RenderDateRoundTrip(LocalDate(ts));
  }
}
