/** The date-time syntax of section 5.6 of RFC 3339 as chrono's
    `DateTime::parse_from_rfc3339` reads it: a four-digit year, `-MM-DD`, a `T`, `t`
    or space separator, `HH:MM:SS`, an optional fraction of one or more digits, and
    `Z`, `z` or a `+hh:mm`/`-hh:mm` offset (U+2212 MINUS SIGN also reads as `-`),
    with nothing after it. A leap second 60 counts as second 59, and the fraction
    does not change the epoch second. */
module Rfc3339 {
  import opened Wrappers
  import opened Text
  import opened Calendar

  /** The fields of a parsed date-time; `offset` is in seconds east of UTC. */
  datatype DateTime = DateTime(date: Date, hour: int, minute: int, second: int, offset: int)

  /** The largest offset chrono accepts here: 23 hours 59 minutes. */
  const MaxOffset: int := (23 * 60 + 59) * 60

  predicate ValidDateTime(t: DateTime) {
    && ValidDate(t.date) && 0 <= t.date.year <= 9999
    && 0 <= t.hour <= 23 && 0 <= t.minute <= 59 && 0 <= t.second <= 60
    && -MaxOffset <= t.offset <= MaxOffset && t.offset % 60 == 0
  }

  /** Seconds since 1970-01-01T00:00:00Z of a date-time. */
  function EpochSeconds(t: DateTime): int
    requires ValidDate(t.date)
  {
    DaysFromCivil(t.date) * 86400 + t.hour * 3600 + t.minute * 60
      + (if t.second == 60 then 59 else t.second) - t.offset
  }

  /** `HH:MM:SS` with hour at most 23, minute at most 59, second at most 60. */
  function ParseClock(s: string): (r: Option<(int, int, int)>)
    ensures r.Some? ==> 0 <= r.value.0 <= 23 && 0 <= r.value.1 <= 59 && 0 <= r.value.2 <= 60
  {
    if |s| == 8 && s[2] == ':' && s[5] == ':' && DigitsAt(s, 0, 2) && DigitsAt(s, 3, 2)
       && DigitsAt(s, 6, 2)
    then
      var h := Value2(s, 0);
      var m := Value2(s, 3);
      var sec := Value2(s, 6);
      if h <= 23 && m <= 59 && sec <= 60 then Some((h, m, sec)) else None
    else None
  }

  /** The number of leading decimal digits. */
  function DigitRun(s: string): (k: nat)
    ensures k <= |s| && AllDigits(s[..k])
    ensures k < |s| ==> !IsDigit(s[k])
    decreases |s|
  {
    if |s| > 0 && IsDigit(s[0]) then
      var k := 1 + DigitRun(s[1..]);
      assert s[..k] == [s[0]] + s[1..][..k - 1];
      k
    else 0
  }

  /** Skips an optional fraction: a `.` must be followed by at least one digit,
      and every following digit belongs to the fraction. */
  function SkipFraction(s: string): (r: Option<string>)
    ensures |s| == 0 || s[0] != '.' ==> r == Some(s)
    ensures r.Some? ==> |r.value| <= |s| && r.value == s[|s| - |r.value|..]
  {
    if |s| > 0 && s[0] == '.' then
      var k := DigitRun(s[1..]);
      if k == 0 then None else Some(s[1 + k..])
    else Some(s)
  }

  /** chrono's RFC 3339 reader takes U+2212 MINUS SIGN as well as `-` for a
      negative offset. */
  const MinusSign: char := '\U{2212}'

  predicate IsOffsetSign(c: char) {
    c == '+' || c == '-' || c == MinusSign
  }

  /** `Z`, `z`, or a sign, two hour digits, a colon and two minute digits whose
      first is at most 5, within 23:59 of UTC. */
  function ParseOffset(s: string): (r: Option<int>)
    ensures r.Some? ==> -MaxOffset <= r.value <= MaxOffset && r.value % 60 == 0
  {
    if s == "Z" || s == "z" then Some(0)
    else if |s| == 6 && IsOffsetSign(s[0]) && DigitsAt(s, 1, 2) && s[3] == ':'
            && DigitsAt(s, 4, 2) && s[4] <= '5'
    then
      var magnitude := Value2(s, 1) * 3600 + Value2(s, 4) * 60;
      if magnitude > MaxOffset then None
      else Some(if s[0] == '+' then magnitude else -magnitude)
    else None
  }

  /** An offset text always ends in `Z`, `z` or a digit. */
  lemma OffsetEnding(s: string)
    requires ParseOffset(s).Some?
    ensures |s| > 0 && (s[|s| - 1] == 'Z' || s[|s| - 1] == 'z' || IsDigit(s[|s| - 1]))
  {
  }

  predicate IsDateTimeSeparator(c: char) {
    c == 'T' || c == 't' || c == ' '
  }

  /** The fields of an RFC 3339 date-time, or nothing when the text is not one. */
  function ParseDateTime(s: string): (r: Option<DateTime>)
    ensures r.Some? ==> ValidDateTime(r.value)
  {
    if |s| < 19 || !IsDateTimeSeparator(s[10]) then None
    else
      match (ParseIsoDate(s[..10]), ParseClock(s[11..19]), SkipFraction(s[19..]))
      case (Some(date), Some(clock), Some(rest)) =>
        (match ParseOffset(rest)
         case Some(offset) =>
           if 0 <= date.year <= 9999 then
             Some(DateTime(date, clock.0, clock.1, clock.2, offset))
           else None
         case None => None)
      case _ => None
  }

  /** The reader's steps, each succeeding, give the date-time they read. */
  lemma ParseDateTimeStep(s: string, date: Date, clock: (int, int, int), rest: string, offset: int)
    requires |s| >= 19 && IsDateTimeSeparator(s[10])
    requires ParseIsoDate(s[..10]) == Some(date) && ParseClock(s[11..19]) == Some(clock)
    requires SkipFraction(s[19..]) == Some(rest) && ParseOffset(rest) == Some(offset)
    ensures ParseDateTime(s) == Some(DateTime(date, clock.0, clock.1, clock.2, offset))
  {
  }

  /** Whatever the reader accepts ends in `Z`, `z` or a digit. */
  lemma ParseDateTimeEnding(s: string)
    ensures ParseDateTime(s).Some? ==> |s| > 0 && (s[|s| - 1] == 'Z' || s[|s| - 1] == 'z' || IsDigit(s[|s| - 1]))
  {
    if ParseDateTime(s).Some? {
      var tail := s[19..];
      var rest := SkipFraction(tail).value;
      OffsetEnding(rest);
      assert rest[|rest| - 1] == tail[|tail| - 1] == s[|s| - 1];
    }
  }

  /** `DateTime::parse_from_rfc3339(value).timestamp()`. */
  function ParseRfc3339(s: string): (r: Option<int>)
    ensures r.Some? <==> ParseDateTime(s).Some?
    ensures r.Some? ==> r.value == EpochSeconds(ParseDateTime(s).value)
  {
    match ParseDateTime(s)
    case None => None
    case Some(t) => Some(EpochSeconds(t))
  }

  // ----- the rendering that the parser inverts -----

  function RenderClock(h: nat, m: nat, s: nat): string
    requires h < 100 && m < 100 && s < 100
  {
    Two(h) + ":" + Two(m) + ":" + Two(s)
  }

  /** `Z` for UTC, otherwise the signed `hh:mm` offset. */
  function RenderOffset(offset: int): string
    requires -MaxOffset <= offset <= MaxOffset && offset % 60 == 0
  {
    if offset == 0 then "Z"
    else
      var magnitude := if offset < 0 then -offset else offset;
      [if offset < 0 then '-' else '+'] + Two(magnitude / 3600) + ":" + Two(magnitude % 3600 / 60)
  }

  function RenderDateTime(t: DateTime): string
    requires ValidDateTime(t)
  {
    RenderDate(t.date) + "T" + RenderClock(t.hour, t.minute, t.second) + RenderOffset(t.offset)
  }

  lemma ParseClockOfRender(h: nat, m: nat, s: nat)
    requires h <= 23 && m <= 59 && s <= 60
    ensures |RenderClock(h, m, s)| == 8
    ensures ParseClock(RenderClock(h, m, s)) == Some((h, m, s))
  {
    var c := RenderClock(h, m, s);
    assert forall j :: 0 <= j < 2 ==> c[j] == Two(h)[j] && c[3 + j] == Two(m)[j] && c[6 + j] == Two(s)[j];
    assert Value2(c, 0) == Value2(Two(h), 0);
    assert Value2(c, 3) == Value2(Two(m), 0);
    assert Value2(c, 6) == Value2(Two(s), 0);
  }

  lemma ParseOffsetOfRender(offset: int)
    requires -MaxOffset <= offset <= MaxOffset && offset % 60 == 0
    ensures |RenderOffset(offset)| > 0 && RenderOffset(offset)[0] != '.'
    ensures ParseOffset(RenderOffset(offset)) == Some(offset)
  {
    if offset != 0 {
      var magnitude := if offset < 0 then -offset else offset;
      var sign := if offset < 0 then '-' else '+';
      OffsetSplit(magnitude);
      assert RenderOffset(offset) == [sign] + Two(magnitude / 3600) + ":" + Two(magnitude % 3600 / 60);
      ParseSignedOffset(sign, magnitude / 3600, magnitude % 3600 / 60);
    }
  }

  lemma OffsetSplit(magnitude: int)
    requires 0 < magnitude <= MaxOffset && magnitude % 60 == 0
    ensures magnitude / 3600 <= 23 && magnitude % 3600 / 60 <= 59
    ensures magnitude == magnitude / 3600 * 3600 + magnitude % 3600 / 60 * 60
  {
  }

  /** A signed `hh:mm` offset reads back as its number of seconds. */
  lemma ParseSignedOffset(sign: char, hh: nat, mm: nat)
    requires sign == '+' || sign == '-'
    requires hh <= 23 && mm <= 59
    ensures var magnitude := hh * 3600 + mm * 60;
      ParseOffset([sign] + Two(hh) + ":" + Two(mm))
        == Some(if sign == '-' then -magnitude else magnitude)
  {
    var o := [sign] + Two(hh) + ":" + Two(mm);
    assert |o| == 6 && o[0] == sign && o[3] == ':';
    assert o != "Z" && o != "z";
    assert forall j :: 0 <= j < 2 ==> o[1 + j] == Two(hh)[j] && o[4 + j] == Two(mm)[j];
    assert o[4] == Two(mm)[0] == DigitChar(mm / 10);
    assert Value2(o, 1) == Value2(Two(hh), 0);
    assert Value2(o, 4) == Value2(Two(mm), 0);
    assert hh * 3600 + mm * 60 <= MaxOffset;
  }

  /** Every well-formed date-time renders to text that parses back to it. */
  lemma ParseDateTimeOfRender(t: DateTime)
    requires ValidDateTime(t)
    ensures ParseDateTime(RenderDateTime(t)) == Some(t)
  {
    var d := RenderDate(t.date);
    var c := RenderClock(t.hour, t.minute, t.second);
    var o := RenderOffset(t.offset);
    RenderDateRoundTrip(t.date);
    ParseClockOfRender(t.hour, t.minute, t.second);
    ParseOffsetOfRender(t.offset);
    Slices(d, c, o);
    ParseDateTimeStep(d + "T" + c + o, t.date, (t.hour, t.minute, t.second), o, t.offset);
  }

  /** A digit run stops at the first character that is not a digit. */
  lemma {:induction false} DigitRunOf(digits: string, rest: string)
    requires AllDigits(digits) && (|rest| == 0 || !IsDigit(rest[0]))
    ensures DigitRun(digits + rest) == |digits|
    decreases |digits|
  {
    if |digits| > 0 {
      assert (digits + rest)[1..] == digits[1..] + rest;
      DigitRunOf(digits[1..], rest);
    } else {
      assert digits + rest == rest;
    }
  }

  /** A dot and at least one digit are skipped as the fraction, up to the offset;
      a dot with no digit after it is not a fraction. */
  lemma SkipFractionOf(digits: string, rest: string)
    requires AllDigits(digits) && |rest| > 0 && !IsDigit(rest[0])
    ensures SkipFraction("." + digits + rest) == if |digits| > 0 then Some(rest) else None
  {
    var s := "." + digits + rest;
    assert s[1..] == digits + rest;
    DigitRunOf(digits, rest);
    assert s[1 + |digits|..] == rest;
  }

  /** Where the reader finds the date, separator, clock and tail of a written
      date-time. */
  lemma Slices(d: string, c: string, tail: string)
    requires |d| == 10 && |c| == 8
    ensures var s := d + "T" + c + tail;
      |s| >= 19 && s[10] == 'T' && s[..10] == d && s[11..19] == c && s[19..] == tail
  {
    var s := d + "T" + c + tail;
    assert s[..10] == d;
    assert s[11..19] == c;
    assert s[19..] == tail;
  }

  /** A date-time written with a fraction of its second after the clock reads as
      the same date-time: the fraction is read and dropped. A dot without digits
      makes the text unreadable. */
  lemma ParseDateTimeWithFraction(t: DateTime, digits: string)
    requires ValidDateTime(t) && AllDigits(digits)
    ensures ParseDateTime(RenderDate(t.date) + "T" + RenderClock(t.hour, t.minute, t.second) + ("." + digits
                          + RenderOffset(t.offset)))
      == if |digits| > 0 then Some(t) else None
  {
    var d := RenderDate(t.date);
    var c := RenderClock(t.hour, t.minute, t.second);
    var o := RenderOffset(t.offset);
    RenderDateRoundTrip(t.date);
    ParseClockOfRender(t.hour, t.minute, t.second);
    ParseOffsetOfRender(t.offset);
    assert o[0] == 'Z' || o[0] == '+' || o[0] == '-';
    SkipFractionOf(digits, o);
    Slices(d, c, "." + digits + o);
    if |digits| > 0 {
      ParseDateTimeStep(d + "T" + c + ("." + digits + o), t.date, (t.hour, t.minute, t.second), o, t.offset);
    }
  }

  /** Every well-formed date-time renders to text whose parse is its epoch second. */
  lemma ParseRfc3339OfRender(t: DateTime)
    requires ValidDateTime(t)
    ensures ParseRfc3339(RenderDateTime(t)) == Some(EpochSeconds(t))
  {
    ParseDateTimeOfRender(t);
  }

  /** The UTC date-time of an instant, when its year has four digits. */
  function UtcDateTime(ts: int): (t: DateTime)
    requires 0 <= CivilFromDays(ts / 86400).year <= 9999
    ensures ValidDateTime(t) && t.offset == 0
    ensures EpochSeconds(t) == ts
  {
    var secs := ts % 86400;
    DaysFromCivilOfCivil(ts / 86400);
    ClockSplit(secs);
    DateTime(CivilFromDays(ts / 86400), secs / 3600, secs % 3600 / 60, secs % 60, 0)
  }

  lemma ClockSplit(secs: int)
    requires 0 <= secs < 86400
    ensures secs / 3600 <= 23 && secs % 3600 / 60 <= 59 && secs % 60 <= 59
    ensures secs == secs / 3600 * 3600 + secs % 3600 / 60 * 60 + secs % 60
  {
  }

  /** Every instant of years 0 to 9999, written in UTC, parses back to itself. */
  lemma InstantRoundTrip(ts: int)
    requires 0 <= CivilFromDays(ts / 86400).year <= 9999
    ensures ParseRfc3339(RenderDateTime(UtcDateTime(ts))) == Some(ts)
  {
    ParseRfc3339OfRender(UtcDateTime(ts));
  }

  lemma NewYearDateParses()
    ensures ParseIsoDate("2024-01-01") == Some(Date(2024, 1, 1))
  {
    var d := "2024-01-01";
    assert d[0] == '2' && d[1] == '0' && d[2] == '2' && d[3] == '4';
    assert d[5] == '0' && d[6] == '1' && d[8] == '0' && d[9] == '1';
  }

  lemma MidnightParses()
    ensures ParseClock("00:00:00") == Some((0, 0, 0))
  {
    var c := "00:00:00";
    assert c[0] == c[1] == c[3] == c[4] == c[6] == c[7] == '0';
  }

  /** `2024-01-01T00:00:00Z` is 1704067200. */
  lemma NewYear2024Parses()
    ensures ParseRfc3339("2024-01-01T00:00:00Z") == Some(1704067200)
  {
    var s := "2024-01-01T00:00:00Z";
    NewYear2024();
    NewYearSlices(s);
    NewYearDateParses();
    MidnightParses();
    ParseDateTimeStep(s, Date(2024, 1, 1), (0, 0, 0), "Z", 0);
  }

  lemma NewYearSlices(s: string)
    requires s == "2024-01-01T00:00:00Z"
    ensures |s| >= 19 && s[10] == 'T' && s[..10] == "2024-01-01" && s[11..19] == "00:00:00" && s[19..] == "Z"
  {
  }

  /** An offset written with U+2212 MINUS SIGN, as in chrono's own example
      `2015-01-20T17:35:20−08:00`, reads as eight hours west of UTC. */
  lemma MinusSignOffsetParses()
    ensures ParseDateTime("2015-01-20T17:35:20\U{2212}08:00")
         == Some(DateTime(Date(2015, 1, 20), 17, 35, 20, -8 * 3600))
  {
    var s := "2015-01-20T17:35:20\U{2212}08:00";
    MinusSignSlices(s);
    ExampleDateParses();
    ExampleClockParses();
    MinusEightParses();
    ParseDateTimeStep(s, Date(2015, 1, 20), (17, 35, 20), "\U{2212}08:00", -8 * 3600);
  }

  lemma MinusSignSlices(s: string)
    requires s == "2015-01-20T17:35:20\U{2212}08:00"
    ensures |s| >= 19 && s[10] == 'T' && s[..10] == "2015-01-20" && s[11..19] == "17:35:20"
    ensures s[19..] == "\U{2212}08:00"
  {
  }

  lemma ExampleDateParses()
    ensures ParseIsoDate("2015-01-20") == Some(Date(2015, 1, 20))
  {
    var d := "2015-01-20";
    assert d[0] == '2' && d[1] == '0' && d[2] == '1' && d[3] == '5';
    assert d[5] == '0' && d[6] == '1' && d[8] == '2' && d[9] == '0';
  }

  lemma ExampleClockParses()
    ensures ParseClock("17:35:20") == Some((17, 35, 20))
  {
    var c := "17:35:20";
    assert c[0] == '1' && c[1] == '7' && c[3] == '3' && c[4] == '5' && c[6] == '2' && c[7] == '0';
  }

  lemma MinusEightParses()
    ensures ParseOffset("\U{2212}08:00") == Some(-8 * 3600)
  {
    var o := "\U{2212}08:00";
    assert o[0] == MinusSign && o[1] == '0' && o[2] == '8' && o[4] == '0' && o[5] == '0';
  }
}
