/**
 * `format_date_time`: a time value converted to UTC and rendered with
 * strftime("%Y-%m-%dT%H:%M:%SZ"). A time value is wall-clock seconds since
 * the Unix epoch in its own zone plus that zone's offset; the proleptic
 * Gregorian calendar is used for all years and leap seconds do not occur.
 */
module Timestamps {
  import opened Wrappers
  import opened Decimal

  /**
   * A time in some zone: `local` whole seconds of wall-clock time since
   * 1970-01-01T00:00:00, `utcOffset` seconds east of UTC. A fraction of a
   * second is dropped: strftime's `%S` does not print it.
   */
  datatype DateTime = DateTime(local: int, utcOffset: int)

  /** The broken-down calendar fields strftime reads. */
  datatype Fields = Fields(year: int, month: int, day: int, hour: int, minute: int, second: int)

  datatype Civil = Civil(year: int, month: int, day: int)

  /** Seconds since the epoch in UTC: the instant a time value denotes. */
  function Instant(t: DateTime): int { t.local - t.utcOffset }

  /** `Time#utc`: the same instant with offset zero. */
  function ToUtc(t: DateTime): (u: DateTime)
    ensures u.utcOffset == 0 && Instant(u) == Instant(t)
  {
    DateTime(Instant(t), 0)
  }

  function Min(a: int, b: int): int { if a < b then a else b }

  // The conversion from a day count to a date works on eras of 400 years
  // (146097 days) that start on 1 March, so that the leap day is the last
  // day of its year. Within an era, centuries are 36524 days (the last one
  // 36525), four-year groups 1461 days (the last of a century 1460), and
  // years 365 days (the last of a group 366).

  /** Year of era (0..399) and day of that March-based year (0..365) for a day of era. */
  function YearOfEra(doe: int): (r: (int, int))
    requires 0 <= doe < 146097
    ensures 0 <= r.0 < 400 && 0 <= r.1 <= 365
    ensures 365 * r.0 + r.0 / 4 - r.0 / 100 + r.1 == doe
  {
    var century := Min(doe / 36524, 3);
    CenturyStep(doe);
    var doc := doe - 36524 * century;
    var quad := doc / 1461;
    QuadStep(doc);
    var doq := doc - 1461 * quad;
    var yoq := Min(doq / 365, 3);
    YearStep(doq);
    var yoe := 100 * century + 4 * quad + yoq;
    YoeStep(century, quad, yoq);
    (yoe, doq - 365 * yoq)
  }

  lemma CenturyStep(doe: int)
    requires 0 <= doe < 146097
    ensures var c := Min(doe / 36524, 3); 0 <= c <= 3 && 0 <= doe - 36524 * c <= 36524
  {}

  lemma QuadStep(doc: int)
    requires 0 <= doc <= 36524
    ensures var q := doc / 1461; 0 <= q <= 24 && 0 <= doc - 1461 * q < 1461
  {}

  lemma YearStep(doq: int)
    requires 0 <= doq < 1461
    ensures var r := Min(doq / 365, 3); 0 <= r <= 3 && 0 <= doq - 365 * r <= 365
  {}

  lemma YoeStep(c: int, q: int, r: int)
    requires 0 <= c <= 3 && 0 <= q <= 24 && 0 <= r <= 3
    ensures var yoe := 100 * c + 4 * q + r; 0 <= yoe < 400 && yoe / 4 == 25 * c + q && yoe / 100 == c
  {}

  /** Month index counted from March (0..11) and day of month for a day of a March-based year. */
  function MonthOfYear(doy: int): (r: (int, int))
    requires 0 <= doy <= 365
    ensures 0 <= r.0 <= 11 && 1 <= r.1 <= 31
    ensures (153 * r.0 + 2) / 5 + r.1 - 1 == doy
  {
    var mp := (5 * doy + 2) / 153;
    MonthStep(doy);
    (mp, doy - (153 * mp + 2) / 5 + 1)
  }

  lemma MonthStep(doy: int)
    requires 0 <= doy <= 365
    ensures var mp := (5 * doy + 2) / 153; 0 <= mp <= 11 && 1 <= doy - (153 * mp + 2) / 5 + 1 <= 31
  {}

  /**
   * The steps of the conversion of a day count: the 400-year era, the year
   * of the era and the day of that year (both counted from March 1st), the
   * month counted from March and the day of the month.
   */
  datatype Split = Split(era: int, yoe: int, doy: int, mp: int, day: int)

  function SplitDays(days: int): (p: Split)
    ensures 0 <= p.yoe < 400 && 0 <= p.doy <= 365 && 0 <= p.mp <= 11 && 1 <= p.day <= 31
    ensures 365 * p.yoe + p.yoe / 4 - p.yoe / 100 + p.doy == days + 719468 - p.era * 146097
    ensures (153 * p.mp + 2) / 5 + p.day - 1 == p.doy
  {
    var shifted := days + 719468;  // days since 0000-03-01
    var era := shifted / 146097;
    EraStep(days);
    var (yoe, doy) := YearOfEra(shifted - era * 146097);
    var (mp, d) := MonthOfYear(doy);
    Split(era, yoe, doy, mp, d)
  }

  /** The calendar date of the day `days` after 1970-01-01. */
  function CivilFromDays(days: int): (c: Civil)
    ensures 1 <= c.month <= 12 && 1 <= c.day <= 31
  {
    var p := SplitDays(days);
    var m := if p.mp < 10 then p.mp + 3 else p.mp - 9;
    Civil(p.era * 400 + p.yoe + (if m <= 2 then 1 else 0), m, p.day)
  }

  /** The number of days from 1970-01-01 to a calendar date: the reference the conversion is checked against. */
  function DaysFromCivil(c: Civil): int
  {
    var y := c.year - (if c.month <= 2 then 1 else 0);
    var era := y / 400;
    var yoe := y - era * 400;
    var mp := if c.month > 2 then c.month - 3 else c.month + 9;
    var doy := (153 * mp + 2) / 5 + c.day - 1;
    era * 146097 + 365 * yoe + yoe / 4 - yoe / 100 + doy - 719468
  }

  /** Converting a day count to a date loses nothing: the date counts back to the same day. */
  lemma DaysRoundTrip(days: int)
    ensures DaysFromCivil(CivilFromDays(days)) == days
  {
    SplitSum(days);
    CivilCountsBack(days);
  }

  /** The day count that the steps of a split add up to. */
  function SplitTotal(p: Split): int
  {
    p.era * 146097 + 365 * p.yoe + p.yoe / 4 - p.yoe / 100 + (153 * p.mp + 2) / 5 + p.day - 1 - 719468
  }

  lemma SplitSum(days: int)
    ensures SplitTotal(SplitDays(days)) == days
  {
    var p := SplitDays(days);
    assert (153 * p.mp + 2) / 5 + p.day - 1 == p.doy;
  }

  lemma CivilCountsBack(days: int)
    ensures DaysFromCivil(CivilFromDays(days)) == SplitTotal(SplitDays(days))
  {
    var p := SplitDays(days);
    DaysFromParts(p.era, p.yoe, p.mp, p.day, CivilFromDays(days));
  }

  /** DaysFromCivil undoes the last steps of CivilFromDays for any era, year of era and month. */
  lemma DaysFromParts(era: int, yoe: int, mp: int, d: int, c: Civil)
    requires 0 <= yoe < 400 && 0 <= mp <= 11
    requires var m := if mp < 10 then mp + 3 else mp - 9;
      c == Civil(era * 400 + yoe + (if m <= 2 then 1 else 0), m, d)
    ensures DaysFromCivil(c) == era * 146097 + 365 * yoe + yoe / 4 - yoe / 100 + (153 * mp + 2) / 5 + d - 1 - 719468
  {
    DivideExactly(era, yoe);
  }

  lemma EraStep(days: int)
    ensures var shifted := days + 719468; 0 <= shifted - shifted / 146097 * 146097 < 146097
  {}

  lemma DivideExactly(q: int, r: int)
    requires 0 <= r < 400
    ensures (q * 400 + r) / 400 == q
  {}

  /** A leap year of the proleptic Gregorian calendar. */
  predicate Leap(y: int)
  {
    y % 4 == 0 && (y % 100 != 0 || y % 400 == 0)
  }

  /** The number of days in month `m` of year `y`. */
  function MonthLength(y: int, m: int): int
  {
    if m == 2 then (if Leap(y) then 29 else 28)
    else if m == 4 || m == 6 || m == 9 || m == 11 then 30
    else 31
  }

  /** A date that the calendar has: a month of the year and a day of that month. */
  predicate ValidCivil(c: Civil)
  {
    1 <= c.month <= 12 && 1 <= c.day <= MonthLength(c.year, c.month)
  }

  /** Every day count converts to a real calendar date: no 31st of a short month, and a 29th of February only in a leap year. */
  lemma CivilFromDaysValid(days: int)
    ensures ValidCivil(CivilFromDays(days))
  {
    var p := SplitDays(days);
    MonthFits(p.doy);
    SplitLeap(days);
  }

  /** The day of the month stays within the month; the last day of a March-based year is the only 29th of February. */
  lemma MonthFits(doy: int)
    requires 0 <= doy <= 365
    ensures var (mp, d) := MonthOfYear(doy);
      && (mp == 1 || mp == 3 || mp == 6 || mp == 8 ==> d <= 30)
      && (mp == 11 ==> d <= 29 && (d == 29 ==> doy == 365))
  {}

  /** The 366th day of a March-based year ends February of a leap year. */
  lemma SplitLeap(days: int)
    ensures var p := SplitDays(days); p.doy == 365 ==> Leap(p.era * 400 + p.yoe + 1)
  {
    var shifted := days + 719468;
    var era := shifted / 146097;
    EraStep(days);
    var doe := shifted - era * 146097;
    YearOfEraLeap(doe);
    EraLeap(era, YearOfEra(doe).0 + 1);
  }

  /** Within an era, a year of 366 days is followed by a leap year (its February is the year's end). */
  lemma YearOfEraLeap(doe: int)
    requires 0 <= doe < 146097
    ensures YearOfEra(doe).1 == 365 ==> Leap(YearOfEra(doe).0 + 1)
  {
    var century := Min(doe / 36524, 3);
    CenturyStep(doe);
    var doc := doe - 36524 * century;
    var quad := doc / 1461;
    QuadStep(doc);
    var doq := doc - 1461 * quad;
    var yoq := Min(doq / 365, 3);
    YearStep(doq);
    YoeStep(century, quad, yoq);
    if doq - 365 * yoq == 365 {
      assert yoq == 3 && doq == 1460;
      assert quad == 24 ==> century == 3 by {
        if quad == 24 {
          assert doc == 36524;
        }
      }
      GroupEndLeap(century, quad);
    }
  }

  /** The year after the last of a four-year group is a leap year, unless it ends a century other than the fourth. */
  lemma GroupEndLeap(century: int, quad: int)
    requires 0 <= century <= 3 && 0 <= quad <= 24
    requires quad == 24 ==> century == 3
    ensures Leap(100 * century + 4 * quad + 3 + 1)
  {}

  /** Whole eras of 400 years do not change whether a year is a leap year. */
  lemma EraLeap(era: int, y: int)
    ensures Leap(era * 400 + y) == Leap(y)
  {
    ShiftMod4(era * 100, y);
    ShiftMod100(era * 4, y);
    ShiftMod400(era, y);
  }

  lemma ShiftMod4(k: int, y: int)
    ensures (k * 4 + y) % 4 == y % 4
  {}

  lemma ShiftMod100(k: int, y: int)
    ensures (k * 100 + y) % 100 == y % 100
  {}

  lemma ShiftMod400(k: int, y: int)
    ensures (k * 400 + y) % 400 == y % 400
  {}

  /** The UTC calendar fields of a time value. */
  function UtcFields(t: DateTime): (f: Fields)
    ensures 1 <= f.month <= 12 && 1 <= f.day <= 31
    ensures 0 <= f.hour < 24 && 0 <= f.minute < 60 && 0 <= f.second < 60
  {
    var s := Instant(t);
    var c := CivilFromDays(s / 86400);
    var secs := s % 86400;
    Fields(c.year, c.month, c.day, secs / 3600, secs % 3600 / 60, secs % 60)
  }

  /** The UTC fields of a time name a real calendar date, so strftime never prints a day the calendar lacks. */
  lemma UtcDateValid(t: DateTime)
    ensures var f := UtcFields(t); ValidCivil(Civil(f.year, f.month, f.day))
  {
    CivilFromDaysValid(Instant(t) / 86400);
  }

  /** The instant that UTC calendar fields name. */
  function InstantOf(f: Fields): int
  {
    DaysFromCivil(Civil(f.year, f.month, f.day)) * 86400 + f.hour * 3600 + f.minute * 60 + f.second
  }

  /** The UTC fields of a time value name its instant exactly. */
  lemma UtcFieldsDetermineInstant(t: DateTime)
    ensures InstantOf(UtcFields(t)) == Instant(t)
  {
    var s := Instant(t);
    var days := s / 86400;
    var c := CivilFromDays(days);
    DaysRoundTrip(days);
    var f := UtcFields(t);
    assert Civil(f.year, f.month, f.day) == c;
    SplitSeconds(s);
  }

  lemma SplitSeconds(s: int)
    ensures var secs := s % 86400;
      s == s / 86400 * 86400 + secs / 3600 * 3600 + secs % 3600 / 60 * 60 + secs % 60
  {
    var secs := s % 86400;
    assert s == s / 86400 * 86400 + secs;
    var m := secs % 3600;
    assert secs == secs / 3600 * 3600 + m;
    assert m == m / 60 * 60 + m % 60;
    assert m % 60 == secs % 60;
  }

  /** strftime's `%Y`: the year with at least four digits, a minus sign before negative years. */
  function YearText(y: int): (s: string)
    ensures 0 <= y ==> AllDigits(s) && |s| >= 4
    ensures y < 0 ==> |s| >= 5 && s[0] == '-'
  {
    if y >= 0 then Padded(y, 4) else "-" + Padded(-y, 4)
  }

  /** Fields strftime can print with its numeric conversions: none of them negative except the year. */
  predicate Printable(f: Fields)
  {
    0 <= f.month && 0 <= f.day && 0 <= f.hour && 0 <= f.minute && 0 <= f.second
  }

  /** The conversions the exporter's format uses: `%Y`, `%m`, `%d`, `%H`, `%M` and `%S`. */
  predicate IsConversion(c: char)
  {
    c == 'Y' || c == 'm' || c == 'd' || c == 'H' || c == 'M' || c == 'S'
  }

  /** The text of one conversion: the year as `%Y` prints it, every other field zero-padded to two digits. */
  function Conversion(c: char, f: Fields): string
    requires IsConversion(c) && Printable(f)
  {
    if c == 'Y' then YearText(f.year)
    else if c == 'm' then Padded(f.month, 2)
    else if c == 'd' then Padded(f.day, 2)
    else if c == 'H' then Padded(f.hour, 2)
    else if c == 'M' then Padded(f.minute, 2)
    else Padded(f.second, 2)
  }

  /** strftime: each conversion is replaced by its text, every other character is copied. */
  function Strftime(format: string, f: Fields): string
    requires Printable(f)
    decreases |format|
  {
    if |format| == 0 then ""
    else if format[0] == '%' && |format| >= 2 && IsConversion(format[1]) then
      Conversion(format[1], f) + Strftime(format[2..], f)
    else [format[0]] + Strftime(format[1..], f)
  }

  lemma StrftimeConversion(c: char, rest: string, f: Fields)
    requires IsConversion(c) && Printable(f)
    ensures Strftime(['%', c] + rest, f) == Conversion(c, f) + Strftime(rest, f)
  {
    assert (['%', c] + rest)[2..] == rest;
  }

  lemma StrftimeLiteral(c: char, rest: string, f: Fields)
    requires c != '%' && Printable(f)
    ensures Strftime([c] + rest, f) == [c] + Strftime(rest, f)
  {
    assert ([c] + rest)[1..] == rest;
  }

  /** The format of `format_date_time` (lib/bcf.rb). */
  const TimestampFormat: string := "%Y-%m-%dT%H:%M:%SZ"

  /** What strftime makes of the timestamp format: the six fields between their separators. */
  lemma FormatLayout(f: Fields)
    requires Printable(f)
    ensures Strftime(TimestampFormat, f) == Rendered(f)
  {
    var s0 := ['Z'];
    var s1 := ['%', 'S'] + s0;
    var s2 := [':'] + s1;
    var s3 := ['%', 'M'] + s2;
    var s4 := [':'] + s3;
    var s5 := ['%', 'H'] + s4;
    var s6 := ['T'] + s5;
    var s7 := ['%', 'd'] + s6;
    var s8 := ['-'] + s7;
    var s9 := ['%', 'm'] + s8;
    var s10 := ['-'] + s9;
    var s11 := ['%', 'Y'] + s10;
    assert s11 == TimestampFormat;
    StrftimeLiteral('Z', [], f);
    assert Strftime(s0, f) == "Z" by { assert s0 == ['Z'] + []; }
    StrftimeConversion('S', s0, f);
    StrftimeLiteral(':', s1, f);
    StrftimeConversion('M', s2, f);
    StrftimeLiteral(':', s3, f);
    StrftimeConversion('H', s4, f);
    StrftimeLiteral('T', s5, f);
    StrftimeConversion('d', s6, f);
    StrftimeLiteral('-', s7, f);
    StrftimeConversion('m', s8, f);
    StrftimeLiteral('-', s9, f);
    StrftimeConversion('Y', s10, f);
    Reassociate(YearText(f.year), "-", Padded(f.month, 2), "-", Padded(f.day, 2), "T",
                Padded(f.hour, 2), ":", Padded(f.minute, 2), ":", Padded(f.second, 2), "Z");
  }

  /** Concatenation is associative: the right-nested rendering equals the left-nested one. */
  lemma Reassociate<T>(a: seq<T>, b: seq<T>, c: seq<T>, d: seq<T>, e: seq<T>, f: seq<T>,
                       g: seq<T>, h: seq<T>, i: seq<T>, j: seq<T>, k: seq<T>, l: seq<T>)
    ensures a + (b + (c + (d + (e + (f + (g + (h + (i + (j + (k + (l + [])))))))))))
         == a + b + c + d + e + f + g + h + i + j + k + l
  {
    assert l + [] == l;
  }

  /** The six fields between the separators of the timestamp format. */
  function Rendered(f: Fields): string
    requires Printable(f)
  {
    YearText(f.year) + "-" + Padded(f.month, 2) + "-" + Padded(f.day, 2) + "T"
    + Padded(f.hour, 2) + ":" + Padded(f.minute, 2) + ":" + Padded(f.second, 2) + "Z"
  }

  /**
   * `format_date_time` (lib/bcf.rb): the UTC fields of a time value laid out
   * as strftime lays them out for the timestamp format (FormatIsStrftime).
   */
  function FormatDateTime(t: DateTime): string
  {
    Rendered(UtcFields(t))
  }

  /** The rendering is what strftime makes of the UTC fields with the timestamp format. */
  lemma FormatIsStrftime(t: DateTime)
    ensures FormatDateTime(t) == Strftime(TimestampFormat, UtcFields(t))
  {
    FormatLayout(UtcFields(t));
  }

  /** Characters at the digit positions of `YYYY-MM-DDTHH:MM:SSZ`. */
  predicate DigitPosition(i: int)
  {
    0 <= i < 20 && i !in {4, 7, 10, 13, 16, 19}
  }

  /** The pattern `^\d{4}-\d{2}-\d{2}T\d{2}:\d{2}:\d{2}Z$`. */
  predicate IsTimestamp(s: string)
  {
    && |s| == 20
    && s[4] == '-' && s[7] == '-' && s[10] == 'T' && s[13] == ':' && s[16] == ':' && s[19] == 'Z'
    && AllDigits(s[0..4]) && AllDigits(s[5..7]) && AllDigits(s[8..10])
    && AllDigits(s[11..13]) && AllDigits(s[14..16]) && AllDigits(s[17..19])
  }

  /** Reads a timestamp of the fixed pattern back into its fields. */
  function ParseTimestamp(s: string): (r: Option<Fields>)
    ensures r.Some? <==> IsTimestamp(s)
  {
    if IsTimestamp(s) then
      Some(Fields(ParseDigits(s[0..4]), ParseDigits(s[5..7]), ParseDigits(s[8..10]),
                  ParseDigits(s[11..13]), ParseDigits(s[14..16]), ParseDigits(s[17..19])))
    else None
  }

  /** Fields within their printed widths: a year of four digits, the others of two. */
  predicate FitsPattern(f: Fields)
  {
    0 <= f.year <= 9999 && 0 <= f.month < 100 && 0 <= f.day < 100
    && 0 <= f.hour < 100 && 0 <= f.minute < 100 && 0 <= f.second < 100
  }

  /** Fields that fit are rendered as exactly the 20-character pattern and read back unchanged. */
  lemma RenderedRoundTrip(f: Fields)
    requires FitsPattern(f)
    ensures IsTimestamp(Rendered(f)) && |Rendered(f)| == 20
    ensures ParseTimestamp(Rendered(f)) == Some(f)
  {
    assert Pow10(2) == 100 && Pow10(4) == 10000;
    PaddedRoundTrip(f.year, 4);
    PaddedRoundTrip(f.month, 2);
    PaddedRoundTrip(f.day, 2);
    PaddedRoundTrip(f.hour, 2);
    PaddedRoundTrip(f.minute, 2);
    PaddedRoundTrip(f.second, 2);
    assert YearText(f.year) == Padded(f.year, 4);
    LaidOut(Padded(f.year, 4), Padded(f.month, 2), Padded(f.day, 2),
            Padded(f.hour, 2), Padded(f.minute, 2), Padded(f.second, 2));
  }

  /** Digit strings of the printed widths, joined by the separators, make a timestamp that reads back as their values. */
  lemma LaidOut(y: string, mo: string, d: string, h: string, mi: string, se: string)
    requires |y| == 4 && |mo| == 2 && |d| == 2 && |h| == 2 && |mi| == 2 && |se| == 2
    requires AllDigits(y) && AllDigits(mo) && AllDigits(d) && AllDigits(h) && AllDigits(mi) && AllDigits(se)
    ensures var s := y + "-" + mo + "-" + d + "T" + h + ":" + mi + ":" + se + "Z";
      && |s| == 20 && IsTimestamp(s)
      && ParseTimestamp(s) == Some(Fields(ParseDigits(y), ParseDigits(mo), ParseDigits(d),
                                          ParseDigits(h), ParseDigits(mi), ParseDigits(se)))
  {
    Layout(y, mo, d, h, mi, se);
    ParseSlices(y + "-" + mo + "-" + d + "T" + h + ":" + mi + ":" + se + "Z");
  }

  lemma ParseSlices(s: string)
    requires IsTimestamp(s)
    ensures ParseTimestamp(s) == Some(Fields(ParseDigits(s[0..4]), ParseDigits(s[5..7]), ParseDigits(s[8..10]),
                                             ParseDigits(s[11..13]), ParseDigits(s[14..16]), ParseDigits(s[17..19])))
  {
  }

  /** Where each field lands in the rendered string. */
  lemma Layout(y: string, mo: string, d: string, h: string, mi: string, se: string)
    requires |y| == 4 && |mo| == 2 && |d| == 2 && |h| == 2 && |mi| == 2 && |se| == 2
    ensures var s := y + "-" + mo + "-" + d + "T" + h + ":" + mi + ":" + se + "Z";
      && |s| == 20
      && s[4] == '-' && s[7] == '-' && s[10] == 'T' && s[13] == ':' && s[16] == ':' && s[19] == 'Z'
      && s[0..4] == y && s[5..7] == mo && s[8..10] == d
      && s[11..13] == h && s[14..16] == mi && s[17..19] == se
  {
    var date := y + "-" + mo + "-" + d;
    var time := h + ":" + mi + ":" + se;
    DateLayout(y, mo, d, '-', '-');
    DateLayout(h, mi, se, ':', ':');
    var s := y + "-" + mo + "-" + d + "T" + h + ":" + mi + ":" + se + "Z";
    assert s == y + "-" + mo + "-" + d + "T" + (h + ":" + mi + ":" + se) + "Z";
    assert s == date + "T" + time + "Z";
    assert s[..|date|] == date;
    assert s[|date| + 1..|date| + 1 + |time|] == time;
  }

  /** Three parts joined by two one-character separators. */
  lemma DateLayout<T>(a: seq<T>, b: seq<T>, c: seq<T>, sep1: T, sep2: T)
    requires |b| == 2 && |c| == 2
    ensures var s := a + [sep1] + b + [sep2] + c;
      |s| == |a| + 6 && s[..|a|] == a && s[|a|] == sep1 && s[|a| + 1..|a| + 3] == b
      && s[|a| + 3] == sep2 && s[|a| + 4..] == c
  {}

  /**
   * For years 0 to 9999 the rendering is exactly the 20-character pattern,
   * and reading it back yields the UTC fields it was made from.
   */
  lemma FormatDateTimeRoundTrip(t: DateTime)
    requires 0 <= UtcFields(t).year <= 9999
    ensures |FormatDateTime(t)| == 20
    ensures IsTimestamp(FormatDateTime(t))
    ensures ParseTimestamp(FormatDateTime(t)) == Some(UtcFields(t))
  {
    RenderedRoundTrip(UtcFields(t));
  }

  /** The rendering depends on the instant only: the zone a time value carries is irrelevant. */
  lemma FormatDependsOnlyOnInstant(t1: DateTime, t2: DateTime)
    requires Instant(t1) == Instant(t2)
    ensures FormatDateTime(t1) == FormatDateTime(t2)
  {
  }

  /** ... and, for years 0 to 9999, different instants give different timestamps. */
  lemma FormatDistinguishesInstants(t1: DateTime, t2: DateTime)
    requires 0 <= UtcFields(t1).year <= 9999 && 0 <= UtcFields(t2).year <= 9999
    ensures FormatDateTime(t1) == FormatDateTime(t2) <==> Instant(t1) == Instant(t2)
  {
    if FormatDateTime(t1) == FormatDateTime(t2) {
      FormatDateTimeRoundTrip(t1);
      FormatDateTimeRoundTrip(t2);
      UtcFieldsDetermineInstant(t1);
      UtcFieldsDetermineInstant(t2);
    }
  }
}
