/**
 * The log's `MM/DD/YYYY - HH:MM:SS` timestamps turned into the ISO 8601
 * text the parser hands to the date constructor (`parseCustomTimestamp`),
 * and the instant that text denotes, in whole seconds since 1970-01-01 UTC.
 */
module Timestamp {
  import opened Wrappers
  import opened Strings

  /** The pieces of a normalised timestamp; `IsoString` is the text handed to `new Date`. */
  datatype IsoDate = IsoDate(year: string, month: string, day: string, time: string) {

    function IsoString(): string {
      year + "-" + PadStart(month, 2, '0') + "-" + PadStart(day, 2, '0') + "T" + time + "Z"
    }
  }

  /** Element `k` of a destructured `split` result; a missing element reads as
      the empty string (both are falsy in the source's `!x` tests). */
  function Field(parts: seq<string>, k: nat): string {
    if k < |parts| then parts[k] else ""
  }

  /** `parseCustomTimestamp`: `None` stands for its `null` result. */
  function ParseCustomTimestamp(timestamp: string): (r: Option<IsoDate>)
    ensures r.Some? ==> r.value.year != "" && r.value.month != "" && r.value.day != "" && r.value.time != ""
  {
    if timestamp == "" then None
    else
      var halves := Split(timestamp, " - ");
      var datePart, timePart := Field(halves, 0), Field(halves, 1);
      if datePart == "" || timePart == "" then None
      else
        var fields := Split(datePart, "/");
        var month, day, year := Field(fields, 0), Field(fields, 1), Field(fields, 2);
        if month == "" || day == "" || year == "" then None
        else Some(IsoDate(year, month, day, timePart))
  }

  /** An empty timestamp, or one without ` - `, is rejected. */
  lemma ParseRejectsUnseparated(timestamp: string)
    requires timestamp == "" || !Contains(timestamp, " - ")
    ensures ParseCustomTimestamp(timestamp).None?
  {
    if timestamp != "" {
      SplitWithoutSeparator(timestamp, " - ");
    }
  }

  /** A usable month, day or year field: non-empty, without `/` or space. */
  predicate DateField(s: string) {
    s != "" && SeparatorFree(s)
  }

  /** A field text with neither `/` nor a space, possibly empty. */
  predicate SeparatorFree(s: string) {
    Lacks(s, '/') && Lacks(s, ' ')
  }

  /** `MM/DD/YYYY` splits on `/` into its three fields. */
  lemma {:induction false} SplitDate(month: string, day: string, year: string)
    requires Lacks(month, '/') && Lacks(day, '/') && Lacks(year, '/')
    ensures Split(month + "/" + day + "/" + year, "/") == [month, day, year]
  {
    assert month + "/" + day + "/" + year == month + "/" + (day + "/" + year);
    SplitAfterHead(month, "/", day + "/" + year);
    SplitAfterHead(day, "/", year);
    CharAbsent(year, '/');
    SplitWithoutSeparator(year, "/");
  }

  /** `date - time` splits on ` - ` into the date and the time when the date has no space. */
  lemma {:induction false} SplitStamp(date: string, time: string)
    requires Lacks(date, ' ') && !Contains(time, " - ")
    ensures Split(date + " - " + time, " - ") == [date, time]
  {
    SplitAfterHead(date, " - ", time);
    SplitWithoutSeparator(time, " - ");
  }

  /**
   * Fields written as the log writes them, `M/D/Y - time`, normalise back to
   * exactly those fields, and are rejected exactly when one of them is empty.
   */
  lemma {:induction false} ParseFormatted(month: string, day: string, year: string, time: string)
    requires SeparatorFree(month) && SeparatorFree(day) && SeparatorFree(year)
    requires !Contains(time, " - ")
    ensures ParseCustomTimestamp(month + "/" + day + "/" + year + " - " + time)
            == if month == "" || day == "" || year == "" || time == "" then None
               else Some(IsoDate(year, month, day, time))
  {
    var date := month + "/" + day + "/" + year;
    LacksConcat(month, "/", ' ');
    LacksConcat(month + "/", day, ' ');
    LacksConcat(month + "/" + day, "/", ' ');
    LacksConcat(month + "/" + day + "/", year, ' ');
    SplitStamp(date, time);
    SplitDate(month, day, year);
    var halves := Split(date + " - " + time, " - ");
    assert Field(halves, 0) == date && Field(halves, 1) == time;
    var fields := Split(date, "/");
    assert Field(fields, 0) == month && Field(fields, 1) == day && Field(fields, 2) == year;
  }

  /** A timestamp with nothing before or nothing after its ` - ` is rejected. */
  lemma {:induction false} ParseRejectsEmptySide(date: string, time: string)
    requires Lacks(date, ' ') && !Contains(time, " - ")
    requires date == "" || time == ""
    ensures ParseCustomTimestamp(date + " - " + time).None?
  {
    SplitStamp(date, time);
    var halves := Split(date + " - " + time, " - ");
    assert Field(halves, 0) == date && Field(halves, 1) == time;
  }

  /** A timestamp whose text before ` - ` has fewer than two `/` is rejected. */
  lemma {:induction false} ParseRejectsShortDate(timestamp: string)
    requires Count(Split(timestamp, " - ")[0], '/') < 2
    ensures ParseCustomTimestamp(timestamp).None?
  {
    var datePart := Split(timestamp, " - ")[0];
    SplitCharCount(datePart, '/');
  }

  /** Days from 1970-01-01 to the given proleptic Gregorian date. */
  function DaysFromCivil(year: int, month: int, day: int): int {
    var y := if month <= 2 then year - 1 else year;
    var era := y / 400;
    var yearOfEra := y - era * 400;
    var shiftedMonth := (month + 9) % 12;
    var dayOfYear := (153 * shiftedMonth + 2) / 5 + day - 1;
    var dayOfEra := yearOfEra * 365 + yearOfEra / 4 - yearOfEra / 100 + dayOfYear;
    era * 146097 + dayOfEra - 719468
  }

  /** Gregorian leap years. */
  predicate IsLeapYear(year: int) {
    (year % 4 == 0 && year % 100 != 0) || year % 400 == 0
  }

  /** The length of a month of the proleptic Gregorian calendar. */
  function DaysInMonth(year: int, month: int): int {
    if month == 2 then (if IsLeapYear(year) then 29 else 28)
    else if month == 4 || month == 6 || month == 9 || month == 11 then 30
    else 31
  }

  /** A day of the proleptic Gregorian calendar. */
  predicate IsCalendarDate(year: int, month: int, day: int) {
    1 <= month <= 12 && 1 <= day <= DaysInMonth(year, month)
  }

  datatype CalendarDate = CalendarDate(year: int, month: int, day: int)

  /** The calendar day after a given one. */
  function NextDay(year: int, month: int, day: int): CalendarDate {
    if day < DaysInMonth(year, month) then CalendarDate(year, month, day + 1)
    else if month < 12 then CalendarDate(year, month + 1, 1)
    else CalendarDate(year + 1, 1, 1)
  }

  /** The days of the years before `y` within its 400-year era, counted from the era's start, plus the era's days. */
  function EraDays(y: int): int {
    var era := y / 400;
    var yearOfEra := y - era * 400;
    era * 146097 + yearOfEra * 365 + yearOfEra / 4 - yearOfEra / 100
  }

  /** The days from March 1 to the first day of `month` in the shifted year that starts in March. */
  function MonthStart(month: int): int {
    (153 * ((month + 9) % 12) + 2) / 5
  }

  /** The day count splits into the days up to the shifted year and the days into it. */
  lemma DaysFromCivilSplit(year: int, month: int, day: int)
    ensures DaysFromCivil(year, month, day)
            == EraDays(if month <= 2 then year - 1 else year) + MonthStart(month) + day - 1 - 719468
  {
  }

  lemma MonthStarts()
    ensures MonthStart(1) == 306 && MonthStart(2) == 337 && MonthStart(3) == 0 && MonthStart(4) == 31
    ensures MonthStart(5) == 61 && MonthStart(6) == 92 && MonthStart(7) == 122 && MonthStart(8) == 153
    ensures MonthStart(9) == 184 && MonthStart(10) == 214 && MonthStart(11) == 245 && MonthStart(12) == 275
  {
  }

  /** Within the shifted year, each month starts where the one before it ends. */
  lemma MonthStartStep(year: int, month: int)
    requires 1 <= month <= 11 && month != 2
    ensures MonthStart(month + 1) == MonthStart(month) + DaysInMonth(year, month)
  {
    MonthStarts();
  }

  lemma NextDayInMonth(year: int, month: int, day: int)
    ensures DaysFromCivil(year, month, day + 1) == DaysFromCivil(year, month, day) + 1
  {
    DaysFromCivilSplit(year, month, day);
    DaysFromCivilSplit(year, month, day + 1);
  }

  lemma NextDayNewMonth(year: int, month: int, day: int)
    requires 1 <= month <= 11 && month != 2 && day == DaysInMonth(year, month)
    ensures DaysFromCivil(year, month + 1, 1) == DaysFromCivil(year, month, day) + 1
  {
    DaysFromCivilSplit(year, month, day);
    DaysFromCivilSplit(year, month + 1, 1);
    MonthStartStep(year, month);
  }

  lemma NextDayMarch(year: int, month: int, day: int)
    requires month == 2 && day == DaysInMonth(year, 2)
    ensures DaysFromCivil(year, 3, 1) == DaysFromCivil(year, month, day) + 1
  {
    DaysFromCivilSplit(year, 2, day);
    DaysFromCivilSplit(year, 3, 1);
    assert MonthStart(2) == 337 && MonthStart(3) == 0;
    EraDaysStep(year);
  }

  lemma NextDayNewYear(year: int, month: int, day: int)
    requires month == 12 && day == 31
    ensures DaysFromCivil(year + 1, 1, 1) == DaysFromCivil(year, month, day) + 1
  {
    DaysFromCivilSplit(year, 12, 31);
    DaysFromCivilSplit(year + 1, 1, 1);
    assert MonthStart(12) == 275 && MonthStart(1) == 306;
  }

  lemma EraDaysAcrossEras(y: int)
    requires y % 400 == 0
    ensures EraDays(y) - EraDays(y - 1) == 366
  {
    assert (y - 1) / 400 == y / 400 - 1;
    assert (y - 1) - ((y - 1) / 400) * 400 == 399;
  }

  lemma EraDaysWithinEra(y: int)
    requires y % 400 != 0
    ensures var r := y % 400;
            EraDays(y) - EraDays(y - 1) == 365 + (r / 4 - (r - 1) / 4) - (r / 100 - (r - 1) / 100)
  {
    assert (y - 1) / 400 == y / 400;
    assert y - (y / 400) * 400 == y % 400;
  }

  lemma LeapWithinEra(r: int)
    requires 1 <= r < 400
    ensures (r / 4 - (r - 1) / 4) - (r / 100 - (r - 1) / 100) == if r % 4 == 0 && r % 100 != 0 then 1 else 0
  {
    assert r / 4 - (r - 1) / 4 == if r % 4 == 0 then 1 else 0;
    assert r / 100 - (r - 1) / 100 == if r % 100 == 0 then 1 else 0;
  }

  lemma ShiftMod4(r: int, t: int)
    ensures (r + 4 * t) % 4 == r % 4
  {
  }

  lemma ShiftMod100(r: int, t: int)
    ensures (r + 100 * t) % 100 == r % 100
  {
  }

  lemma ResidueOfEra(y: int)
    ensures y % 4 == (y % 400) % 4 && y % 100 == (y % 400) % 100
  {
    var q, r := y / 400, y % 400;
    assert y == r + 4 * (100 * q);
    ShiftMod4(r, 100 * q);
    assert y == r + 100 * (4 * q);
    ShiftMod100(r, 4 * q);
  }

  /** The shifted year that ends with February of `y` has 366 days when `y` is a leap year, 365 otherwise. */
  lemma EraDaysStep(y: int)
    ensures EraDays(y) - EraDays(y - 1) == if IsLeapYear(y) then 366 else 365
  {
    if y % 400 == 0 {
      EraDaysAcrossEras(y);
    } else {
      EraDaysWithinEra(y);
      LeapWithinEra(y % 400);
      ResidueOfEra(y);
    }
  }

  /** Consecutive calendar days are consecutive day numbers, across month and year ends and leap days. */
  lemma DaysFromCivilNextDay(year: int, month: int, day: int)
    requires IsCalendarDate(year, month, day)
    ensures var next := NextDay(year, month, day);
            IsCalendarDate(next.year, next.month, next.day)
            && DaysFromCivil(next.year, next.month, next.day) == DaysFromCivil(year, month, day) + 1
  {
    if day < DaysInMonth(year, month) {
      NextDayInMonth(year, month, day);
    } else if month == 2 {
      NextDayMarch(year, month, day);
    } else if month < 12 {
      NextDayNewMonth(year, month, day);
    } else {
      NextDayNewYear(year, month, day);
    }
  }

  /** Seconds since midnight of an `HH:MM:SS` clock text. */
  function ClockSeconds(time: string): int {
    var parts := Split(time, ":");
    3600 * DecimalValue(Field(parts, 0)) + 60 * DecimalValue(Field(parts, 1)) + DecimalValue(Field(parts, 2))
  }

  /**
   * The ISO text is `year-MM-DDTtimeZ` whose month and day fields are at
   * least two characters long and denote the same numbers as the
   * unpadded fields, which are what `EpochSeconds` reads.
   */
  lemma IsoStringFields(d: IsoDate)
    ensures exists mm: string, dd: string ::
              d.IsoString() == d.year + "-" + mm + "-" + dd + "T" + d.time + "Z"
              && |mm| >= 2 && |dd| >= 2
              && DecimalValue(mm) == DecimalValue(d.month) && DecimalValue(dd) == DecimalValue(d.day)
  {
    PadStartValue(d.month, 2);
    PadStartValue(d.day, 2);
  }

  /** The instant `new Date(iso.IsoString()).getTime()` denotes, in seconds. */
  function EpochSeconds(iso: IsoDate): int {
    86400 * DaysFromCivil(DecimalValue(iso.year), DecimalValue(iso.month), DecimalValue(iso.day))
      + ClockSeconds(iso.time)
  }

  /** `(end.getTime() - start.getTime()) / 1000` on whole seconds. */
  function ElapsedSeconds(start: IsoDate, end: IsoDate): int {
    EpochSeconds(end) - EpochSeconds(start)
  }

  /** A clock field: no `:` inside it. */
  predicate ClockField(s: string) {
    Lacks(s, ':')
  }

  lemma {:induction false} ClockSecondsOfFields(h: string, m: string, s: string)
    requires ClockField(h) && ClockField(m) && ClockField(s)
    ensures ClockSeconds(h + ":" + m + ":" + s)
            == 3600 * DecimalValue(h) + 60 * DecimalValue(m) + DecimalValue(s)
  {
    assert h + ":" + m + ":" + s == h + ":" + (m + ":" + s);
    SplitAfterHead(h, ":", m + ":" + s);
    SplitAfterHead(m, ":", s);
    CharAbsent(s, ':');
    SplitWithoutSeparator(s, ":");
  }

  lemma YearValue()
    ensures DecimalValue("1970") == 1970
  {
    assert "1970"[..3] == "197" && "197"[..2] == "19" && "19"[..1] == "1" && "1"[..0] == "";
  }

  lemma TwoDigitValues()
    ensures DecimalValue("01") == 1 && DecimalValue("00") == 0
  {
    assert "01"[..1] == "0" && "00"[..1] == "0" && "0"[..0] == "";
  }

  lemma MidnightSeconds()
    ensures ClockSeconds("00:00:00") == 0
  {
    TwoDigitValues();
    ClockSecondsOfFields("00", "00", "00");
    assert "00" + ":" + "00" + ":" + "00" == "00:00:00";
  }

  lemma CivilOrigin()
    ensures DaysFromCivil(1970, 1, 1) == 0
  {
    assert 1969 / 400 == 4 && 369 / 4 == 92 && 369 / 100 == 3 && 10 % 12 == 10 && 1532 / 5 == 306;
  }

  /** The UTC epoch: 1970-01-01T00:00:00Z is instant 0. */
  lemma EpochOrigin()
    ensures EpochSeconds(IsoDate("1970", "01", "01", "00:00:00")) == 0
  {
    YearValue();
    TwoDigitValues();
    MidnightSeconds();
    CivilOrigin();
  }

  /** The `MM/DD/YYYY - HH:MM:SS` text the log writes. */
  function LogStamp(month: string, day: string, year: string, h: string, m: string, s: string): string {
    month + "/" + day + "/" + year + " - " + (h + ":" + m + ":" + s)
  }

  /** A clock field of a log timestamp: no `:` and no `-`. */
  predicate StampClockField(s: string) {
    s != "" && Lacks(s, ':') && Lacks(s, '-')
  }

  /**
   * Two timestamps of the same day normalise, and the time between them is
   * the difference of their clock readings in seconds.
   */
  lemma {:induction false} SameDayElapsed(month: string, day: string, year: string,
                                          h1: string, m1: string, s1: string,
                                          h2: string, m2: string, s2: string)
    requires DateField(month) && DateField(day) && DateField(year)
    requires StampClockField(h1) && StampClockField(m1) && StampClockField(s1)
    requires StampClockField(h2) && StampClockField(m2) && StampClockField(s2)
    ensures ParseCustomTimestamp(LogStamp(month, day, year, h1, m1, s1)).Some?
    ensures ParseCustomTimestamp(LogStamp(month, day, year, h2, m2, s2)).Some?
    ensures EpochSeconds(ParseCustomTimestamp(LogStamp(month, day, year, h2, m2, s2)).value)
            - EpochSeconds(ParseCustomTimestamp(LogStamp(month, day, year, h1, m1, s1)).value)
            == 3600 * (DecimalValue(h2) - DecimalValue(h1)) + 60 * (DecimalValue(m2) - DecimalValue(m1))
               + (DecimalValue(s2) - DecimalValue(s1))
  {
    ClockStampParses(month, day, year, h1, m1, s1);
    ClockStampParses(month, day, year, h2, m2, s2);
    ClockSecondsOfFields(h1, m1, s1);
    ClockSecondsOfFields(h2, m2, s2);
  }

  lemma {:induction false} ClockStampParses(month: string, day: string, year: string, h: string, m: string, s: string)
    requires DateField(month) && DateField(day) && DateField(year)
    requires StampClockField(h) && StampClockField(m) && StampClockField(s)
    ensures ParseCustomTimestamp(LogStamp(month, day, year, h, m, s)) == Some(IsoDate(year, month, day, h + ":" + m + ":" + s))
  {
    var time := h + ":" + m + ":" + s;
    LacksConcat(h, ":", '-');
    LacksConcat(h + ":", m, '-');
    LacksConcat(h + ":" + m, ":", '-');
    LacksConcat(h + ":" + m + ":", s, '-');
    NoDash(time);
    ParseFormatted(month, day, year, time);
  }

  /** A text without `-` cannot contain ` - `. */
  lemma NoDash(s: string)
    requires Lacks(s, '-')
    ensures !Contains(s, " - ")
  {
    forall j: nat | j + 3 <= |s| ensures !OccursAt(s, " - ", j) {
      assert s[j..j + 3][1] == s[j + 1];
    }
    ContainsIff(s, " - ");
  }
}
