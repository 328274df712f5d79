/** The air-date offset of app/src/utils/date_utils.py: a per-series offset
    dictionary of weeks, days, hours and minutes added to an air date, with
    every conversion failure ignored. Datetimes are whole seconds counted from
    0001-01-01 00:00:00 of the proleptic Gregorian calendar, the calendar of
    Python's `datetime`. */
module DateUtils {
  import opened Basics
  import opened PyValue

  const SecondsPerMinute: int := 60
  const SecondsPerHour: int := 3600
  const SecondsPerDay: int := 86400
  const SecondsPerWeek: int := 604800

  /** The four keys `apply_time_offset` reads, in the order it reads them. */
  const OffsetKeys: seq<string> := ["weeks", "days", "hours", "minutes"]

  /** `int(offset.get(key, 0))`; None where `int` raises ValueError or TypeError. */
  function OffsetField(offset: map<string, Value>, key: string): Option<int>
  {
    ToInt(Get(offset, key, Int(0)))
  }

  /** The length of `timedelta(weeks=w, days=d, hours=h, minutes=m)` in seconds. */
  function DeltaSeconds(weeks: int, days: int, hours: int, minutes: int): int
  {
    weeks * SecondsPerWeek + days * SecondsPerDay + hours * SecondsPerHour + minutes * SecondsPerMinute
  }

  /** `apply_time_offset(base, offset)`: an empty offset, or one holding a value
      `int` cannot convert, leaves the base unchanged; otherwise the four fields
      shift it by a whole number of minutes. */
  function ApplyTimeOffset(base: int, offset: map<string, Value>): (r: int)
    ensures (r - base) % SecondsPerMinute == 0
    ensures offset == map[] ==> r == base
  {
    if offset == map[] then base
    else
      var weeks := OffsetField(offset, "weeks");
      var days := OffsetField(offset, "days");
      var hours := OffsetField(offset, "hours");
      var minutes := OffsetField(offset, "minutes");
      if weeks.None? || days.None? || hours.None? || minutes.None? then base
      else base + DeltaSeconds(weeks.value, days.value, hours.value, minutes.value)
  }

  /** An offset whose four fields are plain integers shifts the base by exactly
      their total; a negative total moves it earlier, a zero total not at all. */
  lemma IntegerOffset(base: int, offset: map<string, Value>, weeks: int, days: int, hours: int, minutes: int)
    requires offset != map[]
    requires OffsetField(offset, "weeks") == Some(weeks)
    requires OffsetField(offset, "days") == Some(days)
    requires OffsetField(offset, "hours") == Some(hours)
    requires OffsetField(offset, "minutes") == Some(minutes)
    ensures ApplyTimeOffset(base, offset) - base == ((weeks * 7 + days) * 24 + hours) * 3600 + minutes * 60
    ensures (weeks <= 0 && days <= 0 && hours <= 0 && minutes <= 0 && (weeks < 0 || days < 0 || hours < 0 || minutes < 0))
              ==> ApplyTimeOffset(base, offset) < base
    ensures weeks >= 0 && days >= 0 && hours >= 0 && minutes >= 0 ==> ApplyTimeOffset(base, offset) >= base
  {
  }

  /** A missing key counts as 0: adding it with the value 0 changes nothing. */
  lemma MissingKeyIsZero(base: int, offset: map<string, Value>, key: string)
    requires key in OffsetKeys && key !in offset
    ensures ApplyTimeOffset(base, offset[key := Int(0)]) == ApplyTimeOffset(base, offset)
  {
    var o := offset[key := Int(0)];
    forall k | k in OffsetKeys
      ensures OffsetField(o, k) == OffsetField(offset, k)
    {
    }
    if offset == map[] {
      assert OffsetField(o, "weeks") == Some(0) && OffsetField(o, "days") == Some(0);
      assert OffsetField(o, "hours") == Some(0) && OffsetField(o, "minutes") == Some(0);
    }
  }

  /** Keys other than the four are never read. */
  lemma OtherKeysIgnored(base: int, offset: map<string, Value>, key: string, v: Value)
    requires key !in OffsetKeys
    ensures ApplyTimeOffset(base, offset[key := v]) == ApplyTimeOffset(base, offset)
  {
    var o := offset[key := v];
    assert OffsetField(o, "weeks") == OffsetField(offset, "weeks");
    assert OffsetField(o, "days") == OffsetField(offset, "days");
    assert OffsetField(o, "hours") == OffsetField(offset, "hours");
    assert OffsetField(o, "minutes") == OffsetField(offset, "minutes");
    if offset == map[] {
      assert OffsetField(o, "weeks") == Some(0) && OffsetField(o, "days") == Some(0);
      assert OffsetField(o, "hours") == Some(0) && OffsetField(o, "minutes") == Some(0);
    }
  }

  /** One field `int` rejects (a word, a list, None, ...) discards the whole offset. */
  lemma UnconvertibleFieldIgnored(base: int, offset: map<string, Value>, key: string)
    requires key in OffsetKeys && key in offset && ToInt(offset[key]).None?
    ensures ApplyTimeOffset(base, offset) == base
  {
    assert OffsetField(offset, key).None?;
  }

  /** An offset of hours alone, whose value `int` converts to n. */
  lemma HoursOnly(base: int, v: Value, n: int)
    requires ToInt(v) == Some(n)
    ensures ApplyTimeOffset(base, map["hours" := v]) == base + n * SecondsPerHour
  {
    var o := map["hours" := v];
    assert "hours" in o && "weeks" !in o && "days" !in o && "minutes" !in o;
    assert OffsetField(o, "hours") == Some(n);
    IntegerOffset(base, o, 0, 0, n, 0);
  }

  /** A field given as the decimal text of an integer counts as that integer. */
  lemma TextFieldConverted(base: int, n: int)
    ensures ApplyTimeOffset(base, map["hours" := Str(IntToStr(n))]) == base + n * SecondsPerHour
  {
    ToIntOfDecimalText(n);
    HoursOnly(base, Str(IntToStr(n)), n);
  }

  /** A fractional field is truncated toward zero, as `int(1.9) == 1` and `int(-1.9) == -1`. */
  lemma FloatFieldTruncated(base: int, r: real)
    ensures ApplyTimeOffset(base, map["days" := Float(r)]) == base + Truncate(r) * SecondsPerDay
    ensures r == 1.9 ==> ApplyTimeOffset(base, map["days" := Float(r)]) == base + SecondsPerDay
    ensures r == -1.9 ==> ApplyTimeOffset(base, map["days" := Float(r)]) == base - SecondsPerDay
  {
    var o := map["days" := Float(r)];
    assert "days" in o;
    IntegerOffset(base, o, 0, Truncate(r), 0, 0);
  }

  /** Text `int` rejects, such as "1.5" or "", discards the offset. */
  lemma RejectedTextIgnored(base: int, text: string)
    requires text == "1.5" || text == ""
    ensures ApplyTimeOffset(base, map["minutes" := Str(text)]) == base
  {
    if text == "1.5" {
      DecimalTextRejected(text);
    } else {
      assert ParseInt(text).None?;
    }
    var offset := map["minutes" := Str(text)];
    assert "minutes" in OffsetKeys && "minutes" in offset && offset["minutes"] == Str(text);
    UnconvertibleFieldIgnored(base, offset, "minutes");
  }

  /** `int` rejects a digit, a decimal point and a digit, such as "1.5". */
  lemma DecimalTextRejected(text: string)
    requires |text| == 3 && IsDigit(text[0]) && text[1] == '.' && IsDigit(text[2])
    ensures ParseInt(text).None?
  {
    assert !IsDigitGroups(text) by {
      assert !(IsDigit(text[1]) || text[1] == '_');
    }
    assert StripRight(StripLeft(text)) == text;
  }

  // ---------------------------------------------------------------------
  // The calendar, to state dates as `datetime(y, m, d, H, M, S)` does.

  predicate IsLeapYear(y: int)
  {
    y % 4 == 0 && (y % 100 != 0 || y % 400 == 0)
  }

  function DaysInMonth(y: int, m: int): int
    requires 1 <= m <= 12
  {
    if m == 2 then (if IsLeapYear(y) then 29 else 28)
    else if m == 4 || m == 6 || m == 9 || m == 11 then 30
    else 31
  }

  /** Days from 0001-01-01 to January 1st of year y. */
  function DaysBeforeYear(y: int): int
    requires y >= 1
  {
    var p := y - 1;
    p * 365 + p / 4 - p / 100 + p / 400
  }

  /** Days from January 1st to the first of month m of year y. */
  function DaysBeforeMonth(y: int, m: int): int
    requires 1 <= m <= 12
  {
    if m == 1 then 0 else DaysBeforeMonth(y, m - 1) + DaysInMonth(y, m - 1)
  }

  /** The fields `datetime(...)` accepts. */
  predicate ValidDateTime(y: int, mo: int, d: int, h: int, mi: int, s: int)
  {
    && 1 <= y <= 9999 && 1 <= mo <= 12 && 1 <= d <= DaysInMonth(y, mo)
    && 0 <= h < 24 && 0 <= mi < 60 && 0 <= s < 60
  }

  /** `datetime(y, mo, d, h, mi, s)` as seconds from 0001-01-01 00:00:00. */
  function DateTime(y: int, mo: int, d: int, h: int, mi: int, s: int): int
    requires ValidDateTime(y, mo, d, h, mi, s)
  {
    (DaysBeforeYear(y) + DaysBeforeMonth(y, mo) + d - 1) * SecondsPerDay + h * SecondsPerHour + mi * SecondsPerMinute + s
  }

  /** An offset that crosses midnight and a month end carries into the next month. */
  lemma MonthRollover(y: int, mo: int, h: int, mi: int, s: int)
    requires 1 <= y <= 9999 && 1 <= mo < 12 && 0 <= h < 24 && 0 <= mi < 60 && 0 <= s < 60
    requires ValidDateTime(y, mo, DaysInMonth(y, mo), h, mi, s) && ValidDateTime(y, mo + 1, 1, h, mi, s)
    ensures ApplyTimeOffset(DateTime(y, mo, DaysInMonth(y, mo), h, mi, s), map["days" := Int(1)])
            == DateTime(y, mo + 1, 1, h, mi, s)
  {
    var o := map["days" := Int(1)];
    assert "days" in o;
    IntegerOffset(DateTime(y, mo, DaysInMonth(y, mo), h, mi, s), o, 0, 1, 0, 0);
  }

  /** 2023-01-01 12:00 shifted by one day and two hours is 2023-01-02 14:00. */
  lemma TestOffsetExample()
    ensures ApplyTimeOffset(DateTime(2023, 1, 1, 12, 0, 0), map["days" := Int(1), "hours" := Int(2)])
            == DateTime(2023, 1, 2, 14, 0, 0)
  {
    var o := map["days" := Int(1), "hours" := Int(2)];
    assert "days" in o;
    IntegerOffset(DateTime(2023, 1, 1, 12, 0, 0), o, 0, 1, 2, 0);
  }
}
