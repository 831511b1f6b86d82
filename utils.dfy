/** The day-fraction computation and the time parser shared by the
    `src` variant of the log (src/utils.py). */
module Utils {
  import opened Wrappers
  import opened Text
  import opened PyNum
  import opened Calendar

  /** The ValueErrors of src/utils.py, and the ZeroDivisionError a zero step raises. */
  datatype UtilsError = EndNotAfterStart | NonPositiveWorkday | ZeroStep | BadTimeFormat

  /** `(end_dt - start_dt).total_seconds() / 3600`: the hours between two times of one day. */
  function DurationHours(start: TimeOfDay, end: TimeOfDay): (h: real)
    ensures start < end ==> h > 0.0
    ensures h * MicrosPerHour as real == (end - start) as real
  {
    (end - start) as real / MicrosPerHour as real
  }

  /** `calculate_day_fraction`: the interval as a fraction of the workday,
      snapped to the nearest multiple of step (ties to even) and rounded to two
      decimals.  The time order is checked first, the workday second; the
      result has no upper bound. */
  function CalculateDayFraction(start: TimeOfDay, end: TimeOfDay, workdayHours: real, step: real): (r: Result<real, UtilsError>)
    ensures r == Err(EndNotAfterStart) <==> end <= start
    ensures r == Err(NonPositiveWorkday) <==> start < end && workdayHours <= 0.0
    ensures r == Err(ZeroStep) <==> start < end && workdayHours > 0.0 && step == 0.0
    ensures r.Ok? <==> start < end && workdayHours > 0.0 && step != 0.0
  {
    if end <= start then Err(EndNotAfterStart)
    else if workdayHours <= 0.0 then Err(NonPositiveWorkday)
    else if step == 0.0 then Err(ZeroStep)
    else Ok(RoundDigits(RoundToMultiple(DurationHours(start, end) / workdayHours, step), 2))
  }

  /** On success the raw fraction `duration / workday` is positive, its snapped
      value is a multiple of step no farther from it than any other multiple,
      and the result is that multiple rounded to two decimals. */
  lemma CalculateDayFractionNearest(start: TimeOfDay, end: TimeOfDay, workdayHours: real, step: real, k: int)
    requires start < end && workdayHours > 0.0 && step > 0.0
    ensures var raw := DurationHours(start, end) / workdayHours;
            var snapped := RoundToMultiple(raw, step);
            raw > 0.0
            && CalculateDayFraction(start, end, workdayHours, step) == Ok(RoundDigits(snapped, 2))
            && Abs(snapped - raw) <= Abs(k as real * step - raw)
            && Abs(RoundDigits(snapped, 2) - snapped) <= 0.005
  {
    var raw := DurationHours(start, end) / workdayHours;
    RoundToMultipleNearest(raw, step, k);
    assert Pow10(2) == 100;
    assert raw > 0.0 by { DivPositive(DurationHours(start, end), workdayHours); }
  }

  lemma DivPositive(a: real, b: real)
    requires a > 0.0 && b > 0.0
    ensures a / b > 0.0
  {
  }

  /** 08:00 to 16:30 on an eight-hour day with step 0.05 gives 1.05: the
      function itself lets a fraction above one through. */
  lemma CalculateDayFractionAboveOne()
    ensures CalculateDayFraction(TimeOf(8, 0), TimeOf(16, 30), 8.0, 0.05) == Ok(1.05)
  {
    var raw := DurationHours(TimeOf(8, 0), TimeOf(16, 30)) / 8.0;
    assert DurationHours(TimeOf(8, 0), TimeOf(16, 30)) == 8.5;
    assert raw / 0.05 == 21.25;
    RoundHalfEvenUnique(21.25, 21);
    assert RoundToMultiple(raw, 0.05) == 1.05;
    RoundDigitsHundredths(105);
  }

  /** `parse_time_string`: surrounding whitespace is ignored, blank text is
      `None`, and anything else must be `HH:MM` or it is an error. */
  function ParseTimeString(value: string): (r: Result<Option<TimeOfDay>, UtilsError>)
    ensures r == Ok(None) <==> AllSpace(value)
    ensures r.Err? <==> !AllSpace(value) && ParseHHMM(Strip(value)).None?
    ensures r.Ok? && r.value.Some? ==> Some(r.value.value) == ParseHHMM(Strip(value))
  {
    var v := Strip(value);
    if v == [] then Ok(None)
    else
      match ParseHHMM(v)
      case None => Err(BadTimeFormat)
      case Some(t) => Ok(Some(t))
  }

  /** A time rendered as `HH:MM` parses back to that time without its seconds. */
  lemma ParseTimeStringFormat(t: TimeOfDay)
    ensures ParseTimeString(FormatHHMM(t)) == Ok(Some(TruncateToMinute(t)))
  {
    var s := FormatHHMM(t);
    assert IsDigit(s[0]) && IsDigit(s[4]);
    StripUnchanged(s);
    ParseFormatHHMM(t);
  }
}
