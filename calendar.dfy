/** Dates, times of day and their text forms as the log uses them: the
    proleptic Gregorian `date` of Python's datetime module (years 1 to 9999),
    `date.isoformat()`, `strptime(text, "%Y-%m-%d")`, `strftime("%H:%M")` and
    `strptime(text, "%H:%M")`.  A time of day is a count of microseconds
    since midnight, the resolution of Python's `time`. */
module Calendar {
  import opened Text
  import opened Wrappers

  // ----------------------------------------------------------------- dates

  predicate IsLeapYear(y: int)
  {
    y % 4 == 0 && (y % 100 != 0 || y % 400 == 0)
  }

  function DaysInMonth(y: int, m: int): (n: int)
    requires 1 <= m <= 12
    ensures 28 <= n <= 31
  {
    if m == 2 then (if IsLeapYear(y) then 29 else 28)
    else if m == 4 || m == 6 || m == 9 || m == 11 then 30
    else 31
  }

  datatype Date = Date(year: int, month: int, day: int)
  {
    /** The dates Python's `date` constructor accepts. */
    predicate Valid()
    {
      1 <= year <= 9999 && 1 <= month <= 12 && 1 <= day <= DaysInMonth(year, month)
    }
  }

  type CalDate = d: Date | d.Valid() witness Date(1, 1, 1)

  /** Chronological order of dates, field by field. */
  predicate Before(a: Date, b: Date)
  {
    a.year < b.year
    || (a.year == b.year && (a.month < b.month || (a.month == b.month && a.day < b.day)))
  }

  /** The first day of the following month; December rolls over into January. */
  function NextMonth(year: int, month: int): (r: (int, int))
    requires 1 <= month <= 12
    ensures 1 <= r.1 <= 12
  {
    if month == 12 then (year + 1, 1) else (year, month + 1)
  }

  /** `date(year, month, 1)` and the first day of the next month, the bounds of
      a half-open month; `None` where Python's `date` raises ValueError. */
  function MonthBounds(year: int, month: int): (r: Option<(CalDate, CalDate)>)
    ensures r.Some? <==> 1 <= month <= 12 && 1 <= year && (year < 9999 || (year == 9999 && month < 12))
  {
    if 1 <= month <= 12 && 1 <= year && (year < 9999 || (year == 9999 && month < 12)) then
      var (ny, nm) := NextMonth(year, month);
      Some((Date(year, month, 1), Date(ny, nm, 1)))
    else None
  }

  /** A date lies in the half-open range [first of the month, first of the next month)
      exactly when it has that year and month. */
  lemma MonthBoundsSelectMonth(year: int, month: int, d: CalDate)
    requires MonthBounds(year, month).Some?
    ensures var (lo, hi) := MonthBounds(year, month).value;
            (!Before(d, lo) && Before(d, hi)) <==> (d.year == year && d.month == month)
  {
  }

  // -------------------------------------------------------- ISO date text

  /** The text `yyyy-mm-dd` with zero padding; for a valid date this is `date.isoformat()`. */
  function DateText(y: nat, m: nat, d: nat): (s: string)
    ensures |s| == 10
  {
    FixedDigits(y, 4) + ("-" + (FixedDigits(m, 2) + ("-" + FixedDigits(d, 2))))
  }

  /** `date.isoformat()`. */
  function IsoDate(d: CalDate): string
  {
    DateText(d.year, d.month, d.day)
  }

  lemma DateTextParts(y: nat, m: nat, d: nat)
    ensures var s := DateText(y, m, d);
            s[..4] == FixedDigits(y, 4) && s[4] == '-' && s[5..7] == FixedDigits(m, 2)
            && s[7] == '-' && s[8..] == FixedDigits(d, 2) && s[..7] == FixedDigits(y, 4) + "-" + FixedDigits(m, 2)
  {
    var s := DateText(y, m, d);
    assert s == FixedDigits(y, 4) + "-" + FixedDigits(m, 2) + "-" + FixedDigits(d, 2);
  }

  /** A month number as `%m` reads it: `1[0-2]`, `0[1-9]` or `[1-9]`, the
      two-character forms tried first. */
  predicate MonthPair(a: char, b: char)
  {
    (a == '1' && '0' <= b <= '2') || (a == '0' && '1' <= b <= '9')
  }

  /** A two-character day as `%d` reads it: `3[01]`, `[12]\d`, `0[1-9]`. */
  predicate DayPair(a: char, b: char)
  {
    (a == '3' && (b == '0' || b == '1')) || ((a == '1' || a == '2') && IsDigit(b)) || (a == '0' && '1' <= b <= '9')
  }

  /** The value of the day field `r` (everything after the second '-'), read
      as `%d` does, or `None` when it does not match or characters remain. */
  function DayField(r: string): Option<nat>
  {
    if |r| >= 2 && DayPair(r[0], r[1]) then
      (if |r| == 2 then Some(DigitValue(r[0]) * 10 + DigitValue(r[1])) else None)
    else if |r| >= 1 && '1' <= r[0] <= '9' then
      (if |r| == 1 then Some(DigitValue(r[0])) else None)
    else if |r| >= 2 && r[0] == ' ' && '1' <= r[1] <= '9' then
      (if |r| == 2 then Some(DigitValue(r[1])) else None)
    else None
  }

  /** `datetime.strptime(text, "%Y-%m-%d").date()`: four digits, '-', a month
      of one or two characters, '-', a day, nothing after it, and a date that
      exists.  `None` stands for the ValueError. */
  function ParseDate(s: string): Option<CalDate>
  {
    if |s| < 7 || !AllDigits(s[..4]) || s[4] != '-' then None
    else
      var year := DecimalValue(s[..4]);
      // the month: two characters followed by '-', or one character followed by '-'
      var mlen := if |s| >= 8 && MonthPair(s[5], s[6]) && s[7] == '-' then 2
                  else if '1' <= s[5] <= '9' && s[6] == '-' then 1
                  else 0;
      if mlen == 0 then None
      else
        var month := if mlen == 2 then DigitValue(s[5]) * 10 + DigitValue(s[6]) else DigitValue(s[5]);
        match DayField(s[6 + mlen..])
        case None => None
        case Some(day) =>
          var d := Date(year, month, day);
          if d.Valid() then Some(d) else None
  }

  /** Reading back an ISO date gives the date: `strptime(d.isoformat(), "%Y-%m-%d").date() == d`. */
  lemma ParseIsoDate(d: CalDate)
    ensures ParseDate(IsoDate(d)) == Some(d)
  {
    var s := IsoDate(d);
    DateTextParts(d.year, d.month, d.day);
    assert Pow10(4) == 10000;
    FixedDigitsValue(d.year, 4);
    TwoDigits(d.month);
    TwoDigits(d.day);
    DigitCharValue(d.month / 10);
    DigitCharValue(d.month % 10);
    DigitCharValue(d.day / 10);
    DigitCharValue(d.day % 10);
    assert s[5] == DigitChar(d.month / 10) && s[6] == DigitChar(d.month % 10) && s[7] == '-';
    assert s[8..] == [DigitChar(d.day / 10), DigitChar(d.day % 10)];
  }

  /** ISO date text compares, as text, like the dates themselves. */
  lemma IsoDateOrder(a: CalDate, b: CalDate)
    ensures LexLess(IsoDate(a), IsoDate(b)) <==> Before(a, b)
  {
    assert Pow10(4) == 10000 && Pow10(2) == 100;
    var ya, yb := FixedDigits(a.year, 4), FixedDigits(b.year, 4);
    var ma, mb := FixedDigits(a.month, 2), FixedDigits(b.month, 2);
    var da, db := FixedDigits(a.day, 2), FixedDigits(b.day, 2);
    var ta, tb := "-" + da, "-" + db;
    var ra, rb := "-" + (ma + ta), "-" + (mb + tb);
    LexLessAppend(ya, ra, yb, rb);
    LexLessAppend("-", ma + ta, "-", mb + tb);
    LexLessIrreflexive("-");
    LexLessAppend(ma, ta, mb, tb);
    LexLessAppend("-", da, "-", db);
    FixedDigitsOrder(a.year, b.year, 4);
    FixedDigitsOrder(a.month, b.month, 2);
    FixedDigitsOrder(a.day, b.day, 2);
    if ya == yb { FixedDigitsInjective(a.year, b.year, 4); }
    if ma == mb { FixedDigitsInjective(a.month, b.month, 2); }
  }

  /** The text `yyyy-mm` that a `f"{year:04d}-{month:02d}"` parameter holds. */
  function MonthKey(year: int, month: int): string
  {
    PadInt(year, 4) + "-" + PadInt(month, 2)
  }

  /** The first seven characters of a date's ISO text, `substr(date, 1, 7)`,
      equal `f"{year:04d}-{month:02d}"` exactly when the date lies in that
      year and month; this holds for every integer year and month. */
  lemma IsoDateMonthPrefix(d: CalDate, year: int, month: int)
    ensures IsoDate(d)[..7] == MonthKey(year, month) <==> d.year == year && d.month == month
  {
    DateTextParts(d.year, d.month, d.day);
    assert Pow10(4) == 10000 && Pow10(2) == 100;
    var y, m := FixedDigits(d.year, 4), FixedDigits(d.month, 2);
    var yy, mm := PadInt(year, 4), PadInt(month, 2);
    assert y + "-" + m == y + ("-" + m) && yy + "-" + mm == yy + ("-" + mm);
    if |yy| == 4 && |mm| == 2 {
      ConcatEqual(y, "-" + m, yy, "-" + mm);
      ConcatEqual("-", m, "-", mm);
      PadIntIsFixed(year, 4, d.year);
      PadIntIsFixed(month, 2, d.month);
    } else if d.year == year && d.month == month {
      PadIntFixed(year, 4);
      PadIntFixed(month, 2);
    }
  }

  /** Two concatenations with first parts of equal length are equal exactly when the parts are. */
  lemma ConcatEqual(a1: string, a2: string, b1: string, b2: string)
    requires |a1| == |b1|
    ensures a1 + a2 == b1 + b2 <==> a1 == b1 && a2 == b2
  {
    if a1 + a2 == b1 + b2 {
      assert a1 == (a1 + a2)[..|a1|] && b1 == (b1 + b2)[..|b1|];
      assert a2 == (a1 + a2)[|a1|..] && b2 == (b1 + b2)[|b1|..];
    }
  }

  /** Zero padding of an integer spells a fixed-width number v exactly when the integer is v. */
  lemma PadIntIsFixed(n: int, width: nat, v: nat)
    requires 1 <= width && v < Pow10(width)
    ensures PadInt(n, width) == FixedDigits(v, width) <==> n == v
  {
    if PadInt(n, width) == FixedDigits(v, width) {
      assert IsDigit(PadInt(n, width)[0]);
      PadIntValue(n, width);
      FixedDigitsValue(v, width);
    }
    if n == v {
      PadIntFixed(v, width);
    }
  }

  /** For a number that fits, the zero padding is the fixed-width form. */
  lemma PadIntFixed(n: nat, width: nat)
    requires 1 <= width && n < Pow10(width)
    ensures PadInt(n, width) == FixedDigits(n, width)
  {
    NumDigitsAtMost(n, width);
  }

  /** `f"{year}_{month:02d}"`, the part the export file names share. */
  function MonthStem(year: int, month: int): string
  {
    IntToDecimal(year) + "_" + PadInt(month, 2)
  }

  /** For a calendar month the stem is the year's digits, an underscore and
      the month as two digits that read back as the month. */
  lemma MonthStemDigits(year: int, month: int)
    requires 1 <= month <= 12
    ensures var s, y := MonthStem(year, month), IntToDecimal(year);
            |s| == |y| + 3 && s[..|y|] == y && s[|y|] == '_'
            && s[|y| + 1..] == FixedDigits(month, 2) && DecimalValue(s[|y| + 1..]) == month
  {
    PadIntFixed(month, 2);
    FixedDigitsValue(month, 2);
    var y := IntToDecimal(year);
    var s := MonthStem(year, month);
    assert s == (y + "_") + FixedDigits(month, 2);
  }

  /** A name made of a prefix, the stem and an extension gives each back. */
  lemma NameParts(prefix: string, stem: string, ext: string)
    ensures var name := prefix + stem + ext;
            name[..|prefix|] == prefix && name[|prefix|..|name| - |ext|] == stem && name[|name| - |ext|..] == ext
  {
  }


  lemma {:induction false} NumDigitsAtMost(n: nat, width: nat)
    requires 1 <= width && n < Pow10(width)
    ensures NumDigits(n) <= width
  {
    if n >= 10 {
      NumDigitsAtMost(n / 10, width - 1);
    }
  }

  lemma {:induction false} NumDigitsAtLeast(n: nat, width: nat)
    requires n >= Pow10(width)
    ensures NumDigits(n) > width
  {
    if width > 0 {
      NumDigitsAtLeast(n / 10, width - 1);
    }
  }

  /** SQLite's `strftime('%m', date) = f"{month:02d}" AND strftime('%Y', date) = str(year)`
      on an ISO date holds exactly when the date lies in that month and year
      and the year has four digits: `str(year)` is not zero padded, so years
      before 1000 never match. */
  lemma StrftimeMonthYearMatch(d: CalDate, year: int, month: int)
    ensures (FixedDigits(d.month, 2) == PadInt(month, 2) && FixedDigits(d.year, 4) == IntToDecimal(year))
            <==> (d.month == month && d.year == year && year >= 1000)
  {
    assert Pow10(4) == 10000 && Pow10(2) == 100 && Pow10(3) == 1000;
    PadIntIsFixed(month, 2, d.month);
    var yy := IntToDecimal(year);
    if FixedDigits(d.year, 4) == yy {
      assert IsDigit(yy[0]);
      FixedDigitsValue(d.year, 4);
      PadIntValue(year, 0);
      if year < 1000 {
        NumDigitsAtMost(year, 3);
      }
    }
    if d.year == year && year >= 1000 {
      NumDigitsAtLeast(year, 3);
      NumDigitsAtMost(year, 4);
    }
  }

  /** The text comparison the month queries make: an ISO date lies between
      the ISO texts of the month's bounds exactly when it is in that month. */
  lemma IsoDateInMonth(year: int, month: int, d: CalDate)
    requires MonthBounds(year, month).Some?
    ensures var (lo, hi) := MonthBounds(year, month).value;
            (LexLe(IsoDate(lo), IsoDate(d)) && LexLess(IsoDate(d), IsoDate(hi))) <==> (d.year == year && d.month == month)
  {
    var (lo, hi) := MonthBounds(year, month).value;
    MonthBoundsSelectMonth(year, month, d);
    IsoDateOrder(lo, d);
    IsoDateOrder(d, hi);
    if IsoDate(lo) == IsoDate(d) {
      ParseIsoDate(lo);
      ParseIsoDate(d);
    }
  }

  // ----------------------------------------------------------- time of day

  const MicrosPerMinute: int := 60_000_000
  const MicrosPerHour: int := 3_600_000_000
  const MicrosPerDay: int := 86_400_000_000

  /** A time of day: microseconds since midnight. */
  type TimeOfDay = t: int | 0 <= t < MicrosPerDay

  function Hour(t: TimeOfDay): (h: nat)
    ensures h < 24
  {
    t / MicrosPerHour
  }

  function Minute(t: TimeOfDay): (m: nat)
    ensures m < 60
  {
    (t / MicrosPerMinute) % 60
  }

  /** `time(hour, minute)`. */
  function TimeOf(hour: nat, minute: nat): (t: TimeOfDay)
    requires hour < 24 && minute < 60
    ensures Hour(t) == hour && Minute(t) == minute
  {
    hour * MicrosPerHour + minute * MicrosPerMinute
  }

  /** The time with seconds and microseconds dropped: `time(t.hour, t.minute)`. */
  function TruncateToMinute(t: TimeOfDay): (r: TimeOfDay)
    ensures r <= t < r + MicrosPerMinute
    ensures r % MicrosPerMinute == 0
    ensures r == TimeOf(Hour(t), Minute(t))
  {
    t - t % MicrosPerMinute
  }

  /** `strftime("%H:%M")` and Qt's `toString("HH:mm")`: two-digit hour and minute. */
  function FormatHHMM(t: TimeOfDay): (s: string)
    ensures |s| == 5
  {
    FixedDigits(Hour(t), 2) + (":" + FixedDigits(Minute(t), 2))
  }

  /** An hour as `%H` reads it in two characters: `2[0-3]` or `[0-1]\d`. */
  predicate HourPair(a: char, b: char)
  {
    (a == '2' && '0' <= b <= '3') || ((a == '0' || a == '1') && IsDigit(b))
  }

  /** `datetime.strptime(text, "%H:%M").time()`: an hour of two characters
      (`2[0-3]`, `[0-1]\d`) or one digit, ':', a minute of two characters
      (`[0-5]\d`) or one digit, and nothing after it.  `None` stands for the
      ValueError. */
  function ParseHHMM(s: string): Option<TimeOfDay>
  {
    var hlen := if |s| >= 4 && HourPair(s[0], s[1]) && s[2] == ':' && IsDigit(s[3]) then 2
                else if |s| >= 3 && IsDigit(s[0]) && s[1] == ':' && IsDigit(s[2]) then 1
                else 0;
    if hlen == 0 then None
    else
      var r := s[hlen + 1..];
      var mlen := if |r| >= 2 && '0' <= r[0] <= '5' && IsDigit(r[1]) then 2 else 1;
      if |r| != mlen then None
      else
        var hour := if hlen == 2 then DigitValue(s[0]) * 10 + DigitValue(s[1]) else DigitValue(s[0]);
        var minute := if mlen == 2 then DigitValue(r[0]) * 10 + DigitValue(r[1]) else DigitValue(r[0]);
        Some(TimeOf(hour, minute))
  }

  /** Rendering a time as `HH:MM` and reading it back keeps hour and minute
      and drops the seconds. */
  lemma ParseFormatHHMM(t: TimeOfDay)
    ensures ParseHHMM(FormatHHMM(t)) == Some(TruncateToMinute(t))
  {
    var s := FormatHHMM(t);
    TwoDigits(Hour(t));
    TwoDigits(Minute(t));
    DigitCharValue(Hour(t) / 10);
    DigitCharValue(Hour(t) % 10);
    DigitCharValue(Minute(t) / 10);
    DigitCharValue(Minute(t) % 10);
    assert s == [DigitChar(Hour(t) / 10), DigitChar(Hour(t) % 10), ':', DigitChar(Minute(t) / 10), DigitChar(Minute(t) % 10)];
    assert s[3..] == [s[3], s[4]];
  }

  /** `HH:MM` text compares, as text, like the times truncated to the minute. */
  lemma FormatHHMMOrder(a: TimeOfDay, b: TimeOfDay)
    ensures LexLess(FormatHHMM(a), FormatHHMM(b)) <==> TruncateToMinute(a) < TruncateToMinute(b)
  {
    assert Pow10(2) == 100;
    var ha, hb := FixedDigits(Hour(a), 2), FixedDigits(Hour(b), 2);
    var ma, mb := FixedDigits(Minute(a), 2), FixedDigits(Minute(b), 2);
    LexLessAppend(ha, ":" + ma, hb, ":" + mb);
    LexLessAppend(":", ma, ":", mb);
    LexLessIrreflexive(":");
    FixedDigitsOrder(Hour(a), Hour(b), 2);
    FixedDigitsOrder(Minute(a), Minute(b), 2);
    if ha == hb { FixedDigitsInjective(Hour(a), Hour(b), 2); }
  }

  // ------------------------------------------------------------ timestamps

  /** A `datetime` instant.  The stores keep its ISO text; ISO text of one
      format compares like the instants, so the instant stands for the text. */
  type Timestamp = int
}
