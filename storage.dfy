/** The `log_entries` store of the `src` variant (src/storage.py).  The table
    keeps dates as ISO text and times as `HH:MM` text; `row_to_entry` parses
    them back.  The module's functions act on one table, modelled as a class
    over its rows and the AUTOINCREMENT counter. */
module Storage {
  import opened Wrappers
  import opened Text
  import opened PyNum
  import opened Calendar
  import opened Sql
  import opened Models

  /** A row of `log_entries`, its columns as SQLite holds them. */
  datatype StoredRow = StoredRow(
    id: int,
    date: string,
    employee: string,
    siteName: string,
    kst: string,
    activity: string,
    startTime: Option<string>,
    endTime: Option<string>,
    dayFraction: Option<real>,
    result: string,
    notes: Option<string>,
    createdAt: Timestamp,
    updatedAt: Timestamp)

  /** The ValueError `strptime` raises on stored text it cannot read. */
  datatype ReadError = BadDate | BadTime

  // ------------------------------------------------------ rows and entries

  /** `_parse_time`: NULL and the empty text are no time; other text must be `HH:MM`. */
  function ParseTime(value: Option<string>): (r: Result<Option<TimeOfDay>, ReadError>)
    ensures r == Ok(None) <==> value == None || value == Some("")
    ensures r.Ok? && r.value.Some? ==> ParseHHMM(value.value) == Some(r.value.value)
    ensures r.Err? <==> value.Some? && value.value != "" && ParseHHMM(value.value).None?
  {
    match value
    case None => Ok(None)
    case Some(s) =>
      if s == "" then Ok(None)
      else
        match ParseHHMM(s)
        case None => Err(BadTime)
        case Some(t) => Ok(Some(t))
  }

  /** The stored form of an optional time: `strftime("%H:%M")`, or NULL.  A
      `time` is always true in Python, midnight included. */
  function FormatTime(t: Option<TimeOfDay>): (r: Option<string>)
    ensures r.None? <==> t.None?
    ensures t.Some? ==> r == Some(FormatHHMM(t.value))
  {
    match t
    case None => None
    case Some(v) => Some(FormatHHMM(v))
  }

  /** A time has no seconds or microseconds. */
  predicate WholeMinute(t: Option<TimeOfDay>)
  {
    t.Some? ==> t.value % MicrosPerMinute == 0
  }

  /** A stored time reads back as the time cut to the minute, and unchanged when it is a whole minute. */
  lemma ParseFormatTime(t: Option<TimeOfDay>)
    ensures ParseTime(FormatTime(t)).Ok?
    ensures WholeMinute(t) ==> ParseTime(FormatTime(t)) == Ok(t)
  {
    if t.Some? {
      ParseFormatHHMM(t.value);
      assert |FormatHHMM(t.value)| == 5;
    }
  }

  /** `row_to_entry`: the row with its texts parsed; a missing note becomes "". */
  function RowToEntry(row: StoredRow): (r: Result<LogEntry, ReadError>)
    ensures r.Ok? <==> ParseDate(row.date).Some? && ParseTime(row.startTime).Ok? && ParseTime(row.endTime).Ok?
    ensures r.Ok? ==> r.value.id == Some(row.id) && Some(r.value.date) == ParseDate(row.date)
    ensures r.Ok? ==> r.value.notes == row.notes.GetOr("")
  {
    match ParseDate(row.date)
    case None => Err(BadDate)
    case Some(d) =>
      match ParseTime(row.startTime)
      case Err(e) => Err(e)
      case Ok(start) =>
        match ParseTime(row.endTime)
        case Err(e) => Err(e)
        case Ok(end) =>
          Ok(LogEntry(Some(row.id), d, row.employee, row.siteName, row.kst, row.activity, start, end,
                      row.dayFraction, row.result, row.notes.GetOr(""), row.createdAt, row.updatedAt))
  }

  /** The column values `insert_entry` writes for an entry, under a given id. */
  function ToRow(id: int, e: LogEntry): (r: StoredRow)
    ensures r.id == id && r.date == IsoDate(e.date) && r.notes == Some(e.notes)
  {
    StoredRow(id, IsoDate(e.date), e.employee, e.siteName, e.kst, e.activity,
              FormatTime(e.startTime), FormatTime(e.endTime), e.dayFraction, e.result, Some(e.notes),
              e.createdAt, e.updatedAt)
  }

  /** Round trip: an inserted entry reads back with the store's id and every
      other field as given, provided its times are whole minutes. */
  lemma RowRoundTrip(id: int, e: LogEntry)
    requires WholeMinute(e.startTime) && WholeMinute(e.endTime)
    ensures RowToEntry(ToRow(id, e)) == Ok(e.(id := Some(id)))
  {
    ParseIsoDate(e.date);
    ParseFormatTime(e.startTime);
    ParseFormatTime(e.endTime);
  }

  /** Whatever the times, a written row can be read. */
  lemma ToRowReadable(id: int, e: LogEntry)
    ensures Canonical(ToRow(id, e))
  {
    ParseIsoDate(e.date);
    ParseFormatTime(e.startTime);
    ParseFormatTime(e.endTime);
  }

  /** A row as this store writes it: readable, with its date in ISO form. */
  ghost predicate Canonical(row: StoredRow)
  {
    RowToEntry(row).Ok? && row.date == IsoDate(RowToEntry(row).value.date)
  }

  /** Every row is one this store wrote. */
  ghost predicate AllCanonical(s: seq<StoredRow>)
  {
    forall row :: row in s ==> Canonical(row)
  }

  /** The row `update_entry` leaves: every column of the entry and its
      `updated_at`, but the row's own id and `created_at`. */
  function UpdatedRow(row: StoredRow, e: LogEntry): (r: StoredRow)
    ensures r == ToRow(row.id, e).(createdAt := row.createdAt)
  {
    StoredRow(row.id, IsoDate(e.date), e.employee, e.siteName, e.kst, e.activity,
              FormatTime(e.startTime), FormatTime(e.endTime), e.dayFraction, e.result, Some(e.notes),
              row.createdAt, e.updatedAt)
  }

  /** An updated row reads back as the entry with the row's id and creation time. */
  lemma UpdatedRowReads(row: StoredRow, e: LogEntry)
    requires WholeMinute(e.startTime) && WholeMinute(e.endTime)
    ensures RowToEntry(UpdatedRow(row, e)) == Ok(e.(id := Some(row.id), createdAt := row.createdAt))
  {
    RowRoundTrip(row.id, e.(createdAt := row.createdAt));
  }

  /** The table after `UPDATE ... WHERE id = ?`: the row with that id is updated, the others stay. */
  function UpdatedTable(rows: seq<StoredRow>, entryId: int, e: LogEntry): (r: seq<StoredRow>)
    ensures |r| == |rows| && forall i :: 0 <= i < |rows| ==> r[i].id == rows[i].id
  {
    seq(|rows|, i requires 0 <= i < |rows| => if rows[i].id == entryId then UpdatedRow(rows[i], e) else rows[i])
  }

  /** An update keeps every row readable, every id below the next id and the ids increasing. */
  lemma UpdatedTableValid(rows: seq<StoredRow>, entryId: int, e: LogEntry, nextId: int)
    requires AllCanonical(rows) && Pairwise(rows, IdBefore) && forall row :: row in rows ==> row.id < nextId
    ensures var after := UpdatedTable(rows, entryId, e);
            AllCanonical(after) && Pairwise(after, IdBefore) && forall row :: row in after ==> row.id < nextId
  {
    var after := UpdatedTable(rows, entryId, e);
    forall row | row in after ensures Canonical(row) && row.id < nextId {
      var i :| 0 <= i < |after| && after[i] == row;
      assert rows[i] in rows;
      if rows[i].id == entryId {
        ToRowReadable(rows[i].id, e.(createdAt := rows[i].createdAt));
      }
    }
  }

  /** The entry `duplicate_entry` inserts: the original's fields, no id, the
      new date when one is given, and one fresh time for both timestamps. */
  function DuplicateOf(e: LogEntry, newDate: Option<CalDate>, now: Timestamp): (r: LogEntry)
    ensures r.id == None && r.createdAt == now && r.updatedAt == now
    ensures r.date == (if newDate.Some? then newDate.value else e.date)
    ensures r.(id := e.id, date := e.date, createdAt := e.createdAt, updatedAt := e.updatedAt) == e
  {
    LogEntry(None, newDate.GetOr(e.date), e.employee, e.siteName, e.kst, e.activity, e.startTime, e.endTime,
             e.dayFraction, e.result, e.notes, now, now)
  }

  // ------------------------------------------------------ keys and filters

  function HasId(id: int): StoredRow -> bool { (row: StoredRow) => row.id == id }

  function NotId(id: int): StoredRow -> bool { (row: StoredRow) => row.id != id }

  function OnDate(text: string): StoredRow -> bool { (row: StoredRow) => row.date == text }

  /** `date >= lo AND date < hi` on the date text. */
  function InRange(lo: string, hi: string): StoredRow -> bool
  {
    (row: StoredRow) => LexLe(lo, row.date) && LexLess(row.date, hi)
  }

  function IdBefore(a: StoredRow, b: StoredRow): bool { a.id < b.id }

  /** `ORDER BY created_at ASC`; ISO text of one format orders like the instants. */
  function ByCreatedAt(row: StoredRow): seq<KeyPart> { [Asc(Num(row.createdAt as real))] }

  /** `ORDER BY created_at DESC`. */
  function ByCreatedAtDesc(row: StoredRow): seq<KeyPart> { [Desc(Num(row.createdAt as real))] }

  function Fraction(row: StoredRow): SqlValue { OfNum(row.dayFraction) }

  function DayKey(row: StoredRow): (string, string, string) { (row.date, row.siteName, row.kst) }

  function SiteKey(row: StoredRow): (string, string) { (row.siteName, row.kst) }

  function DayToSite(k: (string, string, string)): (string, string) { (k.1, k.2) }

  /** `ORDER BY date ASC, site_name ASC`. */
  function DayOrder(k: (string, string, string)): seq<KeyPart> { [Asc(Str(k.0)), Asc(Str(k.1))] }

  /** `ORDER BY site_name ASC`. */
  function SiteOrder(k: (string, string)): seq<KeyPart> { [Asc(Str(k.0))] }

  function SiteName(row: StoredRow): string { row.siteName }

  function Kst(row: StoredRow): string { row.kst }

  function SiteNotEmpty(row: StoredRow): bool { row.siteName != "" }

  function KstNotEmpty(row: StoredRow): bool { row.kst != "" }

  /** The ISO texts of `date(year, month, 1)` and of the first day of the
      next month; `None` where `date` raises. */
  function MonthRange(year: int, month: int): (r: Option<(string, string)>)
    ensures r.Some? <==> MonthBounds(year, month).Some?
    ensures r.Some? ==> r.value == (IsoDate(MonthBounds(year, month).value.0), IsoDate(MonthBounds(year, month).value.1))
  {
    match MonthBounds(year, month)
    case None => None
    case Some((lo, hi)) => Some((IsoDate(lo), IsoDate(hi)))
  }

  /** The month range selects a canonical row exactly when it is dated in that month. */
  lemma InRangeMonth(year: int, month: int, row: StoredRow)
    requires MonthBounds(year, month).Some? && Canonical(row)
    ensures var (lo, hi) := MonthRange(year, month).value;
            var d := RowToEntry(row).value.date;
            InRange(lo, hi)(row) <==> d.year == year && d.month == month
  {
    IsoDateInMonth(year, month, RowToEntry(row).value.date);
  }

  /** The `SELECT date, site_name, kst, SUM(day_fraction)` rows as
      `MonthlySummaryRow`s: the date parsed back, a NULL sum read as 0.0. */
  function SummaryRows(s: seq<StoredRow>, ks: seq<(string, string, string)>): (r: seq<MonthlySummaryRow>)
    requires forall i :: 0 <= i < |ks| ==> ParseDate(ks[i].0).Some?
    ensures |r| == |ks|
    ensures forall i :: 0 <= i < |ks| ==>
              r[i] == MonthlySummaryRow(ParseDate(ks[i].0).value, ks[i].1, ks[i].2, SqlSum(s, DayKey, ks[i], Fraction).GetOr(0.0))
  {
    seq(|ks|, i requires 0 <= i < |ks| =>
      MonthlySummaryRow(ParseDate(ks[i].0).value, ks[i].1, ks[i].2, SqlSum(s, DayKey, ks[i], Fraction).GetOr(0.0)))
  }

  /** The sum of the summary totals of one site and cost centre. */
  function SummaryTotal(rows: seq<MonthlySummaryRow>, site: string, kst: string): real
  {
    if rows == [] then 0.0
    else
      var last := rows[|rows| - 1];
      SummaryTotal(rows[..|rows| - 1], site, kst) + (if last.siteName == site && last.kst == kst then last.dayFractionTotal else 0.0)
  }

  lemma {:induction false} SummaryTotalGroupBy(s: seq<StoredRow>, ks: seq<(string, string, string)>, m: (string, string))
    requires forall i :: 0 <= i < |ks| ==> ParseDate(ks[i].0).Some?
    ensures SummaryTotal(SummaryRows(s, ks), m.0, m.1) == RowsTotal(GroupBy(s, DayKey, ks, Fraction), ProjectsTo(DayToSite, m))
  {
    if ks != [] {
      var n := |ks| - 1;
      var rows, groups := SummaryRows(s, ks), GroupBy(s, DayKey, ks, Fraction);
      assert rows[..n] == SummaryRows(s, ks[..n]);
      assert groups[..n] == GroupBy(s, DayKey, ks[..n], Fraction);
      SummaryTotalGroupBy(s, ks[..n], m);
      assert ProjectsTo(DayToSite, m)(groups[n].0) <==> rows[n].siteName == m.0 && rows[n].kst == m.1;
      assert rows[n].dayFractionTotal == groups[n].1.GetOr(0.0);
    }
  }

  /** The entries of rows this store wrote, in row order. */
  function Entries(s: seq<StoredRow>): (r: seq<LogEntry>)
    requires forall i :: 0 <= i < |s| ==> RowToEntry(s[i]).Ok?
    ensures |r| == |s| && forall i :: 0 <= i < |s| ==> RowToEntry(s[i]) == Ok(r[i])
  {
    seq(|s|, i requires 0 <= i < |s| => RowToEntry(s[i]).value)
  }

  /** `SELECT * ... WHERE date = ? ORDER BY created_at ASC`, read back as entries. */
  function DayEntries(s: seq<StoredRow>, target: CalDate): (r: seq<LogEntry>)
    requires AllCanonical(s)
    ensures forall i :: 0 <= i < |r| ==> r[i].date == target
    ensures forall i, j :: 0 <= i < j < |r| ==> r[i].createdAt <= r[j].createdAt
    ensures forall row :: row in s && row.date == IsoDate(target) ==> RowToEntry(row).Ok? && RowToEntry(row).value in r
    ensures forall e :: e in r ==> exists row :: row in s && row.date == IsoDate(target) && RowToEntry(row) == Ok(e)
  {
    var sorted := SortByKey(Where(s, OnDate(IsoDate(target))), ByCreatedAt);
    DayRows(s, target);
    DayEntriesReadable(s, target, sorted);
    DayEntriesDates(s, target, sorted);
    DayEntriesOrdered(s, target, sorted);
    DayEntriesComplete(s, target, sorted);
    DayEntriesSound(s, target, sorted);
    Entries(sorted)
  }

  lemma DayRows(s: seq<StoredRow>, target: CalDate)
    ensures var sorted := SortByKey(Where(s, OnDate(IsoDate(target))), ByCreatedAt);
            SortedBy(sorted, ByCreatedAt) && forall x :: x in sorted <==> x in s && x.date == IsoDate(target)
  {
    OrderBy(Where(s, OnDate(IsoDate(target))), ByCreatedAt);
  }

  /** The rows of the day, sorted, and each of them readable. */
  ghost predicate DaySorted(s: seq<StoredRow>, target: CalDate, sorted: seq<StoredRow>)
  {
    SortedBy(sorted, ByCreatedAt)
    && (forall x :: x in sorted <==> x in s && x.date == IsoDate(target))
    && (forall i :: 0 <= i < |sorted| ==> RowToEntry(sorted[i]).Ok?)
  }

  lemma DayEntriesReadable(s: seq<StoredRow>, target: CalDate, sorted: seq<StoredRow>)
    requires AllCanonical(s)
    requires SortedBy(sorted, ByCreatedAt)
    requires forall x :: x in sorted <==> x in s && x.date == IsoDate(target)
    ensures DaySorted(s, target, sorted)
  {
    forall i | 0 <= i < |sorted| ensures RowToEntry(sorted[i]).Ok? {
      assert sorted[i] in s;
    }
  }

  lemma DayEntriesDates(s: seq<StoredRow>, target: CalDate, sorted: seq<StoredRow>)
    requires DaySorted(s, target, sorted)
    ensures var r := Entries(sorted); forall i :: 0 <= i < |r| ==> r[i].date == target
  {
    var r := Entries(sorted);
    ParseIsoDate(target);
    forall i | 0 <= i < |r| ensures r[i].date == target {
      assert sorted[i] in sorted;
    }
  }

  lemma DayEntriesOrdered(s: seq<StoredRow>, target: CalDate, sorted: seq<StoredRow>)
    requires DaySorted(s, target, sorted)
    ensures var r := Entries(sorted); forall i, j :: 0 <= i < j < |r| ==> r[i].createdAt <= r[j].createdAt
  {
    var r := Entries(sorted);
    forall i, j | 0 <= i < j < |r| ensures r[i].createdAt <= r[j].createdAt {
      KeyLessNum(sorted[j].createdAt as real, sorted[i].createdAt as real);
    }
  }

  lemma DayEntriesComplete(s: seq<StoredRow>, target: CalDate, sorted: seq<StoredRow>)
    requires DaySorted(s, target, sorted)
    ensures var r := Entries(sorted);
            forall row :: row in s && row.date == IsoDate(target) ==> RowToEntry(row).Ok? && RowToEntry(row).value in r
  {
    var r := Entries(sorted);
    forall row | row in s && row.date == IsoDate(target) ensures RowToEntry(row).Ok? && RowToEntry(row).value in r {
      assert row in sorted;
      var k :| 0 <= k < |sorted| && sorted[k] == row;
      assert r[k] == RowToEntry(row).value;
    }
  }

  lemma DayEntriesSound(s: seq<StoredRow>, target: CalDate, sorted: seq<StoredRow>)
    requires DaySorted(s, target, sorted)
    ensures var r := Entries(sorted);
            forall e :: e in r ==> exists row :: row in s && row.date == IsoDate(target) && RowToEntry(row) == Ok(e)
  {
    var r := Entries(sorted);
    forall e | e in r ensures exists row :: row in s && row.date == IsoDate(target) && RowToEntry(row) == Ok(e) {
      var i :| 0 <= i < |r| && r[i] == e;
      assert sorted[i] in sorted;
      assert sorted[i] in s && sorted[i].date == IsoDate(target) && RowToEntry(sorted[i]) == Ok(e);
    }
  }

  /** A written row's date text is the ISO form of the date it reads as. */
  lemma CanonicalDate(row: StoredRow)
    requires Canonical(row)
    ensures ParseDate(row.date) == Some(RowToEntry(row).value.date)
    ensures row.date == IsoDate(ParseDate(row.date).value)
  {
  }

  /** The date of every group of a month's rows reads back, and lies in that month. */
  lemma MonthKeysReadable(year: int, month: int, s: seq<StoredRow>, ks: seq<(string, string, string)>)
    requires MonthBounds(year, month).Some?
    requires AllCanonical(s)
    requires forall row :: row in s ==> InRange(MonthRange(year, month).value.0, MonthRange(year, month).value.1)(row)
    requires forall k :: k in ks ==> exists i :: 0 <= i < |s| && DayKey(s[i]) == k
    ensures forall i :: 0 <= i < |ks| ==> ParseDate(ks[i].0).Some? && IsoDate(ParseDate(ks[i].0).value) == ks[i].0
    ensures forall i :: 0 <= i < |ks| ==> ParseDate(ks[i].0).value.year == year && ParseDate(ks[i].0).value.month == month
  {
    forall i | 0 <= i < |ks|
      ensures ParseDate(ks[i].0).Some? && IsoDate(ParseDate(ks[i].0).value) == ks[i].0
      ensures ParseDate(ks[i].0).value.year == year && ParseDate(ks[i].0).value.month == month
    {
      assert ks[i] in ks;
      var j :| 0 <= j < |s| && DayKey(s[j]) == ks[i];
      assert s[j] in s;
      CanonicalDate(s[j]);
      InRangeMonth(year, month, s[j]);
    }
  }

  /** Groups sorted by date text give summary rows in calendar order. */
  lemma SummaryOrdered(s: seq<StoredRow>, ks: seq<(string, string, string)>)
    requires forall i :: 0 <= i < |ks| ==> ParseDate(ks[i].0).Some? && IsoDate(ParseDate(ks[i].0).value) == ks[i].0
    requires SortedBy(ks, DayOrder)
    ensures var r := SummaryRows(s, ks);
            forall i, j :: 0 <= i < j < |r| ==> !Before(r[j].date, r[i].date)
  {
    var r := SummaryRows(s, ks);
    forall i, j | 0 <= i < j < |r| ensures !Before(r[j].date, r[i].date) {
      assert !KeyLess(DayOrder(ks[j]), DayOrder(ks[i]));
      IsoDateOrder(r[j].date, r[i].date);
    }
  }

  /** The (date text, site, cost centre) group a summary row stands for. */
  function SummaryKey(row: MonthlySummaryRow): (string, string, string)
  {
    (IsoDate(row.date), row.siteName, row.kst)
  }

  function SummaryKeys(r: seq<MonthlySummaryRow>): (ks: seq<(string, string, string)>)
    ensures |ks| == |r| && forall i :: 0 <= i < |r| ==> ks[i] == SummaryKey(r[i])
  {
    seq(|r|, i requires 0 <= i < |r| => SummaryKey(r[i]))
  }

  /** Within one date, `ORDER BY date ASC, site_name ASC` orders by site. */
  lemma DayOrderSameDate(a: (string, string, string), b: (string, string, string))
    requires a.0 == b.0 && !KeyLess(DayOrder(b), DayOrder(a))
    ensures !LexLess(b.1, a.1)
  {
    var ka, kb := DayOrder(a), DayOrder(b);
    assert ka[0] == kb[0];
    assert ka[1..] == [Asc(Str(a.1))] && kb[1..] == [Asc(Str(b.1))];
    assert ka[1..][1..] == [] && kb[1..][1..] == [];
    assert !KeyLess(kb[1..], ka[1..]);
  }

  /** The rows of `monthly_summary` for the month's rows: each date, site
      and cost centre of the rows once, with the SQL sum of its fractions,
      ordered by date and within a date by site. */
  function DaySummary(year: int, month: int, s: seq<StoredRow>): (r: seq<MonthlySummaryRow>)
    requires MonthBounds(year, month).Some?
    requires AllCanonical(s)
    requires forall row :: row in s ==> InRange(MonthRange(year, month).value.0, MonthRange(year, month).value.1)(row)
    ensures NoDup(SummaryKeys(r))
    ensures forall k :: k in SummaryKeys(r) <==> exists row :: row in s && DayKey(row) == k
    ensures forall i :: 0 <= i < |r| ==> r[i].date.year == year && r[i].date.month == month
    ensures forall i :: 0 <= i < |r| ==> r[i].dayFractionTotal == SqlSum(s, DayKey, SummaryKey(r[i]), Fraction).GetOr(0.0)
    ensures forall i, j :: 0 <= i < j < |r| ==>
              !Before(r[j].date, r[i].date) && (r[i].date == r[j].date ==> !LexLess(r[j].siteName, r[i].siteName))
  {
    var ks := GroupKeys(s, DayKey, DayOrder);
    MonthKeysReadable(year, month, s, ks);
    SummaryOrdered(s, ks);
    var r := SummaryRows(s, ks);
    assert SummaryKeys(r) == ks;
    SummaryKeysMembers(s, ks);
    forall i, j | 0 <= i < j < |r| && r[i].date == r[j].date ensures !LexLess(r[j].siteName, r[i].siteName) {
      DayOrderSameDate(ks[i], ks[j]);
    }
    r
  }

  lemma SummaryKeysMembers(s: seq<StoredRow>, ks: seq<(string, string, string)>)
    requires forall k :: k in ks <==> exists i :: 0 <= i < |s| && DayKey(s[i]) == k
    ensures forall k :: k in ks <==> exists row :: row in s && DayKey(row) == k
  {
    forall k ensures k in ks <==> exists row :: row in s && DayKey(row) == k {
      if exists row :: row in s && DayKey(row) == k {
        var row :| row in s && DayKey(row) == k;
        var i :| 0 <= i < |s| && s[i] == row;
      }
    }
  }

  /** The rows of `monthly_totals_by_site` for the month's rows. */
  function SiteTotals(s: seq<StoredRow>): (r: seq<(string, string, real)>)
    ensures NoDup(SiteKeys(r))
    ensures forall k :: k in SiteKeys(r) <==> exists row :: row in s && SiteKey(row) == k
    ensures forall i, j :: 0 <= i < j < |r| ==> !LexLess(r[j].0, r[i].0)
    ensures forall i :: 0 <= i < |r| ==> r[i].2 == SqlSum(s, SiteKey, (r[i].0, r[i].1), Fraction).GetOr(0.0)
  {
    var ks := GroupKeys(s, SiteKey, SiteOrder);
    var r := seq(|ks|, i requires 0 <= i < |ks| => (ks[i].0, ks[i].1, SqlSum(s, SiteKey, ks[i], Fraction).GetOr(0.0)));
    assert SiteKeys(r) == ks;
    SiteKeysMembers(s, ks);
    SiteKeysOrdered(ks);
    r
  }

  function SiteKeys(r: seq<(string, string, real)>): (ks: seq<(string, string)>)
    ensures |ks| == |r| && forall i :: 0 <= i < |r| ==> ks[i] == (r[i].0, r[i].1)
  {
    seq(|r|, i requires 0 <= i < |r| => (r[i].0, r[i].1))
  }

  lemma SiteKeysMembers(s: seq<StoredRow>, ks: seq<(string, string)>)
    requires forall k :: k in ks <==> exists i :: 0 <= i < |s| && SiteKey(s[i]) == k
    ensures forall k :: k in ks <==> exists row :: row in s && SiteKey(row) == k
  {
    forall k ensures k in ks <==> exists row :: row in s && SiteKey(row) == k {
      if exists row :: row in s && SiteKey(row) == k {
        var row :| row in s && SiteKey(row) == k;
        var i :| 0 <= i < |s| && s[i] == row;
      }
    }
  }

  lemma SiteKeysOrdered(ks: seq<(string, string)>)
    requires SortedBy(ks, SiteOrder)
    ensures forall i, j :: 0 <= i < j < |ks| ==> !LexLess(ks[j].0, ks[i].0)
  {
    forall i, j | 0 <= i < j < |ks| ensures !LexLess(ks[j].0, ks[i].0) {
      assert !KeyLess(SiteOrder(ks[j]), SiteOrder(ks[i]));
      assert SiteOrder(ks[j])[1..] == [] && SiteOrder(ks[i])[1..] == [];
    }
  }

  /** Each site total of the month's rows is the sum of that site's rows of the daily summary. */
  lemma SiteTotalsReconcile(s: seq<StoredRow>, ks: seq<(string, string, string)>)
    requires ks == GroupKeys(s, DayKey, DayOrder)
    requires forall i :: 0 <= i < |ks| ==> ParseDate(ks[i].0).Some?
    ensures forall t :: t in SiteTotals(s) ==> t.2 == SummaryTotal(SummaryRows(s, ks), t.0, t.1)
  {
    var r := SiteTotals(s);
    forall t | t in r ensures t.2 == SummaryTotal(SummaryRows(s, ks), t.0, t.1) {
      var m := (t.0, t.1);
      ReconcileGroupBy(s, DayKey, DayOrder, DayToSite, SiteKey, m, Fraction);
      SummaryTotalGroupBy(s, ks, m);
    }
  }

  // ----------------------------------------------------------- CSV export

  /** A detail line of the monthly CSV: ISO date, site, cost centre, total with two decimals. */
  function SummaryLine(row: MonthlySummaryRow): seq<string>
  {
    [IsoDate(row.date), row.siteName, row.kst, FormatFixed2(row.dayFractionTotal)]
  }

  /** A line of the per-site block: site, cost centre, total with two decimals. */
  function TotalLine(t: (string, string, real)): seq<string>
  {
    [t.0, t.1, FormatFixed2(t.2)]
  }

  /** A detail line gives back its row's date, site, cost centre and total rounded to cents. */
  lemma SummaryLineReads(row: MonthlySummaryRow)
    ensures var line := SummaryLine(row);
            |line| == 4 && ParseDate(line[0]) == Some(row.date) && line[1] == row.siteName && line[2] == row.kst
            && ParseFloat(line[3]) == Some(RoundDigits(row.dayFractionTotal, 2))
  {
    var line := SummaryLine(row);
    assert ParseDate(line[0]) == Some(row.date) by { ParseIsoDate(row.date); }
    assert ParseFloat(line[3]) == Some(RoundDigits(row.dayFractionTotal, 2)) by { FormatFixed2RoundTrip(row.dayFractionTotal); }
  }

  /** A total line gives back its site, cost centre and total rounded to cents. */
  lemma TotalLineReads(t: (string, string, real))
    ensures var line := TotalLine(t);
            |line| == 3 && line[0] == t.0 && line[1] == t.1 && ParseFloat(line[2]) == Some(RoundDigits(t.2, 2))
  {
    FormatFixed2RoundTrip(t.2);
  }

  function SummaryLines(summary: seq<MonthlySummaryRow>): (r: seq<seq<string>>)
    ensures |r| == |summary| && forall i :: 0 <= i < |summary| ==> r[i] == SummaryLine(summary[i])
  {
    seq(|summary|, i requires 0 <= i < |summary| => SummaryLine(summary[i]))
  }

  function TotalLines(totals: seq<(string, string, real)>): (r: seq<seq<string>>)
    ensures |r| == |totals| && forall i :: 0 <= i < |totals| ==> r[i] == TotalLine(totals[i])
  {
    seq(|totals|, i requires 0 <= i < |totals| => TotalLine(totals[i]))
  }

  const SummaryHeader: seq<string> := ["Datum", "Baustelle", "KSt", "Tagesanteil"]
  const TotalsTitle: seq<seq<string>> := [[], ["Summe pro Baustelle im Monat"], ["Baustelle", "KSt", "Summe"]]

  /** The lines `export_month_to_csv` writes, in order: header, one line per
      summary row, an empty line, the block title, its header, one line per site total. */
  function MonthReport(summary: seq<MonthlySummaryRow>, totals: seq<(string, string, real)>): (lines: seq<seq<string>>)
    ensures |lines| == |summary| + |totals| + 4
    ensures lines[0] == SummaryHeader && lines[1 + |summary|] == []
    ensures forall i :: 0 <= i < |summary| ==> lines[1 + i] == SummaryLine(summary[i])
    ensures forall j :: 0 <= j < |totals| ==> lines[4 + |summary| + j] == TotalLine(totals[j])
  {
    [SummaryHeader] + SummaryLines(summary) + TotalsTitle + TotalLines(totals)
  }

  /** The report reads back: every detail line gives its row's date and its
      total rounded to cents, every total line its total rounded to cents. */
  lemma MonthReportReadsBack(summary: seq<MonthlySummaryRow>, totals: seq<(string, string, real)>)
    ensures var lines := MonthReport(summary, totals);
            (forall i :: 0 <= i < |summary| ==>
               ParseDate(lines[1 + i][0]) == Some(summary[i].date)
               && ParseFloat(lines[1 + i][3]) == Some(RoundDigits(summary[i].dayFractionTotal, 2)))
            && (forall j :: 0 <= j < |totals| ==>
                  ParseFloat(lines[4 + |summary| + j][2]) == Some(RoundDigits(totals[j].2, 2)))
  {
    var lines := MonthReport(summary, totals);
    forall i | 0 <= i < |summary|
      ensures ParseDate(lines[1 + i][0]) == Some(summary[i].date)
      ensures ParseFloat(lines[1 + i][3]) == Some(RoundDigits(summary[i].dayFractionTotal, 2))
    {
      SummaryLineReads(summary[i]);
    }
    forall j | 0 <= j < |totals| ensures ParseFloat(lines[4 + |summary| + j][2]) == Some(RoundDigits(totals[j].2, 2)) {
      TotalLineReads(totals[j]);
    }
  }

  /** The csv writer's loop: the lines for the given summary and totals. */
  method WriteMonthReport(summary: seq<MonthlySummaryRow>, totals: seq<(string, string, real)>) returns (lines: seq<seq<string>>)
    ensures lines == MonthReport(summary, totals)
  {
    lines := [SummaryHeader];
    var i := 0;
    while i < |summary|
      invariant 0 <= i <= |summary|
      invariant lines == [SummaryHeader] + SummaryLines(summary[..i])
    {
      assert SummaryLines(summary[..i + 1]) == SummaryLines(summary[..i]) + [SummaryLine(summary[i])];
      lines := lines + [SummaryLine(summary[i])];
      i := i + 1;
    }
    assert summary[..i] == summary;
    lines := lines + TotalsTitle;
    var head := lines;
    var j := 0;
    while j < |totals|
      invariant 0 <= j <= |totals|
      invariant lines == head + TotalLines(totals[..j])
    {
      assert TotalLines(totals[..j + 1]) == TotalLines(totals[..j]) + [TotalLine(totals[j])];
      lines := lines + [TotalLine(totals[j])];
      j := j + 1;
    }
    assert totals[..j] == totals;
  }

  // ------------------------------------------------------------- the table

  class LogEntriesTable {
    var rows: seq<StoredRow>
    var nextId: int

    /** Ids increase along the table and stay below the counter, and every
        row is one the module wrote. */
    ghost predicate Valid()
      reads this
    {
      1 <= nextId
      && (forall row :: row in rows ==> row.id < nextId)
      && AllCanonical(rows)
      && Pairwise(rows, IdBefore)
    }

    /** `init_db` on a new database file: an empty table. */
    constructor()
      ensures Valid() && rows == [] && nextId == 1
    {
      rows := [];
      nextId := 1;
    }

    /** `insert_entry`: appends the entry's columns under the next id and returns it. */
    method Insert(e: LogEntry) returns (id: int)
      requires Valid()
      modifies this
      ensures Valid()
      ensures id == old(nextId) && nextId == id + 1
      ensures rows == old(rows) + [ToRow(id, e)]
      ensures forall i :: 0 <= i < |old(rows)| ==> old(rows)[i].id < id
    {
      id := nextId;
      ToRowReadable(id, e);
      rows := rows + [ToRow(id, e)];
      nextId := nextId + 1;
    }

    /** `update_entry`: the row with that id takes the entry's columns and
        `updated_at`; its id and `created_at` stay.  Other rows do not change. */
    method Update(entryId: int, e: LogEntry)
      requires Valid()
      modifies this
      ensures Valid() && nextId == old(nextId) && |rows| == |old(rows)|
      ensures forall i :: 0 <= i < |rows| ==>
                rows[i] == if old(rows)[i].id == entryId then UpdatedRow(old(rows)[i], e) else old(rows)[i]
    {
      UpdatedTableValid(rows, entryId, e, nextId);
      rows := UpdatedTable(rows, entryId, e);
    }

    /** `delete_entry`: removes the row with that id; an unknown id changes nothing. */
    method Delete(entryId: int)
      requires Valid()
      modifies this
      ensures Valid() && nextId == old(nextId)
      ensures rows == Where(old(rows), NotId(entryId))
      ensures forall row :: row in rows <==> row in old(rows) && row.id != entryId
    {
      WherePairwise(rows, NotId(entryId), IdBefore);
      rows := Where(rows, NotId(entryId));
      assert AllCanonical(rows);
    }

    /** The row with that id, as `SELECT * ... WHERE id = ?` fetches it. */
    function GetRow(entryId: int): (r: Option<StoredRow>)
      reads this
      ensures r.None? <==> forall i :: 0 <= i < |rows| ==> rows[i].id != entryId
      ensures r.Some? ==> r.value in rows && r.value.id == entryId
    {
      FindFirst(rows, HasId(entryId))
    }

    /** `fetch_entries_for_date`: the entries dated on that day, oldest first. */
    function FetchEntriesForDate(target: CalDate): (r: seq<LogEntry>)
      requires Valid()
      reads this
      ensures forall i :: 0 <= i < |r| ==> r[i].date == target
      ensures forall i, j :: 0 <= i < j < |r| ==> r[i].createdAt <= r[j].createdAt
      ensures forall row :: row in rows && row.date == IsoDate(target) ==> RowToEntry(row).Ok? && RowToEntry(row).value in r
      ensures forall e :: e in r ==> exists row :: row in rows && row.date == IsoDate(target) && RowToEntry(row) == Ok(e)
    {
      DayEntries(rows, target)
    }

    /** `fetch_last_entry`: an entry created last, or `None` for an empty table. */
    function FetchLastEntry(): (r: Option<LogEntry>)
      requires Valid()
      reads this
      ensures r.None? <==> rows == []
      ensures r.Some? ==> exists row :: row in rows && RowToEntry(row) == Ok(r.value)
      ensures r.Some? ==> forall row :: row in rows ==> row.createdAt <= r.value.createdAt
    {
      match First(rows, ByCreatedAtDesc)
      case None => None
      case Some(row) =>
        assert forall other :: other in rows ==> other.createdAt <= row.createdAt by {
          forall other | other in rows ensures other.createdAt <= row.createdAt {
            KeyLessNum(other.createdAt as real, row.createdAt as real);
          }
        }
        Some(RowToEntry(row).value)
    }

    /** `duplicate_entry`: `None` for an unknown id; otherwise inserts the copy
        `DuplicateOf` makes of the stored entry and returns its new id. */
    method Duplicate(entryId: int, newDate: Option<CalDate>, now: Timestamp) returns (r: Option<int>)
      requires Valid()
      modifies this
      ensures Valid()
      ensures r.None? <==> old(GetRow(entryId)).None?
      ensures r.None? ==> rows == old(rows) && nextId == old(nextId)
      ensures r.Some? ==> r.value == old(nextId) && nextId == old(nextId) + 1
      ensures r.Some? ==> rows == old(rows) + [ToRow(r.value, DuplicateOf(RowToEntry(old(GetRow(entryId)).value).value, newDate, now))]
    {
      var row := GetRow(entryId);
      if row.None? {
        return None;
      }
      var existing := RowToEntry(row.value).value;
      var id := Insert(DuplicateOf(existing, newDate, now));
      r := Some(id);
    }

    /** `fetch_distinct_sites_and_ksts`: each non-empty site and each non-empty cost centre once. */
    function FetchDistinctSitesAndKsts(): (r: (seq<string>, seq<string>))
      reads this
      ensures NoDup(r.0) && NoDup(r.1)
      ensures forall x :: x in r.0 <==> x != "" && exists row :: row in rows && row.siteName == x
      ensures forall x :: x in r.1 <==> x != "" && exists row :: row in rows && row.kst == x
    {
      var sites := Distinct(Select(Where(rows, SiteNotEmpty), SiteName));
      var ksts := Distinct(Select(Where(rows, KstNotEmpty), Kst));
      (sites, ksts)
    }

    /** The rows of a half-open month, the source of both monthly queries. */
    function MonthRows(lo: string, hi: string): (s: seq<StoredRow>)
      reads this
      ensures forall row :: row in s <==> row in rows && InRange(lo, hi)(row)
    {
      Where(rows, InRange(lo, hi))
    }

    /** `monthly_summary`: one row per date, site and cost centre of the
        month, ordered by date and site; `None` where `date` raises. */
    function MonthlySummary(year: int, month: int): (r: Option<seq<MonthlySummaryRow>>)
      requires Valid()
      reads this
      ensures r.Some? <==> MonthBounds(year, month).Some?
      ensures r.Some? ==> r.value == DaySummary(year, month, MonthRows(MonthRange(year, month).value.0, MonthRange(year, month).value.1))
    {
      match MonthRange(year, month)
      case None => None
      case Some((lo, hi)) => Some(DaySummary(year, month, MonthRows(lo, hi)))
    }

    /** `monthly_totals_by_site`: one `(site, kst, total)` per site and cost
        centre of the month, ordered by site; a NULL sum reads as 0.0. */
    function MonthlyTotalsBySite(year: int, month: int): (r: Option<seq<(string, string, real)>>)
      reads this
      ensures r.Some? <==> MonthBounds(year, month).Some?
      ensures r.Some? ==> r.value == SiteTotals(MonthRows(MonthRange(year, month).value.0, MonthRange(year, month).value.1))
    {
      match MonthRange(year, month)
      case None => None
      case Some((lo, hi)) => Some(SiteTotals(MonthRows(lo, hi)))
    }

    /** Reconciliation: each monthly total of a site and cost centre is the
        sum of the summary rows of that site and cost centre. */
    lemma MonthlyTotalsReconcile(year: int, month: int)
      requires Valid() && MonthBounds(year, month).Some?
      ensures var summary := MonthlySummary(year, month).value;
              forall t :: t in MonthlyTotalsBySite(year, month).value ==> t.2 == SummaryTotal(summary, t.0, t.1)
    {
      var (lo, hi) := MonthRange(year, month).value;
      var s := MonthRows(lo, hi);
      var ks := GroupKeys(s, DayKey, DayOrder);
      MonthKeysReadable(year, month, s, ks);
      assert MonthlySummary(year, month).value == SummaryRows(s, ks);
      SiteTotalsReconcile(s, ks);
    }

    /** `export_month_to_csv`: the lines written for the month, or `None`
        where `monthly_summary` raises and nothing is written. */
    method ExportMonthToCsv(year: int, month: int) returns (written: Option<seq<seq<string>>>)
      requires Valid()
      ensures written.None? <==> MonthBounds(year, month).None?
      ensures written.Some? ==> written.value == MonthReport(MonthlySummary(year, month).value, MonthlyTotalsBySite(year, month).value)
    {
      var summary := MonthlySummary(year, month);
      var totals := MonthlyTotalsBySite(year, month);
      if summary.None? {
        return None;
      }
      var lines := WriteMonthReport(summary.value, totals.value);
      written := Some(lines);
    }
  }
}