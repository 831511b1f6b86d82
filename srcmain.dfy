/** The form logic of the `src` log window (src/main.py): the entry
    `_build_entry_from_form` builds, the edit id and cached day entries the
    window keeps, the creation time `save_entry` looks up, and the export
    file names.  The login name and the clock readings are parameters. */
module SrcMain {
  import opened Wrappers
  import opened Text
  import opened PyNum
  import opened Calendar
  import opened Utils
  import opened Models
  import opened Storage

  /** The values of the form's widgets when the user saves. */
  datatype Form = Form(
    date: CalDate,
    employeeText: string,
    siteText: string,
    kstText: string,
    activityText: string,
    resultText: string,
    notesText: string,
    workdayHours: real,
    roundStep: real,
    startEndMode: bool,
    start: TimeOfDay,
    end: TimeOfDay,
    fractionText: string)

  /** The ValueErrors `_build_entry_from_form` raises; `DayFractionError`
      carries the one `calculate_day_fraction` raised. */
  datatype EntryError =
    | MissingField
    | DayFractionError(cause: UtilsError)
    | FractionTooLarge
    | InvalidFraction
    | NonPositiveFraction

  /** The times and the day fraction of one mode. */
  datatype Amounts = Amounts(startTime: Option<TimeOfDay>, endTime: Option<TimeOfDay>, dayFraction: real)

  /** `not site or not kst or not activity or not result`, after stripping. */
  predicate RequiredPresent(f: Form)
  {
    var required := [f.siteText, f.kstText, f.activityText, f.resultText];
    forall i :: 0 <= i < |required| ==> Strip(required[i]) != ""
  }

  /** `self.employee_edit.text().strip() or getpass.getuser()`. */
  function EmployeeOf(f: Form, login: string): (e: string)
    ensures Strip(f.employeeText) != "" ==> e == Strip(f.employeeText)
    ensures Strip(f.employeeText) == "" ==> e == login
  {
    var typed := Strip(f.employeeText);
    if typed != "" then typed else login
  }

  /** `text.replace(",", ".")`: every comma becomes a point, nothing else changes. */
  function CommaToDot(s: string): (r: string)
    ensures |r| == |s| && ',' !in r
    ensures forall i :: 0 <= i < |s| && s[i] != ',' ==> r[i] == s[i]
  {
    seq(|s|, i requires 0 <= i < |s| => if s[i] == ',' then '.' else s[i])
  }

  /** The start/end branch: `calculate_day_fraction`'s errors pass through,
      and a fraction above 1.0 is rejected; the times are kept as entered. */
  function TimedAmounts(f: Form): (r: Result<Amounts, EntryError>)
    ensures r.Err? ==> r.error.DayFractionError? || r.error == FractionTooLarge
    ensures var c := CalculateDayFraction(f.start, f.end, f.workdayHours, f.roundStep);
            c.Err? ==> r == Err(DayFractionError(c.error))
    ensures var c := CalculateDayFraction(f.start, f.end, f.workdayHours, f.roundStep);
            r.Ok? <==> c.Ok? && c.value <= 1.0
    ensures var c := CalculateDayFraction(f.start, f.end, f.workdayHours, f.roundStep);
            r.Ok? ==> r.value == Amounts(Some(f.start), Some(f.end), c.value)
  {
    match CalculateDayFraction(f.start, f.end, f.workdayHours, f.roundStep)
    case Err(e) => Err(DayFractionError(e))
    case Ok(fraction) =>
      if fraction > 1.0 then Err(FractionTooLarge)
      else Ok(Amounts(Some(f.start), Some(f.end), fraction))
  }

  /** The fraction branch: the text with commas read as points must parse,
      be positive and not exceed 1.0; there are no times. */
  function FractionAmounts(f: Form): (r: Result<Amounts, EntryError>)
    ensures r.Err? ==> r.error == InvalidFraction || r.error == NonPositiveFraction || r.error == FractionTooLarge
    ensures var p := ParseFloat(CommaToDot(f.fractionText));
            (r == Err(InvalidFraction) <==> p.None?)
            && (r == Err(NonPositiveFraction) <==> p.Some? && p.value <= 0.0)
            && (r.Ok? <==> p.Some? && 0.0 < p.value <= 1.0)
    ensures var p := ParseFloat(CommaToDot(f.fractionText));
            r.Ok? ==> r.value == Amounts(None, None, p.value)
  {
    var p := ParseFloat(CommaToDot(f.fractionText));
    if p.None? then Err(InvalidFraction)
    else if p.value <= 0.0 then Err(NonPositiveFraction)
    else if p.value > 1.0 then Err(FractionTooLarge)
    else Ok(Amounts(None, None, p.value))
  }

  /** The branch of the chosen mode. */
  function ChosenAmounts(f: Form): (r: Result<Amounts, EntryError>)
    ensures r.Ok? ==> r.value.dayFraction <= 1.0
    ensures r.Ok? && !f.startEndMode ==> r.value.startTime.None? && r.value.endTime.None? && r.value.dayFraction > 0.0
    ensures r.Ok? && f.startEndMode ==> r.value.startTime == Some(f.start) && r.value.endTime == Some(f.end) && f.start < f.end
  {
    if f.startEndMode then TimedAmounts(f) else FractionAmounts(f)
  }

  /** `_build_entry_from_form`: the required fields first, then the chosen
      mode, then the repeated upper-bound check; the entry has no id yet, its
      texts stripped, and is created and updated at `now`. */
  function BuildEntry(f: Form, login: string, now: Timestamp): (r: Result<LogEntry, EntryError>)
    ensures r == Err(MissingField) <==> !RequiredPresent(f)
    ensures RequiredPresent(f) ==> (r.Ok? <==> ChosenAmounts(f).Ok?)
    ensures RequiredPresent(f) && ChosenAmounts(f).Err? ==> r == Err(ChosenAmounts(f).error)
    ensures r.Ok? ==>
              var a := ChosenAmounts(f).value;
              r.value.startTime == a.startTime && r.value.endTime == a.endTime && r.value.dayFraction == Some(a.dayFraction)
    ensures r.Ok? ==>
              r.value.id.None? && r.value.date == f.date && r.value.createdAt == now && r.value.updatedAt == now
              && r.value.employee == EmployeeOf(f, login)
              && r.value.siteName == Strip(f.siteText) && r.value.kst == Strip(f.kstText)
              && r.value.activity == Strip(f.activityText) && r.value.result == Strip(f.resultText)
              && r.value.notes == Strip(f.notesText)
  {
    if !RequiredPresent(f) then Err(MissingField)
    else
      match ChosenAmounts(f)
      case Err(e) => Err(e)
      case Ok(a) =>
        if a.dayFraction > 1.0 then Err(FractionTooLarge)
        else Ok(LogEntry(None, f.date, EmployeeOf(f, login), Strip(f.siteText), Strip(f.kstText), Strip(f.activityText),
                         a.startTime, a.endTime, Some(a.dayFraction), Strip(f.resultText), Strip(f.notesText), now, now))
  }

  /** A built entry always carries a day fraction of at most 1.0; in fraction
      mode it is positive and there are no times, in start/end mode the
      interval is not empty. */
  lemma BuiltEntryBounds(f: Form, login: string, now: Timestamp)
    requires BuildEntry(f, login, now).Ok?
    ensures var e := BuildEntry(f, login, now).value;
            e.dayFraction.Some? && e.dayFraction.value <= 1.0
            && (!f.startEndMode ==> e.startTime.None? && e.endTime.None? && e.dayFraction.value > 0.0)
            && (f.startEndMode ==> e.startTime == Some(f.start) && e.endTime == Some(f.end) && f.start < f.end)
  {
    assert ChosenAmounts(f).Ok?;
  }

  /** Start/end mode has no lower bound: one minute on an eight-hour day with
      step 0.05 snaps to a fraction of 0.0, and the entry is accepted. */
  lemma IntervalZeroFractionAccepted(f: Form, login: string, now: Timestamp)
    requires RequiredPresent(f) && f.startEndMode
    requires f.start == TimeOf(8, 0) && f.end == TimeOf(8, 1) && f.workdayHours == 8.0 && f.roundStep == 0.05
    ensures BuildEntry(f, login, now).Ok? && BuildEntry(f, login, now).value.dayFraction == Some(0.0)
  {
    var raw := DurationHours(f.start, f.end) / f.workdayHours;
    assert DurationHours(f.start, f.end) == 1.0 / 60.0;
    assert raw / 0.05 == 1.0 / 24.0;
    RoundHalfEvenUnique(1.0 / 24.0, 0);
    assert RoundToMultiple(raw, 0.05) == 0.0;
    RoundDigitsHundredths(0);
    assert CalculateDayFraction(f.start, f.end, f.workdayHours, f.roundStep) == Ok(0.0);
  }

  /** 08:00 to 16:30 on an eight-hour day is 1.05 of a day and is rejected. */
  lemma IntervalAboveOneRejected(f: Form, login: string, now: Timestamp)
    requires RequiredPresent(f) && f.startEndMode
    requires f.start == TimeOf(8, 0) && f.end == TimeOf(16, 30) && f.workdayHours == 8.0 && f.roundStep == 0.05
    ensures BuildEntry(f, login, now) == Err(FractionTooLarge)
  {
    CalculateDayFractionAboveOne();
  }

  /** Replacing the comma of a two-decimal numeral gives the rendered numeral. */
  lemma CommaToDotHundredths(n: nat)
    ensures CommaToDot(Digits(n / 100) + "," + FixedDigits(n % 100, 2)) == Hundredths(n)
  {
    var d, m := Digits(n / 100), FixedDigits(n % 100, 2);
    var text := d + "," + m;
    assert forall i :: 0 <= i < |d| ==> text[i] == d[i] && IsDigit(d[i]);
    assert forall i :: |d| + 1 <= i < |text| ==> text[i] == m[i - |d| - 1] && IsDigit(text[i]);
  }

  /** A two-decimal fraction written with a decimal comma is read as that
      fraction. */
  lemma CommaFractionAccepted(f: Form, login: string, now: Timestamp, n: nat)
    requires RequiredPresent(f) && !f.startEndMode && 0 < n <= 100
    requires f.fractionText == Digits(n / 100) + "," + FixedDigits(n % 100, 2)
    ensures BuildEntry(f, login, now).Ok? && BuildEntry(f, login, now).value.dayFraction == Some(n as real / 100.0)
  {
    CommaToDotHundredths(n);
    assert SignedHundredths(false, n) == Hundredths(n);
    SignedHundredthsReads(false, n);
    assert ParseFloat(CommaToDot(f.fractionText)) == Some(n as real / 100.0);
    assert ChosenAmounts(f) == Ok(Amounts(None, None, n as real / 100.0));
  }

  /** `self.current_edit_id` is truthy: an id is set and it is not 0. */
  predicate Editing(id: Option<int>)
  {
    id.Some? && id.value != 0
  }

  /** The creation time of the first cached entry with that id, if any. */
  function FirstCreatedAt(entries: seq<LogEntry>, id: int): (r: Option<Timestamp>)
    ensures r.None? <==> forall i :: 0 <= i < |entries| ==> entries[i].id != Some(id)
    ensures r.Some? ==> exists i :: 0 <= i < |entries| && entries[i].id == Some(id) && entries[i].createdAt == r.value
                                     && forall j :: 0 <= j < i ==> entries[j].id != Some(id)
  {
    if entries == [] then None
    else if entries[0].id == Some(id) then Some(entries[0].createdAt)
    else
      var r := FirstCreatedAt(entries[1..], id);
      assert forall i :: 1 <= i < |entries| ==> entries[i] == entries[1..][i - 1];
      r
  }

  /** `f"report_{year}_{month:02d}.csv"`. */
  function CsvReportName(year: int, month: int): string
  {
    "report_" + MonthStem(year, month) + ".csv"
  }

  /** `f"monatsbericht_{year}_{month:02d}.xlsx"`. */
  function ExcelReportName(year: int, month: int): string
  {
    "monatsbericht_" + MonthStem(year, month) + ".xlsx"
  }

  /** Both export names carry the stem between their prefix and extension. */
  lemma ReportNamesStem(year: int, month: int)
    ensures var csv, excel, s := CsvReportName(year, month), ExcelReportName(year, month), MonthStem(year, month);
            csv[..7] == "report_" && csv[7..|csv| - 4] == s && csv[|csv| - 4..] == ".csv"
            && excel[..14] == "monatsbericht_" && excel[14..|excel| - 5] == s && excel[|excel| - 5..] == ".xlsx"
  {
    NameParts("report_", MonthStem(year, month), ".csv");
    NameParts("monatsbericht_", MonthStem(year, month), ".xlsx");
  }

  // ------------------------------------------------------------ the window

  class LogApp {
    var currentEditId: Option<int>
    var entries: seq<LogEntry>

    /** A new window edits nothing and shows the entries of its start date. */
    constructor(table: LogEntriesTable, today: CalDate)
      requires table.Valid()
      ensures currentEditId.None? && entries == table.FetchEntriesForDate(today)
    {
      currentEditId := None;
      entries := table.FetchEntriesForDate(today);
    }

    /** `load_entries`: the day's entries are cached and editing ends. */
    method LoadEntries(table: LogEntriesTable, day: CalDate)
      requires table.Valid()
      modifies this
      ensures currentEditId.None? && entries == table.FetchEntriesForDate(day)
    {
      entries := table.FetchEntriesForDate(day);
      currentEditId := None;
    }

    /** `_existing_created_at`: the creation time of the first cached entry
        with that id, else the clock reading `now`. */
    method ExistingCreatedAt(entryId: int, now: Timestamp) returns (t: Timestamp)
      ensures FirstCreatedAt(entries, entryId).Some? ==> t == FirstCreatedAt(entries, entryId).value
      ensures FirstCreatedAt(entries, entryId).None? ==> t == now
    {
      var i := 0;
      while i < |entries|
        invariant 0 <= i <= |entries|
        invariant forall j :: 0 <= j < i ==> entries[j].id != Some(entryId)
      {
        if entries[i].id == Some(entryId) {
          return entries[i].createdAt;
        }
        i := i + 1;
      }
      return now;
    }

    /** `edit_selected`: a selected, non-zero id of a cached entry becomes
        the id being edited; otherwise nothing changes. */
    method EditSelected(entryId: Option<int>)
      modifies this
      ensures entries == old(entries)
      ensures currentEditId ==
                if Editing(entryId) && FirstCreatedAt(entries, entryId.value).Some? then entryId else old(currentEditId)
    {
      if !Editing(entryId) {
        return;
      }
      var i := 0;
      while i < |entries|
        invariant 0 <= i <= |entries|
        invariant forall j :: 0 <= j < i ==> entries[j].id != Some(entryId.value)
      {
        if entries[i].id == entryId {
          currentEditId := entryId;
          return;
        }
        i := i + 1;
      }
    }

    /** What `save_entry` does with a built entry: while editing, the entry
        takes the cached creation time (or `clock`) and updates the edited
        row, else it is inserted; then editing ends and `day` is reloaded. */
    method CommitEntry(table: LogEntriesTable, entry: LogEntry, clock: Timestamp, day: CalDate)
      requires table.Valid()
      modifies this, table
      ensures table.Valid()
      ensures currentEditId.None? && entries == table.FetchEntriesForDate(day)
      ensures !Editing(old(currentEditId)) ==>
                table.rows == old(table.rows) + [ToRow(old(table.nextId), entry)] && table.nextId == old(table.nextId) + 1
      ensures Editing(old(currentEditId)) ==>
                var id := old(currentEditId).value;
                var e := WithCreatedAt(entry, FirstCreatedAt(old(entries), id).GetOr(clock));
                table.nextId == old(table.nextId) && |table.rows| == |old(table.rows)|
                && (forall i :: 0 <= i < |table.rows| ==>
                      table.rows[i] == if old(table.rows)[i].id == id then UpdatedRow(old(table.rows)[i], e) else old(table.rows)[i])
                && (forall i :: 0 <= i < |table.rows| && old(table.rows)[i].id == id ==>
                      table.rows[i].id == id && table.rows[i].createdAt == old(table.rows)[i].createdAt
                      && table.rows[i].updatedAt == entry.updatedAt && table.rows[i].siteName == entry.siteName)
    {
      if Editing(currentEditId) {
        var created := ExistingCreatedAt(currentEditId.value, clock);
        var e := WithCreatedAt(entry, created);
        assert e.updatedAt == entry.updatedAt && e.siteName == entry.siteName;
        table.Update(currentEditId.value, e);
      } else {
        var _ := table.Insert(entry);
      }
      currentEditId := None;
      LoadEntries(table, day);
    }

    /** `save_entry`: a rejected form changes nothing; an accepted one is
        stored by `CommitEntry`.  The stored
        creation time of an edited row never changes, since the update does
        not write that column. */
    method SaveEntry(table: LogEntriesTable, f: Form, login: string, now: Timestamp, clock: Timestamp)
      requires table.Valid()
      modifies this, table
      ensures table.Valid()
      ensures BuildEntry(f, login, now).Err? ==>
                table.rows == old(table.rows) && table.nextId == old(table.nextId)
                && currentEditId == old(currentEditId) && entries == old(entries)
      ensures BuildEntry(f, login, now).Ok? ==>
                currentEditId.None? && entries == table.FetchEntriesForDate(f.date)
      ensures BuildEntry(f, login, now).Ok? && !Editing(old(currentEditId)) ==>
                table.rows == old(table.rows) + [ToRow(old(table.nextId), BuildEntry(f, login, now).value)]
      ensures BuildEntry(f, login, now).Ok? && Editing(old(currentEditId)) ==>
                var id := old(currentEditId).value;
                var e := WithCreatedAt(BuildEntry(f, login, now).value, FirstCreatedAt(old(entries), id).GetOr(clock));
                |table.rows| == |old(table.rows)| && table.nextId == old(table.nextId)
                && (forall i :: 0 <= i < |table.rows| ==>
                      table.rows[i] == if old(table.rows)[i].id == id then UpdatedRow(old(table.rows)[i], e) else old(table.rows)[i])
                && (forall i :: 0 <= i < |table.rows| && old(table.rows)[i].id == id ==>
                      table.rows[i].id == id && table.rows[i].createdAt == old(table.rows)[i].createdAt
                      && table.rows[i].updatedAt == now && table.rows[i].siteName == Strip(f.siteText))
    {
      var built := BuildEntry(f, login, now);
      if built.Err? {
        return;
      }
      var entry := built.value;
      assert entry.updatedAt == now && entry.siteName == Strip(f.siteText);
      CommitEntry(table, entry, clock, f.date);
    }
  }
}
