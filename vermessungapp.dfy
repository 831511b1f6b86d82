/** The form logic of the `vermessung_log` window (vermessung_log/app.py):
    the decisions of `_collect_entry_data`, the edit id, and the timestamps
    `save_entry` and `duplicate_selected_entry` hand to the store.  The
    login name and the clock readings are parameters. */
module VermessungApp {
  import opened Wrappers
  import opened Text
  import opened PyNum
  import opened Calendar
  import opened Manager

  /** The values of the form's widgets; the times are Qt times with seconds
      and milliseconds. */
  datatype Form = Form(
    dateText: string,
    employeeText: string,
    siteText: string,
    kstText: string,
    activityText: string,
    resultText: string,
    notesText: string,
    roundingStep: real,
    workdayHours: real,
    timeMode: bool,
    start: TimeOfDay,
    end: TimeOfDay,
    fractionText: string)

  datatype EntryError =
    | MissingField      // "Fehlende Daten"
    | EndNotAfterStart  // "Ungültige Zeit"
    | ZeroDivision      // a workday or a rounding step of 0, which the spin boxes exclude
    | FractionTooLarge  // "Zu großer Anteil"
    | InvalidFraction   // "Ungültiger Tagesanteil": `float` raises ValueError

  /** `not site_name or not kst or not activity or not result_text`, after stripping. */
  predicate RequiredPresent(f: Form)
  {
    var required := [f.siteText, f.kstText, f.activityText, f.resultText];
    forall i :: 0 <= i < |required| ==> Strip(required[i]) != ""
  }

  /** `self.employee_edit.text().strip() or self.default_employee`. */
  function EmployeeOf(f: Form, defaultEmployee: string): (e: string)
    ensures Strip(f.employeeText) != "" ==> e == Strip(f.employeeText)
    ensures Strip(f.employeeText) == "" ==> e == defaultEmployee
  {
    var typed := Strip(f.employeeText);
    if typed != "" then typed else defaultEmployee
  }

  /** `self.notes_edit.toPlainText().strip() or None`. */
  function NotesOf(f: Form): (n: Option<string>)
    ensures n.None? <==> Strip(f.notesText) == ""
    ensures n.Some? ==> n.value == Strip(f.notesText)
  {
    var typed := Strip(f.notesText);
    if typed != "" then Some(typed) else None
  }

  /** The entry with the form's texts, no times and no amounts, created and
      updated at `now`. */
  function Base(f: Form, defaultEmployee: string, now: Timestamp): EntryData
  {
    EntryData(f.dateText, EmployeeOf(f, defaultEmployee), Strip(f.siteText), Strip(f.kstText), Strip(f.activityText),
              None, None, None, None, Strip(f.resultText), NotesOf(f), now, now)
  }

  /** An entry with its times and amounts blanked. */
  function Untimed(e: EntryData): EntryData
  {
    e.(startTime := None, endTime := None, dayFraction := None, durationHours := None)
  }

  /** `(end_dt - start_dt).total_seconds() / 3600` with both times cut to
      hour and minute. */
  function MinuteHours(start: TimeOfDay, end: TimeOfDay): real
  {
    (TruncateToMinute(end) - TruncateToMinute(start)) as real / MicrosPerHour as real
  }

  /** `round(duration_hours / workday_hours / rounding_step) * rounding_step`. */
  function IntervalFraction(hours: real, workdayHours: real, step: real): real
    requires workdayHours != 0.0 && step != 0.0
  {
    RoundToMultiple(hours / workdayHours, step)
  }

  /** The time branch: the minutes must increase, the fraction of the workday
      rounded to the nearest step must not exceed 1.0; both amounts are
      stored rounded to three decimals. */
  function TimeData(f: Form, base: EntryData): (r: Result<EntryData, EntryError>)
    ensures r.Err? ==> r.error == EndNotAfterStart || r.error == ZeroDivision || r.error == FractionTooLarge
    ensures r == Err(EndNotAfterStart) <==> TruncateToMinute(f.end) <= TruncateToMinute(f.start)
    ensures TruncateToMinute(f.start) < TruncateToMinute(f.end) ==>
              (r == Err(ZeroDivision) <==> f.workdayHours == 0.0 || f.roundingStep == 0.0)
    ensures r.Ok? ==>
              Untimed(r.value) == Untimed(base) && f.workdayHours != 0.0 && f.roundingStep != 0.0
              && TruncateToMinute(f.start) < TruncateToMinute(f.end)
              && r.value.startTime == Some(FormatHHMM(f.start)) && r.value.endTime == Some(FormatHHMM(f.end))
              && IntervalFraction(MinuteHours(f.start, f.end), f.workdayHours, f.roundingStep) <= 1.0
              && r.value.dayFraction == Some(RoundDigits(IntervalFraction(MinuteHours(f.start, f.end), f.workdayHours, f.roundingStep), 3))
              && r.value.durationHours == Some(RoundDigits(MinuteHours(f.start, f.end), 3))
    ensures TruncateToMinute(f.start) < TruncateToMinute(f.end) && f.workdayHours != 0.0 && f.roundingStep != 0.0 ==>
              (r.Ok? <==> IntervalFraction(MinuteHours(f.start, f.end), f.workdayHours, f.roundingStep) <= 1.0)
  {
    if TruncateToMinute(f.end) <= TruncateToMinute(f.start) then Err(EndNotAfterStart)
    else if f.workdayHours == 0.0 || f.roundingStep == 0.0 then Err(ZeroDivision)
    else
      var fraction := IntervalFraction(MinuteHours(f.start, f.end), f.workdayHours, f.roundingStep);
      if fraction > 1.0 then Err(FractionTooLarge)
      else Ok(base.(startTime := Some(FormatHHMM(f.start)), endTime := Some(FormatHHMM(f.end)),
                    dayFraction := Some(RoundDigits(fraction, 3)),
                    durationHours := Some(RoundDigits(MinuteHours(f.start, f.end), 3))))
  }

  /** `day_fraction * workday_hours`: the hours a fraction of the workday stands for. */
  function FractionHours(f: Form, x: real): real
  {
    x * f.workdayHours
  }

  /** The fraction branch: the text must parse and not exceed 1.0 (the code
      sets no lower bound); the duration is the fraction of the workday. */
  function FractionData(f: Form, base: EntryData): (r: Result<EntryData, EntryError>)
    ensures r.Err? ==> r.error == InvalidFraction || r.error == FractionTooLarge
    ensures r == Err(InvalidFraction) <==> ParseFloat(f.fractionText).None?
    ensures r.Ok? <==> ParseFloat(f.fractionText).Some? && ParseFloat(f.fractionText).value <= 1.0
    ensures r.Ok? ==>
              var x := ParseFloat(f.fractionText).value;
              Untimed(r.value) == Untimed(base) && r.value.startTime.None? && r.value.endTime.None?
              && r.value.dayFraction == Some(RoundDigits(x, 3))
              && r.value.durationHours == Some(RoundDigits(FractionHours(f, x), 3))
  {
    match ParseFloat(f.fractionText)
    case None => Err(InvalidFraction)
    case Some(x) =>
      if x > 1.0 then Err(FractionTooLarge)
      else Ok(base.(startTime := None, endTime := None, dayFraction := Some(RoundDigits(x, 3)),
                    durationHours := Some(RoundDigits(FractionHours(f, x), 3))))
  }

  /** `_collect_entry_data`: the required fields first, then the branch of
      the chosen mode; a new entry is created and updated at `now`. */
  function CollectEntryData(f: Form, defaultEmployee: string, now: Timestamp): (r: Result<EntryData, EntryError>)
    ensures r == Err(MissingField) <==> !RequiredPresent(f)
    ensures r.Ok? ==> Untimed(r.value) == Base(f, defaultEmployee, now) && RequiredPresent(f)
    ensures r.Ok? ==> r.value.createdAt == now && r.value.updatedAt == now
    ensures RequiredPresent(f) && f.timeMode ==> r == TimeData(f, Base(f, defaultEmployee, now))
    ensures RequiredPresent(f) && !f.timeMode ==> r == FractionData(f, Base(f, defaultEmployee, now))
  {
    if !RequiredPresent(f) then Err(MissingField)
    else if f.timeMode then TimeData(f, Base(f, defaultEmployee, now))
    else FractionData(f, Base(f, defaultEmployee, now))
  }

  /** Only the minutes count: an interval within one minute is rejected,
      whatever its seconds. */
  lemma SameMinuteRejected(f: Form, defaultEmployee: string, now: Timestamp)
    requires RequiredPresent(f) && f.timeMode && Hour(f.start) == Hour(f.end) && Minute(f.start) == Minute(f.end)
    ensures CollectEntryData(f, defaultEmployee, now) == Err(EndNotAfterStart)
  {
  }

  /** For a positive step the interval fraction is a nearest multiple of
      the step to the share of the workday. */
  lemma IntervalFractionNearest(hours: real, workdayHours: real, step: real, k: int)
    requires workdayHours != 0.0 && step > 0.0
    ensures var share := hours / workdayHours;
            Abs(IntervalFraction(hours, workdayHours, step) - share) <= Abs(k as real * step - share)
  {
    RoundToMultipleNearest(hours / workdayHours, step, k);
  }

  /** An accepted interval has a positive length and a fraction of at most
      1.0, stored rounded to three decimals together with the times. */
  lemma IntervalAccepted(f: Form, defaultEmployee: string, now: Timestamp)
    requires f.timeMode && CollectEntryData(f, defaultEmployee, now).Ok?
    ensures TruncateToMinute(f.start) < TruncateToMinute(f.end)
    ensures f.workdayHours != 0.0 && f.roundingStep != 0.0 && IntervalFraction(MinuteHours(f.start, f.end), f.workdayHours, f.roundingStep) <= 1.0
    ensures CollectEntryData(f, defaultEmployee, now).value.dayFraction == Some(RoundDigits(IntervalFraction(MinuteHours(f.start, f.end), f.workdayHours, f.roundingStep), 3))
  {
    assert CollectEntryData(f, defaultEmployee, now) == TimeData(f, Base(f, defaultEmployee, now));
  }

  /** Fraction mode has no lower bound: any parsed value up to 1.0, negative
      or zero included, is accepted, with its share of the workday as duration. */
  lemma AnyFractionUpToOne(f: Form, defaultEmployee: string, now: Timestamp, x: real)
    requires RequiredPresent(f) && !f.timeMode && ParseFloat(f.fractionText) == Some(x) && x <= 1.0
    ensures CollectEntryData(f, defaultEmployee, now).Ok?
    ensures CollectEntryData(f, defaultEmployee, now).value.dayFraction == Some(RoundDigits(x, 3))
    ensures CollectEntryData(f, defaultEmployee, now).value.durationHours == Some(RoundDigits(FractionHours(f, x), 3))
  {
  }

  // ------------------------------------------------------------ the window

  class MainWindow {
    var editingId: Option<int>

    constructor()
      ensures editingId.None?
    {
      editingId := None;
    }

    /** `load_selected_entry`: a selected id whose row exists becomes the id being edited. */
    method LoadSelectedEntry(db: DatabaseManager, entryId: Option<int>)
      modifies this
      ensures editingId == if entryId.Some? && db.GetEntry(entryId.value).Some? then entryId else old(editingId)
    {
      if entryId.None? {
        return;
      }
      var entry := db.GetEntry(entryId.value);
      if entry.None? {
        return;
      }
      editingId := entryId;
    }

    /** The store step of `save_entry`: insert a new entry when nothing is
        being edited, otherwise update the edited row with `updated_at` set
        to `savedAt`; editing then ends. */
    method StoreEntry(db: DatabaseManager, entry: EntryData, savedAt: Timestamp)
      requires db.Valid()
      modifies this, db
      ensures db.Valid() && editingId.None?
      ensures old(editingId).None? ==>
                db.rows == old(db.rows) + [EntryRow(old(db.nextId), entry)] && db.nextId == old(db.nextId) + 1
      ensures old(editingId).Some? ==>
                var id := old(editingId).value;
                var payload := entry.(updatedAt := savedAt);
                db.nextId == old(db.nextId) && |db.rows| == |old(db.rows)|
                && (forall i :: 0 <= i < |db.rows| ==>
                      db.rows[i] == if old(db.rows)[i].id == id then EntryRow(id, UpdatedData(old(db.rows)[i].data, payload)) else old(db.rows)[i])
                && (forall i :: 0 <= i < |db.rows| && old(db.rows)[i].id == id ==>
                      db.rows[i].data.createdAt == old(db.rows)[i].data.createdAt && db.rows[i].data.updatedAt == savedAt)
    {
      if editingId.None? {
        var _ := db.InsertEntry(entry);
      } else {
        db.UpdateEntry(editingId.value, entry.(updatedAt := savedAt));
      }
      editingId := None;
    }

    /** `save_entry`: a rejected form changes nothing; an accepted one is
        stored by `StoreEntry`, a new entry with `created_at == updated_at ==
        now`, an edited one keeping its `created_at`. */
    method SaveEntry(db: DatabaseManager, f: Form, defaultEmployee: string, now: Timestamp, savedAt: Timestamp)
      requires db.Valid()
      modifies this, db
      ensures db.Valid()
      ensures CollectEntryData(f, defaultEmployee, now).Err? ==>
                db.rows == old(db.rows) && db.nextId == old(db.nextId) && editingId == old(editingId)
      ensures CollectEntryData(f, defaultEmployee, now).Ok? ==> editingId.None?
      ensures CollectEntryData(f, defaultEmployee, now).Ok? && old(editingId).None? ==>
                db.rows == old(db.rows) + [EntryRow(old(db.nextId), CollectEntryData(f, defaultEmployee, now).value)]
                && db.nextId == old(db.nextId) + 1
      ensures CollectEntryData(f, defaultEmployee, now).Ok? && old(editingId).Some? ==>
                var id := old(editingId).value;
                var payload := CollectEntryData(f, defaultEmployee, now).value.(updatedAt := savedAt);
                db.nextId == old(db.nextId) && |db.rows| == |old(db.rows)|
                && (forall i :: 0 <= i < |db.rows| ==>
                      db.rows[i] == if old(db.rows)[i].id == id then EntryRow(id, UpdatedData(old(db.rows)[i].data, payload)) else old(db.rows)[i])
                && (forall i :: 0 <= i < |db.rows| && old(db.rows)[i].id == id ==>
                      db.rows[i].id == id
                      && Untimed(db.rows[i].data) == Base(f, defaultEmployee, old(db.rows)[i].data.createdAt).(updatedAt := savedAt))
    {
      var entry := CollectEntryData(f, defaultEmployee, now);
      if entry.Err? {
        return;
      }
      StoreEntry(db, entry.value, savedAt);
    }

    /** `duplicate_selected_entry`: a copy of the selected row under a new id,
        on the selected date, created and updated at `now`; nothing when no
        row is selected or it no longer exists. */
    method DuplicateSelectedEntry(db: DatabaseManager, entryId: Option<int>, dateText: string, now: Timestamp)
      requires db.Valid()
      modifies db
      ensures db.Valid()
      ensures entryId.None? || old(db.GetEntry(entryId.value)).None? ==>
                db.rows == old(db.rows) && db.nextId == old(db.nextId)
      ensures entryId.Some? && old(db.GetEntry(entryId.value)).Some? ==>
                var copy := old(db.GetEntry(entryId.value)).value.data.(date := dateText, createdAt := now, updatedAt := now);
                db.rows == old(db.rows) + [EntryRow(old(db.nextId), copy)] && db.nextId == old(db.nextId) + 1
    {
      if entryId.None? {
        return;
      }
      var entry := db.GetEntry(entryId.value);
      if entry.None? {
        return;
      }
      var copy := entry.value.data.(date := dateText, createdAt := now, updatedAt := now);
      var _ := db.InsertEntry(copy);
    }
  }
}
