/** The form logic of the time-share window (main.py): the input checks of
    `_validate_inputs` and the guarded save of `save_entry`, with the form's
    widget values as parameters. */
module LegacyApp {
  import opened Wrappers
  import opened Text
  import opened Calendar
  import opened ActivityDb
  import Config

  /** The values the form's widgets hold when the user saves. */
  datatype Form = Form(
    date: CalDate,
    siteText: string,
    resultText: string,
    employeeText: string,
    activityText: string,
    timeShare: real,
    correctionIndex: int,
    correctsValue: int,
    noteText: string)

  datatype InputError = EmptySite | ShortResult | MissingEmployee

  /** `_validate_inputs`: the first failing check wins; the site must not be
      blank, the stripped result must have at least five characters, and an
      employee must be chosen. */
  function ValidateInputs(f: Form): (r: Option<InputError>)
    ensures r == Some(EmptySite) <==> AllSpace(f.siteText)
    ensures r == Some(ShortResult) <==> !AllSpace(f.siteText) && |Strip(f.resultText)| < 5
    ensures r == Some(MissingEmployee) <==>
              !AllSpace(f.siteText) && |Strip(f.resultText)| >= 5 && AllSpace(f.employeeText)
    ensures r.None? <==> !AllSpace(f.siteText) && |Strip(f.resultText)| >= 5 && !AllSpace(f.employeeText)
  {
    if Strip(f.siteText) == "" then Some(EmptySite)
    else if |Strip(f.resultText)| < 5 then Some(ShortResult)
    else if Strip(f.employeeText) == "" then Some(MissingEmployee)
    else None
  }

  /** A result text shorter than five characters never passes, whatever
      whitespace surrounds it. */
  lemma ShortResultRejected(f: Form)
    requires |f.resultText| < 5
    ensures ValidateInputs(f).Some?
  {
  }

  /** `self.corrects_input.value() or None`: the spin box's 0 means none. */
  function CorrectsId(value: int): (r: Option<int>)
    ensures r.None? <==> value == 0
    ensures r.Some? ==> r.value == value
  {
    if value == 0 then None else Some(value)
  }

  /** The row `save_entry` stores: site, result and note stripped, the
      employee as chosen, and the correction flag set exactly for the second
      option. */
  function SavedRow(f: Form, id: int, now: Timestamp): ActivityRow
  {
    ActivityRow(id, f.date, f.employeeText, Strip(f.siteText), f.activityText, Strip(f.resultText), f.timeShare, now,
                if f.correctionIndex == 1 then 1 else 0, CorrectsId(f.correctsValue), Strip(f.noteText))
  }

  /** What a row saved from an accepted form satisfies. */
  lemma SavedRowAccepted(f: Form, id: int, now: Timestamp)
    requires ValidateInputs(f).None? && ValidateEntry(f.activityText, f.timeShare).Ok?
    ensures var row := SavedRow(f, id, now);
            row.site != "" && !IsSpace(row.site[0]) && !IsSpace(row.site[|row.site| - 1])
            && |row.result| >= 5
            && row.activity in Config.Activities
            && (exists k :: 1 <= k <= 10 && row.timeShare == Tenths(k))
            && (row.isCorrection == 1 <==> f.correctionIndex == 1)
  {
    AcceptedTimeShare(f.activityText, f.timeShare);
  }

  datatype SaveOutcome = InputRejected(why: InputError) | EntryRejected(reason: ValidationError) | Saved(id: int)

  /** `save_entry`: the form checks first, then `validate_entry`; only when
      both pass is the entry added, and nothing is stored otherwise. */
  method SaveEntry(db: Database, f: Form, now: Timestamp) returns (out: SaveOutcome)
    requires db.Valid()
    modifies db
    ensures db.Valid()
    ensures out.InputRejected? <==> ValidateInputs(f).Some?
    ensures out.InputRejected? ==> out.why == ValidateInputs(f).value
    ensures out.EntryRejected? <==> ValidateInputs(f).None? && ValidateEntry(f.activityText, f.timeShare).Err?
    ensures out.EntryRejected? ==> out.reason == ValidateEntry(f.activityText, f.timeShare).error
    ensures out.Saved? <==> ValidateInputs(f).None? && ValidateEntry(f.activityText, f.timeShare).Ok?
    ensures !out.Saved? ==> db.rows == old(db.rows) && db.nextId == old(db.nextId)
    ensures out.Saved? ==> out.id == old(db.nextId) && db.rows == old(db.rows) + [SavedRow(f, out.id, now)]
  {
    var error := ValidateInputs(f);
    if error.Some? {
      return InputRejected(error.value);
    }
    var checked := ValidateEntry(f.activityText, f.timeShare);
    if checked.Err? {
      return EntryRejected(checked.error);
    }
    var newId := db.AddEntry(f.date, f.employeeText, Strip(f.siteText), f.activityText, Strip(f.resultText),
                             f.timeShare, f.correctionIndex == 1, CorrectsId(f.correctsValue), Strip(f.noteText), now);
    out := Saved(newId);
  }
}
