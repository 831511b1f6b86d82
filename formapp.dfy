/** The form logic of the window that rounds day fractions up (app.py):
    `_round_fraction`, the decisions of `_collect_form_data`, the edit id that
    `save_entry` consumes, the record copy of `duplicate_selected` and the
    lines and file name of `export_csv`.  The store the window talks to is
    not modelled: its calls are returned as values. */
module FormApp {
  import opened Wrappers
  import opened Text
  import opened PyNum
  import opened Calendar

  const RoundingStepDefault: real := 0.05
  const WorkdayHoursDefault: real := 8.0
  const FractionChoices: seq<real> := [0.1, 0.2, 0.25, 0.3, 0.4, 0.5, 0.6, 0.75, 0.8, 1.0]

  // ------------------------------------------------------------- rounding

  /** `self.rounding_step or ROUNDING_STEP_DEFAULT`: only 0.0 is falsy. */
  function EffectiveStep(roundingStep: real): (s: real)
    ensures s != 0.0
    ensures roundingStep != 0.0 ==> s == roundingStep
  {
    if roundingStep == 0.0 then RoundingStepDefault else roundingStep
  }

  /** `_round_fraction`: `round(math.ceil(value / step) * step, 2)`. */
  function RoundFraction(value: real, roundingStep: real): real
  {
    RoundDigits(CeilToMultiple(value, EffectiveStep(roundingStep)), 2)
  }

  /** For a step of whole cents the result is the least multiple of the step
      that is not below the value: at least the value, less than one step
      above it, and not above any other multiple that is. */
  lemma RoundFractionUp(value: real, roundingStep: real, cents: int, k: int)
    requires cents > 0 && roundingStep == cents as real / 100.0
    ensures var r := RoundFraction(value, roundingStep);
            value <= r < value + roundingStep
            && r == Ceil(value / roundingStep) as real * roundingStep
            && (value <= k as real * roundingStep ==> r <= k as real * roundingStep)
  {
    var c := Ceil(value / roundingStep);
    assert CeilToMultiple(value, roundingStep) == (c * cents) as real / 100.0;
    RoundDigitsHundredths(c * cents);
    CeilToMultipleLeast(value, roundingStep, k);
  }

  /** A step of 0 behaves as the default step of 0.05. */
  lemma RoundFractionZeroStep(value: real)
    ensures RoundFraction(value, 0.0) == RoundFraction(value, RoundingStepDefault)
    ensures value <= RoundFraction(value, 0.0) < value + 0.05
  {
    RoundFractionUp(value, RoundingStepDefault, 5, 0);
  }

  // ------------------------------------------------------------ the form

  /** The values of the form's widgets; times are Qt times with their
      seconds and milliseconds, as `QTime.currentTime()` sets them. */
  datatype Form = Form(
    dateText: string,
    employeeText: string,
    siteText: string,
    kstText: string,
    activityText: string,
    resultText: string,
    notesText: string,
    workdayHours: real,
    intervalMode: bool,
    start: TimeOfDay,
    end: TimeOfDay,
    fractionText: string,
    fractionSpin: real)

  /** The dict `_collect_form_data` returns. */
  datatype FormData = FormData(
    date: string,
    employee: string,
    siteName: string,
    kst: string,
    activity: string,
    result: string,
    notes: string,
    startTime: Option<string>,
    endTime: Option<string>,
    durationHours: Option<real>,
    dayFraction: real)

  datatype FormError =
    | MissingField             // "Fehlende Daten"
    | EndNotAfterStart         // "Zeitfehler"
    | ComputedFractionTooHigh  // interval mode: "Berechneter Tagesanteil ist größer als 1.0"
    | NoFraction               // fraction mode: "Kein Anteil"
    | FractionTooHigh          // fraction mode: "Tagesanteil darf nicht größer als 1.0 sein"
    | BadFractionText          // `float(fraction_text)` raises ValueError

  /** `all([date_str, employee, site_name, kst, activity, result])`: the
      date text as the date widget renders it, the others after stripping. */
  predicate RequiredPresent(f: Form)
  {
    var stripped := [f.employeeText, f.siteText, f.kstText, f.activityText, f.resultText];
    f.dateText != "" && forall i :: 0 <= i < |stripped| ==> Strip(stripped[i]) != ""
  }

  /** `(end_dt - start_dt).total_seconds() / 3600`. */
  function IntervalHours(start: TimeOfDay, end: TimeOfDay): (h: real)
    ensures start < end ==> h > 0.0
  {
    (end - start) as real / MicrosPerHour as real
  }

  /** `duration_hours / workday_hours if workday_hours > 0 else 0`. */
  function RawFraction(hours: real, workdayHours: real): real
  {
    if workdayHours > 0.0 then hours / workdayHours else 0.0
  }

  /** `fraction_value if fraction_value > 0 else (float(fraction_text) if fraction_text else 0.0)`,
      with `None` where `float` raises. */
  function ChosenFraction(f: Form): (r: Option<real>)
    ensures f.fractionSpin > 0.0 ==> r == Some(f.fractionSpin)
    ensures f.fractionSpin <= 0.0 && Strip(f.fractionText) == "" ==> r == Some(0.0)
    ensures f.fractionSpin <= 0.0 && Strip(f.fractionText) != "" ==> r == ParseFloat(Strip(f.fractionText))
  {
    var text := Strip(f.fractionText);
    if f.fractionSpin > 0.0 then Some(f.fractionSpin)
    else if text != "" then ParseFloat(text)
    else Some(0.0)
  }

  /** The date text as it is and the other text fields stripped, with no
      times and no fraction yet. */
  function TextFields(f: Form): FormData
  {
    FormData(f.dateText, Strip(f.employeeText), Strip(f.siteText), Strip(f.kstText), Strip(f.activityText),
             Strip(f.resultText), Strip(f.notesText), None, None, None, 0.0)
  }

  /** The form with its times blanked: the part both modes share. */
  function Untimed(d: FormData): FormData
  {
    d.(startTime := None, endTime := None, durationHours := None, dayFraction := 0.0)
  }

  /** The interval branch: the end must come after the start, and the
      fraction of the workday, rounded up, must not exceed 1.0. */
  function IntervalData(f: Form, roundingStep: real): (r: Result<FormData, FormError>)
    ensures r.Err? ==> r.error == EndNotAfterStart || r.error == ComputedFractionTooHigh
    ensures r == Err(EndNotAfterStart) <==> f.end <= f.start
    ensures f.start < f.end ==>
              var fraction := RoundFraction(RawFraction(IntervalHours(f.start, f.end), f.workdayHours), roundingStep);
              (r.Ok? <==> fraction <= 1.0) && (r.Err? ==> r.error == ComputedFractionTooHigh)
    ensures r.Ok? ==>
              Untimed(r.value) == TextFields(f)
              && r.value.startTime == Some(FormatHHMM(f.start)) && r.value.endTime == Some(FormatHHMM(f.end))
              && r.value.durationHours == Some(IntervalHours(f.start, f.end)) && IntervalHours(f.start, f.end) > 0.0
              && r.value.dayFraction == RoundFraction(RawFraction(IntervalHours(f.start, f.end), f.workdayHours), roundingStep)
              && r.value.dayFraction <= 1.0
  {
    if f.end <= f.start then Err(EndNotAfterStart)
    else
      var hours := IntervalHours(f.start, f.end);
      var fraction := RoundFraction(RawFraction(hours, f.workdayHours), roundingStep);
      if fraction > 1.0 then Err(ComputedFractionTooHigh)
      else Ok(TextFields(f).(startTime := Some(FormatHHMM(f.start)), endTime := Some(FormatHHMM(f.end)),
                             durationHours := Some(hours), dayFraction := fraction))
  }

  /** The fraction branch: the chosen fraction must parse, be positive and
      not exceed 1.0; it is stored rounded up, with no times. */
  function GivenFractionData(f: Form, roundingStep: real): (r: Result<FormData, FormError>)
    ensures r.Err? ==> r.error == BadFractionText || r.error == NoFraction || r.error == FractionTooHigh
    ensures r.Ok? <==> ChosenFraction(f).Some? && 0.0 < ChosenFraction(f).value <= 1.0
    ensures r == Err(BadFractionText) <==> ChosenFraction(f).None?
    ensures r == Err(NoFraction) <==> ChosenFraction(f).Some? && ChosenFraction(f).value <= 0.0
    ensures r == Err(FractionTooHigh) <==> ChosenFraction(f).Some? && ChosenFraction(f).value > 1.0
    ensures r.Ok? ==>
              Untimed(r.value) == TextFields(f)
              && r.value.startTime.None? && r.value.endTime.None? && r.value.durationHours.None?
              && r.value.dayFraction == RoundFraction(ChosenFraction(f).value, roundingStep)
  {
    match ChosenFraction(f)
    case None => Err(BadFractionText)
    case Some(fraction) =>
      if fraction <= 0.0 then Err(NoFraction)
      else if fraction > 1.0 then Err(FractionTooHigh)
      else Ok(TextFields(f).(dayFraction := RoundFraction(fraction, roundingStep)))
  }

  /** `_collect_form_data`: the required fields first, then the branch of the
      chosen mode. */
  function CollectFormData(f: Form, roundingStep: real): (r: Result<FormData, FormError>)
    ensures r == Err(MissingField) <==> !RequiredPresent(f)
    ensures r.Ok? ==> RequiredPresent(f) && Untimed(r.value) == TextFields(f)
    ensures RequiredPresent(f) && f.intervalMode ==> r == IntervalData(f, roundingStep)
    ensures RequiredPresent(f) && !f.intervalMode ==> r == GivenFractionData(f, roundingStep)
  {
    if !RequiredPresent(f) then Err(MissingField)
    else if f.intervalMode then IntervalData(f, roundingStep)
    else GivenFractionData(f, roundingStep)
  }

  /** A positive share of a positive workday, rounded up to a step of whole
      cents and accepted as at most 1.0, lies between the share and one step
      above it, and the hours do not exceed the workday. */
  lemma RoundedShareWithin(hours: real, workdayHours: real, roundingStep: real, cents: int)
    requires hours > 0.0 && workdayHours > 0.0 && cents > 0 && roundingStep == cents as real / 100.0
    requires RoundFraction(hours / workdayHours, roundingStep) <= 1.0
    ensures var raw := hours / workdayHours;
            var r := RoundFraction(raw, roundingStep);
            0.0 < raw <= r < raw + roundingStep && hours <= workdayHours
  {
    var raw := hours / workdayHours;
    RoundFractionUp(raw, roundingStep, cents, 0);
    QuotientAtMostOne(hours, workdayHours);
  }

  /** With a step of whole cents an accepted interval never takes more than
      the workday, and its stored fraction is the raw fraction rounded up. */
  lemma IntervalWithinWorkday(f: Form, roundingStep: real, cents: int)
    requires cents > 0 && roundingStep == cents as real / 100.0
    requires f.intervalMode && f.workdayHours > 0.0 && CollectFormData(f, roundingStep).Ok?
    ensures var raw := IntervalHours(f.start, f.end) / f.workdayHours;
            var d := CollectFormData(f, roundingStep).value;
            0.0 < raw <= d.dayFraction <= 1.0 && d.dayFraction < raw + roundingStep
            && IntervalHours(f.start, f.end) <= f.workdayHours
  {
    var d := IntervalData(f, roundingStep);
    var hours := IntervalHours(f.start, f.end);
    assert d.value.dayFraction == RoundFraction(hours / f.workdayHours, roundingStep);
    RoundedShareWithin(hours, f.workdayHours, roundingStep, cents);
  }

  /** With a step of 0.3 a fraction of 0.95 is rounded up to 1.2. */
  lemma RoundFractionOverOne()
    ensures RoundFraction(0.95, 0.3) == 1.2
  {
    assert Ceil(0.95 / 0.3) == 4;
    assert CeilToMultiple(0.95, 0.3) == 120 as real / 100.0;
    RoundDigitsHundredths(120);
  }

  /** A complete form in fraction mode with a spin value in (0, 1] is
      accepted with that value rounded up. */
  lemma SpinFractionAccepted(f: Form, roundingStep: real)
    requires RequiredPresent(f) && !f.intervalMode && 0.0 < f.fractionSpin <= 1.0
    ensures CollectFormData(f, roundingStep).Ok?
    ensures CollectFormData(f, roundingStep).value.dayFraction == RoundFraction(f.fractionSpin, roundingStep)
  {
  }

  /** The fraction is bounded before it is rounded up: with a step of 0.3 a
      given fraction of 0.95 passes and is stored as 1.2. */
  lemma FractionModeExceedsOne()
    ensures var f := Form("2024-05-02", "Anna", "Nord", "4711", "Absteckung", "fertig", "", 8.0, false, 0, 0, "", 0.95);
            CollectFormData(f, 0.3).Ok? && CollectFormData(f, 0.3).value.dayFraction == 1.2
  {
    var f := Form("2024-05-02", "Anna", "Nord", "4711", "Absteckung", "fertig", "", 8.0, false, 0, 0, "", 0.95);
    var stripped := [f.employeeText, f.siteText, f.kstText, f.activityText, f.resultText];
    forall i | 0 <= i < |stripped| ensures Strip(stripped[i]) != "" {
      StripUnchanged(stripped[i]);
    }
    SpinFractionAccepted(f, 0.3);
    RoundFractionOverOne();
  }

  /** Where the fraction comes from in fraction mode: a positive spin value
      wins and the text field is not read at all; with the spin box at zero
      a blank text field means no fraction. */
  lemma FractionSources(f: Form, text: string, roundingStep: real)
    ensures f.fractionSpin > 0.0 ==> CollectFormData(f, roundingStep) == CollectFormData(f.(fractionText := text), roundingStep)
    ensures RequiredPresent(f) && !f.intervalMode && f.fractionSpin > 0.0 ==>
              (CollectFormData(f, roundingStep).Ok? <==> f.fractionSpin <= 1.0)
    ensures RequiredPresent(f) && !f.intervalMode && f.fractionSpin <= 0.0 && AllSpace(f.fractionText) ==>
              CollectFormData(f, roundingStep) == Err(NoFraction)
  {
    if f.fractionSpin > 0.0 {
      var g := f.(fractionText := text);
      assert TextFields(g) == TextFields(f) && RequiredPresent(g) == RequiredPresent(f);
      if RequiredPresent(f) {
        if f.intervalMode {
          IntervalDataIgnoresText(f, g, roundingStep);
        } else {
          assert ChosenFraction(g) == ChosenFraction(f) == Some(f.fractionSpin);
        }
      }
    } else if RequiredPresent(f) && !f.intervalMode && AllSpace(f.fractionText) {
      assert ChosenFraction(f) == Some(0.0);
    }
  }

  /** The interval branch reads the times and the text fields, not the fraction text. */
  lemma IntervalDataIgnoresText(f: Form, g: Form, roundingStep: real)
    requires g == f.(fractionText := g.fractionText)
    ensures IntervalData(f, roundingStep) == IntervalData(g, roundingStep)
  {
    assert TextFields(g) == TextFields(f);
  }

  // ------------------------------------------------------------ the window

  /** What `save_entry` asks of the store. */
  datatype StoreCall = UpdateCall(id: int, data: FormData) | InsertCall(data: FormData)

  /** `if self.current_edit_id:`: no id, or id 0, means a new entry. */
  predicate Editing(id: Option<int>) { id.Some? && id.value != 0 }

  class MainWindow {
    var currentEditId: Option<int>
    var roundingStep: real

    constructor()
      ensures currentEditId == None && roundingStep == RoundingStepDefault
    {
      currentEditId := None;
      roundingStep := RoundingStepDefault;
    }

    /** `_update_rounding`. */
    method UpdateRounding(value: real)
      modifies this
      ensures roundingStep == value && currentEditId == old(currentEditId)
    {
      roundingStep := value;
    }

    /** `load_selected_into_form`: a truthy id whose row exists becomes the id being edited. */
    method LoadSelected(entryId: Option<int>, rowFound: bool)
      modifies this
      ensures currentEditId == if Editing(entryId) && rowFound then entryId else old(currentEditId)
      ensures roundingStep == old(roundingStep)
    {
      if !Editing(entryId) || !rowFound {
        return;
      }
      currentEditId := entryId;
    }

    /** `save_entry`: nothing happens for a rejected form; otherwise the entry
        being edited is updated, or a new one inserted, and editing ends. */
    method SaveEntry(f: Form) returns (call: Option<StoreCall>)
      modifies this
      ensures roundingStep == old(roundingStep)
      ensures CollectFormData(f, roundingStep).Err? ==> call.None? && currentEditId == old(currentEditId)
      ensures CollectFormData(f, roundingStep).Ok? ==>
                currentEditId.None?
                && call == Some(if Editing(old(currentEditId)) then UpdateCall(old(currentEditId).value, CollectFormData(f, roundingStep).value)
                                else InsertCall(CollectFormData(f, roundingStep).value))
    {
      var data := CollectFormData(f, roundingStep);
      if data.Err? {
        return None;
      }
      if Editing(currentEditId) {
        call := Some(UpdateCall(currentEditId.value, data.value));
      } else {
        call := Some(InsertCall(data.value));
      }
      currentEditId := None;
    }
  }

  // --------------------------------------------------------- duplicating

  /** `duplicate_selected`: the stored record without `id`, `created_at` and
      `updated_at`, with the selected date. */
  function DuplicateRecord<V>(row: map<string, V>, date: V): (r: map<string, V>)
    ensures r.Keys == row.Keys - {"id", "created_at", "updated_at"} + {"date"}
    ensures r["date"] == date
    ensures forall k :: k in r && k != "date" ==> k in row && r[k] == row[k]
  {
    var kept := map k | k in row.Keys - {"id", "created_at", "updated_at"} :: row[k];
    kept["date" := date]
  }

  // ------------------------------------------------------------ the export

  const SummaryHeader: seq<string> := ["Datum", "Baustelle", "Kst", "Tagesanteil"]
  const TotalsHeader: seq<string> := ["Baustelle", "Kst", "Summe Monat"]

  /** The file name the save dialog proposes, `f"monatsbericht_{year}_{month:02d}.csv"`. */
  function ExportFileName(year: int, month: int): string
  {
    "monatsbericht_" + MonthStem(year, month) + ".csv"
  }

  /** The proposed name is the prefix, the month's stem and the extension;
      `MonthStemDigits` spells out the stem. */
  lemma ExportFileNameMonth(year: int, month: int)
    ensures var name := ExportFileName(year, month);
            name[..14] == "monatsbericht_" && name[14..|name| - 4] == MonthStem(year, month)
            && name[|name| - 4..] == ".csv"
  {
    NameParts("monatsbericht_", MonthStem(year, month), ".csv");
  }

  /** A row of the month's summaries as the store hands it over. */
  datatype SummaryRow = SummaryRow(date: string, siteName: string, kst: string, totalFraction: real)

  /** A line per summary row: date, site, cost centre, total with two decimals. */
  function SummaryLine(row: SummaryRow): seq<string>
  {
    [row.date, row.siteName, row.kst, FormatFixed2(row.totalFraction)]
  }

  /** A line per site total: site, cost centre, total with two decimals. */
  function TotalLine(t: (string, string, real)): seq<string>
  {
    [t.0, t.1, FormatFixed2(t.2)]
  }

  /** A summary line's last cell reads back as its total rounded to cents. */
  lemma SummaryLineReads(row: SummaryRow)
    ensures ParseFloat(SummaryLine(row)[3]) == Some(RoundDigits(row.totalFraction, 2))
  {
    FormatFixed2RoundTrip(row.totalFraction);
  }

  /** A total line gives back its site and cost centre, and its total rounded to cents. */
  lemma TotalLineReads(t: (string, string, real))
    ensures var line := TotalLine(t);
            |line| == 3 && line[0] == t.0 && line[1] == t.1 && ParseFloat(line[2]) == Some(RoundDigits(t.2, 2))
  {
    FormatFixed2RoundTrip(t.2);
  }

  function SummaryLines(summaries: seq<SummaryRow>): (r: seq<seq<string>>)
    ensures |r| == |summaries| && forall i :: 0 <= i < |summaries| ==> r[i] == SummaryLine(summaries[i])
  {
    seq(|summaries|, i requires 0 <= i < |summaries| => SummaryLine(summaries[i]))
  }

  function TotalLines(totals: seq<(string, string, real)>): (r: seq<seq<string>>)
    ensures |r| == |totals| && forall i :: 0 <= i < |totals| ==> r[i] == TotalLine(totals[i])
  {
    seq(|totals|, i requires 0 <= i < |totals| => TotalLine(totals[i]))
  }

  /** The lines `export_csv` writes: header, a line per summary row, an empty
      line, the totals header and a line per site total. */
  function MonthReport(summaries: seq<SummaryRow>, totals: seq<(string, string, real)>): (lines: seq<seq<string>>)
    ensures |lines| == |summaries| + |totals| + 3
    ensures lines[0] == SummaryHeader && lines[1 + |summaries|] == [] && lines[2 + |summaries|] == TotalsHeader
    ensures forall i :: 0 <= i < |summaries| ==> lines[1 + i] == SummaryLine(summaries[i])
    ensures forall j :: 0 <= j < |totals| ==> lines[3 + |summaries| + j] == TotalLine(totals[j])
  {
    [SummaryHeader] + SummaryLines(summaries) + [[], TotalsHeader] + TotalLines(totals)
  }

  /** Every number written reads back as its total rounded to cents. */
  lemma MonthReportReadsBack(summaries: seq<SummaryRow>, totals: seq<(string, string, real)>)
    ensures var lines := MonthReport(summaries, totals);
            (forall i :: 0 <= i < |summaries| ==> ParseFloat(lines[1 + i][3]) == Some(RoundDigits(summaries[i].totalFraction, 2)))
            && (forall j :: 0 <= j < |totals| ==> ParseFloat(lines[3 + |summaries| + j][2]) == Some(RoundDigits(totals[j].2, 2)))
  {
    var lines := MonthReport(summaries, totals);
    forall i | 0 <= i < |summaries| ensures ParseFloat(lines[1 + i][3]) == Some(RoundDigits(summaries[i].totalFraction, 2)) {
      SummaryLineReads(summaries[i]);
    }
    forall j | 0 <= j < |totals| ensures ParseFloat(lines[3 + |summaries| + j][2]) == Some(RoundDigits(totals[j].2, 2)) {
      TotalLineReads(totals[j]);
    }
  }

  /** The csv writer's loops: the lines for the given summaries and totals. */
  method WriteMonthReport(summaries: seq<SummaryRow>, totals: seq<(string, string, real)>)
    returns (lines: seq<seq<string>>)
    ensures lines == MonthReport(summaries, totals)
  {
    lines := [SummaryHeader];
    var i := 0;
    while i < |summaries|
      invariant 0 <= i <= |summaries|
      invariant lines == [SummaryHeader] + SummaryLines(summaries[..i])
    {
      assert SummaryLines(summaries[..i + 1]) == SummaryLines(summaries[..i]) + [SummaryLine(summaries[i])];
      lines := lines + [SummaryLine(summaries[i])];
      i := i + 1;
    }
    assert summaries[..i] == summaries;
    lines := lines + [[], TotalsHeader];
    var head := lines;
    var j := 0;
    while j < |totals|
      invariant 0 <= j <= |totals|
      invariant lines == head + TotalLines(totals[..j])
    {
      assert TotalLines(totals[..j + 1]) == TotalLines(totals[..j]) + [TotalLine(totals[j])];
      lines := lines + [TotalLine(totals[j])];
      j := j + 1;
    }
    assert totals[..j] == totals;
  }
}
