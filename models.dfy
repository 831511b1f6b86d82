/** The two records of the log (src/models.py): an entry and a row of the
    monthly summary.  As dataclasses they compare field by field, which is
    what Dafny's datatype equality does. */
module Models {
  import opened Wrappers
  import opened Calendar

  /** One logged activity.  `id` is `None` until the store assigns one; the
      times and the day fraction are optional and no field constrains another. */
  datatype LogEntry = LogEntry(
    id: Option<int>,
    date: CalDate,
    employee: string,
    siteName: string,
    kst: string,
    activity: string,
    startTime: Option<TimeOfDay>,
    endTime: Option<TimeOfDay>,
    dayFraction: Option<real>,
    result: string,
    notes: string,
    createdAt: Timestamp,
    updatedAt: Timestamp)

  /** The day-fraction total of one date, site and cost centre. */
  datatype MonthlySummaryRow = MonthlySummaryRow(date: CalDate, siteName: string, kst: string, dayFractionTotal: real)

  /** `dataclasses.replace(entry, created_at=t)`: the entry with only its creation time changed. */
  function WithCreatedAt(e: LogEntry, t: Timestamp): (r: LogEntry)
    ensures r.createdAt == t
    ensures r.(createdAt := e.createdAt) == e
  {
    e.(createdAt := t)
  }
}
