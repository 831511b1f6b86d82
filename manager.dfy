/** The `entries` table of the `vermessung_log` variant
    (vermessung_log/database.py).  `DatabaseManager` is a class over the
    rows and the AUTOINCREMENT counter; every query is a function of the rows.
    Column values are the ones the form passes in: dates and times as text. */
module Manager {
  import opened Wrappers
  import opened Text
  import opened Calendar
  import opened Sql

  /** The thirteen named parameters of `insert_entry`, one per column. */
  datatype EntryData = EntryData(
    date: string,
    employee: string,
    siteName: string,
    kst: string,
    activity: string,
    startTime: Option<string>,
    endTime: Option<string>,
    dayFraction: Option<real>,
    durationHours: Option<real>,
    result: string,
    notes: Option<string>,
    createdAt: Timestamp,
    updatedAt: Timestamp)

  /** A row of `entries`: the id and the thirteen columns. */
  datatype EntryRow = EntryRow(id: int, data: EntryData)

  /** The columns `update_entry` leaves: the eleven data columns and
      `updated_at` from the payload, `created_at` from the row. */
  function UpdatedData(old_: EntryData, payload: EntryData): (r: EntryData)
    ensures r.createdAt == old_.createdAt && r.updatedAt == payload.updatedAt
    ensures r.(createdAt := payload.createdAt) == payload
  {
    payload.(createdAt := old_.createdAt)
  }

  // ------------------------------------------------------ keys and filters

  function HasId(id: int): EntryRow -> bool { (row: EntryRow) => row.id == id }

  function NotId(id: int): EntryRow -> bool { (row: EntryRow) => row.id != id }

  function OnDate(text: string): EntryRow -> bool { (row: EntryRow) => row.data.date == text }

  function IdBefore(a: EntryRow, b: EntryRow): bool { a.id < b.id }

  /** `ORDER BY start_time IS NULL, start_time, created_at`. */
  function DayOrder(row: EntryRow): seq<KeyPart>
  {
    [Asc(Num(if row.data.startTime.None? then 1.0 else 0.0)), Asc(OfText(row.data.startTime)), Asc(Num(row.data.createdAt as real))]
  }

  /** `ORDER BY datetime(created_at) DESC`. */
  function LatestOrder(row: EntryRow): seq<KeyPart> { [Desc(Num(row.data.createdAt as real))] }

  /** `ORDER BY date, site_name, kst`. */
  function MonthOrder(row: EntryRow): seq<KeyPart>
  {
    [Asc(Str(row.data.date)), Asc(Str(row.data.siteName)), Asc(Str(row.data.kst))]
  }

  /** The columns `distinct_values` accepts. */
  const DistinctFields: set<string> := {"site_name", "kst", "activity", "employee"}

  /** The value of one of the text columns `distinct_values` accepts. */
  function FieldValue(field: string, row: EntryRow): string
  {
    if field == "site_name" then row.data.siteName
    else if field == "kst" then row.data.kst
    else if field == "activity" then row.data.activity
    else row.data.employee
  }

  function FieldOf(field: string): EntryRow -> string { (row: EntryRow) => FieldValue(field, row) }

  function FieldNotEmpty(field: string): EntryRow -> bool { (row: EntryRow) => FieldValue(field, row) != "" }

  /** `f"{year:04d}-{month:02d}-01"`. */
  function MonthStartText(year: int, month: int): string
  {
    PadInt(year, 4) + "-" + PadInt(month, 2) + "-01"
  }

  /** The first of the next month as text; December rolls over into January of `year + 1`. */
  function MonthEndText(year: int, month: int): string
  {
    if month == 12 then PadInt(year + 1, 4) + "-01-01" else PadInt(year, 4) + "-" + PadInt(month + 1, 2) + "-01"
  }

  function InTextRange(lo: string, hi: string): EntryRow -> bool
  {
    (row: EntryRow) => LexLe(lo, row.data.date) && LexLess(row.data.date, hi)
  }

  /** The row ordering ensured by `entries_for_date`: interval entries
      (with a start time) first, those by start-time text, then by creation. */
  predicate DayOrdered(a: EntryRow, b: EntryRow)
  {
    (a.data.startTime.None? ==> b.data.startTime.None?)
    && (a.data.startTime.Some? && b.data.startTime.Some? ==>
          LexLe(a.data.startTime.value, b.data.startTime.value)
          && (a.data.startTime == b.data.startTime ==> a.data.createdAt <= b.data.createdAt))
    && (a.data.startTime.None? && b.data.startTime.None? ==> a.data.createdAt <= b.data.createdAt)
  }

  /** The day key orders two rows only as `DayOrdered` says. */
  lemma DayOrderMeaning(a: EntryRow, b: EntryRow)
    requires !KeyLess(DayOrder(b), DayOrder(a))
    ensures DayOrdered(a, b)
  {
    var ka, kb := DayOrder(a), DayOrder(b);
    var ca, cb := a.data.createdAt as real, b.data.createdAt as real;
    assert ka[1..][1..] == [Asc(Num(ca))] && kb[1..][1..] == [Asc(Num(cb))];
    KeyLessNum(cb, ca);
    if a.data.startTime.Some? && b.data.startTime.Some? {
      LexLessTotal(a.data.startTime.value, b.data.startTime.value);
    }
  }

  /** The text bounds of a month are the ISO texts of its first day and of
      the first day of the next month, wherever Python's `date` accepts them. */
  lemma MonthTextBounds(year: int, month: int)
    requires MonthBounds(year, month).Some?
    ensures var (lo, hi) := MonthBounds(year, month).value;
            MonthStartText(year, month) == IsoDate(lo) && MonthEndText(year, month) == IsoDate(hi)
  {
    var (lo, hi) := MonthBounds(year, month).value;
    assert Pow10(4) == 10000 && Pow10(2) == 100;
    TwoDigits(1);
    FirstOfMonthText(year, month);
    if month == 12 {
      FirstOfMonthText(year + 1, 1);
      assert MonthEndText(year, month) == PadInt(year + 1, 4) + "-" + PadInt(1, 2) + "-01";
    } else {
      FirstOfMonthText(year, month + 1);
    }
  }

  /** `f"{year:04d}-{month:02d}-01"` is the ISO text of the first of that month. */
  lemma FirstOfMonthText(year: int, month: int)
    requires 1 <= year <= 9999 && 1 <= month <= 12
    ensures PadInt(year, 4) + "-" + PadInt(month, 2) + "-01" == IsoDate(Date(year, month, 1))
  {
    assert Pow10(4) == 10000 && Pow10(2) == 100;
    TwoDigits(1);
    assert FixedDigits(1, 2) == "01";
    PadIntFixed(year, 4);
    PadIntFixed(month, 2);
    var y, m := FixedDigits(year, 4), FixedDigits(month, 2);
    assert IsoDate(Date(year, month, 1)) == y + ("-" + (m + ("-" + "01")));
    assert y + "-" + m + "-01" == y + ("-" + (m + ("-" + "01")));
  }

  /** The month query selects a row holding an ISO date exactly when the
      date lies in that month. */
  lemma MonthRangeSelects(year: int, month: int, row: EntryRow, d: CalDate)
    requires MonthBounds(year, month).Some? && row.data.date == IsoDate(d)
    ensures InTextRange(MonthStartText(year, month), MonthEndText(year, month))(row) <==> d.year == year && d.month == month
  {
    MonthTextBounds(year, month);
    IsoDateInMonth(year, month, d);
  }

  /** December of year 9999: the end bound "10000-01-01" sorts before the
      start bound, so the query selects nothing, whatever the dates hold. */
  lemma December9999SelectsNothing(text: string)
    ensures !(LexLe(MonthStartText(9999, 12), text) && LexLess(text, MonthEndText(9999, 12)))
  {
    assert Pow10(4) == 10000 && Pow10(2) == 100;
    PadIntFixed(9999, 4);
    PadIntFixed(12, 2);
    assert PadInt(9999, 4) == "9999" && PadInt(12, 2) == "12";
    var hi := MonthEndText(9999, 12);
    assert hi[0] == '1';
    assert MonthStartText(9999, 12)[0] == '9';
  }

  /** The row ordering ensured by `entries_for_month`: by date text, then
      within a date by site, then within a site by cost centre. */
  predicate MonthOrdered(a: EntryRow, b: EntryRow)
  {
    LexLe(a.data.date, b.data.date)
    && (a.data.date == b.data.date ==> LexLe(a.data.siteName, b.data.siteName))
    && (a.data.date == b.data.date && a.data.siteName == b.data.siteName ==> LexLe(a.data.kst, b.data.kst))
  }

  /** The month key orders two rows only as `MonthOrdered` says. */
  lemma MonthOrderMeaning(a: EntryRow, b: EntryRow)
    requires !KeyLess(MonthOrder(b), MonthOrder(a))
    ensures MonthOrdered(a, b)
  {
    var ka, kb := MonthOrder(a), MonthOrder(b);
    assert ka[1..] == [Asc(Str(a.data.siteName)), Asc(Str(a.data.kst))];
    assert kb[1..] == [Asc(Str(b.data.siteName)), Asc(Str(b.data.kst))];
    assert ka[1..][1..] == [Asc(Str(a.data.kst))] && kb[1..][1..] == [Asc(Str(b.data.kst))];
    assert ka[1..][1..][1..] == [] && kb[1..][1..][1..] == [];
    LexLessTotal(a.data.date, b.data.date);
    LexLessTotal(a.data.siteName, b.data.siteName);
    LexLessTotal(a.data.kst, b.data.kst);
    if a.data.date == b.data.date && a.data.siteName == b.data.siteName {
      assert !KeyLess(kb[1..], ka[1..]);
      assert !KeyLess(kb[1..][1..], ka[1..][1..]);
    }
  }

  /** Rows sorted by `date, site_name, kst` are `MonthOrdered` pairwise. */
  lemma MonthOrderRows(r: seq<EntryRow>)
    requires SortedBy(r, MonthOrder)
    ensures forall i, j :: 0 <= i < j < |r| ==> MonthOrdered(r[i], r[j])
  {
    forall i, j | 0 <= i < j < |r| ensures MonthOrdered(r[i], r[j]) {
      MonthOrderMeaning(r[i], r[j]);
    }
  }

  // ------------------------------------------------------------- the table

  class DatabaseManager {
    var rows: seq<EntryRow>
    var nextId: int

    /** Ids increase along the table and stay below the counter. */
    ghost predicate Valid()
      reads this
    {
      1 <= nextId && (forall row :: row in rows ==> row.id < nextId) && Pairwise(rows, IdBefore)
    }

    /** A new, empty `entries` table. */
    constructor()
      ensures Valid() && rows == [] && nextId == 1
    {
      rows := [];
      nextId := 1;
    }

    /** `get_entry`: the row with that id, or `None`. */
    function GetEntry(entryId: int): (r: Option<EntryRow>)
      reads this
      ensures r.None? <==> forall row :: row in rows ==> row.id != entryId
      ensures r.Some? ==> r.value in rows && r.value.id == entryId
    {
      FindFirst(rows, HasId(entryId))
    }

    /** `insert_entry`: stores all thirteen columns as given, the caller's
        timestamps included, under a fresh id, and returns that id. */
    method InsertEntry(entry: EntryData) returns (id: int)
      requires Valid()
      modifies this
      ensures Valid()
      ensures id == old(nextId) && nextId == id + 1
      ensures forall row :: row in old(rows) ==> row.id < id
      ensures rows == old(rows) + [EntryRow(id, entry)]
      ensures GetEntry(id) == Some(EntryRow(id, entry))
    {
      id := nextId;
      rows := rows + [EntryRow(id, entry)];
      nextId := nextId + 1;
      assert forall i :: 0 <= i < |rows| - 1 ==> rows[i] in old(rows);
    }

    /** `update_entry`: the row with that id takes the payload's data columns
        and `updated_at`; its id and `created_at` stay; no other row changes. */
    method UpdateEntry(entryId: int, entry: EntryData)
      requires Valid()
      modifies this
      ensures Valid() && nextId == old(nextId) && |rows| == |old(rows)|
      ensures forall i :: 0 <= i < |rows| ==>
                rows[i] == if old(rows)[i].id == entryId then EntryRow(entryId, UpdatedData(old(rows)[i].data, entry)) else old(rows)[i]
    {
      var before := rows;
      rows := seq(|before|, i requires 0 <= i < |before| =>
                if before[i].id == entryId then EntryRow(entryId, UpdatedData(before[i].data, entry)) else before[i]);
      assert forall i :: 0 <= i < |rows| ==> rows[i].id == before[i].id;
      assert forall row :: row in rows ==> row.id < nextId by {
        forall row | row in rows ensures row.id < nextId {
          var i :| 0 <= i < |rows| && rows[i] == row;
          assert before[i] in before;
        }
      }
    }

    /** `delete_entry`: removes the row with that id; an unknown id is no error. */
    method DeleteEntry(entryId: int)
      requires Valid()
      modifies this
      ensures Valid() && nextId == old(nextId)
      ensures rows == Where(old(rows), NotId(entryId))
      ensures forall row :: row in rows <==> row in old(rows) && row.id != entryId
      ensures GetEntry(entryId).None?
    {
      WherePairwise(rows, NotId(entryId), IdBefore);
      rows := Where(rows, NotId(entryId));
    }

    /** `entries_for_date`: the rows of that date, interval entries first by
        start time, entries without a start time last, ties by creation. */
    function EntriesForDate(dateStr: string): (r: seq<EntryRow>)
      reads this
      ensures forall row :: row in r <==> row in rows && row.data.date == dateStr
      ensures multiset(r) == multiset(Where(rows, OnDate(dateStr)))
      ensures forall i, j :: 0 <= i < j < |r| ==> DayOrdered(r[i], r[j])
    {
      var selected := Where(rows, OnDate(dateStr));
      OrderBy(selected, DayOrder);
      var r := SortByKey(selected, DayOrder);
      forall i, j | 0 <= i < j < |r| ensures DayOrdered(r[i], r[j]) {
        DayOrderMeaning(r[i], r[j]);
      }
      r
    }

    /** `latest_entry`: a row with maximal `created_at`, or `None` for an empty table. */
    function LatestEntry(): (r: Option<EntryRow>)
      reads this
      ensures r.None? <==> rows == []
      ensures r.Some? ==> r.value in rows && forall row :: row in rows ==> row.data.createdAt <= r.value.data.createdAt
    {
      match First(rows, LatestOrder)
      case None => None
      case Some(row) =>
        assert forall other :: other in rows ==> other.data.createdAt <= row.data.createdAt by {
          forall other | other in rows ensures other.data.createdAt <= row.data.createdAt {
            KeyLessNum(other.data.createdAt as real, row.data.createdAt as real);
          }
        }
        Some(row)
    }

    /** `distinct_values`: `[]` for a column outside the accepted four;
        otherwise each non-empty value of that column once. */
    function DistinctValues(field: string): (r: seq<string>)
      reads this
      ensures field !in DistinctFields ==> r == []
      ensures NoDup(r)
      ensures field in DistinctFields ==>
                forall v :: v in r <==> v != "" && exists row :: row in rows && FieldValue(field, row) == v
    {
      if field !in DistinctFields then []
      else Distinct(Select(Where(rows, FieldNotEmpty(field)), FieldOf(field)))
    }

    /** `entries_for_month`: the rows whose date text lies in
        [`yyyy-mm-01`, first of the next month), by date, site and cost centre. */
    function EntriesForMonth(year: int, month: int): (r: seq<EntryRow>)
      reads this
      ensures forall row :: row in r <==> row in rows && InTextRange(MonthStartText(year, month), MonthEndText(year, month))(row)
      ensures multiset(r) == multiset(Where(rows, InTextRange(MonthStartText(year, month), MonthEndText(year, month))))
      ensures forall i, j :: 0 <= i < j < |r| ==> MonthOrdered(r[i], r[j])
    {
      var selected := Where(rows, InTextRange(MonthStartText(year, month), MonthEndText(year, month)));
      OrderBy(selected, MonthOrder);
      var r := SortByKey(selected, MonthOrder);
      MonthOrderRows(r);
      r
    }
  }
}
