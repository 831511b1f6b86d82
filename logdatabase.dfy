/** The `entries` table of the top-level variant (database.py).
    `LogDatabase` takes the caller's dict of column values as it is: the
    columns it names are set, the others are NULL, and a name that is not a
    column is SQLite's error.  The table is a class over the stored rows and
    the AUTOINCREMENT counter; every query is a function of the rows. */
module LogDb {
  import opened Wrappers
  import opened Text
  import opened PyNum
  import opened Calendar
  import opened Sql

  // ---------------------------------------------------------- round_to_step

  /** `round_to_step`: a non-positive step leaves the value alone; otherwise
      the nearest multiple of the step (ties to even), rounded to cents. */
  function RoundToStep(value: real, step: real): (r: real)
    ensures step <= 0.0 ==> r == value
    ensures step > 0.0 ==> Abs(r - RoundToMultiple(value, step)) <= 0.005
  {
    assert Pow10(2) == 100;
    if step <= 0.0 then value
    else RoundDigits(RoundToMultiple(value, step), 2)
  }

  /** With a positive step the result is within half a cent of a multiple of
      the step that is at least as near to the value as any other multiple. */
  lemma RoundToStepNearest(value: real, step: real, k: int)
    requires step > 0.0
    ensures var m := RoundHalfEven(value / step) as real * step;
            Abs(RoundToStep(value, step) - m) <= 0.005 && Abs(m - value) <= Abs(k as real * step - value)
  {
    RoundToMultipleNearest(value, step, k);
  }

  /** For a step of whole cents the cents rounding changes nothing: the result
      is exactly the nearest multiple of the step. */
  lemma RoundToStepCents(value: real, step: real, cents: int)
    requires cents > 0 && step == cents as real / 100.0
    ensures RoundToStep(value, step) == RoundToMultiple(value, step)
  {
    var n := RoundHalfEven(value / step);
    assert RoundToMultiple(value, step) == (n * cents) as real / 100.0;
    RoundDigitsHundredths(n * cents);
  }

  // ------------------------------------------------------------------ rows

  /** A dict of column values, as the caller passes it and as queries return it. */
  type Record = map<string, SqlValue>

  /** The thirteen columns besides `id`. */
  const DataColumns: set<string> :=
    {"date", "employee", "site_name", "kst", "activity", "start_time", "end_time",
     "day_fraction", "duration_hours", "result", "notes", "created_at", "updated_at"}

  /** The columns declared NOT NULL, `id` aside. */
  const NotNullColumns: set<string> := {"date", "employee", "site_name", "kst", "activity", "result", "created_at", "updated_at"}

  /** Every column of the table. */
  const Columns: set<string> := DataColumns + {"id"}

  datatype DbError =
    | NoSuchColumn       // a dict key that is not a column: OperationalError
    | IdMismatch         // an `id` that is neither NULL nor an integer: "datatype mismatch"
    | NotNullViolated    // a NOT NULL column left NULL: IntegrityError
    | IdTaken            // an `id` already in use: IntegrityError
    | UnsupportedColumn  // `get_distinct_values` outside its three columns: ValueError

  /** A stored row: its id and one value per data column. */
  datatype StoredRow = StoredRow(id: int, values: map<string, SqlValue>)

  /** A dict's value for a key, NULL when the key is absent. */
  function Field(d: Record, column: string): SqlValue
  {
    if column in d then d[column] else Null
  }

  function Value(row: StoredRow, column: string): SqlValue
  {
    Field(row.values, column)
  }

  /** A row the schema admits: every data column present, no NOT NULL column NULL. */
  ghost predicate WellFormed(row: StoredRow)
  {
    row.values.Keys == DataColumns && forall c :: c in NotNullColumns ==> Value(row, c) != Null
  }

  /** `_row_to_dict`: the fourteen columns by name. */
  function AsDict(row: StoredRow): Record
  {
    row.values["id" := Num(row.id as real)]
  }

  /** The data columns an INSERT of the dict stores: its values, NULL for the rest. */
  function Stored(d: Record): map<string, SqlValue>
  {
    map c | c in DataColumns :: Field(d, c)
  }

  /** The id an INSERT uses: the counter for an absent or NULL `id`, an
      integral number as given, and an error for anything else. */
  function ChosenId(d: Record, nextId: int): Result<int, DbError>
  {
    var v := Field(d, "id");
    if v.Null? then Ok(nextId)
    else if v.Num? && v.x.Floor as real == v.x then Ok(v.x.Floor)
    else Err(IdMismatch)
  }

  /** The row after `UPDATE ... SET k = :k` for every key of the dict: the
      named data columns take the dict's values, the others and the id stay. */
  function Assigned(row: StoredRow, d: Record): StoredRow
  {
    StoredRow(row.id, map c | c in row.values.Keys + (d.Keys * DataColumns) :: if c in d then d[c] else row.values[c])
  }

  /** After `update_entry` with a dict that does not name `created_at`, the
      row keeps its `created_at`, takes the new `updated_at`, and every data
      column the dict does not name keeps its value. */
  lemma UpdateKeepsCreatedAt(row: StoredRow, entry: Record, now: string)
    requires "created_at" !in entry
    ensures var r := Assigned(row, entry["updated_at" := Str(now)]);
            r.id == row.id && Value(r, "created_at") == Value(row, "created_at") && Value(r, "updated_at") == Str(now)
            && forall c :: c in DataColumns && c !in entry && c != "updated_at" ==> Value(r, c) == Value(row, c)
  {
  }

  /** An assignment with defined values keeps a row well formed. */
  lemma AssignedWellFormed(row: StoredRow, d: Record)
    requires WellFormed(row)
    requires forall c :: c in NotNullColumns && c in d ==> d[c] != Null
    ensures WellFormed(Assigned(row, d)) && Assigned(row, d).id == row.id
    ensures forall c :: c in DataColumns ==> Value(Assigned(row, d), c) == if c in d then d[c] else Value(row, c)
  {
  }

  /** An INSERT of a dict with every NOT NULL column set and a fresh id keeps
      every row well formed and every id distinct and below the next id. */
  lemma AppendedRowValid(rows: seq<StoredRow>, row: StoredRow, nextId: int, next: int)
    requires forall r :: r in rows ==> WellFormed(r) && r.id < nextId
    requires forall i, j :: 0 <= i < j < |rows| ==> rows[i].id != rows[j].id
    requires exists d :: row.values == Stored(d) && forall c :: c in NotNullColumns ==> Field(d, c) != Null
    requires forall r :: r in rows ==> r.id != row.id
    requires next == if row.id + 1 > nextId then row.id + 1 else nextId
    ensures var after := rows + [row];
            (forall r :: r in after ==> WellFormed(r) && r.id < next)
            && forall i, j :: 0 <= i < j < |after| ==> after[i].id != after[j].id
  {
    var after := rows + [row];
    assert forall i :: 0 <= i < |after| - 1 ==> after[i] in rows;
  }

  /** The table after `UPDATE ... WHERE id = ?`: the row with that id takes
      the assignments, every other row stays. */
  function UpdatedRows(rows: seq<StoredRow>, entryId: int, d: Record): (r: seq<StoredRow>)
    ensures |r| == |rows| && forall i :: 0 <= i < |rows| ==> r[i].id == rows[i].id
  {
    seq(|rows|, i requires 0 <= i < |rows| => if rows[i].id == entryId then Assigned(rows[i], d) else rows[i])
  }

  /** An update that assigns no NULL to a NOT NULL column of an existing row
      keeps every row well formed and every id distinct and below the next id. */
  lemma UpdatedRowsValid(rows: seq<StoredRow>, entryId: int, d: Record, nextId: int)
    requires forall row :: row in rows ==> WellFormed(row) && row.id < nextId
    requires forall i, j :: 0 <= i < j < |rows| ==> rows[i].id != rows[j].id
    requires (exists row :: row in rows && row.id == entryId) ==> forall c :: c in NotNullColumns && c in d ==> d[c] != Null
    ensures var after := UpdatedRows(rows, entryId, d);
            (forall row :: row in after ==> WellFormed(row) && row.id < nextId)
            && forall i, j :: 0 <= i < j < |after| ==> after[i].id != after[j].id
  {
    var after := UpdatedRows(rows, entryId, d);
    forall row | row in after ensures WellFormed(row) && row.id < nextId {
      var i :| 0 <= i < |after| && after[i] == row;
      assert rows[i] in rows;
      if rows[i].id == entryId { AssignedWellFormed(rows[i], d); }
    }
  }

  // ------------------------------------------------------ keys and filters

  function NotId(id: int): StoredRow -> bool { (row: StoredRow) => row.id != id }

  function OnDate(dateStr: string): StoredRow -> bool { (row: StoredRow) => Value(row, "date") == Str(dateStr) }

  /** `ORDER BY start_time IS NULL, start_time`. */
  function DayOrder(row: StoredRow): seq<KeyPart>
  {
    [Asc(Num(if Value(row, "start_time").Null? then 1.0 else 0.0)), Asc(Value(row, "start_time"))]
  }

  /** `ORDER BY id DESC`. */
  function LastOrder(row: StoredRow): seq<KeyPart> { [Desc(Num(row.id as real))] }

  /** `ORDER BY column` on a single value. */
  function ValueOrder(v: SqlValue): seq<KeyPart> { [Asc(v)] }

  function ColumnOf(column: string): StoredRow -> SqlValue { (row: StoredRow) => Value(row, column) }

  /** `column IS NOT NULL AND column != ''`. */
  function Present(column: string): StoredRow -> bool
  {
    (row: StoredRow) => Value(row, column) != Null && Value(row, column) != Str("")
  }

  /** The columns `get_distinct_values` accepts. */
  const DistinctColumns: set<string> := {"site_name", "kst", "activity"}

  /** `substr(date, 1, 7)` of a text value: its first seven characters. */
  function MonthPrefix(v: SqlValue): Option<string>
  {
    if v.Str? then Some(if |v.s| >= 7 then v.s[..7] else v.s) else None
  }

  /** `WHERE substr(date, 1, 7) = f"{year:04d}-{month:02d}"`. */
  function InMonth(year: int, month: int): StoredRow -> bool
  {
    (row: StoredRow) => MonthPrefix(Value(row, "date")) == Some(MonthKey(year, month))
  }

  /** For a row holding a date as ISO text the month filter picks exactly the
      dates of that year and month. */
  lemma InMonthMeaning(row: StoredRow, d: CalDate, year: int, month: int)
    requires Value(row, "date") == Str(IsoDate(d))
    ensures InMonth(year, month)(row) <==> d.year == year && d.month == month
  {
    IsoDateMonthPrefix(d, year, month);
  }

  function DateKst(row: StoredRow): (SqlValue, SqlValue) { (Value(row, "date"), Value(row, "kst")) }

  function KstOf(row: StoredRow): SqlValue { Value(row, "kst") }

  function DayFraction(row: StoredRow): SqlValue { Value(row, "day_fraction") }

  function DateKstOrder(k: (SqlValue, SqlValue)): seq<KeyPart> { [Asc(k.0), Asc(k.1)] }

  function SecondOf(k: (SqlValue, SqlValue)): SqlValue { k.1 }

  /** The keys of GROUP BY result rows. */
  function KeysOf<K, V>(r: seq<(K, V)>): (ks: seq<K>)
    ensures |ks| == |r| && forall i :: 0 <= i < |r| ==> ks[i] == r[i].0
  {
    seq(|r|, i requires 0 <= i < |r| => r[i].0)
  }

  /** The group keys the rows have, as membership in the row sequence. */
  lemma GroupKeysMembers<K(!new)>(s: seq<StoredRow>, key: StoredRow -> K, ks: seq<K>)
    requires forall k :: k in ks <==> exists i :: 0 <= i < |s| && key(s[i]) == k
    ensures forall k :: k in ks <==> exists row :: row in s && key(row) == k
  {
    forall k ensures k in ks <==> exists row :: row in s && key(row) == k {
      if exists row :: row in s && key(row) == k {
        var row :| row in s && key(row) == k;
        var i :| 0 <= i < |s| && s[i] == row;
      }
    }
  }

  /** The row ordering `get_entries_for_date` ensures: rows without a start
      time come last; rows with one are ascending by it. */
  predicate StartOrdered(a: StoredRow, b: StoredRow)
  {
    var sa, sb := Value(a, "start_time"), Value(b, "start_time");
    (sa.Null? ==> sb.Null?) && (!sa.Null? && !sb.Null? ==> !ValueLess(sb, sa))
  }

  lemma DayOrderMeaning(a: StoredRow, b: StoredRow)
    requires !KeyLess(DayOrder(b), DayOrder(a))
    ensures StartOrdered(a, b)
  {
    var ka, kb := DayOrder(a), DayOrder(b);
    assert ka[1..] == [ka[1]] && kb[1..] == [kb[1]];
    assert ka[1..][1..] == [] && kb[1..][1..] == [];
  }

  /** `StartOrdered` read on the dicts `_row_to_dict` returns. */
  predicate DictStartOrdered(a: Record, b: Record)
  {
    var sa, sb := Field(a, "start_time"), Field(b, "start_time");
    (sa.Null? ==> sb.Null?) && (!sa.Null? && !sb.Null? ==> !ValueLess(sb, sa))
  }

  /** Rows in day order give dicts in day order. */
  lemma DictsOrdered(sorted: seq<StoredRow>)
    requires SortedBy(sorted, DayOrder)
    ensures var r := Select(sorted, AsDict);
            forall i, j :: 0 <= i < j < |r| ==> DictStartOrdered(r[i], r[j])
  {
    var r := Select(sorted, AsDict);
    forall i, j | 0 <= i < j < |r| ensures DictStartOrdered(r[i], r[j]) {
      DayOrderMeaning(sorted[i], sorted[j]);
      assert Field(r[i], "start_time") == Value(sorted[i], "start_time");
      assert Field(r[j], "start_time") == Value(sorted[j], "start_time");
    }
  }

  /** Sorted and free of duplicates: strictly ascending. */
  lemma ValuesAscending(r: seq<SqlValue>)
    requires SortedBy(r, ValueOrder) && NoDup(r)
    ensures forall i, j :: 0 <= i < j < |r| ==> ValueLess(r[i], r[j])
  {
    forall i, j | 0 <= i < j < |r| ensures ValueLess(r[i], r[j]) {
      assert !KeyLess(ValueOrder(r[j]), ValueOrder(r[i]));
      assert ValueOrder(r[j])[1..] == [] && ValueOrder(r[i])[1..] == [];
      ValueLessTotal(r[i], r[j]);
    }
  }

  /** The grouped rows of a GROUP BY over `s`, keyed by `key` in `order`. */
  lemma GroupByKeys<K(!new)>(s: seq<StoredRow>, key: StoredRow -> K, order: K -> seq<KeyPart>)
    ensures var r := GroupBy(s, key, GroupKeys(s, key, order), DayFraction);
            KeysOf(r) == GroupKeys(s, key, order)
  {
  }

  class LogDatabase {
    var rows: seq<StoredRow>
    var nextId: int

    /** Rows are well formed, ids are unique and below the counter. */
    ghost predicate Valid()
      reads this
    {
      1 <= nextId
      && (forall row :: row in rows ==> WellFormed(row) && row.id < nextId)
      && (forall i, j :: 0 <= i < j < |rows| ==> rows[i].id != rows[j].id)
    }

    constructor()
      ensures Valid() && rows == [] && nextId == 1
    {
      rows := [];
      nextId := 1;
    }

    /** `add_entry`: sets both timestamps of the caller's dict to `now`, then
        inserts it; the dict's keys name the columns, missing columns are
        NULL.  Returns the new row's id (`lastrowid`) and the dict as changed. */
    method AddEntry(entry: Record, now: string) returns (r: Result<int, DbError>, stamped: Record)
      requires Valid()
      modifies this
      ensures Valid()
      ensures stamped == entry["created_at" := Str(now)]["updated_at" := Str(now)]
      ensures r.Err? ==> rows == old(rows) && nextId == old(nextId)
      ensures r == Err(NoSuchColumn) <==> exists k :: k in entry && k !in Columns
      ensures r.Ok? <==>
                stamped.Keys <= Columns && ChosenId(stamped, old(nextId)).Ok?
                && (forall c :: c in NotNullColumns ==> Field(stamped, c) != Null)
                && (forall row :: row in old(rows) ==> row.id != ChosenId(stamped, old(nextId)).value)
      ensures r.Ok? ==> r.value == ChosenId(stamped, old(nextId)).value
                        && rows == old(rows) + [StoredRow(r.value, Stored(stamped))]
                        && (Field(entry, "id").Null? ==> r.value == old(nextId))
    {
      stamped := entry["created_at" := Str(now)]["updated_at" := Str(now)];
      if !(stamped.Keys <= Columns) {
        return Err(NoSuchColumn), stamped;
      }
      var chosen := ChosenId(stamped, nextId);
      if chosen.Err? {
        return Err(chosen.error), stamped;
      }
      if exists c :: c in NotNullColumns && Field(stamped, c) == Null {
        return Err(NotNullViolated), stamped;
      }
      var id := chosen.value;
      if exists row :: row in rows && row.id == id {
        return Err(IdTaken), stamped;
      }
      var row := StoredRow(id, Stored(stamped));
      var next := if id + 1 > nextId then id + 1 else nextId;
      AppendedRowValid(rows, row, nextId, next);
      rows := rows + [row];
      nextId := next;
      r := Ok(id);
    }

    /** `update_entry`: sets `updated_at` of the caller's dict to `now` and
        assigns every key it holds to the row with that id (the `id` key, if
        present, is first overwritten by `entry_id`).  Other rows and the
        columns the dict does not name stay. */
    method UpdateEntry(entryId: int, entry: Record, now: string) returns (r: Result<(), DbError>, sent: Record)
      requires Valid()
      modifies this
      ensures Valid() && nextId == old(nextId)
      ensures sent == entry["updated_at" := Str(now)]["id" := Num(entryId as real)]
      ensures r.Err? ==> rows == old(rows)
      ensures r == Err(NoSuchColumn) <==> exists k :: k in entry && k !in Columns
      ensures r.Ok? ==> |rows| == |old(rows)|
                        && forall i :: 0 <= i < |rows| ==>
                             rows[i] == if old(rows)[i].id == entryId then Assigned(old(rows)[i], sent) else old(rows)[i]
      ensures r.Err? && r != Err(NoSuchColumn) ==>
                (exists row :: row in old(rows) && row.id == entryId)
                && exists c :: c in NotNullColumns && c in sent && sent[c] == Null
    {
      var assignments := entry["updated_at" := Str(now)];
      sent := assignments["id" := Num(entryId as real)];
      if !(assignments.Keys <= Columns) {
        return Err(NoSuchColumn), sent;
      }
      var target := exists row :: row in rows && row.id == entryId;
      if target && exists c :: c in NotNullColumns && c in sent && sent[c] == Null {
        return Err(NotNullViolated), sent;
      }
      UpdatedRowsValid(rows, entryId, sent, nextId);
      rows := UpdatedRows(rows, entryId, sent);
      r := Ok(());
    }

    /** `delete_entry`: removes the row with that id; an unknown id is no error. */
    method DeleteEntry(entryId: int)
      requires Valid()
      modifies this
      ensures Valid() && nextId == old(nextId)
      ensures rows == Where(old(rows), NotId(entryId))
      ensures forall row :: row in rows <==> row in old(rows) && row.id != entryId
    {
      var before := rows;
      rows := Where(rows, NotId(entryId));
      assert forall i, j :: 0 <= i < j < |rows| ==> rows[i].id != rows[j].id by {
        WherePairwise(before, NotId(entryId), DifferentIds);
      }
    }

    /** `get_entries_for_date`: the rows with exactly that date text, rows
        with a start time first and ascending by it, rows without one last. */
    function EntriesForDate(dateStr: string): (r: seq<Record>)
      reads this
      ensures |r| == |Where(rows, OnDate(dateStr))|
      ensures forall d :: d in r <==> exists row :: row in rows && Value(row, "date") == Str(dateStr) && d == AsDict(row)
      ensures forall i, j :: 0 <= i < j < |r| ==> DictStartOrdered(r[i], r[j])
    {
      var selected := Where(rows, OnDate(dateStr));
      OrderBy(selected, DayOrder);
      var sorted := SortByKey(selected, DayOrder);
      DictsOrdered(sorted);
      Select(sorted, AsDict)
    }

    /** `get_last_entry`: the row with the largest id, or `None` for an empty table. */
    function LastEntry(): (r: Option<Record>)
      reads this
      ensures r.None? <==> rows == []
      ensures r.Some? ==> exists row :: row in rows && r.value == AsDict(row) && forall other :: other in rows ==> other.id <= row.id
    {
      match First(rows, LastOrder)
      case None => None
      case Some(row) =>
        assert forall other :: other in rows ==> other.id <= row.id by {
          forall other | other in rows ensures other.id <= row.id {
            KeyLessNum(other.id as real, row.id as real);
          }
        }
        Some(AsDict(row))
    }

    /** `get_distinct_values`: an error outside `site_name`, `kst` and
        `activity`; otherwise each value of that column other than NULL and
        the empty text once, strictly ascending in SQLite's order. */
    function DistinctValues(column: string): (r: Result<seq<SqlValue>, DbError>)
      reads this
      ensures r.Err? <==> column !in DistinctColumns
      ensures r.Err? ==> r.error == UnsupportedColumn
      ensures r.Ok? ==> forall v :: v in r.value <==> v != Null && v != Str("") && exists row :: row in rows && Value(row, column) == v
      ensures r.Ok? ==> forall i, j :: 0 <= i < j < |r.value| ==> ValueLess(r.value[i], r.value[j])
    {
      if column !in DistinctColumns then Err(UnsupportedColumn)
      else
        var d := Distinct(Select(Where(rows, Present(column)), ColumnOf(column)));
        OrderBy(d, ValueOrder);
        var sorted := SortByKey(d, ValueOrder);
        NoDupPermutation(d, sorted);
        ValuesAscending(sorted);
        Ok(sorted)
    }

    /** The rows of the month by the text of their date. */
    function MonthRows(year: int, month: int): (r: seq<StoredRow>)
      reads this
      ensures forall row :: row in r <==> row in rows && InMonth(year, month)(row)
    {
      Where(rows, InMonth(year, month))
    }

    /** `get_monthly_summary`: one row per (date, cost centre) of the month,
        ascending, with the SQL sum of its day fractions (NULL when none is set). */
    function MonthlySummary(year: int, month: int): (r: seq<((SqlValue, SqlValue), Option<real>)>)
      reads this
      ensures NoDup(KeysOf(r))
      ensures forall k :: k in KeysOf(r) <==> exists row :: row in MonthRows(year, month) && DateKst(row) == k
      ensures forall i, j :: 0 <= i < j < |r| ==> !KeyLess(DateKstOrder(r[j].0), DateKstOrder(r[i].0))
      ensures forall i :: 0 <= i < |r| ==> r[i].1 == SqlSum(MonthRows(year, month), DateKst, r[i].0, DayFraction)
    {
      var s := MonthRows(year, month);
      var ks := GroupKeys(s, DateKst, DateKstOrder);
      GroupByKeys(s, DateKst, DateKstOrder);
      GroupKeysMembers(s, DateKst, ks);
      GroupBy(s, DateKst, ks, DayFraction)
    }

    /** `get_monthly_totals_by_site`: one row per cost centre of the month,
        ascending, with the SQL sum of its day fractions. */
    function MonthlyTotalsBySite(year: int, month: int): (r: seq<(SqlValue, Option<real>)>)
      reads this
      ensures NoDup(KeysOf(r))
      ensures forall k :: k in KeysOf(r) <==> exists row :: row in MonthRows(year, month) && KstOf(row) == k
      ensures forall i, j :: 0 <= i < j < |r| ==> !KeyLess(ValueOrder(r[j].0), ValueOrder(r[i].0))
      ensures forall i :: 0 <= i < |r| ==> r[i].1 == SqlSum(MonthRows(year, month), KstOf, r[i].0, DayFraction)
    {
      var s := MonthRows(year, month);
      var ks := GroupKeys(s, KstOf, ValueOrder);
      GroupByKeys(s, KstOf, ValueOrder);
      GroupKeysMembers(s, KstOf, ks);
      GroupBy(s, KstOf, ks, DayFraction)
    }

    /** Reconciliation: each cost centre's monthly total, NULL read as zero, is
        the sum of the summary rows of that cost centre. */
    lemma MonthlyTotalsReconcile(year: int, month: int)
      ensures forall t :: t in MonthlyTotalsBySite(year, month) ==>
                t.1.GetOr(0.0) == RowsTotal(MonthlySummary(year, month), ProjectsTo(SecondOf, t.0))
    {
      var s := MonthRows(year, month);
      forall t | t in MonthlyTotalsBySite(year, month)
        ensures t.1.GetOr(0.0) == RowsTotal(MonthlySummary(year, month), ProjectsTo(SecondOf, t.0))
      {
        ReconcileGroupBy(s, DateKst, DateKstOrder, SecondOf, KstOf, t.0, DayFraction);
      }
    }
  }

  function DifferentIds(a: StoredRow, b: StoredRow): bool { a.id != b.id }
}
