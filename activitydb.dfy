/** The activity-log variant with time shares (db.py): the entry validator,
    the choice of the data directory, and the `entries` table with its
    queries and CSV export. */
module ActivityDb {
  import opened Wrappers
  import opened Text
  import opened Calendar
  import opened Sql
  import opened Output
  import Config

  // ------------------------------------------------------------ validation

  datatype ValidationError = InvalidActivity | InvalidTimeShare

  /** `validate_entry`: the activity must be one of the configured ones, and
      only then is the time share checked against the allowed tenths. */
  function ValidateEntry(activity: string, timeShare: real): (r: Result<(), ValidationError>)
    ensures r.Ok? <==> activity in Config.Activities && timeShare in Config.TimeShares()
    ensures activity !in Config.Activities ==> r == Err(InvalidActivity)
    ensures activity in Config.Activities && timeShare !in Config.TimeShares() ==> r == Err(InvalidTimeShare)
  {
    if activity !in Config.Activities then Err(InvalidActivity)
    else if timeShare !in Config.TimeShares() then Err(InvalidTimeShare)
    else Ok(())
  }

  function Tenths(k: int): real { k as real / 10.0 }

  /** An accepted time share is a whole number of tenths between one and ten. */
  lemma AcceptedTimeShare(activity: string, timeShare: real)
    requires ValidateEntry(activity, timeShare).Ok?
    ensures exists k :: 1 <= k <= 10 && timeShare == Tenths(k)
  {
    Config.TimeSharesTenths();
    var i :| 0 <= i < |Config.TimeShares()| && Config.TimeShares()[i] == timeShare;
    assert timeShare == Tenths(i + 1);
  }

  // -------------------------------------------------------- data directory

  /** The variables `_resolve_data_dir` consults, in order. */
  const OneDriveNames: seq<string> := ["OneDrive", "OneDriveCommercial", "OneDriveConsumer"]

  /** `os.environ.get(name)` is truthy: set and not empty. */
  predicate IsSet(env: map<string, string>, name: string)
  {
    name in env && env[name] != ""
  }

  /** The first of the names that is set, if any. */
  function FirstSet(env: map<string, string>, names: seq<string>): (r: Option<string>)
    ensures r.Some? ==> r.value in names && IsSet(env, r.value)
    ensures r.Some? ==> exists k :: 0 <= k < |names| && names[k] == r.value && forall j :: 0 <= j < k ==> !IsSet(env, names[j])
    ensures r.None? <==> forall n :: n in names ==> !IsSet(env, n)
  {
    if names == [] then None
    else if IsSet(env, names[0]) then Some(names[0])
    else
      assert forall n :: n in names ==> n == names[0] || n in names[1..];
      var r := FirstSet(env, names[1..]);
      assert r.Some? ==> exists k :: 0 <= k < |names| && names[k] == r.value && forall j :: 0 <= j < k ==> !IsSet(env, names[j]) by {
        if r.Some? {
          var k :| 0 <= k < |names[1..]| && names[1..][k] == r.value && forall j :: 0 <= j < k ==> !IsSet(env, names[1..][j]);
          assert names[k + 1] == r.value;
          assert forall j :: 0 <= j < k + 1 ==> !IsSet(env, names[j]) by {
            forall j | 0 <= j < k + 1 ensures !IsSet(env, names[j]) {
              if j > 0 { assert names[j] == names[1..][j - 1]; }
            }
          }
        }
      }
      r
  }

  /** The data directory for an environment and a home directory. */
  function DataDir(env: map<string, string>, home: Path): Path
  {
    match FirstSet(env, OneDriveNames)
    case Some(name) => Child(FromText(env[name]), Config.DataDirName)
    case None => Config.FallbackHomeDir(home)
  }

  /** The OneDrive variables win in their order; without any, the home fallback. */
  lemma DataDirChoice(env: map<string, string>, home: Path)
    ensures IsSet(env, "OneDrive") ==> DataDir(env, home) == Child(FromText(env["OneDrive"]), "TBC")
    ensures !IsSet(env, "OneDrive") && IsSet(env, "OneDriveCommercial") ==>
              DataDir(env, home) == Child(FromText(env["OneDriveCommercial"]), "TBC")
    ensures !IsSet(env, "OneDrive") && !IsSet(env, "OneDriveCommercial") && IsSet(env, "OneDriveConsumer") ==>
              DataDir(env, home) == Child(FromText(env["OneDriveConsumer"]), "TBC")
    ensures (forall n :: n in OneDriveNames ==> !IsSet(env, n)) ==> DataDir(env, home) == Child(home, "TBC")
  {
    assert OneDriveNames[1..] == ["OneDriveCommercial", "OneDriveConsumer"];
    assert OneDriveNames[1..][1..] == ["OneDriveConsumer"];
    assert OneDriveNames[1..][1..][1..] == [];
    if !IsSet(env, "OneDrive") {
      assert FirstSet(env, OneDriveNames) == FirstSet(env, OneDriveNames[1..]);
      if !IsSet(env, "OneDriveCommercial") {
        assert FirstSet(env, OneDriveNames[1..]) == FirstSet(env, OneDriveNames[1..][1..]);
      }
    }
  }

  /** `StoragePaths._resolve_data_dir`: the loop over the variable names with
      its early return. */
  method ResolveDataDir(env: map<string, string>, home: Path) returns (dir: Path)
    ensures dir == DataDir(env, home)
  {
    var i := 0;
    while i < |OneDriveNames|
      invariant 0 <= i <= |OneDriveNames|
      invariant FirstSet(env, OneDriveNames) == FirstSet(env, OneDriveNames[i..])
    {
      var name := OneDriveNames[i];
      if IsSet(env, name) {
        return Child(FromText(env[name]), Config.DataDirName);
      }
      assert OneDriveNames[i..][1..] == OneDriveNames[i + 1..];
      i := i + 1;
    }
    return Config.FallbackHomeDir(home);
  }

  // ------------------------------------------------------------------ rows

  /** A row of `entries`.  The date is stored as its ISO text, `is_correction`
      as 0 or 1. */
  datatype ActivityRow = ActivityRow(
    id: int,
    date: CalDate,
    employee: string,
    site: string,
    activity: string,
    result: string,
    timeShare: real,
    timestamp: Timestamp,
    isCorrection: int,
    correctsId: Option<int>,
    note: string)

  function IdBefore(a: ActivityRow, b: ActivityRow): bool { a.id < b.id }

  /** `ORDER BY timestamp DESC`. */
  function NewestFirst(row: ActivityRow): seq<KeyPart> { [Desc(Num(row.timestamp as real))] }

  /** `strftime('%m', date) = f"{month:02d}" AND strftime('%Y', date) = str(year)`. */
  function InPeriod(month: int, year: int): ActivityRow -> bool
  {
    (row: ActivityRow) => FixedDigits(row.date.month, 2) == PadInt(month, 2) && FixedDigits(row.date.year, 4) == IntToDecimal(year)
  }

  /** The period filter picks the rows of that month and year; a year before
      1000 matches nothing, as `str(year)` is not zero padded. */
  lemma InPeriodMeaning(row: ActivityRow, month: int, year: int)
    ensures InPeriod(month, year)(row) <==> row.date.month == month && row.date.year == year && year >= 1000
  {
    StrftimeMonthYearMatch(row.date, year, month);
  }

  /** `if month and year`: both given and neither zero. */
  predicate Truthy(x: Option<int>) { x.Some? && x.value != 0 }

  function SiteOf(row: ActivityRow): string { row.site }

  function EmployeeOf(row: ActivityRow): string { row.employee }

  function ShareOf(row: ActivityRow): real { row.timeShare }

  function TextOrder(s: string): seq<KeyPart> { [Asc(Str(s))] }

  /** `ORDER BY total_time DESC`. */
  function TotalDesc(p: (string, real)): seq<KeyPart> { [Desc(Num(p.1))] }

  /** Rows in timestamp order: newest first. */
  lemma NewestFirstMeaning(s: seq<ActivityRow>)
    requires SortedBy(s, NewestFirst)
    ensures forall i, j :: 0 <= i < j < |s| ==> s[j].timestamp <= s[i].timestamp
  {
    forall i, j | 0 <= i < j < |s| ensures s[j].timestamp <= s[i].timestamp {
      KeyLessNum(s[j].timestamp as real, s[i].timestamp as real);
    }
  }

  /** The first n rows of a newest-first order are the newest: a row left out is
      no newer than any row kept. */
  lemma LimitKeepsNewest(s: seq<ActivityRow>, n: int)
    requires SortedBy(s, NewestFirst)
    ensures var r := Limit(s, n);
            forall x, y :: x in r && y in s[|r|..] ==> y.timestamp <= x.timestamp
  {
    NewestFirstMeaning(s);
    var r := Limit(s, n);
    forall x, y | x in r && y in s[|r|..] ensures y.timestamp <= x.timestamp {
      var i :| 0 <= i < |r| && r[i] == x;
      var j :| 0 <= j < |s[|r|..]| && s[|r|..][j] == y;
      assert s[i] == x && s[|r| + j] == y;
    }
  }

  /** The rows `LIMIT n` keeps of a newest-first permutation of s: a row of s
      with a copy left out is no newer than any row kept. */
  lemma LimitNewest(s: seq<ActivityRow>, sorted: seq<ActivityRow>, n: int)
    requires SortedBy(sorted, NewestFirst) && multiset(sorted) == multiset(s)
    ensures var r := Limit(sorted, n);
            multiset(r) <= multiset(s)
            && forall x, y :: x in r && y in s && multiset(r)[y] < multiset(s)[y] ==> y.timestamp <= x.timestamp
  {
    var r := Limit(sorted, n);
    LimitKeepsNewest(sorted, n);
    assert sorted == r + sorted[|r|..];
    assert multiset(sorted) == multiset(r) + multiset(sorted[|r|..]);
    forall x, y | x in r && y in s && multiset(r)[y] < multiset(s)[y] ensures y.timestamp <= x.timestamp {
      assert y in multiset(sorted[|r|..]);
    }
  }

  /** The grouped employees are the employees with rows. */
  lemma EmployeeKeys(s: seq<ActivityRow>, ks: seq<string>)
    requires forall k :: k in ks <==> exists i :: 0 <= i < |s| && EmployeeOf(s[i]) == k
    ensures forall e :: e in ks <==> exists row :: row in s && row.employee == e
  {
    forall e ensures e in ks <==> exists row :: row in s && row.employee == e {
      if exists row :: row in s && row.employee == e {
        var row :| row in s && row.employee == e;
        var i :| 0 <= i < |s| && s[i] == row;
      }
      if e in ks {
        var i :| 0 <= i < |s| && EmployeeOf(s[i]) == e;
        assert s[i] in s;
      }
    }
  }

  /** The statistics of the rows s grouped under the employees ks. */
  lemma StatisticsOf(s: seq<ActivityRow>, ks: seq<string>)
    requires NoDup(ks)
    requires forall k :: k in ks <==> exists i :: 0 <= i < |s| && EmployeeOf(s[i]) == k
    ensures var r := SortByKey(EmployeeTotals(s, ks), TotalDesc);
            (forall i, j :: 0 <= i < j < |r| ==> r[i].0 != r[j].0)
            && (forall p :: p in r <==> (exists row :: row in s && row.employee == p.0) && p.1 == GroupSum(s, EmployeeOf, p.0, ShareOf))
            && (forall i, j :: 0 <= i < j < |r| ==> r[j].1 <= r[i].1)
  {
    var totals := EmployeeTotals(s, ks);
    OrderBy(totals, TotalDesc);
    var r := SortByKey(totals, TotalDesc);
    StatisticsPermutation(s, ks, r);
    TotalsDescending(r);
    EmployeeKeys(s, ks);
  }

  /** The statistics of the period's rows: the employees with rows in the
      period, each once with the sum of their shares, the largest first. */
  lemma StatisticsInPeriod(rows: seq<ActivityRow>, month: int, year: int)
    ensures var s := Where(rows, InPeriod(month, year));
            var r := SortByKey(EmployeeTotals(s, GroupKeys(s, EmployeeOf, TextOrder)), TotalDesc);
            (forall i, j :: 0 <= i < j < |r| ==> r[i].0 != r[j].0)
            && (forall p :: p in r <==>
                  (exists row :: row in rows && InPeriod(month, year)(row) && row.employee == p.0)
                  && p.1 == GroupSum(s, EmployeeOf, p.0, ShareOf))
            && (forall i, j :: 0 <= i < j < |r| ==> r[j].1 <= r[i].1)
  {
    var s := Where(rows, InPeriod(month, year));
    var ks := GroupKeys(s, EmployeeOf, TextOrder);
    StatisticsOf(s, ks);
    forall row | row in rows && InPeriod(month, year)(row) ensures row in s { }
  }

  /** Sorted by total, the largest first. */
  lemma TotalsDescending(r: seq<(string, real)>)
    requires SortedBy(r, TotalDesc)
    ensures forall i, j :: 0 <= i < j < |r| ==> r[j].1 <= r[i].1
  {
    forall i, j | 0 <= i < j < |r| ensures r[j].1 <= r[i].1 {
      KeyLessNum(r[j].1, r[i].1);
    }
  }

  /** Sorted distinct texts strictly increase. */
  lemma TextsAscending(r: seq<string>)
    requires SortedBy(r, TextOrder) && NoDup(r)
    ensures forall i, j :: 0 <= i < j < |r| ==> LexLess(r[i], r[j])
  {
    forall i, j | 0 <= i < j < |r| ensures LexLess(r[i], r[j]) {
      assert !KeyLess(TextOrder(r[j]), TextOrder(r[i]));
      assert TextOrder(r[j])[1..] == [] && TextOrder(r[i])[1..] == [];
      LexLessTotal(r[i], r[j]);
    }
  }

  /** The per-employee totals of the rows, one pair per grouped employee. */
  function EmployeeTotals(s: seq<ActivityRow>, ks: seq<string>): (r: seq<(string, real)>)
    ensures |r| == |ks| && forall i :: 0 <= i < |ks| ==> r[i] == (ks[i], GroupSum(s, EmployeeOf, ks[i], ShareOf))
  {
    seq(|ks|, i requires 0 <= i < |ks| => (ks[i], GroupSum(s, EmployeeOf, ks[i], ShareOf)))
  }

  /** Re-ordering the per-employee totals keeps each employee once with its total. */
  lemma StatisticsPermutation(s: seq<ActivityRow>, ks: seq<string>, r: seq<(string, real)>)
    requires NoDup(ks) && multiset(r) == multiset(EmployeeTotals(s, ks))
    ensures forall i, j :: 0 <= i < j < |r| ==> r[i].0 != r[j].0
    ensures forall p :: p in r <==> p.0 in ks && p.1 == GroupSum(s, EmployeeOf, p.0, ShareOf)
  {
    var t := EmployeeTotals(s, ks);
    assert NoDup(t) by {
      forall i, j | 0 <= i < j < |t| ensures t[i] != t[j] { assert t[i].0 == ks[i] && t[j].0 == ks[j]; }
    }
    NoDupPermutation(t, r);
    forall p ensures p in r <==> p.0 in ks && p.1 == GroupSum(s, EmployeeOf, p.0, ShareOf) {
      assert p in r <==> p in multiset(r);
      assert p in t <==> p in multiset(t);
      if p.0 in ks && p.1 == GroupSum(s, EmployeeOf, p.0, ShareOf) {
        var i :| 0 <= i < |ks| && ks[i] == p.0;
        assert t[i] == p;
      }
    }
    forall i, j | 0 <= i < j < |r| ensures r[i].0 != r[j].0 {
      assert r[i] in r && r[j] in r;
      assert r[i] in multiset(t) && r[j] in multiset(t);
    }
  }

  // ------------------------------------------------------------ the export

  const ExportHeader: seq<Cell> :=
    TextRow(["id", "date", "employee", "site", "activity", "result", "time_share", "timestamp", "is_correction", "corrects_id", "note"])

  /** `{key: row[key] for key in fieldnames}`: the eleven columns in header order. */
  function ExportRow(row: ActivityRow): (r: seq<Cell>)
    ensures |r| == |ExportHeader| == 11
    ensures r[0] == Int(row.id) && r[1] == Text(IsoDate(row.date)) && r[6] == Real(row.timeShare)
  {
    [Int(row.id), Text(IsoDate(row.date)), Text(row.employee), Text(row.site), Text(row.activity), Text(row.result),
     Real(row.timeShare), Instant(row.timestamp), Int(row.isCorrection),
     (match row.correctsId case Some(c) => Int(c) case None => Empty), Text(row.note)]
  }

  function ExportRows(s: seq<ActivityRow>): (r: seq<seq<Cell>>)
    ensures |r| == |s| && forall i :: 0 <= i < |s| ==> r[i] == ExportRow(s[i])
  {
    seq(|s|, i requires 0 <= i < |s| => ExportRow(s[i]))
  }

  /** The rows `writer.writerow` emits, one by one. */
  method WriteExport(fetched: seq<ActivityRow>) returns (lines: seq<seq<Cell>>)
    ensures lines == [ExportHeader] + ExportRows(fetched)
  {
    lines := [ExportHeader];
    var i := 0;
    while i < |fetched|
      invariant 0 <= i <= |fetched|
      invariant lines == [ExportHeader] + ExportRows(fetched[..i])
    {
      assert ExportRows(fetched[..i + 1]) == ExportRows(fetched[..i]) + [ExportRow(fetched[i])];
      lines := lines + [ExportRow(fetched[i])];
      i := i + 1;
    }
    assert fetched[..i] == fetched;
  }

  class Database {
    var rows: seq<ActivityRow>
    var nextId: int

    /** Ids increase along the table and stay below the counter; corrections are 0 or 1. */
    ghost predicate Valid()
      reads this
    {
      1 <= nextId
      && (forall row :: row in rows ==> row.id < nextId && 0 <= row.isCorrection <= 1)
      && Pairwise(rows, IdBefore)
    }

    constructor()
      ensures Valid() && rows == [] && nextId == 1
    {
      rows := [];
      nextId := 1;
    }

    /** `add_entry`: stores the entry with the current time and the
        correction flag as 0 or 1 under a fresh id, and returns that id. */
    method AddEntry(entryDate: CalDate, employee: string, site: string, activity: string, resultText: string,
                    timeShare: real, isCorrection: bool, correctsId: Option<int>, note: string, now: Timestamp)
      returns (id: int)
      requires Valid()
      modifies this
      ensures Valid()
      ensures id == old(nextId) && nextId == id + 1
      ensures forall row :: row in old(rows) ==> row.id < id
      ensures rows == old(rows) + [ActivityRow(id, entryDate, employee, site, activity, resultText, timeShare, now,
                                               if isCorrection then 1 else 0, correctsId, note)]
    {
      id := nextId;
      rows := rows + [ActivityRow(id, entryDate, employee, site, activity, resultText, timeShare, now,
                                  if isCorrection then 1 else 0, correctsId, note)];
      nextId := nextId + 1;
      assert forall i :: 0 <= i < |rows| - 1 ==> rows[i] in old(rows);
    }

    /** The rows `fetch_recent_entries` filters: the period only when both
        month and year are truthy. */
    function Selected(month: Option<int>, year: Option<int>): (r: seq<ActivityRow>)
      reads this
      ensures !(Truthy(month) && Truthy(year)) ==> r == rows
      ensures Truthy(month) && Truthy(year) ==> forall row :: row in r <==> row in rows && InPeriod(month.value, year.value)(row)
      ensures multiset(r) <= multiset(rows)
    {
      if Truthy(month) && Truthy(year) then Where(rows, InPeriod(month.value, year.value)) else rows
    }

    /** `fetch_recent_entries`: newest first, at most `limit` rows (all for a
        negative limit), and none left out that is newer than one kept. */
    function FetchRecentEntries(limit: int, month: Option<int>, year: Option<int>): (r: seq<ActivityRow>)
      reads this
      ensures limit >= 0 ==> |r| == if limit < |Selected(month, year)| then limit else |Selected(month, year)|
      ensures limit < 0 ==> |r| == |Selected(month, year)|
      ensures multiset(r) <= multiset(Selected(month, year))
      ensures forall i, j :: 0 <= i < j < |r| ==> r[j].timestamp <= r[i].timestamp
      ensures forall x, y :: x in r && y in Selected(month, year) && multiset(r)[y] < multiset(Selected(month, year))[y] ==>
                y.timestamp <= x.timestamp
    {
      var s := Selected(month, year);
      OrderBy(s, NewestFirst);
      var sorted := SortByKey(s, NewestFirst);
      NewestFirstMeaning(sorted);
      LimitNewest(s, sorted, limit);
      Limit(sorted, limit)
    }

    /** `distinct_sites`: each site once, ascending; the empty text is kept. */
    function DistinctSites(): (r: seq<string>)
      reads this
      ensures forall site :: site in r <==> exists row :: row in rows && row.site == site
      ensures forall i, j :: 0 <= i < j < |r| ==> LexLess(r[i], r[j])
    {
      var d := Distinct(Select(rows, SiteOf));
      OrderBy(d, TextOrder);
      var sorted := SortByKey(d, TextOrder);
      NoDupPermutation(d, sorted);
      TextsAscending(sorted);
      sorted
    }

    /** `time_share_statistics`: for every employee with rows in the month,
        one pair with the sum of their time shares, the largest total first. */
    function TimeShareStatistics(month: int, year: int): (r: seq<(string, real)>)
      reads this
      ensures forall i, j :: 0 <= i < j < |r| ==> r[i].0 != r[j].0
      ensures forall p :: p in r <==>
                (exists row :: row in rows && InPeriod(month, year)(row) && row.employee == p.0)
                && p.1 == GroupSum(Where(rows, InPeriod(month, year)), EmployeeOf, p.0, ShareOf)
      ensures forall i, j :: 0 <= i < j < |r| ==> r[j].1 <= r[i].1
    {
      StatisticsInPeriod(rows, month, year);
      var s := Where(rows, InPeriod(month, year));
      SortByKey(EmployeeTotals(s, GroupKeys(s, EmployeeOf, TextOrder)), TotalDesc)
    }

    /** `export_csv`: the path given, else the configured export path; a
        header and one eleven-column row per entry `fetch_recent_entries`
        returns with a limit of 10000. */
    method ExportCsv(path: Option<Path>, exportPath: Path) returns (written: Path, lines: seq<seq<Cell>>)
      ensures written == if path.Some? then path.value else exportPath
      ensures lines == [ExportHeader] + ExportRows(FetchRecentEntries(10000, None, None))
      ensures 1 <= |lines| <= 10001
    {
      written := if path.Some? then path.value else exportPath;
      var fetched := FetchRecentEntries(10000, None, None);
      lines := WriteExport(fetched);
    }
  }
}
