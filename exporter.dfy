/** The CSV export of the `vermessung_log` variant
    (vermessung_log/exporter.py).  The input is the month's rows as
    `DatabaseManager.EntriesForMonth` returns them.  `export_csv` sums the day
    fractions into a daily bucket per (date, site, cost centre) and a monthly
    bucket per (site, cost centre), then writes a detail, a daily and a
    monthly section. */
module Exporter {
  import opened Wrappers
  import opened Text
  import opened PyNum
  import opened Sql
  import opened Output
  import opened Manager

  type DayBucket = (string, string, string)
  type SiteBucket = (string, string)

  /** `float(entry.get("day_fraction") or 0)`: a missing fraction counts as zero. */
  function Fraction(e: EntryRow): real { e.data.dayFraction.GetOr(0.0) }

  function DayOf(e: EntryRow): DayBucket { (e.data.date, e.data.siteName, e.data.kst) }

  function SiteOf(e: EntryRow): SiteBucket { (e.data.siteName, e.data.kst) }

  function DayToSite(k: DayBucket): SiteBucket { (k.1, k.2) }

  /** Python's order on tuples of strings, as a sort key. */
  function DayTuple(k: DayBucket): seq<KeyPart> { [Asc(Str(k.0)), Asc(Str(k.1)), Asc(Str(k.2))] }

  function SiteTuple(k: SiteBucket): seq<KeyPart> { [Asc(Str(k.0)), Asc(Str(k.1))] }

  /** Python's `<` on a pair and on a triple of strings. */
  predicate SiteLess(a: SiteBucket, b: SiteBucket)
  {
    LexLess(a.0, b.0) || (a.0 == b.0 && LexLess(a.1, b.1))
  }

  predicate DayLess(a: DayBucket, b: DayBucket)
  {
    LexLess(a.0, b.0) || (a.0 == b.0 && SiteLess((a.1, a.2), (b.1, b.2)))
  }

  // -------------------------------------------------------------- buckets

  /** The buckets in key order with their totals: `sorted(totals.items())`. */
  function Totals<K(==)>(s: seq<EntryRow>, key: EntryRow -> K, ks: seq<K>): (r: seq<(K, real)>)
    ensures |r| == |ks| && forall i :: 0 <= i < |ks| ==> r[i] == (ks[i], GroupSum(s, key, ks[i], Fraction))
  {
    seq(|ks|, i requires 0 <= i < |ks| => (ks[i], GroupSum(s, key, ks[i], Fraction)))
  }

  function DailyTotals(entries: seq<EntryRow>): seq<(DayBucket, real)>
  {
    Totals(entries, DayOf, GroupKeys(entries, DayOf, DayTuple))
  }

  function MonthlyTotals(entries: seq<EntryRow>): seq<(SiteBucket, real)>
  {
    Totals(entries, SiteOf, GroupKeys(entries, SiteOf, SiteTuple))
  }

  /** The sum of the bucket totals whose key the selector picks. */
  function PairsTotal<K>(rows: seq<(K, real)>, sel: K -> bool): real
  {
    if rows == [] then 0.0
    else PairsTotal(rows[..|rows| - 1], sel) + (if sel(rows[|rows| - 1].0) then rows[|rows| - 1].1 else 0.0)
  }

  lemma {:induction false} PairsTotalKeysSum<K>(s: seq<EntryRow>, key: EntryRow -> K, ks: seq<K>, sel: K -> bool)
    ensures PairsTotal(Totals(s, key, ks), sel) == KeysSum(ks, s, key, sel, Fraction)
  {
    if ks != [] {
      var n := |ks| - 1;
      assert Totals(s, key, ks)[..n] == Totals(s, key, ks[..n]);
      PairsTotalKeysSum(s, key, ks[..n], sel);
    }
  }

  /** Reconciliation: each monthly total is the sum of the daily totals of
      the same site and cost centre. */
  lemma MonthlyReconcilesDaily(entries: seq<EntryRow>)
    ensures forall t :: t in MonthlyTotals(entries) ==> t.1 == PairsTotal(DailyTotals(entries), ProjectsTo(DayToSite, t.0))
  {
    var ks := GroupKeys(entries, DayOf, DayTuple);
    forall t | t in MonthlyTotals(entries) ensures t.1 == PairsTotal(DailyTotals(entries), ProjectsTo(DayToSite, t.0)) {
      Reconcile(ks, entries, DayOf, DayToSite, SiteOf, t.0, Fraction);
      PairsTotalKeysSum(entries, DayOf, ks, ProjectsTo(DayToSite, t.0));
    }
  }

  /** Grand totals: the daily totals and the monthly totals both add up to
      the sum of all the entries' fractions. */
  lemma GrandTotals(entries: seq<EntryRow>)
    ensures PairsTotal(DailyTotals(entries), AllKeys()) == SumOf(entries, Fraction)
    ensures PairsTotal(MonthlyTotals(entries), AllKeys()) == SumOf(entries, Fraction)
  {
    var dk, mk := GroupKeys(entries, DayOf, DayTuple), GroupKeys(entries, SiteOf, SiteTuple);
    GrandTotal(dk, entries, DayOf, Fraction);
    PairsTotalKeysSum(entries, DayOf, dk, AllKeys());
    GrandTotal(mk, entries, SiteOf, Fraction);
    PairsTotalKeysSum(entries, SiteOf, mk, AllKeys());
  }

  /** Sorted distinct keys are strictly increasing in Python's tuple order. */
  lemma DailyKeysIncrease(entries: seq<EntryRow>)
    ensures var d := DailyTotals(entries);
            forall i, j :: 0 <= i < j < |d| ==> DayLess(d[i].0, d[j].0)
  {
    var ks := GroupKeys(entries, DayOf, DayTuple);
    forall i, j | 0 <= i < j < |ks| ensures DayLess(ks[i], ks[j]) {
      assert !KeyLess(DayTuple(ks[j]), DayTuple(ks[i]));
      KeyLessTotal(DayTuple(ks[i]), DayTuple(ks[j]));
      DayTupleMeaning(ks[i], ks[j]);
    }
  }

  lemma MonthlyKeysIncrease(entries: seq<EntryRow>)
    ensures var m := MonthlyTotals(entries);
            forall i, j :: 0 <= i < j < |m| ==> SiteLess(m[i].0, m[j].0)
  {
    var ks := GroupKeys(entries, SiteOf, SiteTuple);
    forall i, j | 0 <= i < j < |ks| ensures SiteLess(ks[i], ks[j]) {
      assert !KeyLess(SiteTuple(ks[j]), SiteTuple(ks[i]));
      KeyLessTotal(SiteTuple(ks[i]), SiteTuple(ks[j]));
      SiteTupleMeaning(ks[i], ks[j]);
    }
  }

  lemma SiteTupleMeaning(a: SiteBucket, b: SiteBucket)
    requires KeyLess(SiteTuple(a), SiteTuple(b))
    ensures SiteLess(a, b)
  {
    var ka, kb := SiteTuple(a), SiteTuple(b);
    assert ka[1..] == [Asc(Str(a.1))] && kb[1..] == [Asc(Str(b.1))];
    assert ka[1..][1..] == [] && kb[1..][1..] == [];
    assert PartLess(ka[0], kb[0]) || (ka[0] == kb[0] && KeyLess(ka[1..], kb[1..]));
  }

  lemma DayTupleMeaning(a: DayBucket, b: DayBucket)
    requires KeyLess(DayTuple(a), DayTuple(b))
    ensures DayLess(a, b)
  {
    var ka, kb := DayTuple(a), DayTuple(b);
    assert ka[1..] == SiteTuple((a.1, a.2)) && kb[1..] == SiteTuple((b.1, b.2));
    assert PartLess(ka[0], kb[0]) || (ka[0] == kb[0] && KeyLess(ka[1..], kb[1..]));
    if a.0 == b.0 && !LexLess(a.0, b.0) {
      SiteTupleMeaning((a.1, a.2), (b.1, b.2));
    }
  }

  /** Every bucket is the key of some entry, and every entry's key is a bucket. */
  lemma BucketsAreKeys<K(!new)>(s: seq<EntryRow>, key: EntryRow -> K, order: K -> seq<KeyPart>)
    ensures var t := Totals(s, key, GroupKeys(s, key, order));
            (forall b :: b in t ==> exists i :: 0 <= i < |s| && key(s[i]) == b.0)
            && (forall i :: 0 <= i < |s| ==> exists b :: b in t && b.0 == key(s[i]))
  {
    var ks := GroupKeys(s, key, order);
    var t := Totals(s, key, ks);
    forall b | b in t ensures exists i :: 0 <= i < |s| && key(s[i]) == b.0 {
      var j :| 0 <= j < |t| && t[j] == b;
      assert ks[j] in ks;
    }
    forall i | 0 <= i < |s| ensures exists b :: b in t && b.0 == key(s[i]) {
      var j :| 0 <= j < |ks| && ks[j] == key(s[i]);
      assert t[j] in t;
    }
  }

  // ------------------------------------------------------------------ rows

  /** A fraction cell: the number, or the empty field for `None`. */
  function FractionCell(x: Option<real>): Cell
  {
    match x
    case None => Empty
    case Some(v) => Real(v)
  }

  /** The seven cells of a detail row. */
  function DetailRow(e: EntryRow): (r: seq<Cell>)
    ensures |r| == 7
  {
    [Text(e.data.date), Text(e.data.siteName), Text(e.data.kst), Text(e.data.employee), Text(e.data.activity),
     FractionCell(e.data.dayFraction), Text(e.data.result)]
  }

  function DailyRow(t: (DayBucket, real)): seq<Cell>
  {
    TextRow([t.0.0, t.0.1, t.0.2, FormatFixed2(t.1)])
  }

  function MonthlyRow(t: (SiteBucket, real)): seq<Cell>
  {
    TextRow([t.0.0, t.0.1, FormatFixed2(t.1)])
  }

  const DetailHeader: seq<Cell> := TextRow(["Datum", "Baustelle", "Kst", "Mitarbeiter", "Tätigkeit", "Tagesanteil", "Ergebnis"])
  const DailyTitle: seq<Cell> := TextRow(["Summe pro Baustelle und Tag", "", "", "", "", ""])
  const DailyHeader: seq<Cell> := TextRow(["Datum", "Baustelle", "Kst", "Summe Tagesanteile"])
  const MonthlyTitle: seq<Cell> := TextRow(["Monatssummen pro Baustelle", "", "", "", "", ""])
  const MonthlyHeader: seq<Cell> := TextRow(["Baustelle", "Kst", "Summe Tagesanteile"])

  function DetailRows(entries: seq<EntryRow>): (r: seq<seq<Cell>>)
    ensures |r| == |entries| && forall i :: 0 <= i < |entries| ==> r[i] == DetailRow(entries[i])
  {
    seq(|entries|, i requires 0 <= i < |entries| => DetailRow(entries[i]))
  }

  function DailyRows(d: seq<(DayBucket, real)>): (r: seq<seq<Cell>>)
    ensures |r| == |d| && forall i :: 0 <= i < |d| ==> r[i] == DailyRow(d[i])
  {
    seq(|d|, i requires 0 <= i < |d| => DailyRow(d[i]))
  }

  function MonthlyRows(m: seq<(SiteBucket, real)>): (r: seq<seq<Cell>>)
    ensures |r| == |m| && forall i :: 0 <= i < |m| ==> r[i] == MonthlyRow(m[i])
  {
    seq(|m|, i requires 0 <= i < |m| => MonthlyRow(m[i]))
  }

  /** The rows `export_csv` writes, section by section. */
  function Report(entries: seq<EntryRow>): seq<seq<Cell>>
  {
    Sections(entries, DailyTotals(entries), MonthlyTotals(entries))
  }

  /** The three sections after their header rows: the detail rows, the
      daily rows and the monthly rows. */
  function Sections(entries: seq<EntryRow>, d: seq<(DayBucket, real)>, m: seq<(SiteBucket, real)>): seq<seq<Cell>>
  {
    [DetailHeader] + DetailRows(entries) + [[], DailyTitle, DailyHeader] + DailyRows(d)
    + [[], MonthlyTitle, MonthlyHeader] + MonthlyRows(m)
  }

  /** The section layout: the header, one seven-column row per entry in input
      order, a blank row, the daily title and header, one row per daily
      bucket, a blank row, the monthly title and header, one row per monthly
      bucket.  `Report` lays out the buckets `DailyTotals` and `MonthlyTotals`. */
  lemma ReportLayout(entries: seq<EntryRow>, d: seq<(DayBucket, real)>, m: seq<(SiteBucket, real)>)
    ensures var r, n := Sections(entries, d, m), |entries|;
            |r| == n + |d| + |m| + 7
            && r[0] == DetailHeader
            && (forall i :: 0 <= i < n ==> |r[1 + i]| == 7 && r[1 + i] == DetailRow(entries[i]))
            && r[1 + n] == [] && r[2 + n] == DailyTitle && r[3 + n] == DailyHeader
            && (forall j :: 0 <= j < |d| ==> r[4 + n + j] == DailyRow(d[j]))
            && r[4 + n + |d|] == [] && r[5 + n + |d|] == MonthlyTitle && r[6 + n + |d|] == MonthlyHeader
            && (forall j :: 0 <= j < |m| ==> r[7 + n + |d| + j] == MonthlyRow(m[j]))
  {
    var p1 := [DetailHeader] + DetailRows(entries);
    var p2 := p1 + [[], DailyTitle, DailyHeader];
    var p3 := p2 + DailyRows(d);
    var p4 := p3 + [[], MonthlyTitle, MonthlyHeader];
    assert Sections(entries, d, m) == p4 + MonthlyRows(m);
    HeadRows(p1, p2, p3, p4, entries, d, m);
    DetailPart(p1, p2, p3, p4, entries, d, m);
    DailyPart(p2, p3, p4, entries, d, m);
    MonthlyPart(p4, entries, d, m);
  }

  lemma HeadRows(p1: seq<seq<Cell>>, p2: seq<seq<Cell>>, p3: seq<seq<Cell>>, p4: seq<seq<Cell>>,
                 entries: seq<EntryRow>, d: seq<(DayBucket, real)>, m: seq<(SiteBucket, real)>)
    requires p1 == [DetailHeader] + DetailRows(entries) && p2 == p1 + [[], DailyTitle, DailyHeader]
    requires p3 == p2 + DailyRows(d) && p4 == p3 + [[], MonthlyTitle, MonthlyHeader]
    ensures var r, n := p4 + MonthlyRows(m), |entries|;
            |r| == n + |d| + |m| + 7 && r[0] == DetailHeader
            && r[1 + n] == [] && r[2 + n] == DailyTitle && r[3 + n] == DailyHeader
            && r[4 + n + |d|] == [] && r[5 + n + |d|] == MonthlyTitle && r[6 + n + |d|] == MonthlyHeader
  {
    var r, n := p4 + MonthlyRows(m), |entries|;
    assert r[0] == p1[0];
    assert r[1 + n] == p2[1 + n] && r[2 + n] == p2[2 + n] && r[3 + n] == p2[3 + n];
  }

  lemma DetailPart(p1: seq<seq<Cell>>, p2: seq<seq<Cell>>, p3: seq<seq<Cell>>, p4: seq<seq<Cell>>,
                   entries: seq<EntryRow>, d: seq<(DayBucket, real)>, m: seq<(SiteBucket, real)>)
    requires p1 == [DetailHeader] + DetailRows(entries) && p2 == p1 + [[], DailyTitle, DailyHeader]
    requires p3 == p2 + DailyRows(d) && p4 == p3 + [[], MonthlyTitle, MonthlyHeader]
    ensures var r := p4 + MonthlyRows(m);
            forall i :: 0 <= i < |entries| ==> r[1 + i] == DetailRow(entries[i])
  {
    var r := p4 + MonthlyRows(m);
    forall i | 0 <= i < |entries| ensures r[1 + i] == DetailRow(entries[i]) {
      assert r[1 + i] == p4[1 + i] == p3[1 + i] == p2[1 + i] == p1[1 + i];
    }
  }

  lemma DailyPart(p2: seq<seq<Cell>>, p3: seq<seq<Cell>>, p4: seq<seq<Cell>>,
                  entries: seq<EntryRow>, d: seq<(DayBucket, real)>, m: seq<(SiteBucket, real)>)
    requires |p2| == |entries| + 4 && p3 == p2 + DailyRows(d) && p4 == p3 + [[], MonthlyTitle, MonthlyHeader]
    ensures var r := p4 + MonthlyRows(m);
            forall j :: 0 <= j < |d| ==> r[4 + |entries| + j] == DailyRow(d[j])
  {
    Middle(p2, DailyRows(d), [[], MonthlyTitle, MonthlyHeader], MonthlyRows(m));
  }

  /** Indexing into the middle part of a concatenation. */
  lemma Middle<T>(a: seq<T>, q: seq<T>, b: seq<T>, c: seq<T>)
    ensures forall j :: 0 <= j < |q| ==> (a + q + b + c)[|a| + j] == q[j]
  {
  }

  lemma MonthlyPart(p4: seq<seq<Cell>>, entries: seq<EntryRow>, d: seq<(DayBucket, real)>, m: seq<(SiteBucket, real)>)
    requires |p4| == |entries| + |d| + 7
    ensures var r := p4 + MonthlyRows(m);
            forall j :: 0 <= j < |m| ==> r[7 + |entries| + |d| + j] == MonthlyRow(m[j])
  {
  }

  /** A daily row gives back its bucket and its total rounded to cents. */
  lemma DailyRowReads(t: (DayBucket, real))
    ensures var r := DailyRow(t);
            |r| == 4 && r[0] == Text(t.0.0) && r[1] == Text(t.0.1) && r[2] == Text(t.0.2)
            && r[3].Text? && ParseFloat(r[3].s) == Some(RoundDigits(t.1, 2))
  {
    var s := FormatFixed2(t.1);
    var texts := [t.0.0, t.0.1, t.0.2, s];
    FormatFixed2RoundTrip(t.1);
    TextRowCells(texts, DailyRow(t));
    assert texts[3] == s;
  }

  /** A monthly row gives back its bucket and its total rounded to cents. */
  lemma MonthlyRowReads(t: (SiteBucket, real))
    ensures var r := MonthlyRow(t);
            |r| == 3 && r[0] == Text(t.0.0) && r[1] == Text(t.0.1)
            && r[2].Text? && ParseFloat(r[2].s) == Some(RoundDigits(t.1, 2))
  {
    var s := FormatFixed2(t.1);
    var texts := [t.0.0, t.0.1, s];
    FormatFixed2RoundTrip(t.1);
    TextRowCells(texts, MonthlyRow(t));
    assert texts[2] == s;
  }

  /** The cells of a text row, one per text. */
  lemma TextRowCells(texts: seq<string>, r: seq<Cell>)
    requires r == TextRow(texts)
    ensures |r| == |texts| && forall i :: 0 <= i < |texts| ==> r[i].Text? && r[i].s == texts[i]
  {
  }

  // ------------------------------------------------------------ the writer

  /** No row of s has key k: its group sums to zero. */
  lemma {:induction false} GroupSumAbsent<K>(s: seq<EntryRow>, key: EntryRow -> K, k: K)
    requires forall i :: 0 <= i < |s| ==> key(s[i]) != k
    ensures GroupSum(s, key, k, Fraction) == 0.0
  {
    if s != [] { GroupSumAbsent(s[..|s| - 1], key, k); }
  }

  /** The keys of the first rows, in first-occurrence order: the dict's own order. */
  function PrefixKeys<K(==,!new)>(s: seq<EntryRow>, key: EntryRow -> K, n: nat): seq<K>
    requires n <= |s|
  {
    Distinct(Column(s[..n], key))
  }

  /** After n rows the bucket map holds one total per key seen so far, and
      the insertion order lists those keys in first-occurrence order. */
  ghost predicate BucketsAt<K(!new)>(s: seq<EntryRow>, key: EntryRow -> K, n: nat, totals: map<K, real>, order: seq<K>)
    requires n <= |s|
  {
    order == PrefixKeys(s, key, n)
    && (forall k :: k in totals <==> k in order)
    && (forall k :: k in totals ==> totals[k] == GroupSum(s[..n], key, k, Fraction))
  }

  /** One step of a `defaultdict(float)` bucket loop: add the row's fraction
      to its bucket, creating the bucket at zero. */
  lemma BucketStep<K(!new)>(s: seq<EntryRow>, key: EntryRow -> K, n: nat, totals: map<K, real>, order: seq<K>)
    requires n < |s| && BucketsAt(s, key, n, totals, order)
    ensures var k := key(s[n]);
            BucketsAt(s, key, n + 1, totals[k := (if k in totals then totals[k] else 0.0) + Fraction(s[n])], PrefixKeys(s, key, n + 1))
  {
    var k := key(s[n]);
    var keys := Column(s[..n + 1], key);
    assert s[..n + 1][..n] == s[..n];
    assert keys[..n] == Column(s[..n], key);
    if k !in totals {
      forall i | 0 <= i < n ensures key(s[..n][i]) != k {
        assert keys[..n][i] == key(s[i]);
        assert keys[..n][i] in keys[..n];
      }
      GroupSumAbsent(s[..n], key, k);
    }
  }

  /** `buckets[key] += fraction` on a `defaultdict(float)` for row n, with the
      dict's insertion order kept alongside. */
  method AddToBucket<K(!new)>(s: seq<EntryRow>, key: EntryRow -> K, n: nat, totals: map<K, real>, order: seq<K>)
    returns (totals': map<K, real>, order': seq<K>)
    requires n < |s| && BucketsAt(s, key, n, totals, order)
    ensures BucketsAt(s, key, n + 1, totals', order')
  {
    var k := key(s[n]);
    BucketStep(s, key, n, totals, order);
    totals' := totals[k := (if k in totals then totals[k] else 0.0) + Fraction(s[n])];
    order' := PrefixKeys(s, key, n + 1);
  }

  /** The bucket loop of `export_csv`: one pass over the entries that keeps
      every entry and adds its fraction to its daily and its monthly bucket.
      The key sequences record the dicts' insertion order. */
  method Accumulate(entries: seq<EntryRow>)
    returns (normalized: seq<EntryRow>, daily: map<DayBucket, real>, dailyOrder: seq<DayBucket>,
             monthly: map<SiteBucket, real>, monthlyOrder: seq<SiteBucket>)
    ensures normalized == entries
    ensures BucketsAt(entries, DayOf, |entries|, daily, dailyOrder)
    ensures BucketsAt(entries, SiteOf, |entries|, monthly, monthlyOrder)
  {
    daily, monthly, dailyOrder, monthlyOrder, normalized := map[], map[], [], [], [];
    var i := 0;
    while i < |entries|
      invariant 0 <= i <= |entries|
      invariant normalized == entries[..i]
      invariant BucketsAt(entries, DayOf, i, daily, dailyOrder)
      invariant BucketsAt(entries, SiteOf, i, monthly, monthlyOrder)
    {
      var entry := entries[i];
      daily, dailyOrder := AddToBucket(entries, DayOf, i, daily, dailyOrder);
      monthly, monthlyOrder := AddToBucket(entries, SiteOf, i, monthly, monthlyOrder);
      normalized := normalized + [entry];
      i := i + 1;
    }
  }

  /** Sorting the insertion order gives the grouped keys of the whole input,
      each with its bucket total. */
  lemma SortedBuckets<K(!new)>(s: seq<EntryRow>, key: EntryRow -> K, order: K -> seq<KeyPart>, totals: map<K, real>, ins: seq<K>)
    requires BucketsAt(s, key, |s|, totals, ins)
    ensures var ks := SortByKey(ins, order);
            ks == GroupKeys(s, key, order)
            && forall k :: k in ks ==> k in totals && totals[k] == GroupSum(s, key, k, Fraction)
  {
    SortedKeys(s, key, order);
    assert s[..|s|] == s;
    OrderBy(ins, order);
  }

  lemma SortedKeys<K(!new)>(s: seq<EntryRow>, key: EntryRow -> K, order: K -> seq<KeyPart>)
    ensures SortByKey(PrefixKeys(s, key, |s|), order) == GroupKeys(s, key, order)
  {
    assert s[..|s|] == s;
  }

  /** The detail loop: one row per entry, appended in input order. */
  method WriteDetail(head: seq<seq<Cell>>, entries: seq<EntryRow>) returns (rows: seq<seq<Cell>>)
    ensures rows == head + DetailRows(entries)
  {
    rows := head;
    var j := 0;
    while j < |entries|
      invariant 0 <= j <= |entries|
      invariant rows == head + DetailRows(entries[..j])
    {
      assert DetailRows(entries[..j + 1]) == DetailRows(entries[..j]) + [DetailRow(entries[j])];
      rows := rows + [DetailRow(entries[j])];
      j := j + 1;
    }
    assert entries[..j] == entries;
  }

  /** The daily loop over the sorted buckets. */
  method WriteDaily(head: seq<seq<Cell>>, entries: seq<EntryRow>, keys: seq<DayBucket>, daily: map<DayBucket, real>)
    returns (rows: seq<seq<Cell>>)
    requires forall k :: k in keys ==> k in daily && daily[k] == GroupSum(entries, DayOf, k, Fraction)
    ensures rows == head + DailyRows(Totals(entries, DayOf, keys))
  {
    var d := Totals(entries, DayOf, keys);
    rows := head;
    var j := 0;
    while j < |keys|
      invariant 0 <= j <= |keys|
      invariant rows == head + DailyRows(d[..j])
    {
      assert keys[j] in keys;
      DailyRowsSnoc(d, j);
      assert d[j] == (keys[j], daily[keys[j]]);
      rows := rows + [DailyRow((keys[j], daily[keys[j]]))];
      j := j + 1;
    }
    assert d[..j] == d;
  }

  lemma DailyRowsSnoc(d: seq<(DayBucket, real)>, j: nat)
    requires j < |d|
    ensures DailyRows(d[..j + 1]) == DailyRows(d[..j]) + [DailyRow(d[j])]
  {
  }

  lemma MonthlyRowsSnoc(m: seq<(SiteBucket, real)>, j: nat)
    requires j < |m|
    ensures MonthlyRows(m[..j + 1]) == MonthlyRows(m[..j]) + [MonthlyRow(m[j])]
  {
  }

  /** The monthly loop over the sorted buckets. */
  method WriteMonthly(head: seq<seq<Cell>>, entries: seq<EntryRow>, keys: seq<SiteBucket>, monthly: map<SiteBucket, real>)
    returns (rows: seq<seq<Cell>>)
    requires forall k :: k in keys ==> k in monthly && monthly[k] == GroupSum(entries, SiteOf, k, Fraction)
    ensures rows == head + MonthlyRows(Totals(entries, SiteOf, keys))
  {
    var m := Totals(entries, SiteOf, keys);
    rows := head;
    var j := 0;
    while j < |keys|
      invariant 0 <= j <= |keys|
      invariant rows == head + MonthlyRows(m[..j])
    {
      assert keys[j] in keys;
      MonthlyRowsSnoc(m, j);
      assert m[j] == (keys[j], monthly[keys[j]]);
      rows := rows + [MonthlyRow((keys[j], monthly[keys[j]]))];
      j := j + 1;
    }
    assert m[..j] == m;
  }

  class MonthExporter {
    const outputDir: Path

    constructor(outputDir: Path)
      ensures this.outputDir == outputDir
    {
      this.outputDir := outputDir;
    }

    /** `export_csv`: the file `monatsbericht_<label>.csv` in the output
        directory and the rows written to it. */
    method ExportCsv(monthLabel: string, entries: seq<EntryRow>) returns (path: Path, rows: seq<seq<Cell>>)
      ensures path == Child(outputDir, "monatsbericht_" + monthLabel + ".csv")
      ensures rows == Report(entries)
    {
      path := Child(outputDir, "monatsbericht_" + monthLabel + ".csv");
      var normalized, daily, dailyOrder, monthly, monthlyOrder := Accumulate(entries);
      var dailyKeys := SortByKey(dailyOrder, DayTuple);
      var monthlyKeys := SortByKey(monthlyOrder, SiteTuple);
      SortedBuckets(entries, DayOf, DayTuple, daily, dailyOrder);
      SortedBuckets(entries, SiteOf, SiteTuple, monthly, monthlyOrder);
      rows := WriteDetail([DetailHeader], normalized);
      rows := WriteDaily(rows + [[], DailyTitle, DailyHeader], entries, dailyKeys, daily);
      rows := WriteMonthly(rows + [[], MonthlyTitle, MonthlyHeader], entries, monthlyKeys, monthly);
    }
  }
}
