/** The SQL the stores run, restated over in-memory sequences of rows:
    SQLite's value order (NULL, then numbers, then text in BINARY collation),
    ORDER BY as a stable sort on a key, LIMIT, DISTINCT, and GROUP BY with
    SUM.  Every query in the log scans one table, so a query is a function of
    the table's row sequence. */
module Sql {
  import opened Text
  import opened Wrappers

  /** A value in an SQLite column. */
  datatype SqlValue = Null | Num(x: real) | Str(s: string)

  function OfText(s: Option<string>): SqlValue
  {
    match s
    case None => Null
    case Some(t) => Str(t)
  }

  function OfNum(x: Option<real>): SqlValue
  {
    match x
    case None => Null
    case Some(v) => Num(v)
  }

  /** SQLite's comparison of two values: NULL first, then numbers, then text
      by code point. */
  predicate ValueLess(a: SqlValue, b: SqlValue)
  {
    match (a, b)
    case (Null, Null) => false
    case (Null, _) => true
    case (Num(x), Num(y)) => x < y
    case (Num(_), Str(_)) => true
    case (Str(s), Str(t)) => LexLess(s, t)
    case _ => false
  }

  lemma ValueLessTotal(a: SqlValue, b: SqlValue)
    ensures a == b || ValueLess(a, b) || ValueLess(b, a)
  {
    if a.Str? && b.Str? { LexLessTotal(a.s, b.s); }
  }

  lemma ValueLessIrreflexive(a: SqlValue)
    ensures !ValueLess(a, a)
  {
    if a.Str? { LexLessIrreflexive(a.s); }
  }

  lemma ValueLessTransitive(a: SqlValue, b: SqlValue, c: SqlValue)
    requires ValueLess(a, b) && ValueLess(b, c)
    ensures ValueLess(a, c)
  {
    if a.Str? && b.Str? && c.Str? { LexLessTransitive(a.s, b.s, c.s); }
  }

  /** One ORDER BY term: a value sorted ascending or descending. */
  datatype KeyPart = Asc(v: SqlValue) | Desc(v: SqlValue)

  predicate PartLess(p: KeyPart, q: KeyPart)
  {
    match (p, q)
    case (Asc(a), Asc(b)) => ValueLess(a, b)
    case (Desc(a), Desc(b)) => ValueLess(b, a)
    case (Asc(_), Desc(_)) => true
    case _ => false
  }

  /** The order ORDER BY imposes: the first term that differs decides. */
  predicate KeyLess(a: seq<KeyPart>, b: seq<KeyPart>)
  {
    if a == [] then b != []
    else if b == [] then false
    else PartLess(a[0], b[0]) || (a[0] == b[0] && KeyLess(a[1..], b[1..]))
  }

  lemma {:induction false} KeyLessTotal(a: seq<KeyPart>, b: seq<KeyPart>)
    ensures a == b || KeyLess(a, b) || KeyLess(b, a)
  {
    if a != [] && b != [] {
      ValueLessTotal(a[0].v, b[0].v);
      if a[0] == b[0] {
        KeyLessTotal(a[1..], b[1..]);
        if a[1..] == b[1..] {
          assert a == [a[0]] + a[1..] && b == [b[0]] + b[1..];
        }
      }
    }
  }

  lemma {:induction false} KeyLessIrreflexive(a: seq<KeyPart>)
    ensures !KeyLess(a, a)
  {
    if a != [] {
      ValueLessIrreflexive(a[0].v);
      KeyLessIrreflexive(a[1..]);
    }
  }

  lemma {:induction false} KeyLessTransitive(a: seq<KeyPart>, b: seq<KeyPart>, c: seq<KeyPart>)
    requires KeyLess(a, b) && KeyLess(b, c)
    ensures KeyLess(a, c)
  {
    if a != [] && c != [] {
      ValueLessIrreflexive(b[0].v);
      if PartLess(a[0], b[0]) && PartLess(b[0], c[0]) {
        if a[0].Asc? && b[0].Asc? && c[0].Asc? { ValueLessTransitive(a[0].v, b[0].v, c[0].v); }
        if a[0].Desc? && b[0].Desc? && c[0].Desc? { ValueLessTransitive(c[0].v, b[0].v, a[0].v); }
      }
      if a[0] == b[0] && b[0] == c[0] {
        KeyLessTransitive(a[1..], b[1..], c[1..]);
      }
    }
  }

  /** No key is less than one that is not greater: a strict order below a weak one. */
  lemma KeyLessNotGreater(a: seq<KeyPart>, b: seq<KeyPart>, c: seq<KeyPart>)
    requires KeyLess(a, b) && !KeyLess(c, b)
    ensures KeyLess(a, c)
  {
    KeyLessTotal(b, c);
    if KeyLess(b, c) { KeyLessTransitive(a, b, c); }
  }

  /** A single numeric ORDER BY term orders like the numbers. */
  lemma KeyLessNum(a: real, b: real)
    ensures KeyLess([Asc(Num(a))], [Asc(Num(b))]) <==> a < b
    ensures KeyLess([Desc(Num(a))], [Desc(Num(b))]) <==> b < a
  {
    assert [Asc(Num(a))][1..] == [] && [Asc(Num(b))][1..] == [];
    assert [Desc(Num(a))][1..] == [] && [Desc(Num(b))][1..] == [];
  }

  // ------------------------------------------------------------- ORDER BY

  /** No later row has a key smaller than an earlier one. */
  ghost predicate SortedBy<T>(s: seq<T>, key: T -> seq<KeyPart>)
  {
    forall i, j :: 0 <= i < j < |s| ==> !KeyLess(key(s[j]), key(s[i]))
  }

  /** Insert x after every row whose key is not greater than x's. */
  function InsertByKey<T>(x: T, s: seq<T>, key: T -> seq<KeyPart>): (r: seq<T>)
    ensures multiset(r) == multiset(s) + multiset{x}
    ensures |r| == |s| + 1
  {
    if s == [] then [x]
    else if KeyLess(key(x), key(s[0])) then [x] + s
    else
      var t := InsertByKey(x, s[1..], key);
      assert s == [s[0]] + s[1..];
      [s[0]] + t
  }

  lemma {:induction false} InsertByKeySorted<T>(x: T, s: seq<T>, key: T -> seq<KeyPart>)
    requires SortedBy(s, key)
    ensures SortedBy(InsertByKey(x, s, key), key)
    ensures InsertByKey(x, s, key) != [] && (InsertByKey(x, s, key)[0] == x || (s != [] && InsertByKey(x, s, key)[0] == s[0]))
  {
    if s == [] {
    } else if KeyLess(key(x), key(s[0])) {
      var r := [x] + s;
      forall i, j | 0 <= i < j < |r| ensures !KeyLess(key(r[j]), key(r[i])) {
        if i == 0 {
          assert r[j] == s[j - 1];
          if j - 1 > 0 {
            assert !KeyLess(key(s[j - 1]), key(s[0]));
            KeyLessNotGreater(key(x), key(s[0]), key(s[j - 1]));
          }
          KeyLessTransitiveNot(key(x), key(r[j]));
        } else {
          assert r[i] == s[i - 1] && r[j] == s[j - 1];
        }
      }
    } else {
      var t := InsertByKey(x, s[1..], key);
      assert SortedBy(s[1..], key) by {
        forall i, j | 0 <= i < j < |s[1..]| ensures !KeyLess(key(s[1..][j]), key(s[1..][i])) {
          assert s[1..][i] == s[i + 1] && s[1..][j] == s[j + 1];
        }
      }
      InsertByKeySorted(x, s[1..], key);
      var r := [s[0]] + t;
      assert multiset(t) == multiset(s[1..]) + multiset{x};
      forall i, j | 0 <= i < j < |r| ensures !KeyLess(key(r[j]), key(r[i])) {
        if i == 0 {
          assert r[j] == t[j - 1];
          assert t[j - 1] in multiset(t);
          if t[j - 1] == x {
          } else {
            assert t[j - 1] in multiset(s[1..]);
            var k :| 0 <= k < |s[1..]| && s[1..][k] == t[j - 1];
            assert s[k + 1] == t[j - 1];
          }
        } else {
          assert r[i] == t[i - 1] && r[j] == t[j - 1];
        }
      }
    }
  }

  lemma KeyLessTransitiveNot(a: seq<KeyPart>, b: seq<KeyPart>)
    requires KeyLess(a, b)
    ensures !KeyLess(b, a)
  {
    if KeyLess(b, a) {
      KeyLessTransitive(a, b, a);
      KeyLessIrreflexive(a);
    }
  }

  /** `ORDER BY key`: a stable insertion sort.  SQL leaves the order of rows
      with equal keys open; keeping table order is one admissible choice. */
  function SortByKey<T>(s: seq<T>, key: T -> seq<KeyPart>): (r: seq<T>)
    ensures multiset(r) == multiset(s) && |r| == |s|
  {
    if s == [] then []
    else
      assert s == s[..|s| - 1] + [s[|s| - 1]];
      InsertByKey(s[|s| - 1], SortByKey(s[..|s| - 1], key), key)
  }

  lemma {:induction false} SortByKeySorted<T>(s: seq<T>, key: T -> seq<KeyPart>)
    ensures SortedBy(SortByKey(s, key), key)
  {
    if s != [] {
      SortByKeySorted(s[..|s| - 1], key);
      InsertByKeySorted(s[|s| - 1], SortByKey(s[..|s| - 1], key), key);
    }
  }

  /** The rows of a sorted query are the rows it sorted, in key order. */
  lemma OrderBy<T>(s: seq<T>, key: T -> seq<KeyPart>)
    ensures var r := SortByKey(s, key);
            SortedBy(r, key) && multiset(r) == multiset(s) && (forall x :: x in r <==> x in s)
  {
    SortByKeySorted(s, key);
    var r := SortByKey(s, key);
    forall x ensures x in r <==> x in s {
      assert x in r <==> x in multiset(r);
      assert x in s <==> x in multiset(s);
    }
  }

  /** `LIMIT n`: at most n rows from the front; a negative limit means no limit. */
  function Limit<T>(s: seq<T>, n: int): (r: seq<T>)
    ensures n < 0 ==> r == s
    ensures n >= 0 ==> |r| == if n < |s| then n else |s|
    ensures r == s[..|r|]
  {
    if n < 0 || n >= |s| then s else s[..n]
  }

  /** `ORDER BY key LIMIT 1`: a row with the least key, or `None` for an empty table. */
  function First<T(!new)>(s: seq<T>, key: T -> seq<KeyPart>): (r: Option<T>)
    ensures r.None? <==> s == []
    ensures r.Some? ==> r.value in s && forall y :: y in s ==> !KeyLess(key(y), key(r.value))
  {
    OrderBy(s, key);
    var sorted := SortByKey(s, key);
    if sorted == [] then None
    else
      assert forall y :: y in s ==> !KeyLess(key(y), key(sorted[0])) by {
        forall y | y in s ensures !KeyLess(key(y), key(sorted[0])) {
          assert y in sorted;
          var j :| 0 <= j < |sorted| && sorted[j] == y;
          if j > 0 { } else { KeyLessIrreflexive(key(y)); }
        }
      }
      Some(sorted[0])
  }

  // ---------------------------------------------------------------- WHERE

  /** `WHERE cond`, keeping table order. */
  function Where<T(!new)>(s: seq<T>, cond: T -> bool): (r: seq<T>)
    ensures |r| <= |s|
    ensures forall i :: 0 <= i < |r| ==> cond(r[i])
    ensures forall x :: x in r <==> x in s && cond(x)
    ensures forall x :: multiset(r)[x] == if cond(x) then multiset(s)[x] else 0
  {
    if s == [] then []
    else
      var t := Where(s[..|s| - 1], cond);
      var x := s[|s| - 1];
      assert s == s[..|s| - 1] + [x];
      if cond(x) then t + [x] else t
  }

  /** `WHERE cond` followed by `fetchone()`: the first row meeting cond, if any. */
  function FindFirst<T>(s: seq<T>, cond: T -> bool): (r: Option<T>)
    ensures r.None? <==> forall i :: 0 <= i < |s| ==> !cond(s[i])
    ensures r.Some? ==> r.value in s && cond(r.value)
  {
    if s == [] then None
    else if cond(s[0]) then Some(s[0])
    else
      var r := FindFirst(s[1..], cond);
      assert forall i :: 1 <= i < |s| ==> s[i] == s[1..][i - 1];
      r
  }

  /** `SELECT f(row)`: one value per row, in table order. */
  function Select<T(!new), U(!new)>(s: seq<T>, f: T -> U): (r: seq<U>)
    ensures |r| == |s| && forall i :: 0 <= i < |s| ==> r[i] == f(s[i])
    ensures forall y :: y in r <==> exists x :: x in s && f(x) == y
  {
    var r := seq(|s|, i requires 0 <= i < |s| => f(s[i]));
    assert forall y :: y in r <==> exists x :: x in s && f(x) == y by {
      forall y ensures y in r <==> exists x :: x in s && f(x) == y {
        if y in r {
          var i :| 0 <= i < |r| && r[i] == y;
          assert s[i] in s && f(s[i]) == y;
        }
        if exists x :: x in s && f(x) == y {
          var x :| x in s && f(x) == y;
          var i :| 0 <= i < |s| && s[i] == x;
          assert r[i] == y;
        }
      }
    }
    r
  }

  /** rel holds from every earlier element to every later one. */
  ghost predicate Pairwise<T>(s: seq<T>, rel: (T, T) -> bool)
  {
    forall i, j :: 0 <= i < j < |s| ==> rel(s[i], s[j])
  }

  /** WHERE keeps the order of the table: a relation that holds between
      every earlier and later row still holds in the result. */
  lemma {:induction false} WherePairwise<T(!new)>(s: seq<T>, cond: T -> bool, rel: (T, T) -> bool)
    requires Pairwise(s, rel)
    ensures Pairwise(Where(s, cond), rel)
  {
    if s != [] {
      var t, x := s[..|s| - 1], s[|s| - 1];
      assert Pairwise(t, rel) by {
        forall i, j | 0 <= i < j < |t| ensures rel(t[i], t[j]) { assert t[i] == s[i] && t[j] == s[j]; }
      }
      WherePairwise(t, cond, rel);
      var w := Where(t, cond);
      assert forall y :: y in w ==> rel(y, x) by {
        forall y | y in w ensures rel(y, x) {
          var k :| 0 <= k < |t| && t[k] == y;
          assert s[k] == y && s[|s| - 1] == x;
        }
      }
      var r := if cond(x) then w + [x] else w;
      assert Where(s, cond) == r;
      forall i, j | 0 <= i < j < |r| ensures rel(r[i], r[j]) {
        if j < |w| {
          assert r[i] == w[i] && r[j] == w[j];
        } else {
          assert r[i] == w[i] && r[j] == x;
          assert w[i] in w;
        }
      }
    }
  }

  // ------------------------------------------------------------- DISTINCT

  ghost predicate NoDup<T>(s: seq<T>)
  {
    forall i, j :: 0 <= i < j < |s| ==> s[i] != s[j]
  }

  /** `SELECT DISTINCT`: each value once, in order of first occurrence. */
  function Distinct<T(==,!new)>(s: seq<T>): (r: seq<T>)
    ensures NoDup(r)
    ensures forall x :: x in r <==> x in s
    ensures |r| <= |s|
  {
    if s == [] then []
    else
      var d := Distinct(s[..|s| - 1]);
      var x := s[|s| - 1];
      assert forall y :: y in s <==> y in s[..|s| - 1] || y == x by {
        assert s == s[..|s| - 1] + [x];
      }
      if x in d then d else d + [x]
  }

  /** A sequence has no duplicates exactly when no element occurs twice in its multiset. */
  lemma {:induction false} NoDupMultiset<T>(s: seq<T>)
    ensures NoDup(s) <==> forall x :: multiset(s)[x] <= 1
  {
    if s != [] {
      var t, x := s[..|s| - 1], s[|s| - 1];
      assert s == t + [x];
      NoDupMultiset(t);
      if NoDup(s) {
        assert NoDup(t);
        assert x !in t;
      }
      if forall y :: multiset(s)[y] <= 1 {
        forall y ensures multiset(t)[y] <= 1 {
          assert multiset(s)[y] == multiset(t)[y] + (if y == x then 1 else 0);
        }
        assert multiset(s)[x] == multiset(t)[x] + 1;
        assert x !in multiset(t);
        forall i, j | 0 <= i < j < |s| ensures s[i] != s[j] {
          if j < |s| - 1 {
            assert s[i] == t[i] && s[j] == t[j];
          } else {
            assert s[i] == t[i];
            assert t[i] in multiset(t);
          }
        }
      }
    }
  }

  /** Reordering keeps a sequence free of duplicates. */
  lemma NoDupPermutation<T>(a: seq<T>, b: seq<T>)
    requires NoDup(a) && multiset(a) == multiset(b)
    ensures NoDup(b)
  {
    NoDupMultiset(a);
    NoDupMultiset(b);
  }

  // ------------------------------------------------------------ GROUP BY

  /** The sum of f over the rows. */
  function SumOf<T>(s: seq<T>, f: T -> real): real
  {
    if s == [] then 0.0 else SumOf(s[..|s| - 1], f) + f(s[|s| - 1])
  }

  /** `SUM(f) ... GROUP BY key` for the group with key k, absent values counting as zero. */
  function GroupSum<T, K(==)>(s: seq<T>, key: T -> K, k: K, f: T -> real): real
  {
    if s == [] then 0.0
    else GroupSum(s[..|s| - 1], key, k, f) + (if key(s[|s| - 1]) == k then f(s[|s| - 1]) else 0.0)
  }

  /** The sum of f over the rows whose key the selector picks. */
  function SelectedSum<T, K>(s: seq<T>, key: T -> K, sel: K -> bool, f: T -> real): real
  {
    if s == [] then 0.0
    else SelectedSum(s[..|s| - 1], key, sel, f) + (if sel(key(s[|s| - 1])) then f(s[|s| - 1]) else 0.0)
  }

  /** The sum of the group sums of the listed keys that the selector picks. */
  function KeysSum<T, K(==)>(ks: seq<K>, s: seq<T>, key: T -> K, sel: K -> bool, f: T -> real): real
  {
    if ks == [] then 0.0
    else KeysSum(ks[..|ks| - 1], s, key, sel, f) + (if sel(ks[|ks| - 1]) then GroupSum(s, key, ks[|ks| - 1], f) else 0.0)
  }

  /** The keys of the rows all appear in ks. */
  ghost predicate Covers<T, K>(ks: seq<K>, s: seq<T>, key: T -> K)
  {
    forall i :: 0 <= i < |s| ==> key(s[i]) in ks
  }

  /** Adding a row adds its value to the keys-sum once, when its key is listed once. */
  lemma {:induction false} KeysSumStep<T, K>(ks: seq<K>, s: seq<T>, x: T, key: T -> K, sel: K -> bool, f: T -> real)
    requires NoDup(ks)
    ensures KeysSum(ks, s + [x], key, sel, f)
            == KeysSum(ks, s, key, sel, f) + (if key(x) in ks && sel(key(x)) then f(x) else 0.0)
  {
    if ks != [] {
      var rest, k := ks[..|ks| - 1], ks[|ks| - 1];
      assert NoDup(rest);
      KeysSumStep(rest, s, x, key, sel, f);
      assert (s + [x])[..|s + [x]| - 1] == s;
      assert key(x) in ks <==> key(x) in rest || key(x) == k by {
        assert ks == rest + [k];
      }
      if key(x) == k {
        assert k !in rest;
      }
    }
  }

  /** Partition: summing the group sums over a duplicate-free key list that
      covers every row gives the sum over all rows with a selected key. */
  lemma {:induction false} KeysSumPartition<T, K>(ks: seq<K>, s: seq<T>, key: T -> K, sel: K -> bool, f: T -> real)
    requires NoDup(ks) && Covers(ks, s, key)
    ensures KeysSum(ks, s, key, sel, f) == SelectedSum(s, key, sel, f)
  {
    if s == [] {
      KeysSumEmpty(ks, s, key, sel, f);
    } else {
      var t, x := s[..|s| - 1], s[|s| - 1];
      assert s == t + [x];
      assert Covers(ks, t, key) by {
        forall i | 0 <= i < |t| ensures key(t[i]) in ks { assert t[i] == s[i]; }
      }
      KeysSumPartition(ks, t, key, sel, f);
      KeysSumStep(ks, t, x, key, sel, f);
      assert key(s[|s| - 1]) in ks;
    }
  }

  lemma {:induction false} KeysSumEmpty<T, K>(ks: seq<K>, s: seq<T>, key: T -> K, sel: K -> bool, f: T -> real)
    requires s == []
    ensures KeysSum(ks, s, key, sel, f) == 0.0
  {
    if ks != [] { KeysSumEmpty(ks[..|ks| - 1], s, key, sel, f); }
  }

  /** The selector of the fine keys that project onto m. */
  function ProjectsTo<K1, K2(==)>(proj: K1 -> K2, m: K2): K1 -> bool
  {
    (d: K1) => proj(d) == m
  }

  /** The selector of every key. */
  function AllKeys<K>(): K -> bool
  {
    (d: K) => true
  }

  /** Grouping by a coarser key: the group sum of key2 == proj(key1) for m
      is the sum over the rows whose fine key projects onto m. */
  lemma {:induction false} GroupSumByProjection<T, K1, K2>(s: seq<T>, key1: T -> K1, proj: K1 -> K2, key2: T -> K2, m: K2, f: T -> real)
    requires forall i :: 0 <= i < |s| ==> key2(s[i]) == proj(key1(s[i]))
    ensures GroupSum(s, key2, m, f) == SelectedSum(s, key1, ProjectsTo(proj, m), f)
  {
    if s != [] {
      GroupSumByProjection(s[..|s| - 1], key1, proj, key2, m, f);
    }
  }

  /** Every row belongs to exactly one group: the sum over all rows is the
      selected sum with every key selected. */
  lemma {:induction false} SumOfAsSelected<T, K>(s: seq<T>, key: T -> K, f: T -> real)
    ensures SumOf(s, f) == SelectedSum(s, key, AllKeys(), f)
  {
    if s != [] {
      SumOfAsSelected(s[..|s| - 1], key, f);
    }
  }

  /** Reconciliation: a coarse group's sum equals the sum of the fine groups
      that project onto it, over any duplicate-free list of the fine keys. */
  lemma Reconcile<T, K1, K2>(ks: seq<K1>, s: seq<T>, key1: T -> K1, proj: K1 -> K2, key2: T -> K2, m: K2, f: T -> real)
    requires NoDup(ks) && Covers(ks, s, key1)
    requires forall i :: 0 <= i < |s| ==> key2(s[i]) == proj(key1(s[i]))
    ensures GroupSum(s, key2, m, f) == KeysSum(ks, s, key1, ProjectsTo(proj, m), f)
  {
    GroupSumByProjection(s, key1, proj, key2, m, f);
    KeysSumPartition(ks, s, key1, ProjectsTo(proj, m), f);
  }

  /** Grand total: the group sums over a duplicate-free list of all keys add
      up to the sum over all rows. */
  lemma GrandTotal<T, K>(ks: seq<K>, s: seq<T>, key: T -> K, f: T -> real)
    requires NoDup(ks) && Covers(ks, s, key)
    ensures KeysSum(ks, s, key, AllKeys(), f) == SumOf(s, f)
  {
    SumOfAsSelected(s, key, f);
    KeysSumPartition(ks, s, key, AllKeys(), f);
  }

  /** The key column of the rows. */
  function Column<T, K>(s: seq<T>, key: T -> K): (r: seq<K>)
    ensures |r| == |s| && forall i :: 0 <= i < |s| ==> r[i] == key(s[i])
  {
    seq(|s|, i requires 0 <= i < |s| => key(s[i]))
  }

  /** The groups of a GROUP BY: each key of the rows once, in the order the
      ORDER BY clause gives them. */
  function GroupKeys<T(!new), K(==,!new)>(s: seq<T>, key: T -> K, order: K -> seq<KeyPart>): (ks: seq<K>)
    ensures NoDup(ks) && Covers(ks, s, key)
    ensures forall k :: k in ks <==> exists i :: 0 <= i < |s| && key(s[i]) == k
    ensures SortedBy(ks, order)
  {
    var keys := Column(s, key);
    var d := Distinct(keys);
    var ks := SortByKey(d, order);
    OrderBy(d, order);
    NoDupPermutation(d, ks);
    assert forall k :: k in keys <==> exists i :: 0 <= i < |s| && key(s[i]) == k by {
      forall k ensures k in keys <==> exists i :: 0 <= i < |s| && key(s[i]) == k {
        if k in keys {
          var i :| 0 <= i < |keys| && keys[i] == k;
          assert key(s[i]) == k;
        } else if exists i :: 0 <= i < |s| && key(s[i]) == k {
          var i :| 0 <= i < |s| && key(s[i]) == k;
          assert keys[i] == k;
        }
      }
    }
    assert Covers(ks, s, key) by {
      forall i | 0 <= i < |s| ensures key(s[i]) in ks { assert keys[i] == key(s[i]); }
    }
    ks
  }

  /** `SUM(v)` as the numbers it adds: text and NULL count as zero. */
  function Numeric<T>(v: T -> SqlValue): T -> real
  {
    (x: T) => NumOrZero(v(x))
  }

  function NumOrZero(v: SqlValue): real
  {
    if v.Num? then v.x else 0.0
  }

  /** Some row of the group holds a value other than NULL. */
  predicate HasValue<T, K(==)>(s: seq<T>, key: T -> K, k: K, v: T -> SqlValue)
  {
    exists i :: 0 <= i < |s| && key(s[i]) == k && !v(s[i]).Null?
  }

  /** SQL `SUM` over one group: NULL values are skipped and a group without a
      value other than NULL sums to NULL. */
  function SqlSum<T, K(==)>(s: seq<T>, key: T -> K, k: K, v: T -> SqlValue): (r: Option<real>)
    ensures r.None? <==> !HasValue(s, key, k, v)
  {
    if HasValue(s, key, k, v) then Some(GroupSum(s, key, k, Numeric(v))) else None
  }

  /** With NULL read as zero, SQL's SUM is the group sum of the numbers. */
  lemma SqlSumGetOr<T, K>(s: seq<T>, key: T -> K, k: K, v: T -> SqlValue)
    ensures SqlSum(s, key, k, v).GetOr(0.0) == GroupSum(s, key, k, Numeric(v))
  {
    if !HasValue(s, key, k, v) { NullGroupZero(s, key, k, v); }
  }

  lemma {:induction false} NullGroupZero<T, K>(s: seq<T>, key: T -> K, k: K, v: T -> SqlValue)
    requires !HasValue(s, key, k, v)
    ensures GroupSum(s, key, k, Numeric(v)) == 0.0
  {
    if s != [] {
      var t := s[..|s| - 1];
      NullGroupZero(t, key, k, v);
    }
  }

  /** `SELECT key, SUM(v) ... GROUP BY key` with the groups listed in ks. */
  function GroupBy<T, K(==)>(s: seq<T>, key: T -> K, ks: seq<K>, v: T -> SqlValue): (r: seq<(K, Option<real>)>)
    ensures |r| == |ks|
    ensures forall i :: 0 <= i < |ks| ==> r[i] == (ks[i], SqlSum(s, key, ks[i], v))
  {
    seq(|ks|, i requires 0 <= i < |ks| => (ks[i], SqlSum(s, key, ks[i], v)))
  }

  /** The sum of the totals of the result rows whose key the selector picks, NULL read as zero. */
  function RowsTotal<K>(rows: seq<(K, Option<real>)>, sel: K -> bool): real
  {
    if rows == [] then 0.0
    else RowsTotal(rows[..|rows| - 1], sel) + (if sel(rows[|rows| - 1].0) then rows[|rows| - 1].1.GetOr(0.0) else 0.0)
  }

  /** Adding up result rows of a GROUP BY is adding up its groups. */
  lemma {:induction false} GroupByTotal<T, K>(s: seq<T>, key: T -> K, ks: seq<K>, v: T -> SqlValue, sel: K -> bool)
    ensures RowsTotal(GroupBy(s, key, ks, v), sel) == KeysSum(ks, s, key, sel, Numeric(v))
  {
    if ks != [] {
      var rows := GroupBy(s, key, ks, v);
      assert rows[..|rows| - 1] == GroupBy(s, key, ks[..|ks| - 1], v);
      GroupByTotal(s, key, ks[..|ks| - 1], v, sel);
      SqlSumGetOr(s, key, ks[|ks| - 1], v);
    }
  }

  /** What `SELECT key, SUM(v) ... GROUP BY key ORDER BY ...` returns: each
      key of the rows in exactly one result row, in the ORDER BY order, with
      the SQL sum of its group, and the totals adding up to the sum over all
      rows (NULL read as zero). */
  lemma GroupByMeaning<T(!new), K(!new)>(s: seq<T>, key: T -> K, order: K -> seq<KeyPart>, v: T -> SqlValue)
    ensures var r := GroupBy(s, key, GroupKeys(s, key, order), v);
            (forall i, j :: 0 <= i < j < |r| ==> r[i].0 != r[j].0)
            && (forall p :: p in r ==> exists i :: 0 <= i < |s| && key(s[i]) == p.0)
            && (forall i :: 0 <= i < |s| ==> exists j :: 0 <= j < |r| && r[j].0 == key(s[i]))
            && (forall i, j :: 0 <= i < j < |r| ==> !KeyLess(order(r[j].0), order(r[i].0)))
            && (forall i :: 0 <= i < |r| ==> r[i].1 == SqlSum(s, key, r[i].0, v))
            && RowsTotal(r, AllKeys()) == SumOf(s, Numeric(v))
  {
    var ks := GroupKeys(s, key, order);
    GroupByRows(s, key, ks, v);
  }

  /** The result rows of a GROUP BY over a duplicate-free list of exactly the rows' keys. */
  lemma GroupByRows<T, K>(s: seq<T>, key: T -> K, ks: seq<K>, v: T -> SqlValue)
    requires NoDup(ks) && Covers(ks, s, key)
    requires forall k :: k in ks <==> exists i :: 0 <= i < |s| && key(s[i]) == k
    ensures var r := GroupBy(s, key, ks, v);
            (forall i :: 0 <= i < |r| ==> r[i].0 == ks[i])
            && (forall i, j :: 0 <= i < j < |r| ==> r[i].0 != r[j].0)
            && (forall p :: p in r ==> exists i :: 0 <= i < |s| && key(s[i]) == p.0)
            && (forall i :: 0 <= i < |s| ==> exists j :: 0 <= j < |r| && r[j].0 == key(s[i]))
            && (forall i :: 0 <= i < |r| ==> r[i].1 == SqlSum(s, key, r[i].0, v))
            && RowsTotal(r, AllKeys()) == SumOf(s, Numeric(v))
  {
    GroupByKeysOf(s, key, ks, v);
    GroupByTotal(s, key, ks, v, AllKeys());
    GrandTotal(ks, s, key, Numeric(v));
  }

  lemma GroupByKeysOf<T, K>(s: seq<T>, key: T -> K, ks: seq<K>, v: T -> SqlValue)
    requires Covers(ks, s, key)
    requires forall k :: k in ks ==> exists i :: 0 <= i < |s| && key(s[i]) == k
    ensures var r := GroupBy(s, key, ks, v);
            (forall p :: p in r ==> exists i :: 0 <= i < |s| && key(s[i]) == p.0)
            && (forall i :: 0 <= i < |s| ==> exists j :: 0 <= j < |r| && r[j].0 == key(s[i]))
  {
    var r := GroupBy(s, key, ks, v);
    forall p | p in r ensures exists i :: 0 <= i < |s| && key(s[i]) == p.0 {
      var j :| 0 <= j < |r| && r[j] == p;
      assert ks[j] in ks;
    }
    forall i | 0 <= i < |s| ensures exists j :: 0 <= j < |r| && r[j].0 == key(s[i]) {
      assert key(s[i]) in ks;
      var j :| 0 <= j < |ks| && ks[j] == key(s[i]);
      assert r[j].0 == key(s[i]);
    }
    assert forall i :: 0 <= i < |s| ==> exists j :: 0 <= j < |r| && r[j].0 == key(s[i]);
  }

  /** Reconciliation of two GROUP BY queries over the same rows: the coarse
      total of m is the sum of the fine result rows whose key projects onto m. */
  lemma ReconcileGroupBy<T(!new), K1(!new), K2>(s: seq<T>, key1: T -> K1, order: K1 -> seq<KeyPart>, proj: K1 -> K2, key2: T -> K2, m: K2, v: T -> SqlValue)
    requires forall i :: 0 <= i < |s| ==> key2(s[i]) == proj(key1(s[i]))
    ensures SqlSum(s, key2, m, v).GetOr(0.0) == RowsTotal(GroupBy(s, key1, GroupKeys(s, key1, order), v), ProjectsTo(proj, m))
  {
    var ks := GroupKeys(s, key1, order);
    SqlSumGetOr(s, key2, m, v);
    Reconcile(ks, s, key1, proj, key2, m, Numeric(v));
    GroupByTotal(s, key1, ks, v, ProjectsTo(proj, m));
  }
}
