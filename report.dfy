/**
 * The monthly report of the home view: the user's records grouped by their
 * `month_year` in a dictionary built by an append loop, one total per month,
 * the months newest first and one grand total.  The same grouping loop runs
 * in the monthly recalculation helper.
 */
module Report {
  import opened Wrappers
  import opened Strings
  import opened Dates
  import opened Models
  import opened Query

  /** `if record.month_year:` — present and not empty. */
  predicate HasMonth(r: Milk) { r.monthYear.Some? && r.monthYear.value != "" }

  predicate InMonth(r: Milk, month: string) { HasMonth(r) && r.monthYear.value == month }

  /** `r.cost or 0.0`. */
  function CostOrZero(r: Milk): real { r.cost.GetOr(0.0) }

  /** `sum((r.cost or 0.0) for r in records)`, added up left to right. */
  function SumCosts(s: seq<Milk>): (total: real)
    ensures (forall i :: 0 <= i < |s| ==> CostOrZero(s[i]) >= 0.0) ==> total >= 0.0
    ensures (forall i :: 0 <= i < |s| ==> s[i].cost.None?) ==> total == 0.0
  {
    if |s| == 0 then 0.0 else SumCosts(s[..|s| - 1]) + CostOrZero(s[|s| - 1])
  }

  /** The records of one month, in the order they were given. */
  function Bucket(s: seq<Milk>, month: string): (b: seq<Milk>)
    ensures forall x :: x in b <==> x in s && InMonth(x, month)
    ensures |b| <= |s|
  {
    if |s| == 0 then []
    else
      var last := s[|s| - 1];
      assert s == s[..|s| - 1] + [last];
      var b := Bucket(s[..|s| - 1], month);
      if InMonth(last, month) then b + [last] else b
  }

  /** The records without a month, which no bucket receives. */
  function NoMonth(s: seq<Milk>): (b: seq<Milk>)
    ensures forall x :: x in b <==> x in s && !HasMonth(x)
  {
    if |s| == 0 then []
    else
      var last := s[|s| - 1];
      assert s == s[..|s| - 1] + [last];
      var b := NoMonth(s[..|s| - 1]);
      if HasMonth(last) then b else b + [last]
  }

  predicate Distinct(ms: seq<string>) {
    forall i, j :: 0 <= i < j < |ms| ==> ms[i] != ms[j]
  }

  /** The dictionary's keys: each month once, in order of first appearance. */
  function MonthsOf(s: seq<Milk>): (ms: seq<string>)
    ensures Distinct(ms)
    ensures forall m :: m in ms <==> exists i :: 0 <= i < |s| && InMonth(s[i], m)
  {
    if |s| == 0 then []
    else
      var last := s[|s| - 1];
      var ms := MonthsOf(s[..|s| - 1]);
      assert forall i :: 0 <= i < |s| - 1 ==> s[..|s| - 1][i] == s[i];
      if HasMonth(last) && last.monthYear.value !in ms then ms + [last.monthYear.value] else ms
  }

  /** Sum of the monthly totals of the given months. */
  function SumBuckets(s: seq<Milk>, ms: seq<string>): real {
    if |ms| == 0 then 0.0 else SumBuckets(s, ms[..|ms| - 1]) + SumCosts(Bucket(s, ms[|ms| - 1]))
  }

  // ---------------------------------------------------------------------
  // The two loops of the home view
  // ---------------------------------------------------------------------

  /** The `defaultdict(list)` append loop. */
  method GroupByMonth(records: seq<Milk>) returns (groups: map<string, seq<Milk>>, months: seq<string>)
    ensures months == MonthsOf(records)
    ensures forall m :: m in groups <==> m in months
    ensures forall m :: m in groups ==> groups[m] == Bucket(records, m)
  {
    groups := map[];
    months := [];
    var i := 0;
    while i < |records|
      invariant 0 <= i <= |records|
      invariant months == MonthsOf(records[..i])
      invariant forall m :: m in groups <==> m in months
      invariant forall m :: m in groups ==> groups[m] == Bucket(records[..i], m)
    {
      var r := records[i];
      assert records[..i + 1] == records[..i] + [r];
      MonthsOfSnoc(records[..i], r);
      forall m {
        BucketSnoc(records[..i], r, m);
      }
      if r.monthYear.Some? && r.monthYear.value != "" {
        var key := r.monthYear.value;
        if key !in groups {
          BucketOfAbsentMonth(records[..i], key);
          groups := groups[key := []];
          months := months + [key];
        }
        groups := groups[key := groups[key] + [r]];
      }
      i := i + 1;
    }
    assert records[..i] == records;
  }

  /** The per-month `sum` loop over the dictionary's items. */
  method MonthlyTotals(groups: map<string, seq<Milk>>) returns (totals: map<string, real>)
    ensures totals.Keys == groups.Keys
    ensures forall m :: m in totals ==> totals[m] == SumCosts(groups[m])
  {
    totals := map[];
    var rest := groups.Keys;
    while rest != {}
      invariant rest <= groups.Keys
      invariant totals.Keys == groups.Keys - rest
      invariant forall m :: m in totals ==> totals[m] == SumCosts(groups[m])
      decreases |rest|
    {
      var m :| m in rest;
      totals := totals[m := SumCosts(groups[m])];
      rest := rest - {m};
    }
  }

  // ---------------------------------------------------------------------
  // Months newest first: sorted(keys, key=strptime(x, "%m-%Y"), reverse=True)
  // ---------------------------------------------------------------------

  predicate Parses(k: string) { ParseMonthYear(k).Some? }

  predicate AllParse(ks: seq<string>) { forall i :: 0 <= i < |ks| ==> Parses(ks[i]) }

  /** a is the same month as b or a later one. */
  predicate NotOlder(a: MonthKey, b: MonthKey) {
    a.year > b.year || (a.year == b.year && a.month >= b.month)
  }

  predicate NewestFirst(ks: seq<string>) {
    AllParse(ks) &&
    forall i, j :: 0 <= i < j < |ks| ==> NotOlder(ParseMonthYear(ks[i]).value, ParseMonthYear(ks[j]).value)
  }

  /** Places k before the first key it is not older than; an earlier key stays ahead of its equals. */
  function InsertNewest(k: string, s: seq<string>): (r: seq<string>)
    requires Parses(k) && AllParse(s)
    ensures multiset(r) == multiset(s) + multiset{k}
    ensures AllParse(r)
  {
    if |s| == 0 || NotOlder(ParseMonthYear(k).value, ParseMonthYear(s[0]).value) then
      [k] + s
    else
      assert s == [s[0]] + s[1..];
      var tail := InsertNewest(k, s[1..]);
      assert forall x :: x in tail ==> x == k || x in s[1..] by {
        forall x | x in tail ensures x == k || x in s[1..] { assert x in multiset(tail); }
      }
      [s[0]] + tail
  }

  lemma {:induction false} InsertNewestOrdered(k: string, s: seq<string>)
    requires Parses(k) && NewestFirst(s)
    ensures NewestFirst(InsertNewest(k, s))
  {
    var key := ParseMonthYear(k).value;
    if |s| > 0 && !NotOlder(key, ParseMonthYear(s[0]).value) {
      var tail := InsertNewest(k, s[1..]);
      assert NewestFirst(s[1..]) by {
        forall i, j | 0 <= i < j < |s[1..]|
          ensures NotOlder(ParseMonthYear(s[1..][i]).value, ParseMonthYear(s[1..][j]).value)
        {
          assert s[1..][i] == s[i + 1] && s[1..][j] == s[j + 1];
        }
      }
      InsertNewestOrdered(k, s[1..]);
      var r := [s[0]] + tail;
      forall i, j | 0 <= i < j < |r| ensures NotOlder(ParseMonthYear(r[i]).value, ParseMonthYear(r[j]).value) {
        if i == 0 {
          var x := tail[j - 1];
          assert x in multiset(tail);
          if x != k {
            assert x in multiset(s[1..]);
            var q :| 0 <= q < |s[1..]| && s[1..][q] == x;
            assert s[q + 1] == x;
          }
        } else {
          assert r[i] == tail[i - 1] && r[j] == tail[j - 1];
        }
      }
    } else if |s| > 0 {
      var r := [k] + s;
      forall i, j | 0 <= i < j < |r| ensures NotOlder(ParseMonthYear(r[i]).value, ParseMonthYear(r[j]).value) {
        if i == 0 {
          assert r[j] == s[j - 1];
          assert NotOlder(ParseMonthYear(s[0]).value, ParseMonthYear(s[j - 1]).value) || j == 1;
        } else {
          assert r[i] == s[i - 1] && r[j] == s[j - 1];
        }
      }
    }
  }

  function SortNewestFirst(ks: seq<string>): (r: seq<string>)
    requires AllParse(ks)
    ensures AllParse(r) && multiset(r) == multiset(ks)
  {
    if |ks| == 0 then []
    else
      assert ks == [ks[0]] + ks[1..];
      InsertNewest(ks[0], SortNewestFirst(ks[1..]))
  }

  lemma {:induction false} SortNewestFirstOrdered(ks: seq<string>)
    requires AllParse(ks)
    ensures NewestFirst(SortNewestFirst(ks))
  {
    if |ks| > 0 {
      SortNewestFirstOrdered(ks[1..]);
      InsertNewestOrdered(ks[0], SortNewestFirst(ks[1..]));
    }
  }

  /** None where strptime raises on one of the keys, which aborts the page. */
  function SortMonths(ks: seq<string>): (r: Option<seq<string>>)
    ensures r.None? <==> exists i :: 0 <= i < |ks| && !Parses(ks[i])
    ensures r.Some? ==> NewestFirst(r.value) && multiset(r.value) == multiset(ks)
  {
    if AllParse(ks) then
      SortNewestFirstOrdered(ks);
      Some(SortNewestFirst(ks))
    else None
  }

  // ---------------------------------------------------------------------
  // Partition and totals
  // ---------------------------------------------------------------------

  lemma BucketOfAbsentMonth(s: seq<Milk>, month: string)
    requires month !in MonthsOf(s)
    ensures Bucket(s, month) == []
  {
    var b := Bucket(s, month);
    if |b| > 0 {
      assert false;
    }
  }

  /** Every record with a month lies in exactly the bucket of its month; one without lies in none. */
  lemma Partition(s: seq<Milk>, r: Milk, month: string)
    requires r in s
    ensures r in Bucket(s, month) <==> HasMonth(r) && r.monthYear.value == month
    ensures HasMonth(r) ==> r.monthYear.value in MonthsOf(s)
  {
    if HasMonth(r) {
      var i :| 0 <= i < |s| && s[i] == r;
      assert InMonth(s[i], r.monthYear.value);
    }
  }

  lemma SumCostsSnoc(s: seq<Milk>, r: Milk)
    ensures SumCosts(s + [r]) == SumCosts(s) + CostOrZero(r)
  {
    assert (s + [r])[..|s|] == s;
  }

  lemma BucketSnoc(s: seq<Milk>, r: Milk, month: string)
    ensures Bucket(s + [r], month) == if InMonth(r, month) then Bucket(s, month) + [r] else Bucket(s, month)
  {
    assert (s + [r])[..|s|] == s;
  }

  /** One more record adds its cost to the bucket sum exactly when its month is listed. */
  lemma {:induction false} SumBucketsSnoc(s: seq<Milk>, r: Milk, ms: seq<string>)
    requires Distinct(ms)
    ensures SumBuckets(s + [r], ms) == SumBuckets(s, ms) + (if HasMonth(r) && r.monthYear.value in ms then CostOrZero(r) else 0.0)
  {
    if |ms| > 0 {
      var init, m := ms[..|ms| - 1], ms[|ms| - 1];
      assert ms == init + [m];
      assert Distinct(init) by {
        forall i, j | 0 <= i < j < |init| ensures init[i] != init[j] { assert init[i] == ms[i] && init[j] == ms[j]; }
      }
      assert m !in init by {
        forall i | 0 <= i < |init| ensures init[i] != m { assert init[i] == ms[i]; }
      }
      SumBucketsSnoc(s, r, init);
      BucketSnoc(s, r, m);
      assert SumBuckets(s + [r], ms) == SumBuckets(s + [r], init) + SumCosts(Bucket(s + [r], m));
      assert SumBuckets(s, ms) == SumBuckets(s, init) + SumCosts(Bucket(s, m));
      var inMs := HasMonth(r) && r.monthYear.value in ms;
      var inInit := HasMonth(r) && r.monthYear.value in init;
      if InMonth(r, m) {
        SumCostsSnoc(Bucket(s, m), r);
        assert inMs && !inInit;
      } else {
        assert inMs == inInit;
      }
    }
  }

  lemma MonthsOfSnoc(s: seq<Milk>, r: Milk)
    ensures MonthsOf(s + [r]) == if HasMonth(r) && r.monthYear.value !in MonthsOf(s) then MonthsOf(s) + [r.monthYear.value] else MonthsOf(s)
  {
    assert (s + [r])[..|s|] == s;
  }

  lemma NoMonthSnoc(s: seq<Milk>, r: Milk)
    ensures NoMonth(s + [r]) == if HasMonth(r) then NoMonth(s) else NoMonth(s) + [r]
  {
    assert (s + [r])[..|s|] == s;
  }

  /**
   * The grand total is the sum of the monthly totals plus the costs of the
   * records that have no month: those count in the total but in no month.
   */
  lemma {:induction false} TotalSplitsByMonth(s: seq<Milk>)
    ensures SumCosts(s) == SumBuckets(s, MonthsOf(s)) + SumCosts(NoMonth(s))
  {
    if |s| > 0 {
      var p, r := s[..|s| - 1], s[|s| - 1];
      assert s == p + [r];
      TotalSplitsByMonth(p);
      SumCostsSnoc(p, r);
      MonthsOfSnoc(p, r);
      NoMonthSnoc(p, r);
      SumBucketsSnoc(p, r, MonthsOf(p));
      if HasMonth(r) {
        var m := r.monthYear.value;
        if m !in MonthsOf(p) {
          BucketSnoc(p, r, m);
          BucketOfAbsentMonth(p, m);
          assert Bucket(s, m) == [r];
          assert SumCosts([r]) == CostOrZero(r) by { SumCostsSnoc([], r); assert [] + [r] == [r]; }
          assert MonthsOf(s) == MonthsOf(p) + [m];
          assert MonthsOf(s)[..|MonthsOf(s)| - 1] == MonthsOf(p);
        }
      } else {
        SumCostsSnoc(NoMonth(p), r);
      }
    }
  }

  /** When every record has a month, the grand total is the sum of the monthly totals. */
  lemma TotalIsSumOfMonths(s: seq<Milk>)
    requires forall i :: 0 <= i < |s| ==> HasMonth(s[i])
    ensures SumCosts(s) == SumBuckets(s, MonthsOf(s))
  {
    TotalSplitsByMonth(s);
    NoMonthOfDated(s);
    assert SumCosts([]) == 0.0;
  }

  lemma {:induction false} NoMonthOfDated(s: seq<Milk>)
    requires forall i :: 0 <= i < |s| ==> HasMonth(s[i])
    ensures NoMonth(s) == []
  {
    if |s| > 0 {
      var p, r := s[..|s| - 1], s[|s| - 1];
      assert s == p + [r];
      NoMonthOfDated(p);
      NoMonthSnoc(p, r);
    }
  }

  /** A record without a month makes the two disagree. */
  lemma TotalCanExceedMonths()
    ensures var s := [Milk(1, Some("01-01-2025"), Some(1.0), Some(50.0), None, 1)];
      SumCosts(s) == 50.0 && MonthsOf(s) == [] && SumBuckets(s, MonthsOf(s)) == 0.0
  {
    var s := [Milk(1, Some("01-01-2025"), Some(1.0), Some(50.0), None, 1)];
    assert s[..0] == [];
  }

  // ---------------------------------------------------------------------
  // Order inside a bucket
  // ---------------------------------------------------------------------

  /** A bucket keeps the query's order. */
  lemma {:induction false} BucketOrdered(s: seq<Milk>, month: string, descending: bool)
    requires Ordered(s, descending)
    ensures Ordered(Bucket(s, month), descending)
  {
    if |s| > 0 {
      var p, r := s[..|s| - 1], s[|s| - 1];
      assert s == p + [r];
      assert Ordered(p, descending) by {
        forall i, j | 0 <= i < j < |p| ensures !Precedes(p[j], p[i], descending) { assert p[i] == s[i] && p[j] == s[j]; }
      }
      BucketOrdered(p, month, descending);
      BucketSnoc(p, r, month);
      var b := Bucket(p, month);
      if InMonth(r, month) {
        forall i, j | 0 <= i < j < |b + [r]| ensures !Precedes((b + [r])[j], (b + [r])[i], descending) {
          if j == |b| {
            assert (b + [r])[i] == b[i] && b[i] in p;
            var k :| 0 <= k < |p| && p[k] == b[i];
            assert s[k] == b[i];
          } else {
            assert (b + [r])[i] == b[i] && (b + [r])[j] == b[j];
          }
        }
      }
    }
  }

  /** A record stamped from a calendar date: `date` and `month_year` both come from d. */
  predicate Stamped(r: Milk, d: Date) {
    ValidDate(d) && r.date == Some(FormatDayMonthYear(d)) && r.monthYear == Some(FormatMonthYear(d))
  }

  lemma MonthYearInjective(a: Date, b: Date)
    requires ValidDate(a) && ValidDate(b) && FormatMonthYear(a) == FormatMonthYear(b)
    ensures a.year == b.year && a.month == b.month
  {
    var fa, fb := FormatMonthYear(a), FormatMonthYear(b);
    assert fa[..2] == Pad2(a.month) && fb[..2] == Pad2(b.month);
    assert fa[3..] == Pad4(a.year) && fb[3..] == Pad4(b.year);
    Pad2Value(a.month); Pad2Value(b.month);
    Pad4Value(a.year); Pad4Value(b.year);
  }

  /**
   * Inside one month the descending `DD-MM-YYYY` string order is the
   * descending day order, and rows of the same day go by descending id.
   */
  lemma DescendingWithinMonth(a: Milk, b: Milk, da: Date, db: Date)
    requires Stamped(a, da) && Stamped(b, db) && a.monthYear == b.monthYear
    ensures Precedes(a, b, true) <==> da.day > db.day || (da.day == db.day && a.id > b.id)
  {
    MonthYearInjective(da, db);
    DayMonthYearOrderWithinMonth(da, db);
    DayMonthYearOrderWithinMonth(db, da);
  }
}
