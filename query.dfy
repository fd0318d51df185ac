/**
 * The row order the queries ask for: `ORDER BY date, id` (the monthly
 * recalculation) and `ORDER BY date DESC, id DESC` (the home view).  The
 * database is SQLite: NULL sorts below every string and strings compare code
 * point by code point.  `OrderBy` is an executable reference for the order,
 * and `OrderedUnique` shows that with distinct ids there is exactly one
 * ordered arrangement of a set of rows, so it is the database's answer.
 */
module Query {
  import opened Wrappers
  import opened Strings
  import opened Models

  /** Ascending order of the nullable date column. */
  predicate DateLess(a: Option<string>, b: Option<string>) {
    match a
    case None => b.Some?
    case Some(x) => b.Some? && LexLess(x, b.value)
  }

  /** `ORDER BY date, id`: a comes strictly before b. */
  predicate KeyLess(a: Milk, b: Milk) {
    DateLess(a.date, b.date) || (a.date == b.date && a.id < b.id)
  }

  /** a comes strictly before b in the ascending order, or in the descending one. */
  predicate Precedes(a: Milk, b: Milk, descending: bool) {
    if descending then KeyLess(b, a) else KeyLess(a, b)
  }

  /** No row is preceded by a row that comes after it. */
  predicate Ordered(s: seq<Milk>, descending: bool) {
    forall i, j :: 0 <= i < j < |s| ==> !Precedes(s[j], s[i], descending)
  }

  /** The id is a key of the rows: two rows with the same id are the same row. */
  predicate KeyedById(s: seq<Milk>) {
    forall a, b :: a in s && b in s && a.id == b.id ==> a == b
  }

  lemma DateLessTransitive(a: Option<string>, b: Option<string>, c: Option<string>)
    requires DateLess(a, b) && DateLess(b, c)
    ensures DateLess(a, c)
  {
    if a.Some? { LexLessTransitive(a.value, b.value, c.value); }
  }

  lemma DateLessIrreflexive(a: Option<string>)
    ensures !DateLess(a, a)
  {
    if a.Some? { LexLessIrreflexive(a.value); }
  }

  lemma DateLessAsymmetric(a: Option<string>, b: Option<string>)
    requires DateLess(a, b)
    ensures !DateLess(b, a)
  {
    if a.Some? { LexLessAsymmetric(a.value, b.value); }
  }

  lemma PrecedesTransitive(a: Milk, b: Milk, c: Milk, descending: bool)
    requires Precedes(a, b, descending) && Precedes(b, c, descending)
    ensures Precedes(a, c, descending)
  {
    var (x, y, z) := if descending then (c, b, a) else (a, b, c);
    assert KeyLess(x, y) && KeyLess(y, z);
    if DateLess(x.date, y.date) && DateLess(y.date, z.date) {
      DateLessTransitive(x.date, y.date, z.date);
    }
  }

  lemma PrecedesAsymmetric(a: Milk, b: Milk, descending: bool)
    requires Precedes(a, b, descending)
    ensures !Precedes(b, a, descending)
  {
    var (x, y) := if descending then (b, a) else (a, b);
    assert KeyLess(x, y);
    DateLessIrreflexive(x.date);
    if DateLess(x.date, y.date) { DateLessAsymmetric(x.date, y.date); }
  }

  /** Two rows with different ids are always ordered one way or the other. */
  lemma PrecedesTotal(a: Milk, b: Milk, descending: bool)
    requires a.id != b.id
    ensures Precedes(a, b, descending) || Precedes(b, a, descending)
  {
    if a.date != b.date {
      if a.date.Some? && b.date.Some? { LexLessTotal(a.date.value, b.date.value); }
    }
  }

  // ---------------------------------------------------------------------
  // Insertion sort as the reference arrangement
  // ---------------------------------------------------------------------

  function Insert(x: Milk, s: seq<Milk>, descending: bool): seq<Milk> {
    if |s| == 0 || Precedes(x, s[0], descending) then [x] + s
    else [s[0]] + Insert(x, s[1..], descending)
  }

  function OrderBy(s: seq<Milk>, descending: bool): seq<Milk> {
    if |s| == 0 then [] else Insert(s[0], OrderBy(s[1..], descending), descending)
  }

  lemma {:induction false} InsertPermutes(x: Milk, s: seq<Milk>, descending: bool)
    ensures multiset(Insert(x, s, descending)) == multiset(s) + multiset{x}
  {
    if |s| > 0 && !Precedes(x, s[0], descending) {
      InsertPermutes(x, s[1..], descending);
      assert s == [s[0]] + s[1..];
    }
  }

  lemma {:induction false} InsertOrdered(x: Milk, s: seq<Milk>, descending: bool)
    requires Ordered(s, descending)
    ensures Ordered(Insert(x, s, descending), descending)
  {
    if |s| == 0 {
    } else if Precedes(x, s[0], descending) {
      var r := [x] + s;
      forall i, j | 0 <= i < j < |r| ensures !Precedes(r[j], r[i], descending) {
        if i == 0 {
          if Precedes(r[j], x, descending) {
            if j == 1 {
              PrecedesAsymmetric(x, s[0], descending);
            } else {
              assert r[j] == s[j - 1];
              PrecedesTransitive(r[j], x, s[0], descending);
              assert false;
            }
          }
        } else {
          assert r[i] == s[i - 1] && r[j] == s[j - 1];
        }
      }
    } else {
      var tail := Insert(x, s[1..], descending);
      InsertOrdered(x, s[1..], descending);
      InsertPermutes(x, s[1..], descending);
      var r := [s[0]] + tail;
      forall i, j | 0 <= i < j < |r| ensures !Precedes(r[j], r[i], descending) {
        if i == 0 {
          assert r[j] in multiset(tail);
          assert r[j] == x || r[j] in multiset(s[1..]);
          if r[j] != x {
            var k :| 0 <= k < |s[1..]| && s[1..][k] == r[j];
            assert s[k + 1] == r[j];
          }
        } else {
          assert r[i] == tail[i - 1] && r[j] == tail[j - 1];
        }
      }
    }
  }

  /** The reference arrangement is ordered and holds exactly the rows it was given. */
  lemma {:induction false} OrderByCorrect(s: seq<Milk>, descending: bool)
    ensures Ordered(OrderBy(s, descending), descending)
    ensures multiset(OrderBy(s, descending)) == multiset(s)
  {
    if |s| > 0 {
      OrderByCorrect(s[1..], descending);
      InsertOrdered(s[0], OrderBy(s[1..], descending), descending);
      InsertPermutes(s[0], OrderBy(s[1..], descending), descending);
      assert s == [s[0]] + s[1..];
    }
  }

  lemma TailOrdered(s: seq<Milk>, descending: bool)
    requires |s| > 0 && Ordered(s, descending)
    ensures Ordered(s[1..], descending)
  {
    forall i, j | 0 <= i < j < |s[1..]| ensures !Precedes(s[1..][j], s[1..][i], descending) {
      assert s[1..][i] == s[i + 1] && s[1..][j] == s[j + 1];
    }
  }

  lemma MultisetCancel(a: Milk, x: multiset<Milk>, y: multiset<Milk>)
    requires multiset{a} + x == multiset{a} + y
    ensures x == y
  {
    forall z ensures x[z] == y[z] {
      assert (multiset{a} + x)[z] == (multiset{a} + y)[z];
    }
  }

  /** Both arrangements start with the same row: the first of the rows in the order. */
  lemma SameHead(s: seq<Milk>, t: seq<Milk>, descending: bool)
    requires |s| > 0 && |t| > 0
    requires Ordered(s, descending) && Ordered(t, descending)
    requires multiset(s) == multiset(t) && KeyedById(s)
    ensures s[0] == t[0]
  {
    if s[0] != t[0] {
      assert s[0] in multiset(t) && t[0] in multiset(s);
      var i :| 0 <= i < |t| && t[i] == s[0];
      var j :| 0 <= j < |s| && s[j] == t[0];
      assert !Precedes(s[0], t[0], descending) by { assert s[0] == t[i] && i > 0; }
      assert !Precedes(t[0], s[0], descending) by { assert t[0] == s[j] && j > 0; }
      PrecedesTotal(s[0], t[0], descending);
      assert false;
    }
  }

  /**
   * Two ordered arrangements of the same rows with distinct ids are the same
   * sequence, so the query's answer is determined by the rows alone.
   */
  lemma {:induction false} OrderedUnique(s: seq<Milk>, t: seq<Milk>, descending: bool)
    requires Ordered(s, descending) && Ordered(t, descending)
    requires multiset(s) == multiset(t) && KeyedById(s)
    ensures s == t
  {
    assert |s| == |multiset(s)| == |t|;
    if |s| > 0 {
      SameHead(s, t, descending);
      assert s == [s[0]] + s[1..] && t == [t[0]] + t[1..];
      assert multiset(s) == multiset{s[0]} + multiset(s[1..]);
      assert multiset(t) == multiset{t[0]} + multiset(t[1..]);
      MultisetCancel(s[0], multiset(s[1..]), multiset(t[1..]));
      TailOrdered(s, descending);
      TailOrdered(t, descending);
      assert KeyedById(s[1..]) by {
        assert forall a :: a in s[1..] ==> a in s;
      }
      OrderedUnique(s[1..], t[1..], descending);
    }
  }
}
