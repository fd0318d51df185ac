/**
 * The view helpers: the login guard, the `DD-MM-YYYY` to `MM-YYYY`
 * conversion, the monthly recalculation (which reads and groups but writes
 * nothing) and the e-mail verification token check.
 */
module Helpers {
  import opened Wrappers
  import opened Strings
  import opened Dates
  import opened Models
  import opened Query
  import opened Report

  /** The keys of the signed session cookie the routes use; None is a missing key. */
  datatype Session = Session(userId: Option<int>, username: Option<string>)

  const PleaseLogin := "Please login to access this page"

  /** What a guarded request has done so far: flashed messages and runs of the wrapped handler. */
  class Page {
    var flashes: seq<string>
    var handlerCalls: nat

    constructor ()
      ensures flashes == [] && handlerCalls == 0
    {
      flashes := [];
      handlerCalls := 0;
    }

    /**
     * `login_required`: the wrapped handler runs exactly when the session
     * holds a user id; otherwise a message is flashed and the request is
     * sent to the login page without running it.
     */
    method LoginRequired(session: Session) returns (proceeded: bool)
      modifies this
      ensures proceeded <==> session.userId.Some?
      ensures handlerCalls == old(handlerCalls) + (if proceeded then 1 else 0)
      ensures flashes == old(flashes) + (if proceeded then [] else [PleaseLogin])
    {
      if session.userId.None? {
        flashes := flashes + [PleaseLogin];
        return false;
      }
      handlerCalls := handlerCalls + 1;
      return true;
    }
  }

  lemma {:induction false} IndexOfAfterField(a: string, b: string, c: char)
    requires c !in a
    ensures IndexOf(a + [c] + b, c) == |a|
  {
    if |a| > 0 {
      assert (a + [c] + b)[1..] == a[1..] + [c] + b;
      assert c !in a[1..] by {
        forall i | 0 <= i < |a[1..]| ensures a[1..][i] != c { assert a[1..][i] == a[i + 1]; }
      }
      IndexOfAfterField(a[1..], b, c);
    }
  }

  /**
   * `get_month_year`: None for a missing or empty string and for a string
   * whose `-` split does not give three fields; otherwise the second and
   * third fields joined by `-`, which is everything after the first dash.
   */
  function GetMonthYear(dateStr: Option<string>): (r: Option<string>)
    ensures dateStr.None? || dateStr.value == "" ==> r.None?
    ensures dateStr.Some? && dateStr.value != "" ==> (r.Some? <==> Count(dateStr.value, '-') == 2)
    ensures r.Some? ==>
      (dateStr.Some? && IndexOf(dateStr.value, '-') < |dateStr.value| &&
       r.value == dateStr.value[IndexOf(dateStr.value, '-') + 1..])
  {
    if dateStr.Some? && dateStr.value != "" then
      var parts := Split(dateStr.value, '-');
      if |parts| == 3 then
        Join3(parts[0], parts[1], parts[2], '-');
        assert parts == [parts[0], parts[1], parts[2]];
        assert dateStr.value == parts[0] + ['-'] + (parts[1] + "-" + parts[2]);
        IndexOfAfterField(parts[0], parts[1] + "-" + parts[2], '-');
        Some(parts[1] + "-" + parts[2])
      else None
    else None
  }

  /** For every date the add route stores, the helper gives back the month the route stores beside it. */
  lemma MonthYearAgreesWithAdd(d: Date)
    requires ValidDate(d)
    ensures GetMonthYear(Some(FormatDayMonthYear(d))) == Some(FormatMonthYear(d))
  {
    var parts := [Pad2(d.day), Pad2(d.month), Pad4(d.year)];
    forall i | 0 <= i < 3 ensures '-' !in parts[i] {
      assert AllDigits(parts[i]);
    }
    Join3(parts[0], parts[1], parts[2], '-');
    assert Join(parts, '-') == FormatDayMonthYear(d);
    SplitJoin(parts, '-');
  }

  lemma Join3(a: string, b: string, c: string, sep: char)
    ensures Join([a, b, c], sep) == a + [sep] + b + [sep] + c
  {
    assert [a, b, c][1..] == [b, c];
    assert [b, c][1..] == [c];
    assert Join([b, c], sep) == b + [sep] + c;
    assert a + [sep] + (b + [sep] + c) == a + [sep] + b + [sep] + c;
  }

  /** Splitting a three-field string whose fields hold no dash gives those fields. */
  lemma SplitThree(a: string, b: string, c: string)
    requires '-' !in a && '-' !in b && '-' !in c
    ensures Split(a + "-" + b + "-" + c, '-') == [a, b, c]
  {
    Join3(a, b, c, '-');
    SplitJoin([a, b, c], '-');
  }

  /** A stored date gives its month; the empty string gives None. */
  lemma GetMonthYearExamples()
    ensures GetMonthYear(Some("05-01-2025")) == Some("01-2025")
    ensures GetMonthYear(Some("")) == None
  {
    SplitThree("05", "01", "2025");
    assert "05" + "-" + "01" + "-" + "2025" == "05-01-2025";
  }

  /** `get_month_year` takes the fields apart without checking them. */
  lemma GetMonthYearUnchecked()
    ensures GetMonthYear(Some("a-b-c")) == Some("b-c")
  {
    SplitThree("a", "b", "c");
    assert "a" + "-" + "b" + "-" + "c" == "a-b-c";
  }

  /** A string with one dash, such as an ISO month, has two fields and no month. */
  lemma GetMonthYearTwoFields(a: string, b: string)
    requires a != "" && '-' !in a && '-' !in b
    ensures GetMonthYear(Some(a + "-" + b)) == None
  {
    SplitAfterField(a, b, '-');
    SplitNoSeparator(b, '-');
  }

  /**
   * `recalc_monthly_totals`: reads the user's records in `date, id` order
   * and groups them by month.  The groups are then dropped and the commit
   * has nothing to write; the table is a value here, so the call cannot
   * change it.
   */
  method RecalcMonthlyTotals(records: seq<Milk>, userId: int) returns (groups: map<string, seq<Milk>>)
    ensures forall m :: m in groups <==> exists r :: r in records && r.userId == userId && InMonth(r, m)
    ensures forall m :: m in groups ==> Ordered(groups[m], false)
    ensures forall m :: m in groups ==> multiset(groups[m]) == multiset(Bucket(RecordsOf(records, userId), m))
  {
    var rows := OrderBy(RecordsOf(records, userId), false);
    OrderByCorrect(RecordsOf(records, userId), false);
    var months;
    groups, months := GroupByMonth(rows);
    forall m | m in groups
      ensures Ordered(groups[m], false)
      ensures multiset(groups[m]) == multiset(Bucket(RecordsOf(records, userId), m))
    {
      BucketOrdered(rows, m, false);
      BucketOfPermutation(rows, RecordsOf(records, userId), m);
    }
    forall m ensures m in groups <==> exists r :: r in records && r.userId == userId && InMonth(r, m) {
      if m in groups {
        var i :| 0 <= i < |rows| && InMonth(rows[i], m);
        assert rows[i] in multiset(RecordsOf(records, userId));
      }
      if exists r :: r in records && r.userId == userId && InMonth(r, m) {
        var r :| r in records && r.userId == userId && InMonth(r, m);
        assert r in multiset(rows);
        var i :| 0 <= i < |rows| && rows[i] == r;
        assert InMonth(rows[i], m);
      }
    }
  }

  lemma {:induction false} BucketCount(s: seq<Milk>, month: string, x: Milk)
    ensures multiset(Bucket(s, month))[x] == if InMonth(x, month) then multiset(s)[x] else 0
  {
    if |s| > 0 {
      var p, r := s[..|s| - 1], s[|s| - 1];
      assert s == p + [r];
      BucketCount(p, month, x);
      BucketSnoc(p, r, month);
    }
  }

  /** Rearranging the rows rearranges every bucket the same way. */
  lemma BucketOfPermutation(s: seq<Milk>, t: seq<Milk>, month: string)
    requires multiset(s) == multiset(t)
    ensures multiset(Bucket(s, month)) == multiset(Bucket(t, month))
  {
    forall x ensures multiset(Bucket(s, month))[x] == multiset(Bucket(t, month))[x] {
      BucketCount(s, month, x);
      BucketCount(t, month, x);
    }
  }

  // ---------------------------------------------------------------------
  // E-mail verification tokens
  // ---------------------------------------------------------------------

  const VerificationSalt := "email-verification"
  const DefaultExpiration := 3600

  /** What the serializer's signature check recovers from a token: the e-mail and the signing time. */
  datatype Unsigned = Unsigned(email: string, signedAt: int)

  /**
   * `verify_token`: the e-mail when the signature checks out under the key
   * and salt and the token is no older than `expiration` seconds; every
   * failure of the serializer (bad signature, bad payload, expiry) is None.
   * `unsign` is the serializer's signature and payload check.
   */
  function VerifyToken(token: string, secretKey: string, now: int,
                       unsign: (string, string, string) -> Option<Unsigned>,
                       expiration: int := DefaultExpiration): (r: Option<string>)
    ensures r.Some? <==>
      unsign(token, secretKey, VerificationSalt).Some? &&
      0 <= now - unsign(token, secretKey, VerificationSalt).value.signedAt <= expiration
    ensures r.Some? ==> r.value == unsign(token, secretKey, VerificationSalt).value.email
  {
    match unsign(token, secretKey, VerificationSalt)
    case None => None
    case Some(u) =>
      var age := now - u.signedAt;
      if age > expiration then None        // SignatureExpired
      else if age < 0 then None            // SignatureExpired: signed in the future
      else Some(u.email)
  }

  /** A token older than an hour never verifies, whatever it carries. */
  lemma ExpiredLinkRefused(token: string, secretKey: string, now: int,
                           unsign: (string, string, string) -> Option<Unsigned>)
    requires unsign(token, secretKey, VerificationSalt).Some?
    requires now - unsign(token, secretKey, VerificationSalt).value.signedAt > 3600
    ensures VerifyToken(token, secretKey, now, unsign) == None
  {
  }
}
