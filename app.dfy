/**
 * The refactored application: the two tables as the fields of a store, and
 * each route body as a method on it that returns what the route flashes or
 * renders instead of a redirect.  Routes behind `login_required` take the
 * session's user id as `userId`.  `float(...)` of a form field arrives
 * already converted (None where it raises), and the clock, password hashing
 * and token signing are parameters.
 */
module App {
  import opened Wrappers
  import opened Strings
  import opened Dates
  import opened Models
  import opened Query
  import opened Report
  import opened Helpers

  /**
   * The credentials check of the password form: the first user with the
   * e-mail exists, has a non-empty password hash, and the password matches it.
   */
  predicate PasswordAccepted(users: seq<User>, email: Option<string>, password: Option<string>,
                             checkPassword: (string, Option<string>) -> bool)
  {
    email.Some? && UserIndexByEmail(users, email.value) >= 0 &&
    var u := users[UserIndexByEmail(users, email.value)];
    u.passwordHash.Some? && u.passwordHash.value != "" && checkPassword(u.passwordHash.value, password)
  }

  /** `user.username or user.email`, the name the session keeps. */
  function SessionName(u: User): (name: string)
    ensures name == u.email || u.username == Some(name)
    ensures name == "" ==> u.email == ""
  {
    if u.username.Some? && u.username.value != "" then u.username.value else u.email
  }

  function SessionOf(u: User): Session { Session(Some(u.id), Some(SessionName(u))) }

  datatype LoginOutcome = LoginSkipped | InvalidCredentials | EmailNotVerified | LoggedIn(session: Session)
  datatype RegisterOutcome = RegisterSkipped | PasswordMismatch | EmailTaken | Registered(userId: int)
  datatype VerifyOutcome = InvalidLink | VerifyUserNotFound | EmailVerified(userId: int)
  datatype OAuthOutcome = OAuthEmailMissing | OAuthSignedIn(session: Session, created: bool)
  datatype AddOutcome = InvalidQuantity | DuplicateDate(date: string) | MultipleRowsFound | IntegrityError | Added(id: int)
  datatype EditOutcome = EditNotFound | EditInvalidQuantity | Edited
  datatype DeleteOutcome = DeleteNotFound | Deleted
  datatype SettingsOutcome = SettingsUserNotFound | InvalidPrice | PriceNotPositive | SettingsSaved | Recosted(count: nat)

  /** The arguments the home template receives. */
  datatype HomeView = HomeView(
    monthlyData: map<string, seq<Milk>>,
    sortedMonths: seq<string>,
    monthlyTotals: map<string, real>,
    total: real,
    currencySymbol: string)

  datatype HomeOutcome = HomeUserNotFound | MonthParseError | Shown(view: HomeView)

  /** The calendar date `add` stores: the submitted one when it parses, today otherwise. */
  function AddDate(dateRaw: Option<string>, today: Date): (d: Date)
    requires ValidDate(today)
    ensures ValidDate(d)
    ensures dateRaw.Some? && ParseIsoDate(dateRaw.value).Some? ==> d == ParseIsoDate(dateRaw.value).value
    ensures !(dateRaw.Some? && ParseIsoDate(dateRaw.value).Some?) ==> d == today
  {
    if dateRaw.Some? && dateRaw.value != "" then
      match ParseIsoDate(dateRaw.value)
      case Some(d) => d
      case None => today
    else today
  }

  /** A date picked in the form is stored as that same date, and its month beside it. */
  lemma AddDateOfPickedDate(d: Date, today: Date)
    requires ValidDate(d) && ValidDate(today)
    ensures AddDate(Some(FormatIso(d)), today) == d
    ensures GetMonthYear(Some(FormatDayMonthYear(AddDate(Some(FormatIso(d)), today)))) == Some(FormatMonthYear(d))
  {
    ParseIsoOfFormat(d);
    MonthYearAgreesWithAdd(d);
  }

  /**
   * The row `add` inserts: stamped with the date and its month, the
   * quantity, and the quantity at the price as its cost.
   */
  function NewRecord(id: int, userId: int, qty: real, price: real, d: Date): (r: Milk)
    requires ValidDate(d)
    ensures Stamped(r, d) && r.id == id && r.userId == userId
    ensures r.milkQty == Some(qty) && r.cost == Some(qty * price)
    ensures GetMonthYear(r.date) == r.monthYear
  {
    MonthYearAgreesWithAdd(d);
    Milk(id, Some(FormatDayMonthYear(d)), Some(qty), Some(qty * price), Some(FormatMonthYear(d)), userId)
  }

  /** `filter_by(date=date, user_id=userId)`: the user's rows stored under one date string. */
  function RowsOnDate(records: seq<Milk>, userId: int, date: string): (r: seq<Milk>)
    ensures forall m :: m in r <==> m in records && m.userId == userId && m.date == Some(date)
  {
    if |records| == 0 then []
    else
      var rest := RowsOnDate(records[1..], userId, date);
      assert forall m :: m in records <==> m == records[0] || m in records[1..];
      if records[0].userId == userId && records[0].date == Some(date) then [records[0]] + rest else rest
  }

  /**
   * A record after `edit`: the new date and its month when the submitted
   * date parses, the old ones otherwise; always the new quantity and its
   * cost at the current price.
   */
  function EditedRecord(r: Milk, newDateRaw: Option<string>, qty: real, price: real): (e: Milk)
    ensures e.id == r.id && e.userId == r.userId
    ensures e.milkQty == Some(qty) && e.cost == Some(qty * price)
    ensures newDateRaw.Some? && ParseIsoDate(newDateRaw.value).Some? ==>
      Stamped(e, ParseIsoDate(newDateRaw.value).value)
    ensures !(newDateRaw.Some? && ParseIsoDate(newDateRaw.value).Some?) ==>
      e.date == r.date && e.monthYear == r.monthYear
  {
    var dated :=
      if newDateRaw.Some? && newDateRaw.value != "" && ParseIsoDate(newDateRaw.value).Some? then
        var d := ParseIsoDate(newDateRaw.value).value;
        r.(date := Some(FormatDayMonthYear(d)), monthYear := Some(FormatMonthYear(d)))
      else r;
    dated.(milkQty := Some(qty), cost := Some(qty * price))
  }

  /** One record after the `settings` loop: the user's records cost their quantity at the new price. */
  function RecostOne(r: Milk, userId: int, price: real): (m: Milk)
    ensures m.id == r.id && m.userId == r.userId && m.date == r.date
    ensures m.milkQty == r.milkQty && m.monthYear == r.monthYear
    ensures r.userId != userId || r.milkQty.None? ==> m == r
    ensures r.userId == userId && r.milkQty.Some? ==> m.cost == Some(r.milkQty.value * price)
  {
    if r.userId == userId && r.milkQty.Some? then r.(cost := Some(r.milkQty.value * price)) else r
  }

  /**
   * Every record of the user re-costed at the new price; None when one of
   * them has no quantity, where the multiplication raises a TypeError.
   */
  function Recost(records: seq<Milk>, userId: int, price: real): (r: Option<seq<Milk>>)
    ensures r.None? <==> exists i :: 0 <= i < |records| && records[i].userId == userId && records[i].milkQty.None?
    ensures r.Some? ==>
      (|r.value| == |records| && forall i :: 0 <= i < |records| ==> r.value[i] == RecostOne(records[i], userId, price))
  {
    if |records| == 0 then Some([])
    else
      var head := records[0];
      var rest := Recost(records[1..], userId, price);
      assert forall i :: 1 <= i < |records| ==> records[i] == records[1..][i - 1];
      if head.userId == userId && head.milkQty.None? then None
      else if rest.None? then None
      else
        var r := [RecostOne(head, userId, price)] + rest.value;
        assert forall i :: 1 <= i < |records| ==> r[i] == rest.value[i - 1];
        Some(r)
  }

  /**
   * The loop of `settings`: walks the records in table order, re-costing
   * each of the user's, and stops at the first of them without a quantity.
   */
  method RecostRecords(records: seq<Milk>, userId: int, price: real) returns (updated: Option<seq<Milk>>, count: nat)
    ensures updated == Recost(records, userId, price)
    ensures updated.Some? ==> count == |RecordsOf(records, userId)|
  {
    var acc := records;
    count := 0;
    var i := 0;
    while i < |records|
      invariant 0 <= i <= |records| && |acc| == |records|
      invariant forall j :: 0 <= j < i ==> !(records[j].userId == userId && records[j].milkQty.None?)
      invariant forall j :: 0 <= j < i ==> acc[j] == RecostOne(records[j], userId, price)
      invariant forall j :: i <= j < |records| ==> acc[j] == records[j]
      invariant count == |RecordsOf(records[..i], userId)|
    {
      var r := records[i];
      if r.userId == userId && r.milkQty.None? {
        assert Recost(records, userId, price).None?;
        return None, count;
      }
      RecordsOfSnoc(records[..i], r, userId);
      assert records[..i + 1] == records[..i] + [r];
      acc := acc[i := RecostOne(r, userId, price)];
      if r.userId == userId {
        count := count + 1;
      }
      i := i + 1;
    }
    assert records[..i] == records;
    var expected := Recost(records, userId, price);
    assert expected.Some?;
    assert forall j :: 0 <= j < |records| ==> acc[j] == expected.value[j];
    assert acc == expected.value;
    return Some(acc), count;
  }

  /** Rows whose ids are all below a new id stay in increasing order when it is appended. */
  lemma IncreasingSnoc(records: seq<Milk>, r: Milk)
    requires IdsIncreasing(records) && forall i :: 0 <= i < |records| ==> records[i].id < r.id
    ensures IdsIncreasing(records + [r])
  {
    forall i, j | 0 <= i < j < |records + [r]| ensures (records + [r])[i].id < (records + [r])[j].id {
      assert (records + [r])[i] == records[i];
    }
  }

  /** A row whose owner exists can be appended without breaking the foreign key. */
  lemma OwnersSnoc(records: seq<Milk>, r: Milk, users: seq<User>)
    requires OwnersExist(records, users) && HasUser(users, r.userId)
    ensures OwnersExist(records + [r], users)
  {
    forall i | 0 <= i < |records + [r]| ensures HasUser(users, (records + [r])[i].userId) {
      if i < |records| { assert (records + [r])[i] == records[i]; }
    }
  }

  /** Keeping every user id in place (and possibly adding users) keeps every owner. */
  lemma OwnersKept(records: seq<Milk>, users: seq<User>, users': seq<User>)
    requires OwnersExist(records, users)
    requires |users| <= |users'| && forall i :: 0 <= i < |users| ==> users'[i].id == users[i].id
    ensures OwnersExist(records, users')
  {
    forall i | 0 <= i < |records| ensures HasUser(users', records[i].userId) {
      var q :| 0 <= q < |users| && users[q].id == records[i].userId;
      assert users'[q].id == records[i].userId;
    }
  }

  /** Rows changed without touching their ids or owners keep both invariants. */
  lemma SameKeys(a: seq<Milk>, b: seq<Milk>, users: seq<User>, next: int)
    requires |a| == |b| && forall i :: 0 <= i < |a| ==> a[i].id == b[i].id && a[i].userId == b[i].userId
    requires IdsIncreasing(a) && forall i :: 0 <= i < |a| ==> a[i].id < next
    ensures IdsIncreasing(b) && forall i :: 0 <= i < |b| ==> b[i].id < next
    ensures OwnersExist(a, users) ==> OwnersExist(b, users)
  {
    if OwnersExist(a, users) {
      forall i | 0 <= i < |b| ensures HasUser(users, b[i].userId) {
        assert HasUser(users, a[i].userId);
      }
    }
  }

  /** Removing one record keeps the ids increasing, below the counter, and their owners existing. */
  lemma RemoveRecordFacts(records: seq<Milk>, users: seq<User>, k: int, next: int)
    requires 0 <= k < |records| && IdsIncreasing(records)
    requires forall i :: 0 <= i < |records| ==> records[i].id < next
    ensures var rest := records[..k] + records[k + 1..];
      && IdsIncreasing(rest)
      && (forall i :: 0 <= i < |rest| ==> rest[i].id < next)
      && (OwnersExist(records, users) ==> OwnersExist(rest, users))
  {
    var rest := records[..k] + records[k + 1..];
    forall i | 0 <= i < |rest| ensures rest[i] == records[if i < k then i else i + 1] {
    }
    forall i, j | 0 <= i < j < |rest| ensures rest[i].id < rest[j].id {
      assert rest[i] == records[if i < k then i else i + 1];
      assert rest[j] == records[if j < k then j else j + 1];
    }
  }

  /** Removing one user of unique ids and e-mails keeps them unique, and removes exactly that id. */
  lemma RemoveUserFacts(users: seq<User>, k: int)
    requires UniqueUserIds(users) && UniqueEmails(users) && 0 <= k < |users|
    ensures var rest := users[..k] + users[k + 1..];
      && UniqueUserIds(rest) && UniqueEmails(rest)
      && forall u :: u in rest <==> u in users && u.id != users[k].id
  {
    var rest := users[..k] + users[k + 1..];
    forall i, j | 0 <= i < j < |rest|
      ensures rest[i].id != rest[j].id && rest[i].email != rest[j].email
    {
      var a := if i < k then i else i + 1;
      var b := if j < k then j else j + 1;
      assert rest[i] == users[a] && rest[j] == users[b];
    }
    forall u ensures u in rest <==> u in users && u.id != users[k].id {
      if u in users && u.id != users[k].id {
        var p :| 0 <= p < |users| && users[p] == u;
        if p < k { assert rest[p] == u; } else { assert rest[p - 1] == u; }
      }
      if u in rest {
        var p :| 0 <= p < |rest| && rest[p] == u;
        var a := if p < k then p else p + 1;
        assert u == users[a] && a != k;
      }
    }
  }

  /** The records the cascade keeps still have their owners once the user is gone. */
  lemma CascadeKeepsOwners(records: seq<Milk>, users: seq<User>, users': seq<User>, userId: int)
    requires OwnersExist(records, users)
    requires forall u :: u in users' <==> u in users && u.id != userId
    ensures OwnersExist(RecordsNotOf(records, userId), users')
  {
    var kept := RecordsNotOf(records, userId);
    forall i | 0 <= i < |kept| ensures HasUser(users', kept[i].userId) {
      assert kept[i] in records;
      var p :| 0 <= p < |records| && records[p] == kept[i];
      assert HasUser(users, records[p].userId);
      var q :| 0 <= q < |users| && users[q].id == kept[i].userId;
      assert users[q] in users';
      var q' :| 0 <= q' < |users'| && users'[q'] == users[q];
    }
  }

  /** Rows taken from a table keep the table's id bound. */
  lemma FilterBelow(records: seq<Milk>, userId: int, next: int)
    requires forall i :: 0 <= i < |records| ==> records[i].id < next
    ensures var kept := RecordsNotOf(records, userId); forall i :: 0 <= i < |kept| ==> kept[i].id < next
  {
    var kept := RecordsNotOf(records, userId);
    forall i | 0 <= i < |kept| ensures kept[i].id < next {
      assert kept[i] in records;
    }
  }

  class MilkStore {
    var users: seq<User>
    var records: seq<Milk>
    var nextUserId: int
    var nextMilkId: int
    /** PostgreSQL checks `milk.user_id` against the user table; SQLite, by default, does not. */
    const enforcesForeignKeys: bool

    ghost predicate Valid()
      reads this
    {
      && UniqueUserIds(users) && UniqueEmails(users)
      && (forall i :: 0 <= i < |users| ==> users[i].id < nextUserId)
      && (forall i :: 0 <= i < |records| ==> records[i].id < nextMilkId)
      && IdsIncreasing(records)
      && (enforcesForeignKeys ==> OwnersExist(records, users))
    }

    constructor (enforcesForeignKeys: bool)
      ensures Valid()
      ensures users == [] && records == [] && this.enforcesForeignKeys == enforcesForeignKeys
    {
      users := [];
      records := [];
      nextUserId := 1;
      nextMilkId := 1;
      this.enforcesForeignKeys := enforcesForeignKeys;
    }

    // -------------------------------------------------------------------
    // Authentication
    // -------------------------------------------------------------------

    /**
     * The password form: an existing session skips it; otherwise the first
     * user with the e-mail must have a password hash the password matches,
     * and must be verified before a session is opened.
     */
    function Login(session: Session, email: Option<string>, password: Option<string>,
                   checkPassword: (string, Option<string>) -> bool): (o: LoginOutcome)
      reads this
      ensures session.userId.Some? <==> o == LoginSkipped
      ensures session.userId.None? ==>
        (o != InvalidCredentials <==> PasswordAccepted(users, email, password, checkPassword))
      ensures (o.LoggedIn? || o == EmailNotVerified) ==>
        PasswordAccepted(users, email, password, checkPassword) &&
        var u := users[UserIndexByEmail(users, email.value)];
        (o.LoggedIn? <==> u.emailVerified) &&
        (o.LoggedIn? ==> o.session == SessionOf(u))
    {
      if session.userId.Some? then LoginSkipped
      else if email.None? then InvalidCredentials
      else
        var k := UserIndexByEmail(users, email.value);
        if k >= 0 && users[k].passwordHash.Some? && users[k].passwordHash.value != ""
           && checkPassword(users[k].passwordHash.value, password) then
          if !users[k].emailVerified then EmailNotVerified else LoggedIn(SessionOf(users[k]))
        else InvalidCredentials
    }

    /**
     * Registration: the two passwords must agree and the e-mail must be new;
     * the user is stored verified, with the hash of the password and the
     * column defaults for everything else.
     */
    method Register(session: Session, email: string, username: Option<string>, password: string,
                    confirmPassword: string, hash: string -> string, now: int) returns (o: RegisterOutcome)
      requires Valid()
      modifies this
      ensures Valid()
      ensures records == old(records) && nextMilkId == old(nextMilkId)
      ensures o == RegisterSkipped <==> session.userId.Some?
      ensures o == PasswordMismatch <==> session.userId.None? && password != confirmPassword
      ensures o == EmailTaken <==> session.userId.None? && password == confirmPassword && UserIndexByEmail(old(users), email) >= 0
      ensures o.Registered? ==>
        o.userId == old(nextUserId) && nextUserId == old(nextUserId) + 1 &&
        users == old(users) + [NewUser(o.userId, email, now, username, Some(hash(password)), emailVerified := true)]
      ensures !o.Registered? ==> users == old(users) && nextUserId == old(nextUserId)
    {
      if session.userId.Some? {
        return RegisterSkipped;
      }
      if password != confirmPassword {
        return PasswordMismatch;
      }
      if UserIndexByEmail(users, email) >= 0 {
        return EmailTaken;
      }
      var id := nextUserId;
      var before := users;
      users := users + [NewUser(id, email, now, username, Some(hash(password)), emailVerified := true)];
      nextUserId := nextUserId + 1;
      if enforcesForeignKeys { OwnersKept(records, before, users); }
      return Registered(id);
    }

    /**
     * The e-mail link: a token that verifies to a non-empty e-mail marks the
     * first user with that e-mail as verified.
     */
    method VerifyEmail(token: string, secretKey: string, now: int,
                       unsign: (string, string, string) -> Option<Unsigned>) returns (o: VerifyOutcome)
      requires Valid()
      modifies this
      ensures Valid()
      ensures records == old(records) && nextUserId == old(nextUserId) && nextMilkId == old(nextMilkId)
      ensures var email := VerifyToken(token, secretKey, now, unsign);
        && (email.None? || email.value == "" <==> o == InvalidLink)
        && (o == InvalidLink ==> users == old(users))
        && (email.Some? && email.value != "" && UserIndexByEmail(old(users), email.value) == -1 ==> o == VerifyUserNotFound && users == old(users))
        && (email.Some? && email.value != "" && UserIndexByEmail(old(users), email.value) >= 0 ==>
              var k := UserIndexByEmail(old(users), email.value);
              o == EmailVerified(old(users)[k].id) && users == old(users)[k := old(users)[k].(emailVerified := true)])
    {
      var email := VerifyToken(token, secretKey, now, unsign);
      if email.None? || email.value == "" {
        return InvalidLink;
      }
      var k := UserIndexByEmail(users, email.value);
      if k == -1 {
        return VerifyUserNotFound;
      }
      var before := users;
      users := users[k := users[k].(emailVerified := true)];
      if enforcesForeignKeys { OwnersKept(records, before, users); }
      return EmailVerified(users[k].id);
    }

    /**
     * The OAuth callbacks after the provider exchange: the first user with
     * the e-mail signs in as they are (verified or not); otherwise a
     * verified user is created for the provider.  Without an e-mail the
     * insert violates NOT NULL and nothing is stored.
     */
    method OAuthSignIn(provider: string, email: Option<string>, name: Option<string>, oauthId: Option<string>,
                       now: int) returns (o: OAuthOutcome)
      requires Valid()
      modifies this
      ensures Valid()
      ensures records == old(records) && nextMilkId == old(nextMilkId)
      ensures email.None? <==> o == OAuthEmailMissing
      ensures o == OAuthEmailMissing ==> users == old(users) && nextUserId == old(nextUserId)
      ensures o.OAuthSignedIn? && !o.created ==>
        var k := UserIndexByEmail(old(users), email.value);
        k >= 0 && o.session == SessionOf(old(users)[k]) && users == old(users) && nextUserId == old(nextUserId)
      ensures o.OAuthSignedIn? && o.created ==>
        UserIndexByEmail(old(users), email.value) == -1 &&
        var u := NewUser(old(nextUserId), email.value, now, name, None, Some(provider), oauthId, emailVerified := true);
        users == old(users) + [u] && o.session == SessionOf(u) && nextUserId == old(nextUserId) + 1
    {
      if email.None? {
        return OAuthEmailMissing;
      }
      var k := UserIndexByEmail(users, email.value);
      if k >= 0 {
        return OAuthSignedIn(SessionOf(users[k]), false);
      }
      var u := NewUser(nextUserId, email.value, now, name, None, Some(provider), oauthId, emailVerified := true);
      var before := users;
      users := users + [u];
      nextUserId := nextUserId + 1;
      if enforcesForeignKeys { OwnersKept(records, before, users); }
      return OAuthSignedIn(SessionOf(u), true);
    }

    // -------------------------------------------------------------------
    // Records
    // -------------------------------------------------------------------

    /**
     * `add`: the cost is the quantity at the user's price (50.0 without a
     * user row); the date is the submitted one or today; a second record
     * for the same user and date is refused, and the lookup raises when
     * earlier edits already left two.
     */
    method Add(userId: int, qty: Option<real>, dateRaw: Option<string>, today: Date) returns (o: AddOutcome)
      requires Valid() && ValidDate(today)
      modifies this
      ensures Valid()
      ensures users == old(users) && nextUserId == old(nextUserId)
      ensures var d := AddDate(dateRaw, today);
        var same := |RowsOnDate(old(records), userId, FormatDayMonthYear(d))|;
        && (qty.None? <==> o == InvalidQuantity)
        && (o.DuplicateDate? <==> qty.Some? && same == 1)
        && (o.DuplicateDate? ==> o.date == FormatDayMonthYear(d))
        && (o == MultipleRowsFound <==> qty.Some? && same >= 2)
        && (o == IntegrityError <==> qty.Some? && same == 0 && enforcesForeignKeys && !HasUser(users, userId))
        && (o.Added? ==>
              o.id == old(nextMilkId) && nextMilkId == o.id + 1 &&
              records == old(records) + [NewRecord(o.id, userId, qty.value, PriceFor(users, userId), d)])
      ensures !o.Added? ==> records == old(records) && nextMilkId == old(nextMilkId)
    {
      var price := PriceFor(users, userId);
      if qty.None? {
        return InvalidQuantity;
      }
      var d := AddDate(dateRaw, today);
      var existing := RowsOnDate(records, userId, FormatDayMonthYear(d));
      if |existing| >= 2 {
        return MultipleRowsFound;
      }
      if |existing| == 1 {
        return DuplicateDate(FormatDayMonthYear(d));
      }
      if enforcesForeignKeys && !HasUser(users, userId) {
        return IntegrityError;
      }
      var id := nextMilkId;
      var row := NewRecord(id, userId, qty.value, price, d);
      IncreasingSnoc(records, row);
      if enforcesForeignKeys { OwnersSnoc(records, row, users); }
      records := records + [row];
      nextMilkId := nextMilkId + 1;
      var _ := RecalcMonthlyTotals(records, userId);
      return Added(id);
    }

    /**
     * `edit`: only the user's own record; a new quantity that does not
     * parse stores nothing, not even a new date; otherwise the quantity is
     * replaced and the cost recomputed.  No duplicate-date check is made.
     */
    method Edit(userId: int, milkId: int, newDateRaw: Option<string>, newQty: Option<real>) returns (o: EditOutcome)
      requires Valid()
      modifies this
      ensures Valid()
      ensures users == old(users) && nextUserId == old(nextUserId) && nextMilkId == old(nextMilkId)
      ensures var k := FindRecordIndex(old(records), milkId, userId);
        && (k == -1 ==> o == EditNotFound && records == old(records))
        && (k >= 0 && newQty.None? ==> o == EditInvalidQuantity && records == old(records))
        && (k >= 0 && newQty.Some? ==>
              o == Edited &&
              records == old(records)[k := EditedRecord(old(records)[k], newDateRaw, newQty.value, PriceFor(users, userId))])
    {
      var k := FindRecordIndex(records, milkId, userId);
      if k == -1 {
        return EditNotFound;
      }
      if newQty.None? {
        return EditInvalidQuantity;
      }
      var price := PriceFor(users, userId);
      var edited := EditedRecord(records[k], newDateRaw, newQty.value, price);
      records := records[k := edited];
      var _ := RecalcMonthlyTotals(records, userId);
      return Edited;
    }

    /** `delete_data`: only the user's own record, and exactly that one, is removed. */
    method Delete(userId: int, milkId: int) returns (o: DeleteOutcome)
      requires Valid()
      modifies this
      ensures Valid()
      ensures users == old(users) && nextUserId == old(nextUserId) && nextMilkId == old(nextMilkId)
      ensures var k := FindRecordIndex(old(records), milkId, userId);
        && (k == -1 ==> o == DeleteNotFound && records == old(records))
        && (k >= 0 ==> o == Deleted && records == old(records)[..k] + old(records)[k + 1..])
    {
      var k := FindRecordIndex(records, milkId, userId);
      if k == -1 {
        return DeleteNotFound;
      }
      RemoveRecordFacts(records, users, k, nextMilkId);
      records := records[..k] + records[k + 1..];
      var _ := RecalcMonthlyTotals(records, userId);
      return Deleted;
    }

    /**
     * `settings`: the price must parse and be positive.  The user's price,
     * currency and symbol are saved first; then, only when asked and when
     * the price changed, every record of the user is re-costed.  A record
     * without a quantity makes that loop raise: the saved settings stay,
     * the record costs do not change.
     */
    method Settings(userId: int, price: Option<real>, currency: Option<string>, symbol: Option<string>,
                    recalculate: bool) returns (o: SettingsOutcome)
      requires Valid()
      modifies this
      ensures Valid()
      ensures nextUserId == old(nextUserId) && nextMilkId == old(nextMilkId)
      ensures var k := UserIndexById(old(users), userId);
        && (k == -1 ==> o == SettingsUserNotFound && users == old(users) && records == old(records))
        && (k >= 0 && price.None? ==> o == InvalidPrice && users == old(users) && records == old(records))
        && (k >= 0 && price.Some? && price.value <= 0.0 ==> o == PriceNotPositive && users == old(users) && records == old(records))
        && (k >= 0 && price.Some? && price.value > 0.0 ==>
              && users == old(users)[k := old(users)[k].(milkPricePerLitre := price.value,
                                                          currency := currency.GetOr(DefaultCurrency),
                                                          currencySymbol := symbol.GetOr(RupeeSign))]
              && ((!recalculate || old(users)[k].milkPricePerLitre == price.value) ==> o == SettingsSaved && records == old(records))
              && (recalculate && old(users)[k].milkPricePerLitre != price.value ==>
                    var r := Recost(old(records), userId, price.value);
                    && (r.None? ==> o == InvalidPrice && records == old(records))
                    && (r.Some? ==> o == Recosted(|RecordsOf(old(records), userId)|) && records == r.value)))
    {
      var k := UserIndexById(users, userId);
      if k == -1 {
        return SettingsUserNotFound;
      }
      if price.None? {
        return InvalidPrice;
      }
      var newPrice := price.value;
      if newPrice <= 0.0 {
        return PriceNotPositive;
      }
      var oldPrice := users[k].milkPricePerLitre;
      var before := users;
      users := users[k := users[k].(milkPricePerLitre := newPrice,
                                    currency := currency.GetOr(DefaultCurrency),
                                    currencySymbol := symbol.GetOr(RupeeSign))];
      if enforcesForeignKeys { OwnersKept(records, before, users); }
      if !recalculate || oldPrice == newPrice {
        return SettingsSaved;
      }
      var updated, count := RecostRecords(records, userId, newPrice);
      if updated.None? {
        return InvalidPrice;
      }
      SameKeys(records, updated.value, users, nextMilkId);
      records := updated.value;
      return Recosted(count);
    }

    /**
     * The ORM cascade on the user's `milk_records`: removing a user removes
     * every record of that user and no other.  No route of the application
     * deletes users.
     */
    method DeleteUser(userId: int)
      requires Valid()
      modifies this
      ensures Valid()
      ensures nextUserId == old(nextUserId) && nextMilkId == old(nextMilkId)
      ensures !HasUser(users, userId)
      ensures forall u :: u in users <==> u in old(users) && u.id != userId
      ensures records == RecordsNotOf(old(records), userId)
    {
      var k := UserIndexById(users, userId);
      if k >= 0 {
        RemoveUserFacts(users, k);
        users := users[..k] + users[k + 1..];
      }
      if enforcesForeignKeys { CascadeKeepsOwners(records, old(users), users, userId); }
      RecordsOfIncreasing(records, userId);
      FilterBelow(records, userId, nextMilkId);
      records := RecordsNotOf(records, userId);
    }

    // -------------------------------------------------------------------
    // The report
    // -------------------------------------------------------------------

    /**
     * The home view: the user's records in `date DESC, id DESC` order,
     * grouped by month with one total each, the months newest first and the
     * total of every record.  An unparseable month key aborts the page.
     */
    method Home(userId: int) returns (o: HomeOutcome)
      requires Valid()
      ensures !HasUser(users, userId) <==> o == HomeUserNotFound
      ensures var rows := OrderBy(RecordsOf(records, userId), true);
        && Ordered(rows, true) && multiset(rows) == multiset(RecordsOf(records, userId))
        && (o == MonthParseError <==> HasUser(users, userId) && !AllParse(MonthsOf(rows)))
        && (o.Shown? ==>
              && (forall m :: m in o.view.monthlyData <==> m in MonthsOf(rows))
              && (forall m :: m in o.view.monthlyData ==> o.view.monthlyData[m] == Bucket(rows, m))
              && o.view.monthlyTotals.Keys == o.view.monthlyData.Keys
              && (forall m :: m in o.view.monthlyTotals ==> o.view.monthlyTotals[m] == SumCosts(Bucket(rows, m)))
              && NewestFirst(o.view.sortedMonths) && multiset(o.view.sortedMonths) == multiset(MonthsOf(rows))
              && o.view.total == SumCosts(rows)
              && o.view.total == SumBuckets(rows, MonthsOf(rows)) + SumCosts(NoMonth(rows))
              && o.view.currencySymbol == users[UserIndexById(users, userId)].currencySymbol)
    {
      var rows := OrderBy(RecordsOf(records, userId), true);
      OrderByCorrect(RecordsOf(records, userId), true);
      var k := UserIndexById(users, userId);
      if k == -1 {
        return HomeUserNotFound;
      }
      var groups, months := GroupByMonth(rows);
      var totals := MonthlyTotals(groups);
      var sorted := SortMonths(months);
      if sorted.None? {
        return MonthParseError;
      }
      TotalSplitsByMonth(rows);
      return Shown(HomeView(groups, sorted.value, totals, SumCosts(rows), users[k].currencySymbol));
    }
  }

  // ---------------------------------------------------------------------
  // Properties of the routes
  // ---------------------------------------------------------------------

  /** An unverified account never gets a session from the password form. */
  lemma UnverifiedNeverLogsIn(s: MilkStore, session: Session, email: string, password: Option<string>,
                              checkPassword: (string, Option<string>) -> bool)
    requires UserIndexByEmail(s.users, email) >= 0 && !s.users[UserIndexByEmail(s.users, email)].emailVerified
    ensures !s.Login(session, Some(email), password, checkPassword).LoggedIn?
  {
  }

  /** A verified user whose password matches its hash gets a session under its id and name. */
  lemma VerifiedUserLogsIn(s: MilkStore, email: string, password: Option<string>,
                           checkPassword: (string, Option<string>) -> bool)
    requires UserIndexByEmail(s.users, email) >= 0
    requires var u := s.users[UserIndexByEmail(s.users, email)];
      u.emailVerified && u.passwordHash.Some? && u.passwordHash.value != "" && checkPassword(u.passwordHash.value, password)
    ensures s.Login(Session(None, None), Some(email), password, checkPassword) ==
      LoggedIn(SessionOf(s.users[UserIndexByEmail(s.users, email)]))
  {
  }

  /** An empty password hash is refused as Python's truth test refuses it, whatever the check says. */
  lemma EmptyHashRefused(s: MilkStore, email: string, password: Option<string>,
                         checkPassword: (string, Option<string>) -> bool)
    requires UserIndexByEmail(s.users, email) >= 0 && s.users[UserIndexByEmail(s.users, email)].passwordHash == Some("")
    ensures s.Login(Session(None, None), Some(email), password, checkPassword) == InvalidCredentials
  {
  }

  /** An account created through a provider has no password hash and cannot use the password form. */
  lemma OAuthAccountHasNoPasswordLogin(s: MilkStore, session: Session, email: string, password: Option<string>,
                                       checkPassword: (string, Option<string>) -> bool)
    requires UserIndexByEmail(s.users, email) >= 0 && s.users[UserIndexByEmail(s.users, email)].passwordHash.None?
    ensures s.Login(session, Some(email), password, checkPassword) == (if session.userId.Some? then LoginSkipped else InvalidCredentials)
  {
  }

  /** The rows the home query returns, in any ordered arrangement, are exactly the reference arrangement. */
  lemma HomeRowsAreTheQueryAnswer(records: seq<Milk>, userId: int, answer: seq<Milk>)
    requires IdsIncreasing(records)
    requires Ordered(answer, true) && multiset(answer) == multiset(RecordsOf(records, userId))
    ensures answer == OrderBy(RecordsOf(records, userId), true)
  {
    var mine := RecordsOf(records, userId);
    RecordsOfIncreasing(records, userId);
    OrderByCorrect(mine, true);
    assert KeyedById(answer) by {
      forall a, b | a in answer && b in answer && a.id == b.id ensures a == b {
        assert a in multiset(mine) && b in multiset(mine);
        var p :| 0 <= p < |mine| && mine[p] == a;
        var q :| 0 <= q < |mine| && mine[q] == b;
      }
    }
    OrderedUnique(answer, OrderBy(mine, true), true);
  }

  /** After a re-costing every record of the user costs its quantity at the new price, and nothing else moved. */
  lemma RecostedCosts(records: seq<Milk>, userId: int, price: real)
    requires Recost(records, userId, price).Some?
    ensures var r := Recost(records, userId, price).value;
      forall i :: 0 <= i < |r| ==>
        && r[i].id == records[i].id && r[i].userId == records[i].userId
        && r[i].date == records[i].date && r[i].milkQty == records[i].milkQty
        && (records[i].userId == userId ==> records[i].milkQty.Some? && r[i].cost == Some(records[i].milkQty.value * price))
        && (records[i].userId != userId ==> r[i] == records[i])
  {
    var r := Recost(records, userId, price).value;
    forall i | 0 <= i < |r| ensures records[i].userId == userId ==> records[i].milkQty.Some? {
      if records[i].userId == userId && records[i].milkQty.None? {
        assert false;
      }
    }
  }
}
