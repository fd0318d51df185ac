/**
 * The two tables, `user` and `milk`, as value types, with the column
 * defaults and the constraints the schema declares stated as predicates over
 * a table's rows.  A nullable column is an `Option`.
 */
module Models {
  import opened Wrappers

  datatype User = User(
    id: int,
    email: string,                 // NOT NULL, UNIQUE
    username: Option<string>,
    passwordHash: Option<string>,
    oauthProvider: Option<string>,
    oauthId: Option<string>,
    emailVerified: bool,
    createdAt: int,                // local time of insertion, supplied by the caller
    milkPricePerLitre: real,
    currency: string,
    currencySymbol: string,
    refreshToken: Option<string>)  // one nullable slot; nothing in the application reads or writes it

  datatype Milk = Milk(
    id: int,
    date: Option<string>,          // "DD-MM-YYYY"
    milkQty: Option<real>,
    cost: Option<real>,            // stored, not recomputed on read
    monthYear: Option<string>,     // "MM-YYYY"
    userId: int)                   // NOT NULL, references user.id

  const DefaultMilkPrice: real := 50.0
  const DefaultCurrency := "INR"
  /** The column default as the model file spells it: the UTF-8 bytes of the rupee sign read as Windows-1252. */
  const DefaultCurrencySymbol := "\U{00E2}\U{201A}\U{00B9}"
  /** The rupee sign, which the settings form and the start-up column migration use. */
  const RupeeSign := "\U{20B9}"

  /** A new `user` row; arguments left out take the column defaults. */
  function NewUser(id: int, email: string, createdAt: int,
                   username: Option<string> := None, passwordHash: Option<string> := None,
                   oauthProvider: Option<string> := None, oauthId: Option<string> := None,
                   emailVerified: bool := false): User
  {
    User(id, email, username, passwordHash, oauthProvider, oauthId, emailVerified, createdAt,
         DefaultMilkPrice, DefaultCurrency, DefaultCurrencySymbol, None)
  }

  lemma NewUserDefaults(id: int, email: string, createdAt: int)
    ensures var u := NewUser(id, email, createdAt);
      && u.milkPricePerLitre == 50.0 && u.currency == "INR" && !u.emailVerified
      && u.currencySymbol == DefaultCurrencySymbol && u.refreshToken == None
  {
  }

  /** The model's default symbol is not the rupee sign the rest of the application writes. */
  lemma DefaultSymbolIsNotRupeeSign()
    ensures DefaultCurrencySymbol != RupeeSign && |DefaultCurrencySymbol| == 3
  {
  }

  // ---------------------------------------------------------------------
  // Table constraints
  // ---------------------------------------------------------------------

  predicate UniqueUserIds(users: seq<User>) {
    forall i, j :: 0 <= i < j < |users| ==> users[i].id != users[j].id
  }

  predicate UniqueEmails(users: seq<User>) {
    forall i, j :: 0 <= i < j < |users| ==> users[i].email != users[j].email
  }

  predicate HasUser(users: seq<User>, id: int) {
    exists i :: 0 <= i < |users| && users[i].id == id
  }

  /** The foreign key milk.user_id -> user.id. */
  predicate OwnersExist(records: seq<Milk>, users: seq<User>) {
    forall i :: 0 <= i < |records| ==> HasUser(users, records[i].userId)
  }

  /** Primary keys in insertion order: each new row gets a larger id. */
  predicate IdsIncreasing(records: seq<Milk>) {
    forall i, j :: 0 <= i < j < |records| ==> records[i].id < records[j].id
  }

  // ---------------------------------------------------------------------
  // Lookups
  // ---------------------------------------------------------------------

  /** Position of the user with that primary key, or -1. */
  function UserIndexById(users: seq<User>, id: int): (k: int)
    ensures -1 <= k < |users|
    ensures k >= 0 ==> users[k].id == id
    ensures k == -1 <==> !HasUser(users, id)
  {
    if |users| == 0 then -1
    else if users[0].id == id then 0
    else
      var k := UserIndexById(users[1..], id);
      assert forall i :: 1 <= i < |users| ==> users[i] == users[1..][i - 1];
      if k == -1 then -1 else k + 1
  }

  /** `session.get(User, id)`. */
  function FindUserById(users: seq<User>, id: int): (r: Option<User>)
    ensures r.Some? <==> HasUser(users, id)
    ensures r.Some? ==> r.value in users && r.value.id == id
  {
    var k := UserIndexById(users, id);
    if k == -1 then None else Some(users[k])
  }

  /** With unique ids the lookup finds the one user holding the id. */
  lemma FindUserByIdUnique(users: seq<User>, i: int)
    requires UniqueUserIds(users) && 0 <= i < |users|
    ensures UserIndexById(users, users[i].id) == i
    ensures FindUserById(users, users[i].id) == Some(users[i])
  {
    var j := UserIndexById(users, users[i].id);
    if j != i {
      assert false;
    }
  }

  /** `query(User).filter_by(email=email).first()`: the first user with that e-mail, or -1. */
  function UserIndexByEmail(users: seq<User>, email: string): (k: int)
    ensures -1 <= k < |users|
    ensures k >= 0 ==> users[k].email == email && forall i :: 0 <= i < k ==> users[i].email != email
    ensures k == -1 <==> forall i :: 0 <= i < |users| ==> users[i].email != email
  {
    if |users| == 0 then -1
    else if users[0].email == email then 0
    else
      var k := UserIndexByEmail(users[1..], email);
      assert forall i :: 1 <= i < |users| ==> users[i] == users[1..][i - 1];
      if k == -1 then -1 else k + 1
  }

  /** The price the routes charge: the user's own, or 50.0 when the user row is missing. */
  function PriceFor(users: seq<User>, userId: int): (p: real)
    ensures HasUser(users, userId) ==> exists i :: 0 <= i < |users| && users[i].id == userId && users[i].milkPricePerLitre == p
    ensures !HasUser(users, userId) ==> p == DefaultMilkPrice
  {
    var k := UserIndexById(users, userId);
    if k == -1 then DefaultMilkPrice else users[k].milkPricePerLitre
  }

  /** `filter_by(user_id=userId)`, in table order. */
  function RecordsOf(records: seq<Milk>, userId: int): (r: seq<Milk>)
    ensures forall m :: m in r <==> m in records && m.userId == userId
    ensures |r| <= |records|
  {
    if |records| == 0 then []
    else
      var rest := RecordsOf(records[1..], userId);
      assert forall m :: m in records <==> m == records[0] || m in records[1..];
      if records[0].userId == userId then [records[0]] + rest else rest
  }

  /** The rows the cascade keeps when the user goes: those of every other user. */
  function RecordsNotOf(records: seq<Milk>, userId: int): (r: seq<Milk>)
    ensures forall m :: m in r <==> m in records && m.userId != userId
  {
    if |records| == 0 then []
    else
      var rest := RecordsNotOf(records[1..], userId);
      assert forall m :: m in records <==> m == records[0] || m in records[1..];
      if records[0].userId != userId then [records[0]] + rest else rest
  }

  lemma IncreasingTail(records: seq<Milk>)
    requires |records| > 0 && IdsIncreasing(records)
    ensures IdsIncreasing(records[1..])
    ensures forall m :: m in records[1..] ==> records[0].id < m.id
  {
    forall i, j | 0 <= i < j < |records[1..]| ensures records[1..][i].id < records[1..][j].id {
      assert records[1..][i] == records[i + 1] && records[1..][j] == records[j + 1];
    }
  }

  lemma ConsIncreasing(x: Milk, a: seq<Milk>)
    requires IdsIncreasing(a) && forall m :: m in a ==> x.id < m.id
    ensures IdsIncreasing([x] + a)
  {
    forall i, j | 0 <= i < j < |[x] + a| ensures ([x] + a)[i].id < ([x] + a)[j].id {
      assert ([x] + a)[j] == a[j - 1];
      if i > 0 { assert ([x] + a)[i] == a[i - 1]; }
    }
  }

  /** Filtering by owner keeps the ids increasing. */
  lemma {:induction false} RecordsOfIncreasing(records: seq<Milk>, userId: int)
    requires IdsIncreasing(records)
    ensures IdsIncreasing(RecordsOf(records, userId))
    ensures IdsIncreasing(RecordsNotOf(records, userId))
  {
    if |records| > 0 {
      IncreasingTail(records);
      RecordsOfIncreasing(records[1..], userId);
      if records[0].userId == userId {
        ConsIncreasing(records[0], RecordsOf(records[1..], userId));
      } else {
        ConsIncreasing(records[0], RecordsNotOf(records[1..], userId));
      }
    }
  }

  lemma {:induction false} RecordsOfSnoc(records: seq<Milk>, r: Milk, userId: int)
    ensures RecordsOf(records + [r], userId) == RecordsOf(records, userId) + (if r.userId == userId then [r] else [])
  {
    if |records| > 0 {
      assert (records + [r])[1..] == records[1..] + [r];
      RecordsOfSnoc(records[1..], r, userId);
    } else {
      assert records + [r] == [r];
      assert [r][1..] == [];
    }
  }

  /**
   * `filter_by(id=id, user_id=userId).scalar_one_or_none()`: the index of
   * the row with that id owned by that user, or -1.
   */
  function FindRecordIndex(records: seq<Milk>, id: int, userId: int): (k: int)
    ensures -1 <= k < |records|
    ensures k >= 0 ==> records[k].id == id && records[k].userId == userId
    ensures k == -1 <==> forall i :: 0 <= i < |records| ==> !(records[i].id == id && records[i].userId == userId)
  {
    if |records| == 0 then -1
    else if records[0].id == id && records[0].userId == userId then 0
    else
      var k := FindRecordIndex(records[1..], id, userId);
      assert forall i :: 1 <= i < |records| ==> records[i] == records[1..][i - 1];
      if k == -1 then -1 else k + 1
  }
}
