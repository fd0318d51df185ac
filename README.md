# Home milk calculator — a Dafny model

The home milk calculator is a small Flask application for keeping a household's daily milk ledger. Each user records how many litres were delivered on a day. The cost is the quantity times the user's price per litre. The home page groups the records by month, with one total per month and an overall total.

This project models the application's own logic, file by file, with these parts:

- **The user and record store.** The `user` and `milk` tables are the sequence fields of the `App.MilkStore` class. Every route body is a method on that class, returning an outcome datatype where the route would flash a message and redirect. The methods are login, registration, e-mail verification, the OAuth find-or-create, add, edit, delete and settings. A further method models the ORM cascade. `MilkStore.Valid` collects the schema's constraints:
  - unique user ids and e-mails;
  - primary keys handed out in increasing order;
  - with foreign-key enforcement, an existing owner for every record.

  Every method keeps `Valid`.
- **The monthly report** (the home route). The user's rows are read in `date DESC, id DESC` order. The model groups them with the loop the route uses, sums each month and the whole, and sorts the months newest first.
  - `Query` models the database order, taking SQLite's NULL-first, code-point string order. It proves that, with distinct ids, exactly one ordered arrangement exists.
  - `Report` proves the partition of the records:
    - every record with a month lands in exactly its month's bucket;
    - records without a month land in no bucket;
    - the overall total equals the sum of the monthly totals plus the costs of the undated records.
- **Date strings.** `Dates` models `strptime("%Y-%m-%d")`, including its regular-expression field widths and the leap-year calendar. It also models `strptime("%m-%Y")` and the `strftime` formats. `Helpers.GetMonthYear` models `get_month_year`, and is proved to agree with the month `add` stores.
- **The view helpers.** `login_required` is a method that runs the handler exactly when the session holds a user id. `recalc_monthly_totals` reads and groups records but changes nothing. `verify_token` turns every serializer failure into `None`.
- **The JSON Web Token guard.** `JwtAuth` builds the access and refresh claims from injected clocks. It also models:
  - the `Authorization` header split and the cookie fallback;
  - the decode wrapper;
  - the ordered chain of checks in `token_required`.

  Signing and signature checking are function parameters.
- **Configuration.** `Config` models the `DATABASE_URL` rewrite and fallback, and the `SECRET_KEY`, `SMTP_SERVER` and `SMTP_PORT` defaults.
- **The first version of the app** (`app.py`). `LegacyApp.LegacyStore` models it: a fixed price of 50.0 per litre, and a stored running total that later deletes leave stale.

Quantities, prices and costs are Python floats in the source. Here they are exact `real`s, and no rounding is reproduced. The source does no rounding of its own.

Clocks, randomness, password hashing, token signing and the OAuth provider exchange are passed in as parameters, or their result is an argument:

- `now` and `today`: `datetime.now()`, as seconds or as a `Date`;
- `randomHex`: `secrets.token_hex`;
- `hash` and `checkPassword`: the werkzeug password helpers;
- `unsign`: itsdangerous' timed signature check;
- `encode` and `decode`: PyJWT.

A form field converted with `float(...)` arrives as `Option<real>`, where `None` stands for the value on which `float` raises.

Files:

- `wrappers.dfy`: `Option`.
- `strings.dfy`: Python's `split`, `replace(…, 1)`, `startswith` and `int()`, and code-point string order.
- `dates.dfy`: the calendar, `strptime` and `strftime`.
- `config.dfy`: the configuration values.
- `models.dfy`: the two tables, their defaults, lookups and constraints.
- `query.dfy`: the `ORDER BY` orders.
- `report.dfy`: grouping, totals and the month sort.
- `helpers.dfy`: the view helpers.
- `jwt_auth.dfy`: the token helpers and guard.
- `app.dfy`: the store and its routes.
- `legacy_app.dfy`: the first version.

## Behaviour worth noting

- **Refresh tokens.** The code builds refresh claims but never rotates or revokes them. The `refresh_token` column of the user table is declared, and no route reads or writes it.
- **Rounding.** Monthly totals and the overall total are float sums. Nothing rounds them.
- **Order inside a month.** The home query orders records by the `DD-MM-YYYY` string descending, then by id descending. `Report.DescendingWithinMonth` proves this is descending day order within one month.
- **Cost.** The cost is stored when a record is added or edited. It changes afterwards only through the settings re-costing.
- **Negative quantities.** Any quantity that `float` reads is accepted, and so it is in the model.

## Model

| member | source | states |
|---|---|---|
| Models.NewUserDefaults | models/models.py:13-30 | a new user has price 50.0, currency `INR`, the column's default symbol, no refresh token, and is unverified |
| Models.DefaultSymbolIsNotRupeeSign | models/models.py:29 | the column default for `currency_symbol` is the three-character mis-decoded string, not the one-character rupee sign the settings form defaults to |
| Models.UserIndexById | models/models.py:16 | the position of a user with that primary key, and -1 exactly when no user has it (`session.get`) |
| Models.FindUserById | models/models.py:16 | `session.get(User, id)`: a user holding the id, found exactly when one exists |
| Models.FindUserByIdUnique | models/models.py:16 | with unique ids the lookup returns the one user holding the id |
| Models.UserIndexByEmail | models/models.py:17 | `filter_by(email=…).first()`: the first user with that e-mail, and -1 exactly when none has it |
| Models.PriceFor | models/models.py:27 | the owner's own price when the user row exists, 50.0 otherwise |
| Models.RecordsOf | models/models.py:44 | `filter_by(user_id=…)`: exactly the records of that owner |
| Models.RecordsNotOf | models/models.py:33 | the records the cascade keeps: exactly those of other owners |
| Models.RecordsOfIncreasing | models/models.py:39 | filtering by owner keeps primary keys in increasing order |
| Models.RecordsOfSnoc | models/models.py:44 | filtering a table with one more row appends that row exactly when it has the owner |
| Models.FindRecordIndex | app_refactored.py:357-360 | `filter_by(id=…, user_id=…)`: the row with that id owned by that user, -1 exactly when there is none |
| Config.NormaliseDatabaseUrl | utils/config.py:18-20 | a `postgres://` URL has that prefix replaced by `postgresql://` and the rest kept; any other value is unchanged |
| Config.DatabaseUri | utils/config.py:22-25 | an unset or empty URL gives `sqlite:///milk-calculation.db`; otherwise the normalised URL |
| Config.PostgresqlIsNotPostgres | utils/config.py:19 | `postgresql://…` never starts with `postgres://` |
| Config.NormaliseIdempotent | utils/config.py:19-20 | normalising twice is normalising once |
| Config.DatabaseUriNeverPostgresScheme | utils/config.py:18-25 | the configured URI never starts with `postgres://` |
| Config.LoadDefaults | utils/config.py:10-29 | the secret key is the environment's when non-empty and the random key otherwise; an empty `SMTP_SERVER` is kept but a missing one is `smtp.gmail.com`; a missing `SMTP_PORT` is 587; a missing `DATABASE_URL` is the SQLite file |
| Config.Load | utils/config.py:10-31 | the secret key is empty only when the random key is; the database URI never keeps the `postgres://` scheme; the e-mail address and password are present exactly when the environment sets them |
| Strings.Split | views/helpers.py:26 | `str.split(c)`: one more field than separators, no field holds the separator, and joining the fields gives the string back |
| Strings.SplitJoin | views/helpers.py:26 | splitting a join of separator-free fields gives those fields |
| Strings.ReplaceFirstAtPrefix | utils/config.py:20 | `replace(p, q, 1)` on a string starting with `p` swaps exactly that prefix |
| Strings.ParseIntOfDecimal | utils/config.py:29 | `int()` reads back every decimal numeral |
| Strings.ParseInt | utils/config.py:29 | `int()` succeeds exactly on digit groups with an optional sign, after stripping blanks; a negative result needs a leading `-` |
| Strings.LexLessTotal | app_refactored.py:268 | two different strings are ordered one way or the other by code points |
| Strings.LexLessTransitive | app_refactored.py:268 | code-point order is transitive |
| Dates.DaysInMonth | app_refactored.py:313 | months have 28 to 31 days, February 29 exactly in leap years, and April, June, September and November 30 |
| Dates.ParseIsoDate | app_refactored.py:313 | `strptime("%Y-%m-%d")` succeeds only on valid calendar dates |
| Dates.ParseIsoOfFormat | app_refactored.py:311-314 | every valid date written as `YYYY-MM-DD` parses back to itself |
| Dates.FormatIso | app_refactored.py:314 | the `%Y-%m-%d` form is ten characters with dashes at 4 and 7, and its three digit fields read back as the year, month and day |
| Dates.FormatDayMonthYear | app_refactored.py:315 | the `%d-%m-%Y` form is ten characters with dashes at 2 and 5, and its three digit fields read back as the day, month and year |
| Dates.FormatMonthYear | app_refactored.py:316 | the `%m-%Y` form is seven characters with a dash at 2, and its digit fields read back as the month and year |
| Dates.ParseMonthYear | app_refactored.py:281 | a month key parses only to a month 1-12 and a four-digit year; None where `strptime` raises |
| Dates.ParseMonthYearOfFormat | app_refactored.py:281 | every month key `add` writes parses back to its year and month under `%m-%Y` |
| Dates.LeapDayParses | app_refactored.py:313 | February 29 parses in leap years such as 2024 and 2000 |
| Dates.LeapDayRefused | app_refactored.py:313 | February 29 of a year that is not a leap year is refused |
| Dates.ShapeExamples | app_refactored.py:313 | unpadded month and day are accepted; trailing text, month 13 and year 0 are refused |
| Dates.DayMonthYearOrderWithinMonth | app_refactored.py:268 | within one month, `DD-MM-YYYY` strings compare exactly as their days do |
| Query.PrecedesTransitive | app_refactored.py:268 | the `date, id` order is transitive, ascending and descending |
| Query.PrecedesAsymmetric | app_refactored.py:268 | the `date, id` order is asymmetric |
| Query.PrecedesTotal | app_refactored.py:268 | rows with different ids are always ordered one way or the other |
| Query.OrderByCorrect | app_refactored.py:265-269 | the reference arrangement is ordered and is a permutation of its input |
| Query.OrderedUnique | app_refactored.py:265-269 | two ordered arrangements of the same rows, keyed by id, are equal |
| Report.Bucket | app_refactored.py:272-275 | a month's bucket holds exactly the records whose `month_year` is that month |
| Report.NoMonth | app_refactored.py:273 | the records the grouping skips: exactly those with a missing or empty `month_year` |
| Report.MonthsOf | app_refactored.py:272-275 | the dictionary's keys: each month once, and a month is listed exactly when some record has it |
| Report.GroupByMonth | app_refactored.py:272-275 | the grouping loop yields the dictionary's keys and, for each, exactly its bucket |
| Report.MonthlyTotals | app_refactored.py:277-279 | each month's total is the sum of its bucket's costs, a missing cost counting 0 |
| Report.SumCosts | app_refactored.py:279 | with no negative cost the sum is not negative; with every cost missing it is 0.0 |
| Report.Partition | app_refactored.py:272-275 | a record lands in its own month's bucket and in no other |
| Report.SortMonths | app_refactored.py:281 | the sort raises exactly when some key does not parse as `%m-%Y`; otherwise it gives the keys newest first by (year, month), as a permutation |
| Report.SortNewestFirstOrdered | app_refactored.py:281 | the sorted keys are newest first |
| Report.TotalSplitsByMonth | app_refactored.py:272-282 | the overall total is the sum of the monthly totals plus the costs of the records without a month |
| Report.TotalIsSumOfMonths | app_refactored.py:277-282 | when every record has a month, the overall total equals the sum of the monthly totals |
| Report.TotalCanExceedMonths | app_refactored.py:273-282 | a record without a month counts in the overall total and in no monthly total |
| Report.BucketOrdered | app_refactored.py:268-275 | a bucket keeps the query order |
| Report.MonthYearInjective | app_refactored.py:315-316 | different months of valid dates give different month keys |
| Report.DescendingWithinMonth | app_refactored.py:268 | within one month, the descending query order is descending day, then descending id |
| Helpers.Page.LoginRequired | views/helpers.py:12-20 | the handler runs exactly when the session holds a user id; otherwise the login message is flashed and the handler does not run |
| Helpers.GetMonthYear | views/helpers.py:23-29 | None for a missing or empty string; for any other string, a result exactly when it splits into three fields, and then everything after the first dash |
| Helpers.GetMonthYearExamples | views/helpers.py:23-29 | `05-01-2025` gives `01-2025`, and the empty string gives None |
| Helpers.GetMonthYearUnchecked | views/helpers.py:26-29 | the fields are not checked: `a-b-c` gives `b-c` |
| Helpers.GetMonthYearTwoFields | views/helpers.py:26-27 | a string with only two fields gives None |
| Helpers.MonthYearAgreesWithAdd | views/helpers.py:23-29 | for every date `add` stores, the helper returns the month `add` stores beside it |
| Helpers.RecalcMonthlyTotals | views/helpers.py:32-46 | reads the owner's records in `date, id` order and groups them: a month appears exactly when one of the owner's records has it, each group is ordered and is a permutation of that month's records; the table is unchanged |
| Helpers.BucketOfPermutation | views/helpers.py:41-44 | rearranging the rows rearranges every bucket the same way |
| Helpers.VerifyToken | views/helpers.py:55-62 | the e-mail exactly when the signature checks and the token is between 0 and `expiration` seconds old; every failure is None |
| Helpers.ExpiredLinkRefused | views/helpers.py:55-62 | a token more than an hour old never verifies |
| JwtAuth.TokenLifetimes | utils/jwt_auth.py:7-33 | both payloads carry the user, the e-mail and their type; against UTC a refresh token lives 30 days, an access token 24 hours plus the server's UTC offset |
| JwtAuth.AccessPayload | utils/jwt_auth.py:9-15 | exactly the five claims; type `access`, `iat` the clock reading, `exp` 24 hours later |
| JwtAuth.RefreshPayload | utils/jwt_auth.py:28-34 | exactly the five claims; type `refresh`, `iat` the clock reading, `exp` 30 days later |
| JwtAuth.GeneratedAccessTokenGranted | utils/jwt_auth.py:7-23 | a token `generate_access_token` builds for a registered user, sent as `Bearer <token>`, grants access as that user |
| JwtAuth.GeneratedRefreshTokenRefused | utils/jwt_auth.py:26-42 | a token `generate_refresh_token` builds, sent the same way, is refused as the wrong type |
| JwtAuth.DecodeToken | utils/jwt_auth.py:45-57 | the claims exactly when the decoder decodes; expired and invalid tokens are None |
| JwtAuth.HeaderToken | utils/jwt_auth.py:67-72 | the second space-separated field, missing exactly when the header has no space |
| JwtAuth.HeaderTokenOf | utils/jwt_auth.py:70 | any scheme word followed by a space gives the token after it: the scheme is not checked |
| JwtAuth.HeaderWithoutSpaceRefused | utils/jwt_auth.py:67-72 | a header without a space is refused as badly formatted, whatever the cookie holds |
| JwtAuth.CookieFallback | utils/jwt_auth.py:75-76 | without a header, or with an empty header token, the cookie's token is used |
| JwtAuth.HeaderBeatsCookie | utils/jwt_auth.py:67-76 | a non-empty header token wins over the cookie |
| JwtAuth.NoTokenMissing | utils/jwt_auth.py:78-79 | with neither a header nor a cookie the guard answers "missing" |
| JwtAuth.ChooseToken | utils/jwt_auth.py:67-79 | a malformed header exactly when the header has no space; a chosen token is non-empty and is the header's token or the cookie; no token only when the cookie is absent or empty |
| JwtAuth.ClaimedUser | utils/jwt_auth.py:95 | a found user is in the table and has the claimed integer id; nobody is found exactly for a string claim or an id no user has |
| JwtAuth.TokenDecision | utils/jwt_auth.py:64-103 | each refusal is tied to its check: format, missing token, undecodable or empty payload; a granted user is in the table |
| JwtAuth.ApiRequest.TokenRequired | utils/jwt_auth.py:60-105 | the guard's outcome is the ordered chain of checks; on success the current user is set and the handler runs once, otherwise neither happens |
| JwtAuth.GrantedOnlyForAccessTokens | utils/jwt_auth.py:88-89 | access is granted only to a payload of type `access` |
| JwtAuth.RefreshTokenRefused | utils/jwt_auth.py:88-89 | a decoded refresh token is always refused |
| JwtAuth.AccessTokenGranted | utils/jwt_auth.py:95-103 | a valid access token for an existing user grants access as that user |
| App.AddDate | app_refactored.py:311-324 | the submitted date when it parses, today otherwise, always a valid date |
| App.AddDateOfPickedDate | app_refactored.py:311-316 | a date picked in the form is stored as itself, and `get_month_year` of it is the stored month |
| App.NewRecord | app_refactored.py:309-340 | the inserted row is stamped with the date and its month from the same parse, and costs its quantity at the price |
| App.RowsOnDate | app_refactored.py:326-328 | exactly the owner's rows stored under that date string |
| App.EditedRecord | app_refactored.py:366-385 | the new date and month from one parse when the submitted date parses, the old ones otherwise; always the new quantity and its cost at the price |
| App.Recost | app_refactored.py:459-465 | None exactly when an owned record has no quantity; otherwise each owned record costs its quantity at the new price and the others are unchanged |
| App.RecostOne | app_refactored.py:463-465 | a record of the user with a quantity costs that quantity at the new price; every other field is kept, and every other record is unchanged |
| App.RecostRecords | app_refactored.py:459-468 | the re-costing loop computes `Recost` and counts the owner's records |
| App.RecostedCosts | app_refactored.py:464-465 | after re-costing, ids, owners, dates and quantities are kept, and every owned record costs its quantity at the new price |
| App.MilkStore.constructor | models/models.py:13-46 | the empty store satisfies every constraint |
| App.MilkStore.Login | app_refactored.py:78-100 | an existing session skips the form; otherwise the credentials are refused exactly when no user has the e-mail, the hash is missing or empty, or the password does not match; an accepted user is logged in with their session exactly when verified, and refused as unverified otherwise |
| App.VerifiedUserLogsIn | app_refactored.py:89-96 | a verified user whose password matches a non-empty hash gets a session with their id and name |
| App.EmptyHashRefused | app_refactored.py:89 | an empty password hash is refused, whatever the password check would say |
| App.SessionName | app_refactored.py:94 | the session name is the username or the e-mail, and is empty only when the e-mail is |
| App.UnverifiedNeverLogsIn | app_refactored.py:89-92 | an unverified user never gets a session from the password form |
| App.OAuthAccountHasNoPasswordLogin | app_refactored.py:89 | a user without a password hash cannot use the password form |
| App.MilkStore.Register | app_refactored.py:103-148 | refused for a session, for differing passwords and for a registered e-mail, in that order; otherwise one verified user is appended with the password's hash; records are untouched |
| App.MilkStore.VerifyEmail | app_refactored.py:151-166 | an invalid link or an empty e-mail changes nothing; otherwise the first user with the e-mail, and only that user, becomes verified |
| App.MilkStore.OAuthSignIn | app_refactored.py:184-241 | the first user with the e-mail signs in unchanged; otherwise one verified provider user is created; without an e-mail nothing is stored |
| App.MilkStore.Add | app_refactored.py:293-346 | a bad quantity, an existing record on that date for that owner, or several, are refused with the table unchanged; otherwise exactly one row is appended, holding the quantity at the owner's price (50.0 without a user row) and the date and month of one parse |
| App.MilkStore.Edit | app_refactored.py:351-390 | a record that is not the user's, or a bad quantity, changes nothing; otherwise exactly that record is replaced by its edited form, without a duplicate-date check |
| App.MilkStore.Delete | app_refactored.py:404-423 | a record that is not the user's changes nothing; otherwise exactly that record is removed |
| App.MilkStore.Settings | app_refactored.py:430-476 | a missing user, a price that does not parse and a price not above 0 change nothing; otherwise the price, currency and symbol are saved, and only when asked and the price changed are the owner's records re-costed; a record without a quantity leaves the records untouched |
| App.MilkStore.DeleteUser | models/models.py:33 | the user and exactly that user's records go; every other user and record stays |
| App.MilkStore.Home | app_refactored.py:255-290 | rows in `date DESC, id DESC` order, a bucket per month they hold, each month's total, months newest first, the overall total, its split into months, and the owner's currency symbol; a missing user and an unparseable month are the error outcomes |
| App.HomeRowsAreTheQueryAnswer | app_refactored.py:265-269 | any ordered arrangement of the owner's rows is the one the model returns |
| LegacyApp.LegacyIndex | app.py:78 | `get_or_404`: the record with the id, -1 exactly when none has it |
| LegacyApp.LegacyStore.Add | app.py:83-112 | a bad quantity stores nothing; otherwise one record is appended, costing quantity × 50.0, with a running total of every stored cost (0.0 for none) plus its own, dated today |
| LegacyApp.LegacyStore.Delete | app.py:74-81 | an unknown id answers 404 and removes nothing; otherwise exactly that record is removed |
| LegacyApp.LegacyStore.Home | app.py:63-68 | every record, in ascending id order |
| LegacyApp.AddKeepsRunningTotals | app.py:97-104 | appending by `add` keeps each record's total equal to the sum of the costs up to it |
| LegacyApp.SumStoredCosts | app.py:97 | with no negative cost the sum is not negative; with every cost missing it is 0.0, as `or 0.0` gives |
| LegacyApp.LastTotalIsSum | app.py:97-104 | with running totals, the newest record's total is the sum of every stored cost |
| LegacyApp.DeleteLeavesStaleTotal | app.py:74-98 | the totals are never recomputed: deleting an early record leaves a later total stale |

## Left out

- Floating point: `nan`, infinities and the rounding of `qty * price` are not modelled; quantities, prices and costs are exact reals.
- What `float()` accepts: a form value arrives already converted, as `Option<real>`. The defaults `"0"` (add) and `0` (edit) for a missing quantity become `Some(0.0)` at the caller.
- `int()` of a record id from the form or the query string (`app_refactored.py:357`, `app_refactored.py:394`, `app_refactored.py:411`, `app.py:78`): a bad id raises, and that crash is not modelled. Ids arrive as integers.
- Form fields that register reads without defaults: a missing e-mail or password makes the route fail inside the database or the hash function. The model takes them as strings.
- The OAuth and e-mail network traffic:
  - the Google and GitHub token exchanges;
  - GitHub's `user/emails` fallback loop and its `name or login` choice;
  - sending the verification e-mail.

  The callbacks are modelled by their effect on the store, given the e-mail, name and provider id they obtained.
- Password hashing, itsdangerous signing and PyJWT's HS256 signing and expiry check are function parameters. The token a callback or registration would send is not built.
- Clocks: `datetime.now()` is the `now` or `today` argument. `created_at` is a number the caller supplies.
- Refresh-token rotation, revocation and logout: no route reads or writes the `refresh_token` column. It is modelled only as a field that new users leave empty.
- `App.MilkStore.Add`, `App.MilkStore.Register`, `App.MilkStore.OAuthSignIn` and `LegacyApp.LegacyStore.Add`: new ids come from a counter that never reuses an id. The id columns are `INTEGER PRIMARY KEY` without `AUTOINCREMENT`, so SQLite gives a new row the largest id plus one and may reuse the id of a deleted newest row. Only a PostgreSQL sequence behaves as the model does.
- `LegacyApp.LegacyStore.Add`: `app.py` stores the raw form string in `milk_qty`. SQLite's REAL affinity converts it only when it looks numeric, so a value such as `1_000` or `inf` passes `float()` but is stored as text. The model stores the parsed number.
- `App.MilkStore.Login`: `checkPassword` stands for werkzeug's check and is not constrained; only the empty-hash refusal of the truth test is modelled.
- `JwtAuth.AccessPayload`: `generate_access_token` reads `datetime.now()` twice, once for `exp` and once for `iat`. The model uses one clock reading for both, so `exp` is exactly 24 hours after `iat`.
- Concurrency: the check-then-insert race of `add` and every other interleaving of requests.
- Database details:
  - The database is SQLite: NULL sorts first and strings compare by code point.
  - PostgreSQL's collation and NULL order are not modelled.
  - With foreign keys off (SQLite's default), `add` may insert a row for a missing user. With them on (`MilkStore.enforcesForeignKeys`), the insert is refused.
- Flask itself: routing, templates, `flash`, redirects and the session cookie. The GET renders of add, edit, register, login and settings are not modelled; `edit`'s GET repeats the lookup that `Edit` models.
- Header names in the JWT guard are matched exactly; Werkzeug's case-insensitive header lookup is not modelled.
- `JwtAuth.ClaimedUser`: it looks users up by an integer claim only. A `user_id` claim holding a string is treated as matching nobody; SQLAlchemy might coerce it.
- `verify_token` on a token signed in the future: it is treated as expired, as itsdangerous does for a negative age.
- Unicode digits: `int()` and `strptime` also accept non-ASCII digits, but here only `0`–`9` count.
- `Dates.FormatDayMonthYear`: `strftime("%Y")` of a year below 1000 is written with four digits here. The C library may write fewer.
- `Report.SortMonths`: Python's sort is stable for keys of the same month. The model is only proved to give the keys newest first as a permutation, not that equal keys keep their order; `GroupByMonth` gives each key once.
- The migration scripts, the maintenance scripts and the auto-migration block at `app_refactored.py:47-71`: raw DDL with no logic beyond adding missing columns.
- The module-level loop of `app.py` (lines 41-44): it changes costs in memory only, for printing. The `edit` stub of `app.py` (lines 70-72) does nothing.
