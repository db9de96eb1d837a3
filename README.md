# crublibrary-dashboard: a Dafny model of the credit-metered CRUD API

The system is a CRUD API with metering. A user signs in with Google. The
sign-in creates their User row with 4 free credits and an API key of the form
`clapi_<random>`. Requests to `/api/items` carry that key. The credit gate
(`validateKeyAndDecrementCredits`) looks the key up and refuses an unknown key
with 403 and an empty balance with 429. Otherwise it moves one credit from
`credits` to `creditsUsed` and hands the request on.

The dashboard's own `/api/crud` routes are addressed by Google id instead of
by key. POST charges by overwriting the credit columns, and GET lists the
user's items. Both record the request in an API usage log. Each user may
recharge once. The recharge adds a fixed amount and sets the `recharged`
flag for good.

The model has two layers:

- **The database (`Store`).** The database is the Prisma tables User, Item,
  RechargeLog and ApiUsageLog, kept as sequences of rows. `WellFormed`
  states the constraints the database enforces:
  - the unique indexes of User (id, email, googleId, apiKey);
  - autoincrement item ids;
  - the foreign keys to User.
- **The handlers as step functions.** Each library function and route
  handler is a pure function `F(t: Tables, …): Step<R>`. It gives the reply
  and the database after the call. The handler itself is a method on the
  `Database` class. Each method is proved to do exactly what its step
  function says (`Step(r, db.State()) == F(old(db.State()), …)`), and to
  keep `Valid()`. The properties are lemmas about the step functions.

Inputs that come from outside the program are parameters of the model:

- the clock (`now`);
- random values (a new item's `txHash`, the random text of an API key, the
  id the database generates for a new user);
- Google's verdict on an ID token (`Verification`);
- `NODE_ENV === 'development'` (`devMode`);
- database failures, where the source catches them (`fault`, `gateFault`,
  `logFault`).

Request bodies are `Body = Malformed | NullBody | Object(fields)`:

- `Malformed` is text that is not JSON;
- `NullBody` is the literal `null`;
- `Object(fields)` holds JSON values.

The guards follow JavaScript truthiness (`Http.Truthy`, `Http.Present`).
`parseInt(s, 10)` is modelled as `JsString.ParseInt`, and
`split('Bearer ')[1]` as `JsString.SplitSecond`.

Where the code does something other than its comments and names promise,
the model follows the code:

- **Recharge guard.** `rechargeUserCredits` (lib/db/users.ts:66-76)
  promises to check that the user has not recharged before it proceeds. The
  code reads the row and then updates it without a guard in the same
  statement, so two requests at once could both pass. The model runs
  requests one at a time, so the race is not represented (see Left out).
- **"No credits" status.** The two checks for an empty balance answer
  differently: 429 in the gate and 403 in `/api/crud`. The model keeps both
  (`CrudRoute.NoCreditsStatusesDiffer`).
- **Recharge route.** The comment at app/api/credits/recharge/route.ts:40
  says the route adds credits and clears the user's recharge option. As written it
  never does, because it reads a column that does not exist (see Findings).
- **Flag reset.** The recharge is once per user (lib/db/users.ts:66-76:
  it fails when the user has already recharged). The `/api/crud` POST as
  written writes the negation of the flag back, so the flag is reset and a
  second recharge succeeds (see Findings).

## Model

| member | source | states |
|---|---|---|
| Store.FindUser | lib/api-utils.ts:18-21 | `findUnique` on a unique column: the index found holds the key, and nothing is found exactly when no row holds it |
| Store.FindUserIsTheRow | lib/api-utils.ts:18-21 | under the unique indexes, the lookup of a row's own key finds that row |
| Store.KeepsKeysFind | lib/db/users.ts:52-59 | an update that writes no unique column leaves every lookup result where it was |
| Store.FindUserAppend | app/api/auth/google/callback/route.ts:85 | after an insert, a lookup finds the new row exactly when no earlier row held the key |
| Store.AppendUnique | app/api/auth/google/callback/route.ts:85 | inserting a row none of whose unique values is taken keeps the unique indexes |
| Store.KeepsKeysWellFormed | lib/db/users.ts:52-59 | rewriting user rows without touching a unique column keeps every database constraint |
| Store.FindItem | lib/db/crudItems.ts:90-93 | `findUnique` on Item: the row found has the id, and nothing is found exactly when no row has it |
| ApiUtils.Charge | lib/api-utils.ts:16-47 | the gate sets exactly one of user and error; the error is 403, 429 or 500, and 500 exactly on a database failure, which writes nothing; the database changes exactly when the request is admitted; only the user table can change, with every row kept and its unique columns unchanged (which columns change is in `ChargeConserves` and `AdmittedChargesOwner`) |
| ApiUtils.ChargeConserves | lib/api-utils.ts:32-39 | every row keeps its `credits + creditsUsed` total and its recharge flag, and a non-negative balance stays non-negative |
| ApiUtils.UnknownKeyRefused | lib/api-utils.ts:23-25 | an unknown key gets 403 and changes nothing |
| ApiUtils.AdmittedChargesOwner | lib/api-utils.ts:27-41 | an admitted call belongs to the key's owner, who had a positive balance; it moves exactly one credit on that row, touches no other row, and returns the owner's id |
| ApiUtils.ChargeKeepsWellFormed | lib/api-utils.ts:32-39 | the gate keeps the database constraints |
| ApiUtils.ChargeOwner | lib/api-utils.ts:27-41 | for the key's row: 429 with nothing written when the balance is not positive, else admitted and debited by one |
| ApiUtils.DrainStep | lib/api-utils.ts:27-41 | one call leaves the key on the same row with the same id, one credit lower while the balance was positive |
| ApiUtils.DrainsResults | lib/api-utils.ts:27-41 | of `m` consecutive calls from a balance of `n`, exactly the first `n` are admitted and the rest get 429 |
| ApiUtils.RunKeepsRow | lib/api-utils.ts:32-39 | any number of calls leave the key on the same row, which keeps its id |
| ApiUtils.DrainsBalance | lib/api-utils.ts:32-39 | after `m` calls from a balance of `n >= 0`, `min(m, n)` credits have moved from `credits` to `creditsUsed` |
| ApiUtils.UnknownKeyIdempotent | lib/api-utils.ts:23-25 | any number of calls with an unknown key are all refused with 403 and change nothing |
| ApiUtils.ValidateKeyAndDecrementCredits | lib/api-utils.ts:16-47 | the method returns what `Charge` returns and leaves the state `Charge` gives; it keeps `Valid()` |
| Users.ToClient | lib/db/users.ts:19-29 | the client view of a row: `credits` as `creditsRemaining` and `canRecharge` = not recharged; that the lookup returns the holder's view is `Users.GetUserByGoogleIdIsTheRow` |
| Users.GetUserByGoogleId | lib/db/users.ts:11-34 | null exactly when no user has the Google id; otherwise the client view (`ToClient`) of a row holding it: all nine fields, `credits` as `creditsRemaining`, and `canRecharge` true exactly when not recharged |
| Users.GetUserByGoogleIdIsTheRow | lib/db/users.ts:11-34 | under the unique indexes, the lookup of a row's Google id returns that row's client view |
| Users.SetCredits | lib/db/users.ts:45-64 | success exactly when the user exists; a missing user is P2025 with nothing written; only the user table changes |
| Users.SetCreditsWrites | lib/db/users.ts:45-64 | the write goes to the row with that id, sets exactly the three credit columns, and changes no key |
| Users.SetCreditsKeepsWellFormed | lib/db/users.ts:45-64 | overwriting the credit columns keeps the database constraints |
| Users.SetCreditsOverwrites | lib/db/users.ts:52-59 | two updates in a row leave what the second says |
| Users.UpdateUserCredits | lib/db/users.ts:45-64 | the method returns what `SetCredits` returns and leaves the state it gives; it keeps `Valid()` |
| Users.Recharge | lib/db/users.ts:77-111 | an error exactly when nothing is written, UserNotFound exactly for an unknown id; on success the row had not recharged, gets `credits + amount` and `recharged`, and one successful log entry is appended; the flag never goes back to false |
| Users.RechargeOnlyOnce | lib/db/users.ts:87-89 | after a successful recharge, the next one fails with AlreadyRecharged and writes nothing |
| Users.RechargeKeepsWellFormed | lib/db/users.ts:91-104 | a recharge keeps the database constraints, including the log's foreign key |
| Users.RechargeRunAfterRecharged | lib/db/users.ts:87-89 | once recharged, any series of recharge requests succeeds zero times and changes nothing |
| Users.RechargeAtMostOnce | lib/db/users.ts:77-111 | of any series of recharge requests, exactly one succeeds when the user exists, has not recharged and sent one, none otherwise; the log grows by the number of successes |
| Users.RechargeUserCredits | lib/db/users.ts:77-111 | the method returns what `Recharge` returns and leaves the state it gives; it keeps `Valid()` |
| CrudItems.Create | lib/db/crudItems.ts:13-38 | success exactly for a numeric value and an existing user; a non-number is a validation error, an unknown user a foreign-key error, both with nothing written; on success one item with the next id is appended and the counter advances |
| CrudItems.CreateFreshId | lib/db/crudItems.ts:13-38 | a created item's id was not in use, and the database stays well formed |
| CrudItems.CreateCrudItem | lib/db/crudItems.ts:13-38 | the method returns what `Create` returns and leaves the state it gives; it keeps `Valid()` |
| CrudItems.ItemsByUser | lib/db/crudItems.ts:46-72 | the result holds exactly the user's items, each as often as it is stored, newest first |
| CrudItems.ItemsByUserMembers | lib/db/crudItems.ts:46-72 | an item is listed exactly when it is stored and belongs to the user |
| CrudItems.UpdateValue | lib/db/crudItems.ts:82-107 | an unreadable id is `Invalid item ID`; an id outside the 32-bit range, or a value that is neither a number nor `undefined`, a validation error; a missing item P2025; none of them writing; success exactly otherwise, and then only that item's value changes, to the number given, or not at all for `undefined` |
| CrudItems.UpdateKeepsWellFormed | lib/db/crudItems.ts:82-107 | an update keeps the database constraints |
| CrudItems.UpdateIgnoresTrailingText | lib/db/crudItems.ts:84-88 | an id string `"<n><non-digit>…"` acts exactly as `"<n>"` |
| CrudItems.UpdateCrudItem | lib/db/crudItems.ts:82-107 | the method returns what `UpdateValue` returns and leaves the state it gives; it keeps `Valid()` |
| CrudItems.RemoveAt | lib/db/crudItems.ts:124-126 | the table without one row: one shorter, and the same multiset minus that row |
| CrudItems.Delete | lib/db/crudItems.ts:116-136 | an unreadable id is `Invalid item ID` and an id outside the 32-bit range a validation error, both rethrown; `true` exactly when an item has the id, which is then removed; otherwise `false` and nothing written |
| CrudItems.DeleteRemovesId | lib/db/crudItems.ts:116-136 | after a successful delete no item has the id, and the database stays well formed |
| CrudItems.RemoveAtKeepsWellFormed | lib/db/crudItems.ts:124-126 | removing one row keeps the item constraints, and no remaining row has the removed id |
| CrudItems.DeleteTwice | lib/db/crudItems.ts:131-133 | a second delete of the same id reports `false` and writes nothing |
| CrudItems.DeleteIgnoresTrailingText | lib/db/crudItems.ts:116-124 | an id string `"<n><non-digit>…"` deletes exactly as `"<n>"` |
| CrudItems.DeleteCrudItem | lib/db/crudItems.ts:116-136 | the method returns what `Delete` returns and leaves the state it gives; it keeps `Valid()` |
| ApiUsage.RecordUsage | lib/db/apiUsage.ts:15-50 | a failure writes nothing; otherwise exactly one entry is appended to the usage log, and nothing else changes |
| ApiUsage.RecordUsageOutcome | lib/db/apiUsage.ts:23-42 | recorded exactly when there is no fault and a short id is a user's id, or a long id is a user's Google id; the entry names that user's internal id and `"<method> <endpoint>"` |
| ApiUsage.RecordUsageKeepsWellFormed | lib/db/apiUsage.ts:36-42 | recording keeps the log's foreign key and the other constraints |
| ApiUsage.RecordApiUsage | lib/db/apiUsage.ts:15-50 | the method returns what `RecordUsage` returns and leaves the state it gives; it keeps `Valid()` |
| ApiUsage.UsageByUser | lib/db/apiUsage.ts:58-70 | exactly the user's log entries, each as often as stored, most recent first |
| ApiUsage.Stats | lib/db/apiUsage.ts:83-117 | the total is the number of the user's entries; both groupings sum to it, have no empty group and no group twice |
| ApiUsage.EndpointStatsCount | lib/db/apiUsage.ts:86-92 | each endpoint group counts exactly the user's entries with that endpoint |
| ApiUsage.StatusStatsCount | lib/db/apiUsage.ts:95-101 | each status group counts exactly the user's entries with that status code |
| ApiUsage.RecordUsageCountsOnce | lib/db/apiUsage.ts:36-42 | a recorded request adds one to the total of the user it names and nothing to anyone else's |
| ApiUsage.ShortGoogleIdNotRecorded | lib/db/apiUsage.ts:26 | a Google id of at most 30 characters that is no user's internal id is not recorded |
| RechargeRoute.PostAsWrittenStep | app/api/credits/recharge/route.ts:7-78 | as written, the handler never writes and never returns data; an unreadable body is 500, a falsy `userId` 400, a non-string one 500, an id no user has 404 |
| RechargeRoute.PostNeverSucceeds | app/api/credits/recharge/route.ts:33-38 | as written, no reply is 200, and every request naming an existing user gets 403 |
| RechargeRoute.PostAsWritten | app/api/credits/recharge/route.ts:7-78 | the method answers what `PostAsWrittenStep` answers |
| RechargeRoute.PostStep | app/api/credits/recharge/route.ts:7-78 | corrected: an unreadable body is 500, a falsy `userId` 400, a non-string one 500, an id no user has 404, and a user who has recharged 403 on every call, none of them writing; 200 exactly for an existing user who has not recharged, who then gets 4 more credits and the flag; the reply echoes the row with `canRecharge` false |
| RechargeRoute.PostRechargesOnce | app/api/credits/recharge/route.ts:33-47 | after a successful recharge the same request gets 403 and writes nothing |
| RechargeRoute.OnlyUserIdRead | app/api/credits/recharge/route.ts:11 | only `userId` is read from the body, so the caller cannot choose the amount |
| RechargeRoute.PostKeepsWellFormed | app/api/credits/recharge/route.ts:41-47 | the corrected handler keeps the database constraints |
| RechargeRoute.Post | app/api/credits/recharge/route.ts:7-78 | the method returns what `PostStep` returns and leaves the state it gives; it keeps `Valid()` |
| ItemsRoute.ExtractKey | app/api/items/route.ts:20 | a key is found exactly when the Authorization header has text after `Bearer ` or X-API-Key is non-empty; the Bearer text wins |
| ItemsRoute.BearerKeyExtracted | app/api/items/route.ts:20 | `Authorization: Bearer <key>` yields exactly the key |
| ItemsRoute.OtherAuthorizationIgnored | app/api/items/route.ts:20 | an Authorization header without `Bearer ` leaves the X-API-Key value |
| ItemsRoute.PostStep | app/api/items/route.ts:19-61 | no key is 401 with nothing written; a gate error is passed on with nothing written; once admitted the credit stays spent whatever the body: a body that is not JSON is 400, `null` 500, a non-number value or non-string `txHash` 400; 201 appends exactly the item with the next id, the admitted user, the body's value and hash and the clock, and answers with its id; 201 exactly for an admitted key and a valid body |
| ItemsRoute.ValidBodyCreated | app/api/items/route.ts:36-52 | an admitted key with a valid body always gets 201, and the item belongs to the key's owner |
| ItemsRoute.RefusedBodyStillCharged | app/api/items/route.ts:27-41 | a body that is not JSON gets 400 after the credit was already taken |
| ItemsRoute.PostKeepsWellFormed | app/api/items/route.ts:19-61 | the handler keeps the database constraints |
| ItemsRoute.Post | app/api/items/route.ts:19-61 | the method returns what `PostStep` returns and leaves the state it gives; it keeps `Valid()` |
| CrudRoute.Holder | app/api/crud/route.ts:19-26 | the row whose Google id is the one sent, and none exactly when no row has it; that it is the row the POST updates is `CrudRoute.PostUpdatesHolder` |
| CrudRoute.Commit | app/api/crud/route.ts:36-54 | a non-numeric value is 500 with nothing written; a numeric one is 201 with the item |
| CrudRoute.CommitCreates | app/api/crud/route.ts:36-54 | a commit appends the item with the next id for the user's internal id, overwrites the user's credit columns with one credit moved, and adds at most one log entry |
| CrudRoute.ChargeAndLog | app/api/crud/route.ts:39-48 | the charge succeeds exactly for an existing user, and then the reply is 201 with the item; otherwise 500 with nothing written; only the user table and the usage log can change (which columns: `CrudRoute.ChargeAndLogEffect`) |
| CrudRoute.ChargeAndLogStages | app/api/crud/route.ts:39-48 | an unfolding helper for the proofs about `ChargeAndLog`: the charge comes first, a failed charge is 500 on the old state, and otherwise the request is recorded on the charged state |
| CrudRoute.ChargeAndLogEffect | app/api/crud/route.ts:39-54 | for an existing user, exactly the user's credit columns are overwritten and at most one log entry is added |
| CrudRoute.ChargeAndLogKeepsWellFormed | app/api/crud/route.ts:39-48 | charging and recording keep the database constraints |
| CrudRoute.CommitKeepsWellFormed | app/api/crud/route.ts:36-48 | a commit keeps the database constraints |
| CrudRoute.PostStep | app/api/crud/route.ts:7-63 | an unreadable body is 500, a falsy `userId` or a missing `value` 400, an id no user has as Google id 404, a user without credits 403, a non-numeric value 500; every non-201 writes nothing and every 500 carries the error text; 201 exactly for a string Google id of an existing user with a positive balance and a numeric value |
| CrudRoute.PostCreatesItem | app/api/crud/route.ts:36-54 | a 201 creates one item with the next id, moves one credit on the sender's row, writes the flag (flipped as written, kept corrected), and adds at most one log entry |
| CrudRoute.PostUpdatesHolder | app/api/crud/route.ts:19-45 | under the unique indexes the row updated is exactly the row holding the Google id |
| CrudRoute.PostRecordsUsage | app/api/crud/route.ts:47-48 | a created item by a user with a long Google id appends exactly `POST /api/crud`, 201, under the user's internal id |
| CrudRoute.PostKeepsWellFormed | app/api/crud/route.ts:7-63 | the handler keeps the database constraints |
| CrudRoute.PostFlipsRecharged | app/api/crud/route.ts:40-45 | as written, a successful POST by a recharged user clears the flag, and the user can recharge again |
| CrudRoute.CorrectedPostKeepsRecharged | app/api/crud/route.ts:40-45 | corrected, a POST keeps every user's flag, so a used recharge stays used |
| CrudRoute.NoCreditsStatusesDiffer | app/api/crud/route.ts:29-34 | a user without credits gets 403 here and 429 from the gate |
| CrudRoute.CommitPost | app/api/crud/route.ts:36-54 | the method returns what `Commit` returns and leaves the state it gives; it keeps `Valid()` |
| CrudRoute.ChargeAndLogPost | app/api/crud/route.ts:39-48 | the method returns what `ChargeAndLog` returns and leaves the state it gives; it keeps `Valid()` |
| CrudRoute.Post | app/api/crud/route.ts:7-63 | the method returns what `PostStep` returns and leaves the state it gives; it keeps `Valid()` |
| CrudRoute.GetStep | app/api/crud/route.ts:66-107 | 400 without an id, 404 for an unknown Google id, both writing nothing; 200 exactly otherwise, listing exactly the owner's items newest first; only the usage log can grow, by at most one entry |
| CrudRoute.GetRecordsUsage | app/api/crud/route.ts:89-92 | a listing by a user with a long Google id appends exactly `GET /api/crud`, 200, under the user's internal id |
| CrudRoute.Get | app/api/crud/route.ts:66-107 | the method returns what `GetStep` returns and leaves the state it gives; it keeps `Valid()` |
| GoogleCallback.GenerateApiKey | lib/api-key-utils.ts:12-15 | the key is `clapi_` followed by the random text; that distinct texts give distinct keys is `GoogleCallback.GenerateApiKeyInjective` |
| GoogleCallback.GenerateApiKeyInjective | lib/api-key-utils.ts:12-15 | the key is `clapi_` followed by the random text, so distinct random texts give distinct keys |
| GoogleCallback.SignInStoresNoEmptyProfile | app/api/auth/google/callback/route.ts:76-108 | a successful sign-in answers with the token's name and picture or null, never an empty string, and stores no empty name or image in a row that did not hold one |
| GoogleCallback.NewUser | app/api/auth/google/callback/route.ts:75-85 | the row a first sign-in inserts; its columns and defaults (4 credits, none used, not recharged) are stated by `GoogleCallback.FirstSignInCreatesUser` |
| GoogleCallback.Session | app/api/auth/google/callback/route.ts:112-119 | the reply's data; that its `canRecharge` is the stored flag, the opposite of `/api/user/me`, is `GoogleCallback.CanRechargeDisagreesWithMe` |
| GoogleCallback.SetProfile | app/api/auth/google/callback/route.ts:100 | success exactly when the user exists; a missing user is P2025 with nothing written |
| GoogleCallback.SetProfileWrites | app/api/auth/google/callback/route.ts:100 | the write goes to the row with that id and sets only name and image |
| GoogleCallback.InsertUser | app/api/auth/google/callback/route.ts:85 | the insert succeeds exactly when no unique value is taken, and then appends the row; otherwise P2002 with nothing written |
| GoogleCallback.SignIn | app/api/auth/google/callback/route.ts:59-109 | a failure writes nothing; only the user table changes |
| GoogleCallback.PostStep | app/api/auth/google/callback/route.ts:8-139 | status in {200, 400, 401, 500}; every non-200 writes nothing and returns no data; a 500 carries the error text exactly in development; only the user table changes |
| GoogleCallback.PostRefusals | app/api/auth/google/callback/route.ts:10-137 | an unreadable body is 500, a falsy credential 400, a rejected token or one without payload 401, a payload without Google id or email 400, and a first sign-in whose new row takes a unique value another row holds (P2002) 500; none of them writing |
| GoogleCallback.PostSucceedsExactly | app/api/auth/google/callback/route.ts:8-139 | 200 exactly for a credential with a verified payload that has a Google id and an email, whose user exists or can be inserted without a unique conflict |
| GoogleCallback.FirstSignInCreatesUser | app/api/auth/google/callback/route.ts:72-90 | a first sign-in inserts exactly one row (4 credits, none used, not recharged, the new key) and the reply describes it |
| GoogleCallback.ExistingAccountsUntouched | app/api/auth/google/callback/route.ts:59-109 | sign-in never changes an existing row's keys, credits or flag; at most one row is added, none for a known Google id |
| GoogleCallback.ReturningUserRefreshed | app/api/auth/google/callback/route.ts:91-108 | a returning user gets 200; only their name and image are set to the token's, and nothing is written when both agree |
| GoogleCallback.InsertUserKeepsWellFormed | app/api/auth/google/callback/route.ts:85 | an insert keeps the unique indexes and every foreign key |
| GoogleCallback.SetProfileKeepsWellFormed | app/api/auth/google/callback/route.ts:100 | a profile update keeps the database constraints |
| GoogleCallback.SignInKeepsWellFormed | app/api/auth/google/callback/route.ts:59-109 | sign-in keeps the database constraints |
| GoogleCallback.PostKeepsWellFormed | app/api/auth/google/callback/route.ts:8-139 | the handler keeps the database constraints |
| GoogleCallback.SignInAgainSame | app/api/auth/google/callback/route.ts:59-125 | repeating a successful sign-in writes nothing and answers the same, whatever new id and key the second call draws |
| GoogleCallback.CanRechargeDisagreesWithMe | app/api/auth/google/callback/route.ts:112-119 | the reply's `canRecharge` is the stored flag, the opposite of what `/api/user/me` reports right after |
| GoogleCallback.CreateUser | app/api/auth/google/callback/route.ts:85 | the method returns what `InsertUser` returns and leaves the state it gives; it keeps `Valid()` |
| GoogleCallback.UpdateProfile | app/api/auth/google/callback/route.ts:100 | the method returns what `SetProfile` returns and leaves the state it gives; it keeps `Valid()` |
| GoogleCallback.Post | app/api/auth/google/callback/route.ts:8-139 | the method returns what `PostStep` returns and leaves the state it gives; it keeps `Valid()` |
| UserMe.Get | app/api/user/me/route.ts:15-58 | 401 exactly without X-User-ID, 500 exactly on a lookup failure, 404 exactly for an unknown id; 200 returns exactly that user's id, email, name, image, key, credits and used credits, with `canRecharge` = not recharged |
| UserMe.AgreesWithLookup | app/api/user/me/route.ts:41-50 | on a well-formed table this view and `getUserByGoogleId` agree on id, key, balance and `canRecharge` |
| Middleware.Check | middleware/middleware.ts:4-13 | paths outside `/api/items` pass; under it a request is refused with 401 exactly when both key headers are missing or empty |
| Middleware.Handle | middleware/middleware.ts:4-16 | the middleware runs only on matched paths; that a request is refused exactly when matched and keyless is `Middleware.HandleRefusesExactlyKeyless` |
| Middleware.MatchedPathsAreChecked | middleware/middleware.ts:5-16 | every matched path passes the prefix test |
| Middleware.HandleRefusesExactlyKeyless | middleware/middleware.ts:4-16 | a request is refused with 401 exactly when its path is matched and both key headers are missing or empty; every other request goes on |
| Middleware.RouteKeyPassesMiddleware | middleware/middleware.ts:8-12 | a request in which the items handler finds a key always passes the middleware |
| Middleware.OtherAuthorizationPassesThenRefused | middleware/middleware.ts:8-12 | an Authorization header without `Bearer ` passes the middleware, and the handler then answers 401 and charges nothing |
| JsString.IndexOf | app/api/items/route.ts:20 | the first occurrence of the separator, or none exactly when it does not occur |
| JsString.SplitSecond | app/api/items/route.ts:20 | `split(sep)[1]` is present exactly when the separator occurs, and contains no separator |
| JsString.SplitSecondIsNextPiece | app/api/items/route.ts:20 | the second piece is the text after the first separator, up to the next one or the end |
| JsString.BearerRoundTrip | app/api/items/route.ts:20 | splitting `Bearer <key>` gives back the key |
| JsString.ParseInt | lib/db/crudItems.ts:84-88 | `parseInt(s, 10)` is NaN exactly when no digit follows the leading white space and optional sign |
| JsString.ParseDecimal | lib/db/crudItems.ts:84-88 | the decimal text of `n`, followed by anything that is not a digit, parses to `n` |
| JsString.ParseNegativeDecimal | lib/db/crudItems.ts:84-88 | `-` followed by the decimal text of `n` parses to `-n` |

## Left out

- Concurrency. Requests run one at a time. The read-then-update races in the
  gate, the crud POST and the recharge are not represented. Neither is the
  atomicity the database would need to rule them out.
- Google's `verifyIdToken` and `getPayload`. Their outcome is the input
  `Verification`.
- Randomness. `crypto.randomBytes` and its base64url encoding, the item
  `txHash` and the database-generated user id are all inputs.
- The clock. `now` is an input.
- Columns that nothing in the core decides on are not modelled:
  `updatedAt`, `apiUrl` and `createdAt` of User, the log ids and
  `attemptedAt`.
- Message strings and console logging. A reply carries only its status, its
  data and whether the error text is included.
- Item `value`. It is a Float column, modelled as a real and never computed
  with. JavaScript numbers and their 64-bit limits are not modelled: credit
  counts are unbounded integers.
- Database failures. They are modelled only where the source catches them
  and a property depends on the outcome:
  - the gate (500);
  - `recordApiUsage` (`false`);
  - the `/api/user/me` lookup (500).
  The failures that surface as a 500 in the other catch blocks are left
  out, as are a failed RechargeLog write after a successful recharge update
  and the `catch` of `getApiUsageByUserId` and the stats.
- Top-level JSON that is not an object is treated as an object without
  fields. `Body` does not separate arrays, numbers and strings.
- The Prisma schema is not part of this model. The column set follows
  what the handlers select and write. The default of 4 credits follows the
  landing page (app/page.tsx:72).
- ItemsRoute.PostStep: the route inserts through `prisma.item.create`
  directly. The model inserts through `CrudItems.Create`, which does the
  same insert, because the value was already checked to be a number.
- lib/CrudLibrary.ts, the UI pages and components, the React contexts,
  lib/environment.ts and the type declarations are not part of this model.
- ApiUsage.RecordUsage: the 30-character test on the id counts characters,
  while JavaScript's `length` counts UTF-16 code units. The two agree for
  ids without characters outside the Basic Multilingual Plane, which
  includes Google's numeric ids and the database's generated ids.
- CrudItems.Delete: an id is a Prisma `Int`, so a parsed id outside the
  32-bit signed range is refused before the query runs. This is modelled as
  a validation error that is rethrown. The model also takes every P2025 of
  the delete to carry the wording the catch at lib/db/crudItems.ts:131
  tests for, so a missing item is always `false`.
- CrudItems.UpdateValue: the same 32-bit range applies to the id of an
  update, and is modelled as a validation error. The autoincrement ids the
  model hands out are not bounded by that range.
- The routes under `/api/crud/[id]`, `/api/items/[id]` and `[txHash]` are
  not part of this model. The item helpers they call (`UpdateValue`,
  `Delete`) are modelled.

## Findings

| source | as written | input that shows it | evidently intended | confidence | as-written member | corrected member |
|---|---|---|---|---|---|---|
| app/api/credits/recharge/route.ts:33-47 | the guard reads `user.canRecharge` and the update writes `creditsRemaining` and `canRecharge`, none of which is a User column, so `!user.canRecharge` is always true | body `{"userId": "<id of any existing user who has not recharged>"}`: 403 instead of a recharge | guard on `recharged`, add 4 to `credits`, set `recharged`, answer 200 once per user | not executed | RechargeRoute.PostNeverSucceeds | RechargeRoute.PostRechargesOnce |
| app/api/crud/route.ts:40-45 | the credit update writes `recharged: user.canRecharge`, and `canRecharge` is the negation of the stored flag | a user with `recharged = true` and credits left sends one successful POST: the flag becomes false and `rechargeUserCredits` succeeds a second time | write the stored flag back unchanged | not executed | CrudRoute.PostFlipsRecharged | CrudRoute.CorrectedPostKeepsRecharged |
