/**
 * `/api/crud`: POST creates an item for the user named by Google id and then
 * charges one credit by overwriting the user's credit columns; GET lists the
 * user's items. Both record the request in the usage log, best effort.
 *
 * The POST writes back `recharged := canRecharge`, and `canRecharge` is the
 * negation of the stored flag, so every successful POST flips `recharged`
 * (`PostFlipsRecharged`). The handler takes a `corrected` switch: `false` is
 * the code as written, `true` writes the stored flag back unchanged
 * (`CorrectedPostKeepsRecharged`).
 */
module CrudRoute {
  import opened Wrappers
  import opened Store
  import opened Http
  import ApiUtils
  import Users
  import CrudItems
  import ApiUsage

  const ENDPOINT: string := "/api/crud"

  /** The row `getUserByGoogleId` finds for a Google id. */
  function Holder(t: Tables, googleId: string): (r: Option<nat>)
    ensures r.Some? ==> r.value < |t.users| && t.users[r.value].googleId == googleId
    ensures r.None? <==> forall k | 0 <= k < |t.users| :: t.users[k].googleId != googleId
  {
    FindUser(t.users, GoogleId, googleId)
  }

  /** The `recharged` value the POST writes back: `canRecharge` as written, the stored flag once corrected. */
  function WrittenFlag(user: Users.ClientUser, corrected: bool): bool
  {
    if corrected then !user.canRecharge else user.canRecharge
  }

  /**
   * What a POST does for the user in row `k` once the guards have passed:
   * create the item (Prisma refuses a value that is not a number), overwrite
   * the user's credit columns with one credit moved from `credits` to
   * `creditsUsed` and `recharged := flag`, then record the request, best
   * effort, under the Google id the caller sent.
   */
  function Commit(t: Tables, k: nat, googleId: string, value: Json, txHash: string, now: nat, logFault: bool, flag: bool): (r: Step<Reply<Item>>)
    requires k < |t.users|
    ensures !value.Num? ==> r == Step(Reply(500, None, true), t)
    ensures value.Num? ==> r.out.status == 201 && r.out.data.Some?
  {
    var u := t.users[k];
    assert HasUser(t.users, u.id) by { assert KeyOf(t.users[k], Id) == u.id; }
    var created := CrudItems.Create(t, u.id, value, txHash, now);
    if created.out.Err? then Step(Reply(500, None, true), t)
    else ChargeAndLog(created.db, u.id, u.credits, u.creditsUsed, created.out.value, googleId, now, logFault, flag)
  }

  /**
   * A commit with a numeric value creates the item with the next id for the
   * user's internal id, charges that user, and adds at most one log entry.
   */
  lemma CommitCreates(t: Tables, k: nat, googleId: string, value: Json, txHash: string, now: nat, logFault: bool, flag: bool)
    requires k < |t.users| && value.Num?
    ensures
      var r := Commit(t, k, googleId, value, txHash, now, logFault, flag);
      var u := t.users[k];
      var j := FindUser(t.users, Id, u.id).value;
      var item := Item(t.nextItemId, u.id, value.n, txHash, now);
      && FindUser(t.users, Id, u.id).Some?
      && r.out == Reply(201, Some(item), false)
      && r.db.items == t.items + [item]
      && r.db.nextItemId == t.nextItemId + 1
      && r.db.rechargeLogs == t.rechargeLogs
      && r.db.users == t.users[j := t.users[j].(credits := u.credits - 1, creditsUsed := u.creditsUsed + 1, recharged := flag)]
      && |t.usageLogs| <= |r.db.usageLogs| <= |t.usageLogs| + 1
      && r.db.usageLogs[..|t.usageLogs|] == t.usageLogs
  {
    var u := t.users[k];
    assert HasUser(t.users, u.id) by { assert KeyOf(t.users[k], Id) == u.id; }
    var created := CrudItems.Create(t, u.id, value, txHash, now);
    assert created.db.users == t.users && created.db.usageLogs == t.usageLogs;
    assert Commit(t, k, googleId, value, txHash, now, logFault, flag) == ChargeAndLog(created.db, u.id, u.credits, u.creditsUsed, created.out.value, googleId, now, logFault, flag);
    ChargeAndLogEffect(created.db, u.id, u.credits, u.creditsUsed, created.out.value, googleId, now, logFault, flag);
  }

  /** The second half of a commit: charge user `u` for `item`, then record the request. */
  function ChargeAndLog(t: Tables, userId: string, credits: int, creditsUsed: int, item: Item, googleId: string, now: nat, logFault: bool, flag: bool): (r: Step<Reply<Item>>)
    // the charge fails exactly for a missing user, and then nothing is written
    ensures r.out.status == 201 <==> HasUser(t.users, userId)
    ensures r.out.status != 201 ==> r == Step(Reply(500, None, true), t)
    ensures r.out.status == 201 ==> r.out == Reply(201, Some(item), false)
    // only the user table and the usage log can change
    ensures r.db == t.(users := r.db.users, usageLogs := r.db.usageLogs)
  {
    var charged := Users.SetCredits(t, userId, credits - 1, creditsUsed + 1, flag);
    if charged.out.Err? then Step(Reply(500, None, true), t)
    else
      var logged := ApiUsage.RecordUsage(charged.db, googleId, ENDPOINT, "POST", 201, now, logFault);
      Step(Reply(201, Some(item), false), logged.db)
  }

  /** ChargeAndLog unfolded, stated once so that callers need not unfold it among other facts. */
  lemma ChargeAndLogStages(t: Tables, userId: string, credits: int, creditsUsed: int, item: Item, googleId: string, now: nat, logFault: bool, flag: bool)
    ensures
      var charged := Users.SetCredits(t, userId, credits - 1, creditsUsed + 1, flag);
      ChargeAndLog(t, userId, credits, creditsUsed, item, googleId, now, logFault, flag) ==
        if charged.out.Err? then Step(Reply(500, None, true), t)
        else Step(Reply(201, Some(item), false), ApiUsage.RecordUsage(charged.db, googleId, ENDPOINT, "POST", 201, now, logFault).db)
  {
  }

  lemma ChargeAndLogEffect(t: Tables, userId: string, credits: int, creditsUsed: int, item: Item, googleId: string, now: nat, logFault: bool, flag: bool)
    requires HasUser(t.users, userId)
    ensures
      var r := ChargeAndLog(t, userId, credits, creditsUsed, item, googleId, now, logFault, flag);
      var j := FindUser(t.users, Id, userId).value;
      && r.out == Reply(201, Some(item), false)
      && r.db.items == t.items && r.db.nextItemId == t.nextItemId && r.db.rechargeLogs == t.rechargeLogs
      && r.db.users == t.users[j := t.users[j].(credits := credits - 1, creditsUsed := creditsUsed + 1, recharged := flag)]
      && |t.usageLogs| <= |r.db.usageLogs| <= |t.usageLogs| + 1
      && r.db.usageLogs[..|t.usageLogs|] == t.usageLogs
  {
    ChargeAndLogStages(t, userId, credits, creditsUsed, item, googleId, now, logFault, flag);
    Users.SetCreditsWrites(t, userId, credits - 1, creditsUsed + 1, flag);
  }

  /**
   * POST. `txHash` is the random hash `createCrudItem` draws, `now` the clock,
   * `logFault` a failure inside `recordApiUsage` (which is swallowed). Every
   * 500 of this handler carries the error text (`String(error)`).
   */
  function PostStep(t: Tables, body: Body, txHash: string, now: nat, logFault: bool, corrected: bool): (r: Step<Reply<Item>>)
    ensures r.out.status in {201, 400, 403, 404, 500}
    ensures r.out.status != 201 ==> r.db == t && r.out.data.None?
    ensures r.out.status == 500 ==> r.out.detail
    // the guards, in the order the handler takes them
    ensures !body.Object? ==> r == Step(Reply(500, None, true), t)
    ensures body.Object? && (!Truthy(Field(body.fields, "userId")) || Field(body.fields, "value").Undefined?) ==>
      r == Step(Status(400), t)
    ensures (body.Object? && Truthy(Field(body.fields, "userId")) && !Field(body.fields, "userId").Str?
      && !Field(body.fields, "value").Undefined?) ==> r == Step(Reply(500, None, true), t)
    ensures (body.Object? && Field(body.fields, "userId").Str? && Field(body.fields, "userId").s != ""
      && !Field(body.fields, "value").Undefined? && Holder(t, Field(body.fields, "userId").s).None?) ==>
      r == Step(Status(404), t)
    ensures (body.Object? && Field(body.fields, "userId").Str? && Field(body.fields, "userId").s != ""
      && !Field(body.fields, "value").Undefined? && Holder(t, Field(body.fields, "userId").s).Some?
      && t.users[Holder(t, Field(body.fields, "userId").s).value].credits <= 0) ==> r == Step(Status(403), t)
    ensures (body.Object? && Field(body.fields, "userId").Str? && Field(body.fields, "userId").s != ""
      && !Field(body.fields, "value").Undefined? && !Field(body.fields, "value").Num?
      && Holder(t, Field(body.fields, "userId").s).Some?
      && t.users[Holder(t, Field(body.fields, "userId").s).value].credits > 0) ==> r == Step(Reply(500, None, true), t)
    ensures r.out.status == 201 <==>
      && body.Object?
      && Field(body.fields, "userId").Str? && Field(body.fields, "userId").s != ""
      && Field(body.fields, "value").Num?
      && Holder(t, Field(body.fields, "userId").s).Some?
      && t.users[Holder(t, Field(body.fields, "userId").s).value].credits > 0
  {
    match body
    case Malformed => Step(Reply(500, None, true), t)
    case NullBody => Step(Reply(500, None, true), t)
    case Object(fields) =>
      var userId := Field(fields, "userId");
      var value := Field(fields, "value");
      if !Truthy(userId) || value.Undefined? then Step(Status(400), t)
      // Prisma refuses a Google id that is not a string
      else if !userId.Str? then Step(Reply(500, None, true), t)
      else match Holder(t, userId.s)
        case None => Step(Status(404), t)
        case Some(k) =>
          var user := Users.ToClient(t.users[k]);
          if user.creditsRemaining <= 0 then Step(Status(403), t)
          else Commit(t, k, userId.s, value, txHash, now, logFault, WrittenFlag(user, corrected))
  }

  /**
   * A successful POST creates one item for the sender, with the next id, moves
   * one credit from `credits` to `creditsUsed` on the sender's row, writes the
   * `recharged` flag (flipped as written, kept when corrected), and adds at
   * most one log entry.
   */
  lemma PostCreatesItem(t: Tables, body: Body, txHash: string, now: nat, logFault: bool, corrected: bool)
    requires PostStep(t, body, txHash, now, logFault, corrected).out.status == 201
    ensures
      var r := PostStep(t, body, txHash, now, logFault, corrected);
      var u := t.users[Holder(t, Field(body.fields, "userId").s).value];
      var j := FindUser(t.users, Id, u.id).value;
      var item := Item(t.nextItemId, u.id, Field(body.fields, "value").n, txHash, now);
      && r.out.data == Some(item)
      && r.db.items == t.items + [item]
      && r.db.nextItemId == t.nextItemId + 1
      && r.db.rechargeLogs == t.rechargeLogs
      && |t.usageLogs| <= |r.db.usageLogs| <= |t.usageLogs| + 1
      && r.db.usageLogs[..|t.usageLogs|] == t.usageLogs
      && r.db.users == t.users[j := t.users[j].(
           credits := u.credits - 1,
           creditsUsed := u.creditsUsed + 1,
           recharged := if corrected then u.recharged else !u.recharged)]
  {
    var k := Holder(t, Field(body.fields, "userId").s).value;
    var user := Users.ToClient(t.users[k]);
    assert PostStep(t, body, txHash, now, logFault, corrected)
        == Commit(t, k, Field(body.fields, "userId").s, Field(body.fields, "value"), txHash, now, logFault, WrittenFlag(user, corrected));
    CommitCreates(t, k, Field(body.fields, "userId").s, Field(body.fields, "value"), txHash, now, logFault, WrittenFlag(user, corrected));
  }

  /** On a well-formed database a successful POST updates exactly the row of the sender's Google id. */
  lemma PostUpdatesHolder(t: Tables, body: Body, txHash: string, now: nat, logFault: bool, corrected: bool, k: nat)
    requires UniqueUsers(t.users) && k < |t.users|
    requires PostStep(t, body, txHash, now, logFault, corrected).out.status == 201
    requires t.users[k].googleId == Field(body.fields, "userId").s
    ensures PostStep(t, body, txHash, now, logFault, corrected).db.users == t.users[k := t.users[k].(
      credits := t.users[k].credits - 1,
      creditsUsed := t.users[k].creditsUsed + 1,
      recharged := if corrected then t.users[k].recharged else !t.users[k].recharged)]
  {
    PostCreatesItem(t, body, txHash, now, logFault, corrected);
    FindUserIsTheRow(t.users, GoogleId, k);
    FindUserIsTheRow(t.users, Id, k);
  }

  /**
   * A created item by a user whose Google id is longer than 30 characters
   * appends exactly one usage entry, 'POST /api/crud' with status 201, naming
   * the user's internal id: the lookup by Google id still finds the charged row.
   */
  lemma PostRecordsUsage(t: Tables, body: Body, txHash: string, now: nat, corrected: bool, k: nat)
    requires UniqueUsers(t.users) && k < |t.users| && |t.users[k].googleId| > ApiUsage.GOOGLE_ID_THRESHOLD
    requires PostStep(t, body, txHash, now, false, corrected).out.status == 201
    requires t.users[k].googleId == Field(body.fields, "userId").s
    ensures PostStep(t, body, txHash, now, false, corrected).db.usageLogs ==
      t.usageLogs + [ApiUsageLog(t.users[k].id, "POST /api/crud", 201, now)]
  {
    var u := t.users[k];
    FindUserIsTheRow(t.users, GoogleId, k);
    FindUserIsTheRow(t.users, Id, k);
    var flag := WrittenFlag(Users.ToClient(u), corrected);
    assert PostStep(t, body, txHash, now, false, corrected) == Commit(t, k, u.googleId, Field(body.fields, "value"), txHash, now, false, flag);
    CommitRecordsUsage(t, k, Field(body.fields, "value"), txHash, now, flag);
  }

  /** The commit for the row found by its own Google id records the request under that row's id. */
  lemma CommitRecordsUsage(t: Tables, k: nat, value: Json, txHash: string, now: nat, flag: bool)
    requires k < |t.users| && value.Num? && |t.users[k].googleId| > ApiUsage.GOOGLE_ID_THRESHOLD
    requires FindUser(t.users, GoogleId, t.users[k].googleId) == Some(k) && FindUser(t.users, Id, t.users[k].id) == Some(k)
    ensures Commit(t, k, t.users[k].googleId, value, txHash, now, false, flag).db.usageLogs ==
      t.usageLogs + [ApiUsageLog(t.users[k].id, "POST /api/crud", 201, now)]
  {
    var u := t.users[k];
    var created := CrudItems.Create(t, u.id, value, txHash, now);
    assert created.db.users == t.users && created.db.usageLogs == t.usageLogs && created.out.Ok?;
    assert Commit(t, k, u.googleId, value, txHash, now, false, flag)
        == ChargeAndLog(created.db, u.id, u.credits, u.creditsUsed, created.out.value, u.googleId, now, false, flag);
    ChargeAndLogRecords(created.db, k, u.credits, u.creditsUsed, created.out.value, now, flag);
  }

  /** Charging row `k` keeps its keys, so the log lookup by its Google id finds it again. */
  lemma ChargeAndLogRecords(t: Tables, k: nat, credits: int, creditsUsed: int, item: Item, now: nat, flag: bool)
    requires k < |t.users| && |t.users[k].googleId| > ApiUsage.GOOGLE_ID_THRESHOLD
    requires FindUser(t.users, GoogleId, t.users[k].googleId) == Some(k) && FindUser(t.users, Id, t.users[k].id) == Some(k)
    ensures ChargeAndLog(t, t.users[k].id, credits, creditsUsed, item, t.users[k].googleId, now, false, flag).db.usageLogs ==
      t.usageLogs + [ApiUsageLog(t.users[k].id, "POST /api/crud", 201, now)]
  {
    var u := t.users[k];
    ChargeAndLogStages(t, u.id, credits, creditsUsed, item, u.googleId, now, false, flag);
    var charged := Users.SetCredits(t, u.id, credits - 1, creditsUsed + 1, flag);
    Users.SetCreditsWrites(t, u.id, credits - 1, creditsUsed + 1, flag);
    KeepsKeysFind(t.users, charged.db.users, GoogleId, u.googleId);
    KeepsKeysFind(t.users, charged.db.users, Id, u.id);
    assert SameKeys(t.users[k], charged.db.users[k]);
    assert ApiUsage.EndpointLabel("POST", ENDPOINT) == "POST /api/crud";
  }

  lemma ChargeAndLogKeepsWellFormed(t: Tables, userId: string, credits: int, creditsUsed: int, item: Item, googleId: string, now: nat, logFault: bool, flag: bool)
    requires WellFormed(t)
    ensures WellFormed(ChargeAndLog(t, userId, credits, creditsUsed, item, googleId, now, logFault, flag).db)
  {
    ChargeAndLogStages(t, userId, credits, creditsUsed, item, googleId, now, logFault, flag);
    var charged := Users.SetCredits(t, userId, credits - 1, creditsUsed + 1, flag);
    if charged.out.Ok? {
      Users.SetCreditsKeepsWellFormed(t, userId, credits - 1, creditsUsed + 1, flag);
      ApiUsage.RecordUsageKeepsWellFormed(charged.db, googleId, ENDPOINT, "POST", 201, now, logFault);
    }
  }

  lemma CommitKeepsWellFormed(t: Tables, k: nat, googleId: string, value: Json, txHash: string, now: nat, logFault: bool, flag: bool)
    requires WellFormed(t) && k < |t.users|
    ensures WellFormed(Commit(t, k, googleId, value, txHash, now, logFault, flag).db)
  {
    var u := t.users[k];
    var created := CrudItems.Create(t, u.id, value, txHash, now);
    if created.out.Ok? {
      CrudItems.CreateFreshId(t, u.id, value, txHash, now);
      ChargeAndLogKeepsWellFormed(created.db, u.id, u.credits, u.creditsUsed, created.out.value, googleId, now, logFault, flag);
    }
  }

  lemma PostKeepsWellFormed(t: Tables, body: Body, txHash: string, now: nat, logFault: bool, corrected: bool)
    requires WellFormed(t)
    ensures WellFormed(PostStep(t, body, txHash, now, logFault, corrected).db)
  {
    var r := PostStep(t, body, txHash, now, logFault, corrected);
    if r.db != t {
      var googleId := Field(body.fields, "userId").s;
      var k := Holder(t, googleId).value;
      var flag := WrittenFlag(Users.ToClient(t.users[k]), corrected);
      assert r == Commit(t, k, googleId, Field(body.fields, "value"), txHash, now, logFault, flag);
      CommitKeepsWellFormed(t, k, googleId, Field(body.fields, "value"), txHash, now, logFault, flag);
    }
  }

  /**
   * As written, a successful POST flips the user's `recharged` flag; so a user
   * who has already used their one recharge can recharge again afterwards.
   */
  lemma PostFlipsRecharged(t: Tables, body: Body, txHash: string, now: nat, logFault: bool, k: nat)
    requires UniqueUsers(t.users) && k < |t.users| && t.users[k].recharged
    requires PostStep(t, body, txHash, now, logFault, false).out.status == 201
    requires t.users[k].googleId == Field(body.fields, "userId").s
    ensures !PostStep(t, body, txHash, now, logFault, false).db.users[k].recharged
    ensures Users.Recharge(PostStep(t, body, txHash, now, logFault, false).db, t.users[k].id, 4).out.Ok?
  {
    var after := PostStep(t, body, txHash, now, logFault, false).db;
    PostUpdatesHolder(t, body, txHash, now, logFault, false, k);
    assert KeepsKeys(t.users, after.users);
    KeepsKeysFind(t.users, after.users, Id, t.users[k].id);
    FindUserIsTheRow(t.users, Id, k);
  }

  /** Corrected, a POST leaves every user's `recharged` flag as it was, so a used recharge stays used. */
  lemma CorrectedPostKeepsRecharged(t: Tables, body: Body, txHash: string, now: nat, logFault: bool, uid: string)
    requires UniqueUsers(t.users)
    requires Users.Recharge(t, uid, 4).out == Err(Users.AlreadyRecharged)
    ensures forall k | 0 <= k < |t.users| ::
      PostStep(t, body, txHash, now, logFault, true).db.users[k].recharged == t.users[k].recharged
    ensures Users.Recharge(PostStep(t, body, txHash, now, logFault, true).db, uid, 4).out == Err(Users.AlreadyRecharged)
  {
    var after := PostStep(t, body, txHash, now, logFault, true).db;
    if after != t {
      var k := Holder(t, Field(body.fields, "userId").s).value;
      PostUpdatesHolder(t, body, txHash, now, logFault, true, k);
      assert KeepsKeys(t.users, after.users);
      KeepsKeysFind(t.users, after.users, Id, uid);
    }
  }

  /**
   * "No credits" is reported differently on the two metered paths: 403 by this
   * handler, 429 by the API-key gate, for the same user.
   */
  lemma NoCreditsStatusesDiffer(t: Tables, body: Body, txHash: string, now: nat, logFault: bool, corrected: bool, k: nat)
    requires UniqueUsers(t.users) && k < |t.users| && t.users[k].credits <= 0
    requires body.Object? && Field(body.fields, "userId") == Str(t.users[k].googleId) && t.users[k].googleId != ""
    requires !Field(body.fields, "value").Undefined?
    ensures PostStep(t, body, txHash, now, logFault, corrected).out.status == 403
    ensures ApiUtils.Charge(t, t.users[k].apiKey, false).out == ApiUtils.LIMIT_EXCEEDED
  {
    FindUserIsTheRow(t.users, GoogleId, k);
    FindUserIsTheRow(t.users, ApiKey, k);
  }

  /** The three writes of a successful POST, in the handler's order. */
  method CommitPost(db: Database, ghost k: nat, user: Users.ClientUser, googleId: string, value: Json, txHash: string, now: nat, logFault: bool, flag: bool)
      returns (r: Reply<Item>)
    requires k < |db.users| && user == Users.ToClient(db.users[k])
    modifies db
    ensures Step(r, db.State()) == Commit(old(db.State()), k, googleId, value, txHash, now, logFault, flag)
    ensures old(db.Valid()) ==> db.Valid()
  {
    var created := CrudItems.CreateCrudItem(db, user.id, value, txHash, now);
    if created.Err? {
      return Reply(500, None, true);
    }
    r := ChargeAndLogPost(db, user.id, user.creditsRemaining, user.creditsUsed, created.value, googleId, now, logFault, flag);
  }

  method ChargeAndLogPost(db: Database, userId: string, credits: int, creditsUsed: int, item: Item, googleId: string, now: nat, logFault: bool, flag: bool)
      returns (r: Reply<Item>)
    modifies db
    ensures Step(r, db.State()) == ChargeAndLog(old(db.State()), userId, credits, creditsUsed, item, googleId, now, logFault, flag)
    ensures old(db.Valid()) ==> db.Valid()
  {
    ChargeAndLogStages(db.State(), userId, credits, creditsUsed, item, googleId, now, logFault, flag);
    var charged := Users.UpdateUserCredits(db, userId, credits - 1, creditsUsed + 1, flag);
    if charged.Err? {
      return Reply(500, None, true);
    }
    var _ := ApiUsage.RecordApiUsage(db, googleId, ENDPOINT, "POST", 201, now, logFault);
    r := Reply(201, Some(item), false);
  }

  method Post(db: Database, body: Body, txHash: string, now: nat, logFault: bool, corrected: bool) returns (r: Reply<Item>)
    modifies db
    ensures Step(r, db.State()) == PostStep(old(db.State()), body, txHash, now, logFault, corrected)
    ensures old(db.Valid()) ==> db.Valid()
  {
    ghost var before := db.State();
    if body.Malformed? || body.NullBody? {
      return Reply(500, None, true);
    }
    var userId := Field(body.fields, "userId");
    var value := Field(body.fields, "value");
    if !Truthy(userId) || value.Undefined? {
      return Status(400);
    }
    if !userId.Str? {
      return Reply(500, None, true);
    }
    var found := Users.GetUserByGoogleId(db.users, userId.s);
    if found.None? {
      return Status(404);
    }
    var user := found.value;
    if user.creditsRemaining <= 0 {
      return Status(403);
    }
    ghost var k := Holder(before, userId.s).value;
    r := CommitPost(db, k, user, userId.s, value, txHash, now, logFault, WrittenFlag(user, corrected));
  }

  /**
   * GET with the `userId` query parameter (a Google id): 400 without one, 404
   * for an unknown one; otherwise that user's items, newest first. Nothing but
   * the usage log can change, and it gains at most one entry.
   */
  function GetStep(t: Tables, userId: Option<string>, now: nat, logFault: bool): (r: Step<Reply<seq<Item>>>)
    ensures r.db == t.(usageLogs := r.db.usageLogs)
    ensures |t.usageLogs| <= |r.db.usageLogs| <= |t.usageLogs| + 1 && r.db.usageLogs[..|t.usageLogs|] == t.usageLogs
    ensures r.out.status in {200, 400, 404}
    ensures !Present(userId) ==> r == Step(Status(400), t)
    ensures r.out.status == 200 <==> Present(userId) && Holder(t, userId.value).Some?
    ensures r.out.status != 200 ==> r.db == t && r.out.data.None?
    ensures r.out.status == 200 ==>
      var owner := t.users[Holder(t, userId.value).value].id;
      && r.out.data.Some?
      && (forall it :: multiset(r.out.data.value)[it] == if it.userId == owner then multiset(t.items)[it] else 0)
      && (forall i, j | 0 <= i < j < |r.out.data.value| :: r.out.data.value[i].createdAt >= r.out.data.value[j].createdAt)
  {
    if !Present(userId) then Step(Status(400), t)
    else match Users.GetUserByGoogleId(t.users, userId.value)
      case None => Step(Status(404), t)
      case Some(user) =>
        var items := CrudItems.ItemsByUser(t.items, user.id);
        var logged := ApiUsage.RecordUsage(t, userId.value, ENDPOINT, "GET", 200, now, logFault);
        assert logged.db.usageLogs[..|t.usageLogs|] == t.usageLogs;
        Step(Reply(200, Some(items), false), logged.db)
  }

  /**
   * A listed request by a user whose Google id is longer than 30 characters
   * appends exactly one entry, 'GET /api/crud' with status 200, naming the
   * user's internal id.
   */
  lemma GetRecordsUsage(t: Tables, k: nat, now: nat)
    requires UniqueUsers(t.users) && k < |t.users| && |t.users[k].googleId| > ApiUsage.GOOGLE_ID_THRESHOLD
    ensures GetStep(t, Some(t.users[k].googleId), now, false).db.usageLogs ==
      t.usageLogs + [ApiUsageLog(t.users[k].id, "GET /api/crud", 200, now)]
  {
    var u := t.users[k];
    FindUserIsTheRow(t.users, GoogleId, k);
    FindUserIsTheRow(t.users, Id, k);
    assert ApiUsage.EndpointLabel("GET", ENDPOINT) == "GET /api/crud";
    assert ApiUsage.RecordUsage(t, u.googleId, ENDPOINT, "GET", 200, now, false).db.usageLogs
        == t.usageLogs + [ApiUsageLog(u.id, "GET /api/crud", 200, now)];
    assert GetStep(t, Some(u.googleId), now, false).db == ApiUsage.RecordUsage(t, u.googleId, ENDPOINT, "GET", 200, now, false).db;
  }

  method Get(db: Database, userId: Option<string>, now: nat, logFault: bool) returns (r: Reply<seq<Item>>)
    modifies db
    ensures Step(r, db.State()) == GetStep(old(db.State()), userId, now, logFault)
    ensures old(db.Valid()) ==> db.Valid()
  {
    ghost var before := db.State();
    if !Present(userId) {
      return Status(400);
    }
    var found := Users.GetUserByGoogleId(db.users, userId.value);
    if found.None? {
      return Status(404);
    }
    var items := CrudItems.ItemsByUser(db.items, found.value.id);
    var _ := ApiUsage.RecordApiUsage(db, userId.value, ENDPOINT, "GET", 200, now, logFault);
    r := Reply(200, Some(items), false);
  }
}
