/**
 * `POST /api/credits/recharge`: a fixed top-up of RECHARGE_CREDIT_AMOUNT
 * credits for the user whose internal id is in the body.
 *
 * The handler reads and writes `canRecharge` and `creditsRemaining` on the
 * User record, but those are not columns (the columns are `credits`,
 * `creditsUsed` and `recharged`). `PostAsWritten` models the handler as it
 * stands: the missing column reads as `undefined`, so every existing user is
 * refused with 403 (`PostNeverSucceeds`). `Post` is the handler with the
 * column names it evidently means: guard on `recharged`, add the amount to
 * `credits`, set `recharged`.
 */
module RechargeRoute {
  import opened Wrappers
  import opened Store
  import opened Http

  const RECHARGE_CREDIT_AMOUNT: int := 4

  /** The `data` of a successful reply. */
  datatype RechargeData = RechargeData(id: string, email: string, creditsRemaining: int, canRecharge: bool)

  /** The handler's body as written. `devMode` is `NODE_ENV === 'development'`, which decides whether a 500 carries the error text. */
  function PostAsWrittenStep(t: Tables, body: Body, devMode: bool): (r: Step<Reply<RechargeData>>)
    ensures r.db == t
    ensures r.out.data.None?
    // the guards, in the order the handler takes them
    ensures !body.Object? ==> r == Step(Reply(500, None, devMode), t)
    ensures body.Object? && !Truthy(Field(body.fields, "userId")) ==> r == Step(Status(400), t)
    ensures body.Object? && Truthy(Field(body.fields, "userId")) && !Field(body.fields, "userId").Str? ==>
      r == Step(Reply(500, None, devMode), t)
    ensures (body.Object? && Field(body.fields, "userId").Str? && Field(body.fields, "userId").s != ""
      && !HasUser(t.users, Field(body.fields, "userId").s)) ==> r == Step(Status(404), t)
  {
    match body
    case Malformed => Step(Reply(500, None, devMode), t)
    case NullBody => Step(Reply(500, None, devMode), t)
    case Object(fields) =>
      var userId := Field(fields, "userId");
      if !Truthy(userId) then Step(Status(400), t)
      else if !userId.Str? then Step(Reply(500, None, devMode), t)
      else match FindUser(t.users, Id, userId.s)
        case None => Step(Status(404), t)
        case Some(i) =>
          // `user.canRecharge` names no column of User, so it is undefined
          var canRecharge: Json := Undefined;
          if !Truthy(canRecharge) then Step(Status(403), t)
          // the update names `creditsRemaining` and `canRecharge`, which Prisma rejects
          else Step(Reply(500, None, devMode), t)
  }

  /**
   * As written, the route never recharges anybody: nothing is ever written,
   * no reply is 200, and every request that names an existing user gets 403.
   */
  lemma PostNeverSucceeds(t: Tables, body: Body, devMode: bool)
    ensures PostAsWrittenStep(t, body, devMode).db == t
    ensures PostAsWrittenStep(t, body, devMode).out.status in {400, 403, 404, 500}
    ensures (body.Object? && Field(body.fields, "userId").Str? && Field(body.fields, "userId").s != ""
      && HasUser(t.users, Field(body.fields, "userId").s)) ==> PostAsWrittenStep(t, body, devMode).out.status == 403
  {
  }

  method PostAsWritten(db: Database, body: Body, devMode: bool) returns (r: Reply<RechargeData>)
    ensures r == PostAsWrittenStep(db.State(), body, devMode).out
  {
    if body.Malformed? || body.NullBody? {
      return Reply(500, None, devMode);
    }
    var userId := Field(body.fields, "userId");
    if !Truthy(userId) {
      return Status(400);
    }
    if !userId.Str? {
      return Reply(500, None, devMode);
    }
    var found := FindUser(db.users, Id, userId.s);
    if found.None? {
      return Status(404);
    }
    var canRecharge: Json := Undefined;
    if !Truthy(canRecharge) {
      return Status(403);
    }
    r := Reply(500, None, devMode);
  }

  /**
   * The handler with the columns it means: 400 without a user id, 404 for an
   * unknown user, 403 once the user has recharged; otherwise the user's
   * `credits` grow by RECHARGE_CREDIT_AMOUNT, `recharged` is set, and the
   * reply echoes the updated record with `canRecharge` false.
   */
  function PostStep(t: Tables, body: Body, devMode: bool): (r: Step<Reply<RechargeData>>)
    ensures r.out.status != 200 ==> r.db == t && r.out.data.None?
    ensures r.out.status in {200, 400, 403, 404, 500}
    ensures r.db == t.(users := r.db.users) && KeepsKeys(t.users, r.db.users)
    // the guards, in the order the handler takes them
    ensures !body.Object? ==> r == Step(Reply(500, None, devMode), t)
    ensures body.Object? && !Truthy(Field(body.fields, "userId")) ==> r == Step(Status(400), t)
    ensures body.Object? && Truthy(Field(body.fields, "userId")) && !Field(body.fields, "userId").Str? ==>
      r == Step(Reply(500, None, devMode), t)
    ensures (body.Object? && Field(body.fields, "userId").Str? && Field(body.fields, "userId").s != ""
      && !HasUser(t.users, Field(body.fields, "userId").s)) ==> r == Step(Status(404), t)
    // an existing user who has recharged is refused on every call
    ensures (body.Object? && Field(body.fields, "userId").Str? && Field(body.fields, "userId").s != ""
      && HasUser(t.users, Field(body.fields, "userId").s)
      && t.users[FindUser(t.users, Id, Field(body.fields, "userId").s).value].recharged) ==> r == Step(Status(403), t)
    ensures r.out.status == 200 <==>
      && body.Object? && Field(body.fields, "userId").Str? && Field(body.fields, "userId").s != ""
      && HasUser(t.users, Field(body.fields, "userId").s)
      && !t.users[FindUser(t.users, Id, Field(body.fields, "userId").s).value].recharged
    ensures r.out.status == 200 ==>
      var i := FindUser(t.users, Id, Field(body.fields, "userId").s).value;
      var u := t.users[i];
      && r.db.users == t.users[i := u.(credits := u.credits + RECHARGE_CREDIT_AMOUNT, recharged := true)]
      && r.out.data == Some(RechargeData(u.id, u.email, u.credits + RECHARGE_CREDIT_AMOUNT, false))
  {
    match body
    case Malformed => Step(Reply(500, None, devMode), t)
    case NullBody => Step(Reply(500, None, devMode), t)
    case Object(fields) =>
      var userId := Field(fields, "userId");
      if !Truthy(userId) then Step(Status(400), t)
      else if !userId.Str? then Step(Reply(500, None, devMode), t)
      else match FindUser(t.users, Id, userId.s)
        case None => Step(Status(404), t)
        case Some(i) =>
          var u := t.users[i];
          if u.recharged then Step(Status(403), t)
          else
            var updated := u.(credits := u.credits + RECHARGE_CREDIT_AMOUNT, recharged := true);
            var data := RechargeData(updated.id, updated.email, updated.credits, !updated.recharged);
            Step(Reply(200, Some(data), false), t.(users := t.users[i := updated]))
  }

  /** After a successful recharge the same request gets 403 and the balance stays where it is. */
  lemma PostRechargesOnce(t: Tables, body: Body, devMode: bool, devMode2: bool)
    requires PostStep(t, body, devMode).out.status == 200
    ensures PostStep(PostStep(t, body, devMode).db, body, devMode2) == Step(Status(403), PostStep(t, body, devMode).db)
  {
    var t1 := PostStep(t, body, devMode).db;
    KeepsKeysFind(t.users, t1.users, Id, Field(body.fields, "userId").s);
  }

  /** Only `userId` is read from the body (for both versions): the amount cannot be chosen by the caller. */
  lemma OnlyUserIdRead(t: Tables, fields: map<string, Json>, devMode: bool)
    ensures PostStep(t, Object(fields), devMode) == PostStep(t, Object(map["userId" := Field(fields, "userId")]), devMode)
    ensures PostAsWrittenStep(t, Object(fields), devMode) == PostAsWrittenStep(t, Object(map["userId" := Field(fields, "userId")]), devMode)
  {
    assert Field(map["userId" := Field(fields, "userId")], "userId") == Field(fields, "userId");
  }

  lemma PostKeepsWellFormed(t: Tables, body: Body, devMode: bool)
    requires WellFormed(t)
    ensures WellFormed(PostStep(t, body, devMode).db)
  {
    KeepsKeysWellFormed(t, PostStep(t, body, devMode).db.users);
  }

  method Post(db: Database, body: Body, devMode: bool) returns (r: Reply<RechargeData>)
    modifies db
    ensures Step(r, db.State()) == PostStep(old(db.State()), body, devMode)
    ensures old(db.Valid()) ==> db.Valid()
  {
    ghost var before := db.State();
    if body.Malformed? || body.NullBody? {
      return Reply(500, None, devMode);
    }
    var userId := Field(body.fields, "userId");
    if !Truthy(userId) {
      return Status(400);
    }
    if !userId.Str? {
      return Reply(500, None, devMode);
    }
    var found := FindUser(db.users, Id, userId.s);
    if found.None? {
      return Status(404);
    }
    var i := found.value;
    var user := db.users[i];
    if user.recharged {
      return Status(403);
    }
    var updated := user.(credits := user.credits + RECHARGE_CREDIT_AMOUNT, recharged := true);
    db.users := db.users[i := updated];
    r := Reply(200, Some(RechargeData(updated.id, updated.email, updated.credits, !updated.recharged)), false);
    if WellFormed(before) {
      PostKeepsWellFormed(before, body, devMode);
    }
  }
}
