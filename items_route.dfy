/**
 * `POST /api/items`: take the API key from the headers, charge it through the
 * credit gate, then validate the body and insert the item for the gated user.
 * The credit is taken before the body is looked at and is not given back when
 * the body is refused.
 */
module ItemsRoute {
  import opened Wrappers
  import opened Store
  import opened Http
  import opened JsString
  import ApiUtils
  import CrudItems

  /**
   * `headers.get('Authorization')?.split('Bearer ')[1] || headers.get('X-API-Key')`:
   * the text after the first `Bearer ` (up to any second one) when there is
   * such text, otherwise the X-API-Key header as it is.
   */
  function ExtractKey(h: Headers): (r: Option<string>)
    ensures Present(r) <==>
      (h.authorization.Some? && Present(SplitSecond(h.authorization.value, BEARER))) || Present(h.xApiKey)
    ensures h.authorization.Some? && Present(SplitSecond(h.authorization.value, BEARER)) ==>
      r == SplitSecond(h.authorization.value, BEARER)
  {
    var fromAuthorization := match h.authorization
      case None => None
      case Some(a) => SplitSecond(a, BEARER);
    if Present(fromAuthorization) then fromAuthorization else h.xApiKey
  }

  /** `Authorization: Bearer <key>` yields the key, whatever X-API-Key says. */
  lemma BearerKeyExtracted(key: string, xApiKey: Option<string>, xUserId: Option<string>)
    requires key != "" && IndexOf(key, BEARER).None?
    ensures ExtractKey(Headers(Some(BEARER + key), xApiKey, xUserId)) == Some(key)
  {
    BearerRoundTrip(key);
  }

  /** An Authorization header without `Bearer ` is ignored: the key comes from X-API-Key. */
  lemma OtherAuthorizationIgnored(authorization: string, xApiKey: Option<string>, xUserId: Option<string>)
    requires IndexOf(authorization, BEARER).None?
    ensures ExtractKey(Headers(Some(authorization), xApiKey, xUserId)) == xApiKey
  {
  }

  /** The `data` of a 201 reply: the new item's id. */
  type ItemsReply = Reply<int>

  /**
   * The handler. `gateFault` stands for a database failure inside the gate;
   * `now` is the clock that stamps the new item.
   */
  function PostStep(t: Tables, h: Headers, body: Body, gateFault: bool, now: nat): (r: Step<ItemsReply>)
    // no key: refused before the gate, nothing changes
    ensures !Present(ExtractKey(h)) ==> r == Step(Status(401), t)
    // a gate error is passed through and nothing is created
    ensures Present(ExtractKey(h)) && ApiUtils.Charge(t, ExtractKey(h).value, gateFault).out.error.Some? ==>
      r == Step(Status(ApiUtils.Charge(t, ExtractKey(h).value, gateFault).out.error.value.status), t)
    // once the gate admits the request, the credit is spent whatever the body says,
    // and the only other change is a created item
    ensures Present(ExtractKey(h)) && ApiUtils.Charge(t, ExtractKey(h).value, gateFault).out.user.Some? ==>
      var charged := ApiUtils.Charge(t, ExtractKey(h).value, gateFault).db;
      && r.db.users == charged.users
      && r.db.usageLogs == t.usageLogs && r.db.rechargeLogs == t.rechargeLogs
      // the body is read only now: not JSON is 400, `null` is 500, a bad field is 400
      && (body.Malformed? ==> r.out == Status(400))
      && (body.NullBody? ==> r.out == Status(500))
      && (body.Object? && (!Field(body.fields, "value").Num? || !Field(body.fields, "txHash").Str?) ==> r.out == Status(400))
      // a created item holds the body's value and hash, the admitted user and the next id
      && (r.out.status == 201 ==>
            && body.Object? && Field(body.fields, "value").Num? && Field(body.fields, "txHash").Str?
            && r.db.items == t.items + [Item(t.nextItemId, ApiUtils.Charge(t, ExtractKey(h).value, gateFault).out.user.value,
                                             Field(body.fields, "value").n, Field(body.fields, "txHash").s, now)]
            && r.db.nextItemId == t.nextItemId + 1
            && r.out.data == Some(t.nextItemId))
      && (r.out.status != 201 ==> r.db == charged)
    ensures r.out.status == 201 <==>
      && Present(ExtractKey(h))
      && ApiUtils.Charge(t, ExtractKey(h).value, gateFault).out.user.Some?
      && body.Object? && Field(body.fields, "value").Num? && Field(body.fields, "txHash").Str?
      && HasUser(ApiUtils.Charge(t, ExtractKey(h).value, gateFault).db.users, ApiUtils.Charge(t, ExtractKey(h).value, gateFault).out.user.value)
  {
    var apiKey := ExtractKey(h);
    if !Present(apiKey) then Step(Status(401), t)
    else
      var gate := ApiUtils.Charge(t, apiKey.value, gateFault);
      if gate.out.error.Some? then Step(Status(gate.out.error.value.status), gate.db)
      else
        var t1 := gate.db;
        var uid := gate.out.user.value;
        match body
        // `request.json()` throws a SyntaxError
        case Malformed => Step(Status(400), t1)
        // destructuring `null` throws a TypeError
        case NullBody => Step(Status(500), t1)
        case Object(fields) =>
          var value := Field(fields, "value");
          var txHash := Field(fields, "txHash");
          if !value.Num? || !txHash.Str? then Step(Status(400), t1)
          else
            var created := CrudItems.Create(t1, uid, value, txHash.s, now);
            match created.out
            case Err(_) => Step(Status(500), t1)
            case Ok(it) => Step(Reply(201, Some(it.id), false), created.db)
  }

  /**
   * The user the gate admits exists, so a valid body always gets 201, and the
   * item belongs to the key's owner.
   */
  lemma ValidBodyCreated(t: Tables, h: Headers, body: Body, gateFault: bool, now: nat)
    requires Present(ExtractKey(h))
    requires ApiUtils.Charge(t, ExtractKey(h).value, gateFault).out.user.Some?
    requires body.Object? && Field(body.fields, "value").Num? && Field(body.fields, "txHash").Str?
    ensures PostStep(t, h, body, gateFault, now).out.status == 201
    ensures exists i | 0 <= i < |t.users| ::
      && t.users[i].apiKey == ExtractKey(h).value
      && PostStep(t, h, body, gateFault, now).db.items[|t.items|].userId == t.users[i].id
  {
    var key := ExtractKey(h).value;
    var gate := ApiUtils.Charge(t, key, gateFault);
    var i := FindUser(t.users, ApiKey, key).value;
    assert gate.out.user.value == t.users[i].id;
    KeepsKeysFind(t.users, gate.db.users, Id, t.users[i].id);
    assert FindUser(t.users, Id, t.users[i].id).Some?;
  }

  /**
   * A refused body costs the credit anyway: with a key whose owner has
   * credits, a body that is not JSON gets 400 and the balance is one lower.
   */
  lemma RefusedBodyStillCharged(t: Tables, h: Headers, now: nat, i: nat)
    requires Present(ExtractKey(h))
    requires FindUser(t.users, ApiKey, ExtractKey(h).value) == Some(i) && t.users[i].credits > 0
    ensures PostStep(t, h, Malformed, false, now).out.status == 400
    ensures PostStep(t, h, Malformed, false, now).db.users[i].credits == t.users[i].credits - 1
    ensures PostStep(t, h, Malformed, false, now).db.users[i].creditsUsed == t.users[i].creditsUsed + 1
  {
    ApiUtils.ChargeOwner(t, ExtractKey(h).value, i);
  }

  lemma PostKeepsWellFormed(t: Tables, h: Headers, body: Body, gateFault: bool, now: nat)
    requires WellFormed(t)
    ensures WellFormed(PostStep(t, h, body, gateFault, now).db)
  {
    var apiKey := ExtractKey(h);
    if Present(apiKey) {
      ApiUtils.ChargeKeepsWellFormed(t, apiKey.value, gateFault);
      var gate := ApiUtils.Charge(t, apiKey.value, gateFault);
      if gate.out.user.Some? && body.Object? {
        var value := Field(body.fields, "value");
        var txHash := Field(body.fields, "txHash");
        if value.Num? && txHash.Str? {
          var created := CrudItems.Create(gate.db, gate.out.user.value, value, txHash.s, now);
          if created.out.Ok? {
            CrudItems.CreateFreshId(gate.db, gate.out.user.value, value, txHash.s, now);
          }
        }
      }
    }
  }

  method Post(db: Database, h: Headers, body: Body, gateFault: bool, now: nat) returns (r: ItemsReply)
    modifies db
    ensures Step(r, db.State()) == PostStep(old(db.State()), h, body, gateFault, now)
    ensures old(db.Valid()) ==> db.Valid()
  {
    ghost var before := db.State();
    var apiKey := ExtractKey(h);
    if !Present(apiKey) {
      return Status(401);
    }
    var validation := ApiUtils.ValidateKeyAndDecrementCredits(db, apiKey.value, gateFault);
    if validation.error.Some? {
      return Status(validation.error.value.status);
    }
    var uid := validation.user.value;
    if body.Malformed? {
      return Status(400);
    }
    if body.NullBody? {
      return Status(500);
    }
    var value := Field(body.fields, "value");
    var txHash := Field(body.fields, "txHash");
    if !value.Num? || !txHash.Str? {
      return Status(400);
    }
    var created := CrudItems.CreateCrudItem(db, uid, value, txHash.s, now);
    if created.Err? {
      return Status(500);
    }
    r := Reply(201, Some(created.value.id), false);
    if WellFormed(before) {
      PostKeepsWellFormed(before, h, body, gateFault, now);
    }
  }
}
