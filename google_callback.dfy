/**
 * `POST /api/auth/google/callback`: sign-in with a Google ID token. The
 * token's verification is an input (`Verification`); what is modelled is
 * what the handler does with its outcome: refuse it, create the user on
 * first sign-in (4 credits, a fresh API key), or refresh the stored name
 * and picture of a returning user, and answer with the user's session data.
 */
module GoogleCallback {
  import opened Wrappers
  import opened Store
  import opened Http
  import UserMe

  const API_KEY_PREFIX: string := "clapi_"

  /** The `credits` default of the User table. */
  const INITIAL_CREDITS: int := 4

  /**
   * `generateApiKey()`: the prefix followed by the base64url text of 32 random
   * bytes. The random text is an input; its encoding is not modelled.
   */
  function GenerateApiKey(randomText: string): (r: string)
    ensures |r| == |API_KEY_PREFIX| + |randomText|
    ensures r[..|API_KEY_PREFIX|] == API_KEY_PREFIX && r[|API_KEY_PREFIX|..] == randomText
  {
    API_KEY_PREFIX + randomText
  }

  /** Distinct random texts give distinct keys: the key determines the text it was made from. */
  lemma GenerateApiKeyInjective(a: string, b: string)
    ensures GenerateApiKey(a) == GenerateApiKey(b) ==> a == b
  {
    if GenerateApiKey(a) == GenerateApiKey(b) {
      assert a == GenerateApiKey(a)[|API_KEY_PREFIX|..];
    }
  }

  /** The fields of a verified token's payload that the handler reads. */
  datatype Payload = Payload(sub: Option<string>, email: Option<string>, name: Option<string>, picture: Option<string>)

  /**
   * What `verifyIdToken` and `getPayload` give for the credential: a rejection
   * (the call throws), or a ticket whose payload may be missing.
   */
  datatype Verification = Rejected | Verified(payload: Option<Payload>)

  /** The `data` of a successful reply. */
  datatype SessionData = SessionData(
    id: string,
    email: string,
    name: Option<string>,
    image: Option<string>,
    creditsRemaining: int,
    canRecharge: bool)

  /** `v || null` for an optional string: an empty string becomes null. */
  function OrNull(v: Option<string>): (r: Option<string>)
    ensures r.Some? <==> Present(v)
    ensures r.Some? ==> r == v
  {
    if Present(v) then v else None
  }

  /** The row `prisma.user.create` inserts: the given columns, and the defaults for the credit columns. */
  function NewUser(id: string, googleId: string, email: string, name: Option<string>, image: Option<string>, apiKey: string): User
  {
    User(id, email, name, image, googleId, apiKey, INITIAL_CREDITS, 0, false)
  }

  /** The reply's view of a user: as stored, with `canRecharge` set to the stored `recharged` flag. */
  function Session(u: User): SessionData
  {
    SessionData(u.id, u.email, u.name, u.image, u.credits, u.recharged)
  }

  /**
   * `prisma.user.update({ where: { id }, data: { name, image } })`: the row
   * with that id gets the new name and image; a missing row is P2025.
   */
  function SetProfile(t: Tables, userId: string, name: Option<string>, image: Option<string>): (r: Step<Result<User, DbError>>)
    ensures r.out.Ok? <==> HasUser(t.users, userId)
    ensures r.out.Err? ==> r.out.error == RecordNotFound && r.db == t
    ensures r.db == t.(users := r.db.users)
  {
    match FindUser(t.users, Id, userId)
    case None => Step(Err(RecordNotFound), t)
    case Some(i) =>
      var u := t.users[i].(name := name, image := image);
      Step(Ok(u), t.(users := t.users[i := u]))
  }

  /** The update writes the row with that id, and only its name and image. */
  lemma SetProfileWrites(t: Tables, userId: string, name: Option<string>, image: Option<string>)
    ensures
      var r := SetProfile(t, userId, name, image);
      && KeepsKeys(t.users, r.db.users)
      && (r.out.Ok? ==>
        var i := FindUser(t.users, Id, userId).value;
        && r.out.value == t.users[i].(name := name, image := image)
        && r.db.users == t.users[i := r.out.value])
  {
  }

  /**
   * `prisma.user.create({ data })`: the row is appended, unless one of its
   * unique values is taken already (P2002), in which case nothing is written.
   */
  function InsertUser(t: Tables, u: User): (r: Step<Result<User, DbError>>)
    ensures r.out.Ok? <==> !Conflicts(t.users, u)
    ensures r.out.Ok? ==> r == Step(Ok(u), t.(users := t.users + [u]))
    ensures r.out.Err? ==> r == Step(Err(UniqueViolation), t)
  {
    if Conflicts(t.users, u) then Step(Err(UniqueViolation), t)
    else Step(Ok(u), t.(users := t.users + [u]))
  }

  /**
   * The user lookup and upsert: find the user by Google id; create them when there is none
   * (a unique column already taken is P2002); otherwise update name and image
   * when either differs from what the token says, and leave the row alone
   * when both agree.
   */
  function SignIn(t: Tables, googleId: string, email: string, name: Option<string>, image: Option<string>, newId: string, newKey: string): (r: Step<Result<User, DbError>>)
    ensures r.out.Err? ==> r.db == t
    ensures r.db == t.(users := r.db.users)
  {
    match FindUser(t.users, GoogleId, googleId)
    case None => InsertUser(t, NewUser(newId, googleId, email, OrNull(name), OrNull(image), newKey))
    case Some(k) =>
      if t.users[k].name != OrNull(name) || t.users[k].image != OrNull(image) then
        SetProfile(t, t.users[k].id, OrNull(name), OrNull(image))
      else Step(Ok(t.users[k]), t)
  }

  /**
   * The handler. `verification` is what Google's library says about the
   * credential, `newId` the id the database generates for a new row,
   * `randomText` the random part of a new API key, and `devMode` whether
   * `NODE_ENV` is `development` (a 500 then carries the error text).
   */
  function PostStep(t: Tables, body: Body, verification: Verification, newId: string, randomText: string, devMode: bool): (r: Step<Reply<SessionData>>)
    ensures r.out.status in {200, 400, 401, 500}
    ensures r.out.status != 200 ==> r.db == t && r.out.data.None?
    ensures r.out.status == 500 ==> r.out.detail == devMode
    ensures r.db == t.(users := r.db.users)
  {
    match body
    // `request.json()` throws, or destructuring `null` does; both are caught
    case Malformed => Step(Reply(500, None, devMode), t)
    case NullBody => Step(Reply(500, None, devMode), t)
    case Object(fields) =>
      if !Truthy(Field(fields, "credential")) then Step(Status(400), t)
      else match verification
        case Rejected => Step(Status(401), t)
        case Verified(None) => Step(Status(401), t)
        case Verified(Some(p)) =>
          if !Present(p.sub) || !Present(p.email) then Step(Status(400), t)
          else
            var signed := SignIn(t, p.sub.value, p.email.value, p.name, p.picture, newId, GenerateApiKey(randomText));
            if signed.out.Err? then Step(Reply(500, None, devMode), t)
            else Step(Reply(200, Some(Session(signed.out.value)), false), signed.db)
  }

  /**
   * The guards, in the order the handler takes them: an unreadable body is 500,
   * a missing credential 400, a rejected token or one without payload 401, a
   * payload without Google id or email 400; and a new user whose row would
   * take a unique value another row holds is 500. None of them writes anything.
   */
  lemma PostRefusals(t: Tables, body: Body, verification: Verification, newId: string, randomText: string, devMode: bool)
    ensures !body.Object? ==>
      PostStep(t, body, verification, newId, randomText, devMode) == Step(Reply(500, None, devMode), t)
    ensures body.Object? && !Truthy(Field(body.fields, "credential")) ==>
      PostStep(t, body, verification, newId, randomText, devMode) == Step(Status(400), t)
    ensures (body.Object? && Truthy(Field(body.fields, "credential"))
      && (verification.Rejected? || verification.payload.None?)) ==>
      PostStep(t, body, verification, newId, randomText, devMode) == Step(Status(401), t)
    ensures (body.Object? && Truthy(Field(body.fields, "credential"))
      && verification.Verified? && verification.payload.Some?
      && (!Present(verification.payload.value.sub) || !Present(verification.payload.value.email))) ==>
      PostStep(t, body, verification, newId, randomText, devMode) == Step(Status(400), t)
    // a first sign-in whose new row takes a unique value: P2002, rethrown and answered with 500
    ensures (Accepted(body, verification) && FindUser(t.users, GoogleId, PayloadOf(verification).sub.value).None?
      && Conflicts(t.users, Candidate(PayloadOf(verification), newId, randomText))) ==>
      PostStep(t, body, verification, newId, randomText, devMode) == Step(Reply(500, None, devMode), t)
  {
  }

  /** The requests that get past every guard: a credential, a verified payload with a Google id and an email. */
  predicate Accepted(body: Body, verification: Verification)
  {
    && body.Object? && Truthy(Field(body.fields, "credential"))
    && verification.Verified? && verification.payload.Some?
    && Present(verification.payload.value.sub) && Present(verification.payload.value.email)
  }

  function PayloadOf(verification: Verification): Payload
    requires verification.Verified? && verification.payload.Some?
  {
    verification.payload.value
  }

  /** The row a first sign-in would insert. */
  function Candidate(p: Payload, newId: string, randomText: string): User
    requires p.sub.Some? && p.email.Some?
  {
    NewUser(newId, p.sub.value, p.email.value, OrNull(p.name), OrNull(p.picture), GenerateApiKey(randomText))
  }

  /**
   * Sign-in succeeds exactly for an accepted request whose user either exists
   * already or can be created without taking a unique value another row has.
   */
  lemma PostSucceedsExactly(t: Tables, body: Body, verification: Verification, newId: string, randomText: string, devMode: bool)
    ensures PostStep(t, body, verification, newId, randomText, devMode).out.status == 200 <==>
      && Accepted(body, verification)
      && (|| FindUser(t.users, GoogleId, PayloadOf(verification).sub.value).Some?
          || !Conflicts(t.users, Candidate(PayloadOf(verification), newId, randomText)))
  {
    if Accepted(body, verification) {
      var p := PayloadOf(verification);
      match FindUser(t.users, GoogleId, p.sub.value)
      case None =>
      case Some(k) =>
        assert HasUser(t.users, t.users[k].id) by { assert KeyOf(t.users[k], Id) == t.users[k].id; }
    }
  }

  /**
   * A first sign-in inserts exactly one row: the payload's Google id and email,
   * name and picture or null, the new API key, 4 credits, none used, not
   * recharged. The reply describes that row.
   */
  lemma FirstSignInCreatesUser(t: Tables, body: Body, verification: Verification, newId: string, randomText: string, devMode: bool)
    requires Accepted(body, verification)
    requires FindUser(t.users, GoogleId, PayloadOf(verification).sub.value).None?
    requires !Conflicts(t.users, Candidate(PayloadOf(verification), newId, randomText))
    ensures
      var r := PostStep(t, body, verification, newId, randomText, devMode);
      var p := PayloadOf(verification);
      && r.db == t.(users := t.users + [User(newId, p.email.value, OrNull(p.name), OrNull(p.picture), p.sub.value,
                                             API_KEY_PREFIX + randomText, 4, 0, false)])
      && r.out == Reply(200, Some(SessionData(newId, p.email.value, OrNull(p.name), OrNull(p.picture), 4, false)), false)
  {
  }

  /**
   * A successful sign-in never stores or answers with an empty name or image:
   * the reply carries the token's name and picture or null, and a row holding
   * an empty name or image after the call held it before the call.
   */
  lemma SignInStoresNoEmptyProfile(t: Tables, body: Body, verification: Verification, newId: string, randomText: string, devMode: bool)
    requires PostStep(t, body, verification, newId, randomText, devMode).out.status == 200
    ensures Accepted(body, verification)
    ensures
      var r := PostStep(t, body, verification, newId, randomText, devMode);
      var p := PayloadOf(verification);
      && r.out.data.Some?
      && r.out.data.value.name == OrNull(p.name) && r.out.data.value.image == OrNull(p.picture)
      && r.out.data.value.name != Some("") && r.out.data.value.image != Some("")
      && (forall k | 0 <= k < |r.db.users| && r.db.users[k].name == Some("") :: k < |t.users| && t.users[k].name == Some(""))
      && (forall k | 0 <= k < |r.db.users| && r.db.users[k].image == Some("") :: k < |t.users| && t.users[k].image == Some(""))
  {
    var p := PayloadOf(verification);
    match FindUser(t.users, GoogleId, p.sub.value)
    case None =>
    case Some(k) =>
      SetProfileWrites(t, t.users[k].id, OrNull(p.name), OrNull(p.picture));
  }

  /** Two rows are the same account: the unique columns and the credit columns agree. */
  predicate SameAccount(u: User, v: User)
  {
    SameKeys(u, v) && u.credits == v.credits && u.creditsUsed == v.creditsUsed && u.recharged == v.recharged
  }

  /**
   * Signing in never touches an existing account: every row already there
   * keeps its id, email, Google id, API key, credits, used credits and
   * recharge flag; at most one row is added, and none when the Google id was
   * already known.
   */
  lemma ExistingAccountsUntouched(t: Tables, body: Body, verification: Verification, newId: string, randomText: string, devMode: bool)
    ensures
      var after := PostStep(t, body, verification, newId, randomText, devMode).db.users;
      && |t.users| <= |after| <= |t.users| + 1
      && (forall k | 0 <= k < |t.users| :: SameAccount(t.users[k], after[k]))
      && (Accepted(body, verification) && FindUser(t.users, GoogleId, PayloadOf(verification).sub.value).Some? ==>
           |after| == |t.users|)
  {
    if Accepted(body, verification) {
      var p := PayloadOf(verification);
      match FindUser(t.users, GoogleId, p.sub.value)
      case None =>
      case Some(k) =>
        SetProfileWrites(t, t.users[k].id, OrNull(p.name), OrNull(p.picture));
    }
  }

  /**
   * A returning user (on a well-formed database) signs in with 200; the only
   * write is their own name and image, set to the token's, and nothing at all
   * is written when both already agree.
   */
  lemma ReturningUserRefreshed(t: Tables, body: Body, verification: Verification, newId: string, randomText: string, devMode: bool, k: nat)
    requires UniqueUsers(t.users) && k < |t.users|
    requires Accepted(body, verification) && t.users[k].googleId == PayloadOf(verification).sub.value
    ensures
      var r := PostStep(t, body, verification, newId, randomText, devMode);
      var p := PayloadOf(verification);
      var refreshed := t.users[k].(name := OrNull(p.name), image := OrNull(p.picture));
      && r.out == Reply(200, Some(Session(refreshed)), false)
      && r.db == t.(users := t.users[k := refreshed])
      && (t.users[k].name == OrNull(p.name) && t.users[k].image == OrNull(p.picture) ==> r.db == t)
  {
    var p := PayloadOf(verification);
    FindUserIsTheRow(t.users, GoogleId, k);
    FindUserIsTheRow(t.users, Id, k);
    SetProfileWrites(t, t.users[k].id, OrNull(p.name), OrNull(p.picture));
    var refreshed := t.users[k].(name := OrNull(p.name), image := OrNull(p.picture));
    if t.users[k].name == OrNull(p.name) && t.users[k].image == OrNull(p.picture) {
      assert refreshed == t.users[k];
      assert t.users[k := refreshed] == t.users;
    }
  }

  /** An insert keeps the database constraints: the unique indexes, and every foreign key still finds its user. */
  lemma InsertUserKeepsWellFormed(t: Tables, u: User)
    requires WellFormed(t)
    ensures WellFormed(InsertUser(t, u).db)
  {
    if !Conflicts(t.users, u) {
      var users := t.users + [u];
      AppendUnique(t.users, u);
      forall uid: string | HasUser(t.users, uid) ensures HasUser(users, uid) {
        FindUserAppend(t.users, u, Id, uid);
      }
    }
  }

  lemma SetProfileKeepsWellFormed(t: Tables, userId: string, name: Option<string>, image: Option<string>)
    requires WellFormed(t)
    ensures WellFormed(SetProfile(t, userId, name, image).db)
  {
    SetProfileWrites(t, userId, name, image);
    KeepsKeysWellFormed(t, SetProfile(t, userId, name, image).db.users);
  }

  lemma SignInKeepsWellFormed(t: Tables, googleId: string, email: string, name: Option<string>, image: Option<string>, newId: string, newKey: string)
    requires WellFormed(t)
    ensures WellFormed(SignIn(t, googleId, email, name, image, newId, newKey).db)
  {
    match FindUser(t.users, GoogleId, googleId)
    case None =>
      InsertUserKeepsWellFormed(t, NewUser(newId, googleId, email, OrNull(name), OrNull(image), newKey));
    case Some(k) =>
      SetProfileKeepsWellFormed(t, t.users[k].id, OrNull(name), OrNull(image));
  }

  lemma PostKeepsWellFormed(t: Tables, body: Body, verification: Verification, newId: string, randomText: string, devMode: bool)
    requires WellFormed(t)
    ensures WellFormed(PostStep(t, body, verification, newId, randomText, devMode).db)
  {
    if Accepted(body, verification) {
      var p := PayloadOf(verification);
      SignInKeepsWellFormed(t, p.sub.value, p.email.value, p.name, p.picture, newId, GenerateApiKey(randomText));
    }
  }

  /**
   * Signing in again with the same token right after a successful sign-in
   * writes nothing and answers with the same data, whatever id and key the
   * second call would have generated.
   */
  lemma SignInAgainSame(t: Tables, body: Body, verification: Verification, newId: string, randomText: string, devMode: bool,
                        newId2: string, randomText2: string, devMode2: bool)
    requires UniqueUsers(t.users)
    requires PostStep(t, body, verification, newId, randomText, devMode).out.status == 200
    ensures
      var r := PostStep(t, body, verification, newId, randomText, devMode);
      PostStep(r.db, body, verification, newId2, randomText2, devMode2) == r
  {
    var r := PostStep(t, body, verification, newId, randomText, devMode);
    var p := PayloadOf(verification);
    match FindUser(t.users, GoogleId, p.sub.value)
    case None =>
      var u := Candidate(p, newId, randomText);
      PostSucceedsExactly(t, body, verification, newId, randomText, devMode);
      FirstSignInCreatesUser(t, body, verification, newId, randomText, devMode);
      AppendUnique(t.users, u);
      assert r.db.users[|t.users|] == u;
      ReturningUserRefreshed(r.db, body, verification, newId2, randomText2, devMode2, |t.users|);
    case Some(k) =>
      ReturningUserRefreshed(t, body, verification, newId, randomText, devMode, k);
      var refreshed := t.users[k].(name := OrNull(p.name), image := OrNull(p.picture));
      KeepsKeysUnique(t.users, t.users[k := refreshed]);
      ReturningUserRefreshed(r.db, body, verification, newId2, randomText2, devMode2, k);
  }

  /**
   * The reply's `canRecharge` is the stored `recharged` flag itself, the
   * opposite of what `/api/user/me` reports for the same user right after.
   */
  lemma CanRechargeDisagreesWithMe(t: Tables, body: Body, verification: Verification, newId: string, randomText: string, devMode: bool)
    requires WellFormed(t)
    requires PostStep(t, body, verification, newId, randomText, devMode).out.status == 200
    requires PostStep(t, body, verification, newId, randomText, devMode).out.data.value.id != ""
    ensures
      var r := PostStep(t, body, verification, newId, randomText, devMode);
      var me := UserMe.Get(r.db.users, Headers(None, None, Some(r.out.data.value.id)), false);
      && me.status == 200
      && me.data.value.canRecharge == !r.out.data.value.canRecharge
  {
    var r := PostStep(t, body, verification, newId, randomText, devMode);
    var p := PayloadOf(verification);
    PostKeepsWellFormed(t, body, verification, newId, randomText, devMode);
    match FindUser(t.users, GoogleId, p.sub.value)
    case None =>
      var u := Candidate(p, newId, randomText);
      assert r.db.users == t.users + [u];
      assert r.db.users[|t.users|] == u;
      FindUserIsTheRow(r.db.users, Id, |t.users|);
    case Some(k) =>
      ReturningUserRefreshed(t, body, verification, newId, randomText, devMode, k);
      FindUserIsTheRow(r.db.users, Id, k);
  }

  method CreateUser(db: Database, u: User) returns (r: Result<User, DbError>)
    modifies db
    ensures Step(r, db.State()) == InsertUser(old(db.State()), u)
    ensures old(db.Valid()) ==> db.Valid()
  {
    ghost var before := db.State();
    if Conflicts(db.users, u) {
      return Err(UniqueViolation);
    }
    db.users := db.users + [u];
    r := Ok(u);
    if WellFormed(before) {
      InsertUserKeepsWellFormed(before, u);
    }
  }

  method UpdateProfile(db: Database, userId: string, name: Option<string>, image: Option<string>) returns (r: Result<User, DbError>)
    modifies db
    ensures Step(r, db.State()) == SetProfile(old(db.State()), userId, name, image)
    ensures old(db.Valid()) ==> db.Valid()
  {
    ghost var before := db.State();
    var found := FindUser(db.users, Id, userId);
    if found.None? {
      return Err(RecordNotFound);
    }
    var updated := db.users[found.value].(name := name, image := image);
    db.users := db.users[found.value := updated];
    r := Ok(updated);
    if WellFormed(before) {
      SetProfileKeepsWellFormed(before, userId, name, image);
    }
  }

  method Post(db: Database, body: Body, verification: Verification, newId: string, randomText: string, devMode: bool)
      returns (r: Reply<SessionData>)
    modifies db
    ensures Step(r, db.State()) == PostStep(old(db.State()), body, verification, newId, randomText, devMode)
    ensures old(db.Valid()) ==> db.Valid()
  {
    ghost var before := db.State();
    if body.Malformed? || body.NullBody? {
      return Reply(500, None, devMode);
    }
    if !Truthy(Field(body.fields, "credential")) {
      return Status(400);
    }
    if verification.Rejected? || verification.payload.None? {
      return Status(401);
    }
    var p := verification.payload.value;
    if !Present(p.sub) || !Present(p.email) {
      return Status(400);
    }
    var googleId, email := p.sub.value, p.email.value;
    var name, image := OrNull(p.name), OrNull(p.picture);
    var found := FindUser(db.users, GoogleId, googleId);
    var user: User;
    if found.None? {
      var newKey := GenerateApiKey(randomText);
      var created := CreateUser(db, NewUser(newId, googleId, email, name, image, newKey));
      if created.Err? {
        return Reply(500, None, devMode);
      }
      user := created.value;
    } else {
      user := db.users[found.value];
      if user.name != name || user.image != image {
        var updated := UpdateProfile(db, user.id, name, image);
        if updated.Err? {
          return Reply(500, None, devMode);
        }
        user := updated.value;
      }
    }
    r := Reply(200, Some(Session(user)), false);
    if WellFormed(before) {
      PostKeepsWellFormed(before, body, verification, newId, randomText, devMode);
    }
  }
}
