/**
 * The user helpers: the client-side view of a user looked up by Google id,
 * the overwrite of a user's three credit columns, and the one-time recharge.
 */
module Users {
  import opened Wrappers
  import opened Store

  /** The object `getUserByGoogleId` returns: the balance renamed, and the recharge flag inverted. */
  datatype ClientUser = ClientUser(
    id: string,
    email: string,
    name: Option<string>,
    image: Option<string>,
    googleId: string,
    apiKey: string,
    creditsRemaining: int,
    creditsUsed: int,
    canRecharge: bool)

  function ToClient(u: User): ClientUser
  {
    ClientUser(u.id, u.email, u.name, u.image, u.googleId, u.apiKey, u.credits, u.creditsUsed, !u.recharged)
  }

  /**
   * `getUserByGoogleId(googleId)`: null exactly when no user has that Google
   * id; otherwise that user, with `canRecharge` true exactly when they have not
   * recharged yet.
   */
  function GetUserByGoogleId(users: seq<User>, googleId: string): (r: Option<ClientUser>)
    ensures r.None? <==> forall k | 0 <= k < |users| :: users[k].googleId != googleId
    ensures r.Some? ==> exists k | 0 <= k < |users| ::
      && users[k].googleId == googleId
      && r.value == ToClient(users[k])
  {
    match FindUser(users, GoogleId, googleId)
    case None => None
    case Some(k) => Some(ToClient(users[k]))
  }

  /** On a well-formed table the user found is the only one with that Google id. */
  lemma GetUserByGoogleIdIsTheRow(users: seq<User>, k: nat)
    requires UniqueUsers(users) && k < |users|
    ensures GetUserByGoogleId(users, users[k].googleId) == Some(ToClient(users[k]))
  {
    FindUserIsTheRow(users, GoogleId, k);
  }

  /**
   * `updateUserCredits(userId, credits, creditsUsed, recharged)`: the user with
   * that id gets exactly these three values and keeps everything else; a
   * missing user is P2025 and nothing changes.
   */
  function SetCredits(t: Tables, userId: string, credits: int, creditsUsed: int, recharged: bool): (r: Step<Result<User, DbError>>)
    ensures r.out.Ok? <==> HasUser(t.users, userId)
    ensures r.out.Err? ==> r.out.error == RecordNotFound && r.db == t
    ensures r.db == t.(users := r.db.users)
  {
    match FindUser(t.users, Id, userId)
    case None => Step(Err(RecordNotFound), t)
    case Some(i) =>
      var u := t.users[i].(credits := credits, creditsUsed := creditsUsed, recharged := recharged);
      Step(Ok(u), t.(users := t.users[i := u]))
  }

  /**
   * What `updateUserCredits` writes: the row with that id, and only its three
   * credit columns; no key of any row changes.
   */
  lemma SetCreditsWrites(t: Tables, userId: string, credits: int, creditsUsed: int, recharged: bool)
    ensures
      var r := SetCredits(t, userId, credits, creditsUsed, recharged);
      && KeepsKeys(t.users, r.db.users)
      && (r.out.Ok? ==>
        var i := FindUser(t.users, Id, userId).value;
        && t.users[i].id == userId
        && r.out.value == t.users[i].(credits := credits, creditsUsed := creditsUsed, recharged := recharged)
        && r.db.users == t.users[i := r.out.value])
  {
  }

  lemma SetCreditsKeepsWellFormed(t: Tables, userId: string, credits: int, creditsUsed: int, recharged: bool)
    requires WellFormed(t)
    ensures WellFormed(SetCredits(t, userId, credits, creditsUsed, recharged).db)
  {
    SetCreditsWrites(t, userId, credits, creditsUsed, recharged);
    KeepsKeysWellFormed(t, SetCredits(t, userId, credits, creditsUsed, recharged).db.users);
  }

  /** Overwriting the credit columns twice leaves what the second write says (the update is a plain overwrite). */
  lemma SetCreditsOverwrites(t: Tables, userId: string, c1: int, u1: int, r1: bool, c2: int, u2: int, r2: bool)
    ensures SetCredits(SetCredits(t, userId, c1, u1, r1).db, userId, c2, u2, r2) == SetCredits(t, userId, c2, u2, r2)
  {
    var s1 := SetCredits(t, userId, c1, u1, r1);
    SetCreditsWrites(t, userId, c1, u1, r1);
    KeepsKeysFind(t.users, s1.db.users, Id, userId);
    match FindUser(t.users, Id, userId)
    case None =>
    case Some(i) =>
      assert s1.db.users[i := s1.db.users[i].(credits := c2, creditsUsed := u2, recharged := r2)]
          == t.users[i := t.users[i].(credits := c2, creditsUsed := u2, recharged := r2)];
  }

  method UpdateUserCredits(db: Database, userId: string, credits: int, creditsUsed: int, recharged: bool)
      returns (r: Result<User, DbError>)
    modifies db
    ensures Step(r, db.State()) == SetCredits(old(db.State()), userId, credits, creditsUsed, recharged)
    ensures old(db.Valid()) ==> db.Valid()
  {
    ghost var before := db.State();
    var found := FindUser(db.users, Id, userId);
    if found.None? {
      return Err(RecordNotFound);
    }
    var i := found.value;
    var updated := db.users[i].(credits := credits, creditsUsed := creditsUsed, recharged := recharged);
    db.users := db.users[i := updated];
    r := Ok(updated);
    if WellFormed(before) {
      SetCreditsKeepsWellFormed(before, userId, credits, creditsUsed, recharged);
    }
  }

  /** The two errors `rechargeUserCredits` throws itself. */
  datatype RechargeError = UserNotFound | AlreadyRecharged

  /**
   * `rechargeUserCredits(userId, amount)`: a user who has not recharged gets
   * `amount` more credits, is marked recharged, and a successful RechargeLog is
   * written; an unknown user or one who already recharged gets an error and
   * nothing is written.
   */
  function Recharge(t: Tables, userId: string, amount: int): (r: Step<Result<User, RechargeError>>)
    ensures r.out.Err? <==> r.db == t
    ensures r.out == Err(UserNotFound) <==> !HasUser(t.users, userId)
    ensures r.db == t.(users := r.db.users, rechargeLogs := r.db.rechargeLogs)
    ensures KeepsKeys(t.users, r.db.users)
    // the flag only ever goes from false to true
    ensures forall k | 0 <= k < |t.users| :: t.users[k].recharged ==> r.db.users[k].recharged
    ensures r.out.Ok? ==>
      && r.db.rechargeLogs == t.rechargeLogs + [RechargeLog(userId, true)]
      && exists i | 0 <= i < |t.users| ::
        && t.users[i].id == userId && !t.users[i].recharged
        && r.out.value == t.users[i].(credits := t.users[i].credits + amount, recharged := true)
        && r.db.users == t.users[i := r.out.value]
  {
    match FindUser(t.users, Id, userId)
    case None => Step(Err(UserNotFound), t)
    case Some(i) =>
      var u := t.users[i];
      if u.recharged then Step(Err(AlreadyRecharged), t)
      else
        var updated := u.(credits := u.credits + amount, recharged := true);
        assert t.users[i := updated][i] != t.users[i];
        Step(Ok(updated), t.(users := t.users[i := updated], rechargeLogs := t.rechargeLogs + [RechargeLog(userId, true)]))
  }

  /** A recharge that succeeded cannot succeed again: the second call says the user already recharged. */
  lemma RechargeOnlyOnce(t: Tables, userId: string, a1: int, a2: int)
    requires Recharge(t, userId, a1).out.Ok?
    ensures Recharge(Recharge(t, userId, a1).db, userId, a2) == Step(Err(AlreadyRecharged), Recharge(t, userId, a1).db)
  {
    var t1 := Recharge(t, userId, a1).db;
    KeepsKeysFind(t.users, t1.users, Id, userId);
  }

  lemma RechargeKeepsWellFormed(t: Tables, userId: string, amount: int)
    requires WellFormed(t)
    ensures WellFormed(Recharge(t, userId, amount).db)
  {
    var r := Recharge(t, userId, amount);
    KeepsKeysWellFormed(t, r.db.users);
    if r.out.Ok? {
      var t1 := t.(users := r.db.users);
      assert FindUser(t1.users, Id, userId) == FindUser(t.users, Id, userId) by {
        KeepsKeysFind(t.users, t1.users, Id, userId);
      }
      assert r.db == t1.(rechargeLogs := t1.rechargeLogs + [RechargeLog(userId, true)]);
    }
  }

  /** A series of recharge requests for one user: how many of them succeeded, and the final state. */
  function RechargeRun(t: Tables, userId: string, amounts: seq<int>): (r: Step<nat>)
    decreases |amounts|
  {
    if |amounts| == 0 then Step(0, t)
    else
      var first := Recharge(t, userId, amounts[0]);
      var rest := RechargeRun(first.db, userId, amounts[1..]);
      Step((if first.out.Ok? then 1 else 0) + rest.out, rest.db)
  }

  /** Once recharged, every later request fails and changes nothing. */
  lemma {:induction false} RechargeRunAfterRecharged(t: Tables, userId: string, i: nat, amounts: seq<int>)
    requires FindUser(t.users, Id, userId) == Some(i) && t.users[i].recharged
    ensures RechargeRun(t, userId, amounts) == Step(0, t)
    decreases |amounts|
  {
    if |amounts| > 0 {
      RechargeRunAfterRecharged(t, userId, i, amounts[1..]);
    }
  }

  /**
   * However many recharge requests a user sends, at most one succeeds: exactly
   * one if the user exists, has not recharged yet and sent at least one
   * request; none otherwise. The log gains one entry per success.
   */
  lemma {:induction false} RechargeAtMostOnce(t: Tables, userId: string, amounts: seq<int>)
    ensures RechargeRun(t, userId, amounts).out ==
      if |amounts| > 0 && HasUser(t.users, userId) && !t.users[FindUser(t.users, Id, userId).value].recharged then 1 else 0
    ensures |RechargeRun(t, userId, amounts).db.rechargeLogs| == |t.rechargeLogs| + RechargeRun(t, userId, amounts).out
    decreases |amounts|
  {
    if |amounts| > 0 {
      var first := Recharge(t, userId, amounts[0]);
      match FindUser(t.users, Id, userId)
      case None =>
        assert first.db == t;
        RechargeAtMostOnce(t, userId, amounts[1..]);
      case Some(i) =>
        if t.users[i].recharged {
          RechargeRunAfterRecharged(t, userId, i, amounts);
        } else {
          KeepsKeysFind(t.users, first.db.users, Id, userId);
          assert first.db.users[i].recharged;
          RechargeRunAfterRecharged(first.db, userId, i, amounts[1..]);
        }
    }
  }

  method RechargeUserCredits(db: Database, userId: string, amount: int) returns (r: Result<User, RechargeError>)
    modifies db
    ensures Step(r, db.State()) == Recharge(old(db.State()), userId, amount)
    ensures old(db.Valid()) ==> db.Valid()
  {
    ghost var before := db.State();
    var found := FindUser(db.users, Id, userId);
    if found.None? {
      return Err(UserNotFound);
    }
    var i := found.value;
    var user := db.users[i];
    if user.recharged {
      return Err(AlreadyRecharged);
    }
    var updated := user.(credits := user.credits + amount, recharged := true);
    db.users := db.users[i := updated];
    db.rechargeLogs := db.rechargeLogs + [RechargeLog(userId, true)];
    r := Ok(updated);
    if WellFormed(before) {
      RechargeKeepsWellFormed(before, userId, amount);
    }
  }
}
