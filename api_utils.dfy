/**
 * The API-key credit gate, `validateKeyAndDecrementCredits`: find the user by
 * API key, reject an unknown key (403) or an empty balance (429), otherwise
 * take one credit (`credits - 1`, `creditsUsed + 1`) and return the user's id.
 * A database failure anywhere in the call is caught and reported as 500.
 */
module ApiUtils {
  import opened Wrappers
  import opened Store

  /** The `error` half of the result; the message text is not modelled. */
  datatype GateError = GateError(status: int)

  /** `{ user: { id } | null, error: { status, message } | null }`. */
  datatype GateResult = GateResult(user: Option<string>, error: Option<GateError>)

  const INVALID_KEY: GateResult := GateResult(None, Some(GateError(403)))
  const LIMIT_EXCEEDED: GateResult := GateResult(None, Some(GateError(429)))
  const INTERNAL_ERROR: GateResult := GateResult(None, Some(GateError(500)))

  /** Admitted user `id`, no error. */
  function Admitted(id: string): GateResult
  {
    GateResult(Some(id), None)
  }

  /** The row after one credit is taken. */
  function Debited(u: User): User
  {
    u.(credits := u.credits - 1, creditsUsed := u.creditsUsed + 1)
  }

  /**
   * One call of the gate. `fault` stands for the database failing during the
   * call (caught, 500, nothing written).
   */
  function Charge(t: Tables, apiKey: string, fault: bool): (r: Step<GateResult>)
    // exactly one of user / error is set
    ensures r.out.user.Some? != r.out.error.Some?
    ensures r.out.error.Some? ==> r.out.error.value.status in {403, 429, 500}
    // a database failure is caught: 500, and nothing written
    ensures r.out == INTERNAL_ERROR <==> fault
    ensures fault ==> r.db == t
    // a request is billed exactly when it is admitted
    ensures r.out.error.Some? <==> r.db == t
    // only the user table can change, and no row is added or removed
    ensures r.db == t.(users := r.db.users) && KeepsKeys(t.users, r.db.users)
  {
    if fault then Step(INTERNAL_ERROR, t)
    else match FindUser(t.users, ApiKey, apiKey)
      case None => Step(INVALID_KEY, t)
      case Some(i) =>
        var u := t.users[i];
        if u.credits <= 0 then Step(LIMIT_EXCEEDED, t)
        else
          assert t.users[i := Debited(u)] != t.users by { assert t.users[i := Debited(u)][i] != t.users[i]; }
          Step(Admitted(u.id), t.(users := t.users[i := Debited(u)]))
  }

  /**
   * Every row keeps its flag and its `credits + creditsUsed` total, and a
   * balance that was not negative does not become negative.
   */
  lemma ChargeConserves(t: Tables, apiKey: string, fault: bool)
    ensures var after := Charge(t, apiKey, fault).db.users;
      forall k | 0 <= k < |t.users| ::
        && after[k].recharged == t.users[k].recharged
        && after[k].credits + after[k].creditsUsed == t.users[k].credits + t.users[k].creditsUsed
        && (t.users[k].credits >= 0 ==> after[k].credits >= 0)
  {
  }

  /** An unknown key is refused with 403 and changes nothing. */
  lemma UnknownKeyRefused(t: Tables, apiKey: string)
    requires FindUser(t.users, ApiKey, apiKey).None?
    ensures Charge(t, apiKey, false) == Step(INVALID_KEY, t)
  {
  }

  /**
   * An admitted call charged the user who owns the key: that row lost exactly
   * one credit and gained exactly one used credit, no other row changed, and
   * the returned id is that user's id.
   */
  lemma AdmittedChargesOwner(t: Tables, apiKey: string, fault: bool)
    requires UniqueUsers(t.users)
    requires Charge(t, apiKey, fault).out.user.Some?
    ensures exists i | 0 <= i < |t.users| ::
      var after := Charge(t, apiKey, fault).db.users;
      && t.users[i].apiKey == apiKey
      && t.users[i].credits > 0
      && Charge(t, apiKey, fault).out.user.value == t.users[i].id
      && after[i] == t.users[i].(credits := t.users[i].credits - 1, creditsUsed := t.users[i].creditsUsed + 1)
      && forall k | 0 <= k < |t.users| && k != i :: after[k] == t.users[k]
  {
    var i := FindUser(t.users, ApiKey, apiKey).value;
    assert Charge(t, apiKey, fault).db.users == t.users[i := Debited(t.users[i])];
  }

  /** The gate keeps the database's constraints. */
  lemma ChargeKeepsWellFormed(t: Tables, apiKey: string, fault: bool)
    requires WellFormed(t)
    ensures WellFormed(Charge(t, apiKey, fault).db)
  {
    KeepsKeysWellFormed(t, Charge(t, apiKey, fault).db.users);
  }

  /** `m` calls in a row with the same key and no database failure: their results and the final state. */
  function Run(t: Tables, apiKey: string, m: nat): (r: Step<seq<GateResult>>)
    ensures |r.out| == m
    decreases m
  {
    if m == 0 then Step([], t)
    else
      var first := Charge(t, apiKey, false);
      var rest := Run(first.db, apiKey, m - 1);
      Step([first.out] + rest.out, rest.db)
  }

  /** One call with the key of row `i`: the row's owner is admitted and debited while the balance is positive. */
  lemma ChargeOwner(t: Tables, apiKey: string, i: nat)
    requires FindUser(t.users, ApiKey, apiKey) == Some(i)
    ensures Charge(t, apiKey, false) ==
      if t.users[i].credits <= 0 then Step(LIMIT_EXCEEDED, t)
      else Step(Admitted(t.users[i].id), t.(users := t.users[i := Debited(t.users[i])]))
  {
  }

  /** One call of a run: the key still finds row `i`, which keeps its id and drops by one credit while it has any. */
  lemma DrainStep(t: Tables, apiKey: string, i: nat)
    requires FindUser(t.users, ApiKey, apiKey) == Some(i)
    ensures
      var u := t.users[i];
      var r := Charge(t, apiKey, false);
      && r.out == (if u.credits <= 0 then LIMIT_EXCEEDED else Admitted(u.id))
      && FindUser(r.db.users, ApiKey, apiKey) == Some(i)
      && r.db.users[i].id == u.id
      && r.db.users[i].credits == (if u.credits <= 0 then u.credits else u.credits - 1)
      && r.db.users[i].creditsUsed == (if u.credits <= 0 then u.creditsUsed else u.creditsUsed + 1)
  {
    ChargeOwner(t, apiKey, i);
    KeepsKeysFind(t.users, Charge(t, apiKey, false).db.users, ApiKey, apiKey);
  }

  /**
   * A user whose balance is `n >= 0` is admitted by exactly the first `n` of
   * any number of consecutive calls; every later call gets 429.
   */
  lemma {:induction false} DrainsResults(t: Tables, apiKey: string, m: nat, i: nat)
    requires FindUser(t.users, ApiKey, apiKey) == Some(i)
    ensures forall j | 0 <= j < m ::
      Run(t, apiKey, m).out[j] == if j < t.users[i].credits then Admitted(t.users[i].id) else LIMIT_EXCEEDED
    decreases m
  {
    if m > 0 {
      var u := t.users[i];
      DrainStep(t, apiKey, i);
      var first := Charge(t, apiKey, false);
      DrainsResults(first.db, apiKey, m - 1, i);
      var rest := Run(first.db, apiKey, m - 1).out;
      var out := Run(t, apiKey, m).out;
      assert out == [first.out] + rest;
      forall j | 0 <= j < m
        ensures out[j] == if j < u.credits then Admitted(u.id) else LIMIT_EXCEEDED
      {
        if j > 0 {
          assert out[j] == rest[j - 1];
        }
      }
    }
  }

  /** Any number of calls leave the key on row `i`, and the row keeps its id. */
  lemma {:induction false} RunKeepsRow(t: Tables, apiKey: string, m: nat, i: nat)
    requires FindUser(t.users, ApiKey, apiKey) == Some(i)
    ensures FindUser(Run(t, apiKey, m).db.users, ApiKey, apiKey) == Some(i)
    ensures Run(t, apiKey, m).db.users[i].id == t.users[i].id
    decreases m
  {
    if m > 0 {
      DrainStep(t, apiKey, i);
      var first := Charge(t, apiKey, false);
      RunKeepsRow(first.db, apiKey, m - 1, i);
      assert Run(t, apiKey, m).db == Run(first.db, apiKey, m - 1).db;
    }
  }

  /** After `m` such calls from a balance of `n >= 0`, `min(m, n)` credits have moved from `credits` to `creditsUsed`. */
  lemma {:induction false} DrainsBalance(t: Tables, apiKey: string, m: nat, i: nat)
    requires FindUser(t.users, ApiKey, apiKey) == Some(i)
    requires t.users[i].credits >= 0
    ensures
      var n := t.users[i].credits;
      var after := Run(t, apiKey, m).db.users;
      && i < |after|
      && after[i].credits == (if m <= n then n - m else 0)
      && after[i].creditsUsed == t.users[i].creditsUsed + (if m <= n then m else n)
    decreases m
  {
    RunKeepsRow(t, apiKey, m, i);
    if m > 0 {
      DrainStep(t, apiKey, i);
      var first := Charge(t, apiKey, false);
      var n, n1 := t.users[i].credits, first.db.users[i].credits;
      assert n1 == if n == 0 then 0 else n - 1;
      DrainsBalance(first.db, apiKey, m - 1, i);
      assert Run(t, apiKey, m).db == Run(first.db, apiKey, m - 1).db;
    }
  }

  /** Calling the gate with an unknown key any number of times is refused every time and changes nothing. */
  lemma {:induction false} UnknownKeyIdempotent(t: Tables, apiKey: string, m: nat)
    requires FindUser(t.users, ApiKey, apiKey).None?
    ensures Run(t, apiKey, m).db == t
    ensures forall j | 0 <= j < m :: Run(t, apiKey, m).out[j] == INVALID_KEY
    decreases m
  {
    if m > 0 {
      UnknownKeyIdempotent(t, apiKey, m - 1);
      assert Run(t, apiKey, m).out == [INVALID_KEY] + Run(t, apiKey, m - 1).out;
    }
  }

  /** `validateKeyAndDecrementCredits(apiKey)`. */
  method ValidateKeyAndDecrementCredits(db: Database, apiKey: string, fault: bool) returns (r: GateResult)
    modifies db
    ensures Step(r, db.State()) == Charge(old(db.State()), apiKey, fault)
    ensures old(db.Valid()) ==> db.Valid()
  {
    ghost var before := db.State();
    if fault {
      return INTERNAL_ERROR;
    }
    var found := FindUser(db.users, ApiKey, apiKey);
    if found.None? {
      return INVALID_KEY;
    }
    var i := found.value;
    var user := db.users[i];
    if user.credits <= 0 {
      return LIMIT_EXCEEDED;
    }
    db.users := db.users[i := user.(credits := user.credits - 1, creditsUsed := user.creditsUsed + 1)];
    r := Admitted(user.id);
    if WellFormed(before) {
      ChargeKeepsWellFormed(before, apiKey, fault);
    }
  }
}
