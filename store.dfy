/**
 * The Prisma database as an in-memory store: the User, Item, RechargeLog and
 * ApiUsageLog tables with the columns the generated client declares, the
 * unique indexes of User (id, email, googleId, apiKey), the autoincrement id
 * of Item, and the foreign keys from Item and both logs to User.
 *
 * Tables are sequences of rows in insertion order; findUnique on a unique
 * column is a first-match search (`FindUser`), which on a well-formed table
 * finds the only matching row (`FindUserIsTheRow`).
 */
module Store {
  import opened Wrappers

  /** A row of the User table (apiUrl, createdAt and updatedAt are not modelled). */
  datatype User = User(
    id: string,
    email: string,
    name: Option<string>,
    image: Option<string>,
    googleId: string,
    apiKey: string,
    credits: int,
    creditsUsed: int,
    recharged: bool)

  /** A row of the Item table; `value` is a Float column and is never computed with. */
  datatype Item = Item(id: int, userId: string, value: real, txHash: string, createdAt: nat)

  /** The range of a Prisma `Int` column, a 32-bit signed integer; a query argument outside it is refused. */
  predicate InInt32(n: int)
  {
    -0x8000_0000 <= n < 0x8000_0000
  }

  /** A row of the RechargeLog table (its id and attemptedAt are not modelled). */
  datatype RechargeLog = RechargeLog(userId: string, successful: bool)

  /** A row of the ApiUsageLog table (its id is not modelled). */
  datatype ApiUsageLog = ApiUsageLog(userId: string, endpoint: string, statusCode: int, occurredAt: nat)

  /** The unique columns of User. */
  datatype UniqueField = Id | Email | GoogleId | ApiKey

  function KeyOf(u: User, f: UniqueField): string
  {
    match f
    case Id => u.id
    case Email => u.email
    case GoogleId => u.googleId
    case ApiKey => u.apiKey
  }

  /** What a Prisma call throws, where the model needs to tell the cases apart. */
  datatype DbError =
    | RecordNotFound      // update or delete of a row that does not exist (P2025)
    | UniqueViolation     // insert of a duplicate unique key (P2002)
    | ForeignKeyViolation // insert of a row whose userId names no user (P2003)
    | ValidationError     // an argument of the wrong type, rejected before any write
    | InvalidItemId       // the `Invalid item ID` error thrown by the item helpers
    | StorageFault        // the database itself failing

  /** `findUnique({ where: { <f>: key } })` as a row index. */
  function FindUser(users: seq<User>, f: UniqueField, key: string): (r: Option<nat>)
    ensures r.Some? ==> r.value < |users| && KeyOf(users[r.value], f) == key
    ensures r.None? <==> forall k | 0 <= k < |users| :: KeyOf(users[k], f) != key
  {
    FindFrom(users, f, key, 0)
  }

  /** The first row at or after `i` whose column `f` holds `key`. */
  function FindFrom(users: seq<User>, f: UniqueField, key: string, i: nat): (r: Option<nat>)
    requires i <= |users|
    ensures r.Some? ==> i <= r.value < |users| && KeyOf(users[r.value], f) == key
    ensures r.None? <==> forall k | i <= k < |users| :: KeyOf(users[k], f) != key
    decreases |users| - i
  {
    if i == |users| then None
    else if KeyOf(users[i], f) == key then Some(i)
    else FindFrom(users, f, key, i + 1)
  }

  /** The unique indexes of User hold: no two rows share a value of a unique column. */
  predicate UniqueUsers(users: seq<User>)
  {
    forall f: UniqueField, i, j | 0 <= i < |users| && 0 <= j < |users| && i != j ::
      KeyOf(users[i], f) != KeyOf(users[j], f)
  }

  /** On a table that keeps its unique indexes, findUnique finds the one row with the key. */
  lemma FindUserIsTheRow(users: seq<User>, f: UniqueField, k: nat)
    requires UniqueUsers(users)
    requires k < |users|
    ensures FindUser(users, f, KeyOf(users[k], f)) == Some(k)
  {
    var r := FindUser(users, f, KeyOf(users[k], f));
    assert r.Some?;
  }

  /** A user with this id exists: what a foreign key to User demands. */
  predicate HasUser(users: seq<User>, uid: string)
  {
    FindUser(users, Id, uid).Some?
  }

  /** The row values of the unique columns of two users agree. */
  predicate SameKeys(u: User, v: User)
  {
    u.id == v.id && u.email == v.email && u.googleId == v.googleId && u.apiKey == v.apiKey
  }

  /** Row by row, `b` keeps the unique columns of `a` (an update that writes no unique column). */
  predicate KeepsKeys(a: seq<User>, b: seq<User>)
  {
    |a| == |b| && forall k | 0 <= k < |a| :: SameKeys(a[k], b[k])
  }

  /** An update that writes no unique column leaves every findUnique result where it was. */
  lemma KeepsKeysFind(a: seq<User>, b: seq<User>, f: UniqueField, key: string)
    requires KeepsKeys(a, b)
    ensures FindUser(a, f, key) == FindUser(b, f, key)
  {
    KeepsKeysFindFrom(a, b, f, key, 0);
  }

  lemma {:induction false} KeepsKeysFindFrom(a: seq<User>, b: seq<User>, f: UniqueField, key: string, i: nat)
    requires KeepsKeys(a, b) && i <= |a|
    ensures FindFrom(a, f, key, i) == FindFrom(b, f, key, i)
    decreases |a| - i
  {
    if i < |a| {
      assert SameKeys(a[i], b[i]);
      KeepsKeysFindFrom(a, b, f, key, i + 1);
    }
  }

  /** An update that writes no unique column keeps the unique indexes. */
  lemma KeepsKeysUnique(a: seq<User>, b: seq<User>)
    requires KeepsKeys(a, b) && UniqueUsers(a)
    ensures UniqueUsers(b)
  {
    forall f: UniqueField, i, j | 0 <= i < |b| && 0 <= j < |b| && i != j
      ensures KeyOf(b[i], f) != KeyOf(b[j], f)
    {
      assert KeyOf(a[i], f) == KeyOf(b[i], f) && KeyOf(a[j], f) == KeyOf(b[j], f);
    }
  }

  /** Some unique column of `u` already has its value in the table (the insert would fail with P2002). */
  predicate Conflicts(users: seq<User>, u: User)
  {
    || FindUser(users, Id, u.id).Some?
    || FindUser(users, Email, u.email).Some?
    || FindUser(users, GoogleId, u.googleId).Some?
    || FindUser(users, ApiKey, u.apiKey).Some?
  }

  /** Appending a row finds it only where no earlier row has the key. */
  lemma FindUserAppend(users: seq<User>, u: User, f: UniqueField, key: string)
    ensures FindUser(users + [u], f, key) ==
      if FindUser(users, f, key).Some? then FindUser(users, f, key)
      else if KeyOf(u, f) == key then Some(|users|) else None
  {
    FindFromAppend(users, u, f, key, 0);
  }

  lemma {:induction false} FindFromAppend(users: seq<User>, u: User, f: UniqueField, key: string, i: nat)
    requires i <= |users|
    ensures FindFrom(users + [u], f, key, i) ==
      if FindFrom(users, f, key, i).Some? then FindFrom(users, f, key, i)
      else if KeyOf(u, f) == key then Some(|users|) else None
    decreases |users| - i
  {
    var s := users + [u];
    if i == |users| {
      assert s[i] == u;
      assert FindFrom(s, f, key, i + 1) == None;
    } else {
      assert s[i] == users[i];
      FindFromAppend(users, u, f, key, i + 1);
    }
  }

  /** Inserting a user none of whose unique values is taken keeps the unique indexes. */
  lemma AppendUnique(users: seq<User>, u: User)
    requires UniqueUsers(users) && !Conflicts(users, u)
    ensures UniqueUsers(users + [u])
  {
    var s := users + [u];
    forall f: UniqueField, i, j | 0 <= i < |s| && 0 <= j < |s| && i != j
      ensures KeyOf(s[i], f) != KeyOf(s[j], f)
    {
      if i == |users| {
        assert FindUser(users, f, KeyOf(u, f)).None? by { assert f.Id? || f.Email? || f.GoogleId? || f.ApiKey?; }
        assert s[j] == users[j];
      } else if j == |users| {
        assert FindUser(users, f, KeyOf(u, f)).None? by { assert f.Id? || f.Email? || f.GoogleId? || f.ApiKey?; }
        assert s[i] == users[i];
      } else {
        assert s[i] == users[i] && s[j] == users[j];
      }
    }
  }

  /** `findUnique({ where: { id } })` on Item, as a row index. */
  function FindItem(items: seq<Item>, id: int): (r: Option<nat>)
    ensures r.Some? ==> r.value < |items| && items[r.value].id == id
    ensures r.None? <==> forall k | 0 <= k < |items| :: items[k].id != id
  {
    FindItemFrom(items, id, 0)
  }

  /** The first row at or after `i` with that id. */
  function FindItemFrom(items: seq<Item>, id: int, i: nat): (r: Option<nat>)
    requires i <= |items|
    ensures r.Some? ==> i <= r.value < |items| && items[r.value].id == id
    ensures r.None? <==> forall k | i <= k < |items| :: items[k].id != id
    decreases |items| - i
  {
    if i == |items| then None
    else if items[i].id == id then Some(i)
    else FindItemFrom(items, id, i + 1)
  }

  /** The whole database. */
  datatype Tables = Tables(
    users: seq<User>,
    items: seq<Item>,
    nextItemId: nat,
    rechargeLogs: seq<RechargeLog>,
    usageLogs: seq<ApiUsageLog>)

  /** The result of one operation together with the database after it. */
  datatype Step<R> = Step(out: R, db: Tables)

  /** The constraints the database enforces: unique keys, autoincrement ids, foreign keys. */
  predicate WellFormed(t: Tables)
  {
    && UniqueUsers(t.users)
    && t.nextItemId >= 1
    && (forall i | 0 <= i < |t.items| :: 1 <= t.items[i].id < t.nextItemId)
    && (forall i | 0 <= i < |t.items| :: HasUser(t.users, t.items[i].userId))
    && (forall i, j | 0 <= i < |t.items| && 0 <= j < |t.items| && i != j :: t.items[i].id != t.items[j].id)
    && (forall i | 0 <= i < |t.rechargeLogs| :: HasUser(t.users, t.rechargeLogs[i].userId))
    && (forall i | 0 <= i < |t.usageLogs| :: HasUser(t.users, t.usageLogs[i].userId))
  }

  /** Rewriting user rows without touching a unique column keeps the database well formed. */
  lemma KeepsKeysWellFormed(t: Tables, users: seq<User>)
    requires WellFormed(t) && KeepsKeys(t.users, users)
    ensures WellFormed(t.(users := users))
  {
    KeepsKeysUnique(t.users, users);
    forall uid: string ensures HasUser(t.users, uid) == HasUser(users, uid) {
      KeepsKeysFind(t.users, users, Id, uid);
    }
  }

  /** The database the program runs against. */
  class Database {
    var users: seq<User>
    var items: seq<Item>
    var nextItemId: nat
    var rechargeLogs: seq<RechargeLog>
    var usageLogs: seq<ApiUsageLog>

    function State(): Tables
      reads this
    {
      Tables(users, items, nextItemId, rechargeLogs, usageLogs)
    }

    predicate Valid()
      reads this
    {
      WellFormed(State())
    }

    /** An empty database; autoincrement ids start at 1. */
    constructor ()
      ensures State() == Tables([], [], 1, [], [])
      ensures Valid()
    {
      users, items, nextItemId, rechargeLogs, usageLogs := [], [], 1, [], [];
    }
  }
}
