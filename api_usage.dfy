/**
 * The API usage log: recording one request (resolving a Google id to the
 * internal user id first when the id given is longer than 30 characters),
 * listing a user's log newest first, and the per-endpoint and per-status
 * counts shown on the dashboard.
 */
module ApiUsage {
  import opened Wrappers
  import opened Store
  import opened Seqs

  /** The threshold above which an id is taken to be a Google id. */
  const GOOGLE_ID_THRESHOLD: nat := 30

  /** The `endpoint` column: the method and the path, separated by one space. */
  function EndpointLabel(verb: string, endpoint: string): string
  {
    verb + " " + endpoint
  }

  /**
   * `recordApiUsage(userId, endpoint, method, statusCode)` with the clock's
   * `now` supplied. `fault` stands for a database failure, which is caught.
   * Every failure is reported as `false` and writes nothing; the call never
   * throws.
   */
  function RecordUsage(t: Tables, userId: string, endpoint: string, verb: string, statusCode: int, now: nat, fault: bool): (r: Step<bool>)
    ensures !r.out ==> r.db == t
    ensures r.db == t.(usageLogs := r.db.usageLogs)
    ensures |r.db.usageLogs| == |t.usageLogs| + (if r.out then 1 else 0) && r.db.usageLogs[..|t.usageLogs|] == t.usageLogs
  {
    if fault then Step(false, t)
    else
      var internal := if |userId| > GOOGLE_ID_THRESHOLD then
          match FindUser(t.users, GoogleId, userId)
          case None => None
          case Some(k) => Some(t.users[k].id)
        else Some(userId);
      match internal
      case None => Step(false, t)
      case Some(uid) =>
        match FindUser(t.users, Id, uid)
        case None => Step(false, t)
        case Some(k) =>
          Step(true, t.(usageLogs := t.usageLogs + [ApiUsageLog(uid, EndpointLabel(verb, endpoint), statusCode, now)]))
  }

  /**
   * Which requests are recorded, and as what: a short id is written as it is
   * and must itself be a user's internal id; a long one must be some user's
   * Google id, and the entry names that user's internal id.
   */
  lemma RecordUsageOutcome(t: Tables, userId: string, endpoint: string, verb: string, statusCode: int, now: nat, fault: bool)
    ensures
      var r := RecordUsage(t, userId, endpoint, verb, statusCode, now, fault);
      && (r.out <==> (!fault &&
           if |userId| > GOOGLE_ID_THRESHOLD then exists k | 0 <= k < |t.users| :: t.users[k].googleId == userId
           else HasUser(t.users, userId)))
      && (r.out ==> exists k | 0 <= k < |t.users| ::
           && (if |userId| > GOOGLE_ID_THRESHOLD then t.users[k].googleId == userId else t.users[k].id == userId)
           && r.db.usageLogs == t.usageLogs + [ApiUsageLog(t.users[k].id, EndpointLabel(verb, endpoint), statusCode, now)])
  {
    var r := RecordUsage(t, userId, endpoint, verb, statusCode, now, fault);
    if !fault && |userId| > GOOGLE_ID_THRESHOLD {
      match FindUser(t.users, GoogleId, userId)
      case None =>
      case Some(k) =>
        assert HasUser(t.users, t.users[k].id) by { assert KeyOf(t.users[k], Id) == t.users[k].id; }
    } else if !fault {
      match FindUser(t.users, Id, userId)
      case None =>
      case Some(k) =>
    }
  }

  lemma RecordUsageKeepsWellFormed(t: Tables, userId: string, endpoint: string, verb: string, statusCode: int, now: nat, fault: bool)
    requires WellFormed(t)
    ensures WellFormed(RecordUsage(t, userId, endpoint, verb, statusCode, now, fault).db)
  {
    var r := RecordUsage(t, userId, endpoint, verb, statusCode, now, fault);
    RecordUsageOutcome(t, userId, endpoint, verb, statusCode, now, fault);
    if r.out {
      var k :| 0 <= k < |t.users| && r.db.usageLogs == t.usageLogs + [ApiUsageLog(t.users[k].id, EndpointLabel(verb, endpoint), statusCode, now)];
      var logs := r.db.usageLogs;
      assert HasUser(t.users, t.users[k].id) by { FindUserIsTheRow(t.users, Id, k); }
      forall i | 0 <= i < |logs| ensures HasUser(t.users, logs[i].userId) {
        if i < |t.usageLogs| {
          assert logs[i] == t.usageLogs[i];
        }
      }
      assert r.db == t.(usageLogs := logs);
    }
  }

  method RecordApiUsage(db: Database, userId: string, endpoint: string, verb: string, statusCode: int, now: nat, fault: bool)
      returns (ok: bool)
    modifies db
    ensures Step(ok, db.State()) == RecordUsage(old(db.State()), userId, endpoint, verb, statusCode, now, fault)
    ensures old(db.Valid()) ==> db.Valid()
  {
    ghost var before := db.State();
    if fault {
      return false;
    }
    var internalUserId := userId;
    if |userId| > GOOGLE_ID_THRESHOLD {
      var user := FindUser(db.users, GoogleId, userId);
      if user.None? {
        return false;
      }
      internalUserId := db.users[user.value].id;
    }
    if FindUser(db.users, Id, internalUserId).None? {
      return false;
    }
    db.usageLogs := db.usageLogs + [ApiUsageLog(internalUserId, EndpointLabel(verb, endpoint), statusCode, now)];
    ok := true;
    if WellFormed(before) {
      RecordUsageKeepsWellFormed(before, userId, endpoint, verb, statusCode, now, fault);
    }
  }

  function OccurredAt(l: ApiUsageLog): int { l.occurredAt }

  /** The log entries of one user, in table order. */
  function UserLogs(logs: seq<ApiUsageLog>, userId: string): seq<ApiUsageLog>
  {
    Filter(logs, (l: ApiUsageLog) => l.userId == userId)
  }

  /** `getApiUsageByUserId(userId)`: exactly the user's entries, most recent first. */
  function UsageByUser(logs: seq<ApiUsageLog>, userId: string): (r: seq<ApiUsageLog>)
    ensures forall l :: multiset(r)[l] == if l.userId == userId then multiset(logs)[l] else 0
    ensures forall i, j | 0 <= i < j < |r| :: r[i].occurredAt >= r[j].occurredAt
  {
    var r := SortDesc(UserLogs(logs, userId), OccurredAt);
    assert SortedDesc(r, OccurredAt);
    r
  }

  /** The dashboard statistics: `(endpoint, count)` and `(statusCode, count)` groups and the total. */
  datatype UsageStats = UsageStats(endpointStats: seq<(string, nat)>, statusStats: seq<(int, nat)>, totalCount: nat)

  function Endpoint(l: ApiUsageLog): string { l.endpoint }
  function StatusCode(l: ApiUsageLog): int { l.statusCode }

  /**
   * `getApiUsageStatsByUserId(userId)`: both groupings partition the user's
   * entries, so each sums to the total, every group is non-empty and no group
   * appears twice.
   */
  function Stats(logs: seq<ApiUsageLog>, userId: string): (r: UsageStats)
    ensures r.totalCount == |UserLogs(logs, userId)|
    ensures Total(r.endpointStats) == r.totalCount && Total(r.statusStats) == r.totalCount
    ensures DistinctKeys(r.endpointStats) && PositiveCounts(r.endpointStats)
    ensures DistinctKeys(r.statusStats) && PositiveCounts(r.statusStats)
  {
    var mine := UserLogs(logs, userId);
    UsageStats(GroupCount(Map(mine, Endpoint)), GroupCount(Map(mine, StatusCode)), |mine|)
  }

  /** The number of entries of a user with a given endpoint, counted directly on the table. */
  function EndpointCount(logs: seq<ApiUsageLog>, userId: string, endpoint: string): nat
  {
    |Filter(logs, (l: ApiUsageLog) => l.userId == userId && l.endpoint == endpoint)|
  }

  /** The number of entries of a user with a given status code, counted directly on the table. */
  function StatusCount(logs: seq<ApiUsageLog>, userId: string, statusCode: int): nat
  {
    |Filter(logs, (l: ApiUsageLog) => l.userId == userId && l.statusCode == statusCode)|
  }

  /** Each endpoint group holds exactly the user's entries for that endpoint. */
  lemma EndpointStatsCount(logs: seq<ApiUsageLog>, userId: string, endpoint: string)
    ensures CountOf(Stats(logs, userId).endpointStats, endpoint) == EndpointCount(logs, userId, endpoint)
  {
    var mine := UserLogs(logs, userId);
    var isE := (l: ApiUsageLog) => l.endpoint == endpoint;
    CountMapped(mine, Endpoint, endpoint, isE);
    FilterFilter(logs, (l: ApiUsageLog) => l.userId == userId, isE,
      (l: ApiUsageLog) => l.userId == userId && l.endpoint == endpoint);
  }

  /** Each status group holds exactly the user's entries with that status code. */
  lemma StatusStatsCount(logs: seq<ApiUsageLog>, userId: string, statusCode: int)
    ensures CountOf(Stats(logs, userId).statusStats, statusCode) == StatusCount(logs, userId, statusCode)
  {
    var mine := UserLogs(logs, userId);
    var isS := (l: ApiUsageLog) => l.statusCode == statusCode;
    CountMapped(mine, StatusCode, statusCode, isS);
    FilterFilter(logs, (l: ApiUsageLog) => l.userId == userId, isS,
      (l: ApiUsageLog) => l.userId == userId && l.statusCode == statusCode);
  }

  /**
   * Recording a request adds exactly one entry to the statistics of the user it
   * is recorded for, under its endpoint label and status, and nothing to anyone
   * else's.
   */
  lemma RecordUsageCountsOnce(t: Tables, userId: string, endpoint: string, verb: string, statusCode: int, now: nat, fault: bool, viewer: string)
    requires RecordUsage(t, userId, endpoint, verb, statusCode, now, fault).out
    ensures
      var after := RecordUsage(t, userId, endpoint, verb, statusCode, now, fault).db.usageLogs;
      var logged := after[|after| - 1].userId;
      && |after| == |t.usageLogs| + 1
      && after[|after| - 1].endpoint == EndpointLabel(verb, endpoint)
      && Stats(after, viewer).totalCount == Stats(t.usageLogs, viewer).totalCount + (if viewer == logged then 1 else 0)
  {
    var after := RecordUsage(t, userId, endpoint, verb, statusCode, now, fault).db.usageLogs;
    RecordUsageOutcome(t, userId, endpoint, verb, statusCode, now, fault);
    var k :| 0 <= k < |t.users| && after == t.usageLogs + [ApiUsageLog(t.users[k].id, EndpointLabel(verb, endpoint), statusCode, now)];
    FilterSnoc(t.usageLogs, after[|after| - 1], (l: ApiUsageLog) => l.userId == viewer);
  }

  /**
   * An id of at most 30 characters is written as it is, so a Google id that
   * short is logged only if it happens to be some user's internal id; for a
   * user who signs in with it and has a different internal id nothing is
   * recorded.
   */
  lemma ShortGoogleIdNotRecorded(t: Tables, k: nat, endpoint: string, verb: string, statusCode: int, now: nat, fault: bool)
    requires UniqueUsers(t.users) && k < |t.users|
    requires |t.users[k].googleId| <= GOOGLE_ID_THRESHOLD
    requires t.users[k].googleId != t.users[k].id
    requires forall j | 0 <= j < |t.users| && j != k :: t.users[j].id != t.users[k].googleId
    ensures RecordUsage(t, t.users[k].googleId, endpoint, verb, statusCode, now, fault) == Step(false, t)
  {
    RecordUsageOutcome(t, t.users[k].googleId, endpoint, verb, statusCode, now, fault);
  }
}
