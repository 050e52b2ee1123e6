/**
 * The logs service (`ActivityLogService`): it records activity logs, answers queries over them
 * with DTOs that carry the display name of the acting user, and deletes logs.
 */
module ActivityLogs {
  import opened Wrappers
  import opened Sequences
  import opened Tables
  import opened LogsModel

  // ----- enrichment -----

  /**
   * `enrichWithUserData`: the stored log's fields and a display name: the full name of the user
   * the client returned, or the log's own username when it returned null.
   */
  function EnrichWithUserData(log: ActivityLog, user: Option<UserDto>): (d: ActivityLogDto)
    ensures d.Log() == log
    ensures user.Some? ==> d.userFullName == user.value.FullName()
    ensures user.None? ==> d.userFullName == Some(log.username)
  {
    ActivityLogDto(log.id, log.userId, log.username,
                   if user.Some? then user.value.FullName() else Some(log.username),
                   log.action, log.entityType, log.entityId, log.details, log.timestamp,
                   log.ipAddress, log.userAgent)
  }

  /** Each listed log enriched with the user the lookup returns for it, in the same order. */
  function EnrichAll(found: seq<ActivityLog>, users: UserLookup): (r: seq<ActivityLogDto>)
    ensures |r| == |found|
    ensures forall i | 0 <= i < |r| :: r[i] == EnrichWithUserData(found[i], users(found[i].userId))
  {
    seq(|found|, i requires 0 <= i < |found| => EnrichWithUserData(found[i], users(found[i].userId)))
  }

  /** A listed log appears enriched in `EnrichAll`. */
  lemma EnrichedListed(found: seq<ActivityLog>, users: UserLookup, log: ActivityLog)
    requires log in found
    ensures EnrichWithUserData(log, users(log.userId)) in EnrichAll(found, users)
  {
    var i :| 0 <= i < |found| && found[i] == log;
    assert EnrichAll(found, users)[i] == EnrichWithUserData(log, users(log.userId));
  }

  /** `enrichWithUserDataFallback`: the stored log's fields, named by the log's own username. */
  function EnrichFallback(log: ActivityLog): (d: ActivityLogDto)
    ensures d.Log() == log
    ensures d.userFullName == Some(log.username)
  {
    ActivityLogDto(log.id, log.userId, log.username, Some(log.username),
                   log.action, log.entityType, log.entityId, log.details, log.timestamp,
                   log.ipAddress, log.userAgent)
  }

  /** The fallback builds exactly the DTO the enrichment builds when the client returns null. */
  lemma FallbackAgreesWithNullUser(log: ActivityLog)
    ensures EnrichFallback(log) == EnrichWithUserData(log, None)
  {
  }

  /** The display name a user with both names set gets, and the one a user missing either gets. */
  lemma DisplayNameCases(log: ActivityLog, user: UserDto)
    ensures user.firstName.Some? && user.lastName.Some? ==>
      EnrichWithUserData(log, Some(user)).userFullName == Some(user.firstName.value + " " + user.lastName.value)
    ensures user.firstName.None? || user.lastName.None? ==>
      EnrichWithUserData(log, Some(user)).userFullName == user.username
  {
  }

  /** Through the client's fallback, a failed user call names the log "Unknown User". */
  lemma FailedCallNamesUnknownUser(log: ActivityLog, remote: RemoteUserCall)
    requires remote(log.userId).Failure?
    ensures EnrichWithUserData(log, UserWithFallback(remote)(log.userId)).userFullName == Some("Unknown User")
  {
  }

  // ----- query predicates -----

  /** `findByUserId`. */
  function ByUserId(userId: int): (p: ActivityLog -> bool)
    ensures forall l :: p(l) <==> l.userId == userId
  {
    (l: ActivityLog) => l.userId == userId
  }

  /** `findByUsername`. */
  function ByUsername(username: string): (p: ActivityLog -> bool)
    ensures forall l :: p(l) <==> l.username == username
  {
    (l: ActivityLog) => l.username == username
  }

  /** `findByAction`. */
  function ByAction(action: string): (p: ActivityLog -> bool)
    ensures forall l :: p(l) <==> l.action == action
  {
    (l: ActivityLog) => l.action == action
  }

  /** `findByEntityType`. */
  function ByEntityType(entityType: string): (p: ActivityLog -> bool)
    ensures forall l :: p(l) <==> l.entityType == entityType
  {
    (l: ActivityLog) => l.entityType == entityType
  }

  /** `findByEntityTypeAndEntityId`; a null id matches the logs without one. */
  function ByEntity(entityType: string, entityId: Option<int>): (p: ActivityLog -> bool)
    ensures forall l :: p(l) <==> l.entityType == entityType && l.entityId == entityId
  {
    (l: ActivityLog) => l.entityType == entityType && l.entityId == entityId
  }

  /** `timestamp BETWEEN start AND end`: both ends included, an unstamped log never matches. */
  function InRange(start: int, end: int): (p: ActivityLog -> bool)
    ensures forall l :: p(l) <==> l.timestamp.Some? && start <= l.timestamp.value <= end
  {
    (l: ActivityLog) => l.timestamp.Some? && start <= l.timestamp.value <= end
  }

  /** `findByUserIdAndDateRange`. */
  function ByUserInRange(userId: int, start: int, end: int): (p: ActivityLog -> bool)
    ensures forall l :: p(l) <==> l.userId == userId && InRange(start, end)(l)
  {
    (l: ActivityLog) => l.userId == userId && InRange(start, end)(l)
  }

  /** An empty date range, one that ends before it starts, matches no log. */
  lemma EmptyRangeMatchesNothing(logs: Table<ActivityLog>, start: int, end: int)
    requires end < start
    ensures logs.Matching(InRange(start, end)) == {}
  {
    forall k | k in logs.rows ensures !InRange(start, end)(logs.rows[k]) {
    }
  }

  /** The logs of one user in a range are the logs in that range that belong to the user. */
  lemma UserRangeNarrowsRange(logs: Table<ActivityLog>, userId: int, start: int, end: int)
    ensures logs.Matching(ByUserInRange(userId, start, end))
         == logs.Matching(InRange(start, end)) * logs.Matching(ByUserId(userId))
  {
  }

  // ----- the service -----

  class ActivityLogService {
    const logs: Repository<ActivityLog>

    ghost predicate Valid()
      reads this, logs
    {
      logs.table.Valid() && forall k | k in logs.table.rows :: logs.table.rows[k].id == Some(k)
    }

    constructor (logRepository: Repository<ActivityLog>)
      requires logRepository.table.Valid()
      requires forall k | k in logRepository.table.rows :: logRepository.table.rows[k].id == Some(k)
      ensures logs == logRepository && Valid()
    {
      logs := logRepository;
    }

    /**
     * `createActivityLog`: stores one new log carrying the input's eight fields and stamped `now`,
     * and returns it enriched with the user the client returns for its user id.
     */
    method CreateActivityLog(input: CreateActivityLogInput, users: UserLookup, now: int, newId: int)
      returns (d: ActivityLogDto)
      requires Valid() && newId !in logs.table.rows
      modifies logs
      ensures Valid()
      ensures var saved := ActivityLog(Some(newId), input.userId, input.username, input.action,
                                       input.entityType, input.entityId, input.details, Some(now),
                                       input.ipAddress, input.userAgent);
              && logs.table == old(logs.table).Save(newId, saved)
              && d == EnrichWithUserData(saved, users(input.userId))
      ensures |logs.table.rows| == |old(logs.table.rows)| + 1
    {
      var log := ActivityLog(None, input.userId, input.username, input.action, input.entityType,
                             input.entityId, input.details, Some(now), input.ipAddress, input.userAgent);
      var saved := log.(id := Some(newId));
      logs.Save(newId, saved);
      d := EnrichWithUserData(saved, users(saved.userId));
    }

    /** `getById`: the stored log, enriched, or not-found. */
    method GetById(id: int, users: UserLookup) returns (r: Result<ActivityLogDto>)
      requires Valid()
      ensures r.Success? <==> id in logs.table.rows
      ensures r.Failure? ==> r.error == NotFound
      ensures r.Success? ==>
        r.value == EnrichWithUserData(logs.table.rows[id], users(logs.table.rows[id].userId))
        && r.value.id == Some(id)
    {
      var log := logs.table.FindById(id);
      if log.None? {
        return Failure(NotFound);
      }
      return Success(EnrichWithUserData(log.value, users(log.value.userId)));
    }

    /**
     * A derived query over the logs: one enriched DTO for each stored log satisfying `p`, and
     * only those, in listing order.
     */
    function Query(p: ActivityLog -> bool, users: UserLookup): (r: seq<ActivityLogDto>)
      reads this, logs
      requires Valid()
      ensures |r| == |logs.table.Matching(p)|
      ensures forall i | 0 <= i < |r| :: r[i].Log() in logs.table.rows.Values && p(r[i].Log())
      ensures forall k | k in logs.table.rows && p(logs.table.rows[k]) ::
        EnrichWithUserData(logs.table.rows[k], users(logs.table.rows[k].userId)) in r
    {
      var found := logs.table.Select(p);
      logs.table.CountIsMatching(p);
      var r := EnrichAll(found, users);
      forall k | k in logs.table.rows && p(logs.table.rows[k])
        ensures EnrichWithUserData(logs.table.rows[k], users(logs.table.rows[k].userId)) in r {
        EnrichedListed(found, users, logs.table.rows[k]);
      }
      r
    }

    /** `getByUserId`: the logs of that user. */
    function GetByUserId(userId: int, users: UserLookup): (r: seq<ActivityLogDto>)
      reads this, logs
      requires Valid()
      ensures |r| == |logs.table.Matching(ByUserId(userId))|
      ensures forall i | 0 <= i < |r| :: r[i].userId == userId && r[i].Log() in logs.table.rows.Values
    {
      Query(ByUserId(userId), users)
    }

    /** `getByUsername`: the logs recorded under that username. */
    function GetByUsername(username: string, users: UserLookup): (r: seq<ActivityLogDto>)
      reads this, logs
      requires Valid()
      ensures |r| == |logs.table.Matching(ByUsername(username))|
      ensures forall i | 0 <= i < |r| :: r[i].username == username && r[i].Log() in logs.table.rows.Values
    {
      Query(ByUsername(username), users)
    }

    /** `getByAction`: the logs of that action. */
    function GetByAction(action: string, users: UserLookup): (r: seq<ActivityLogDto>)
      reads this, logs
      requires Valid()
      ensures |r| == |logs.table.Matching(ByAction(action))|
      ensures forall i | 0 <= i < |r| :: r[i].action == action && r[i].Log() in logs.table.rows.Values
    {
      Query(ByAction(action), users)
    }

    /** `getByEntityType`: the logs about entities of that type. */
    function GetByEntityType(entityType: string, users: UserLookup): (r: seq<ActivityLogDto>)
      reads this, logs
      requires Valid()
      ensures |r| == |logs.table.Matching(ByEntityType(entityType))|
      ensures forall i | 0 <= i < |r| :: r[i].entityType == entityType && r[i].Log() in logs.table.rows.Values
    {
      Query(ByEntityType(entityType), users)
    }

    /** `getByEntity`: the logs about that one entity. */
    function GetByEntity(entityType: string, entityId: Option<int>, users: UserLookup): (r: seq<ActivityLogDto>)
      reads this, logs
      requires Valid()
      ensures |r| == |logs.table.Matching(ByEntity(entityType, entityId))|
      ensures forall i | 0 <= i < |r| ::
        r[i].entityType == entityType && r[i].entityId == entityId && r[i].Log() in logs.table.rows.Values
    {
      Query(ByEntity(entityType, entityId), users)
    }

    /** `getByDateRange`: the logs stamped within the range, both ends included. */
    function GetByDateRange(start: int, end: int, users: UserLookup): (r: seq<ActivityLogDto>)
      reads this, logs
      requires Valid()
      ensures |r| == |logs.table.Matching(InRange(start, end))|
      ensures forall i | 0 <= i < |r| ::
        r[i].timestamp.Some? && start <= r[i].timestamp.value <= end && r[i].Log() in logs.table.rows.Values
    {
      Query(InRange(start, end), users)
    }

    /** `getByUserAndDateRange`: the logs of that user stamped within the range. */
    function GetByUserAndDateRange(userId: int, start: int, end: int, users: UserLookup): (r: seq<ActivityLogDto>)
      reads this, logs
      requires Valid()
      ensures |r| == |logs.table.Matching(ByUserInRange(userId, start, end))|
      ensures forall i | 0 <= i < |r| ::
        && r[i].userId == userId && r[i].timestamp.Some? && start <= r[i].timestamp.value <= end
        && r[i].Log() in logs.table.rows.Values
    {
      Query(ByUserInRange(userId, start, end), users)
    }

    /** `deleteActivityLog`: removes the log and answers true if it exists; otherwise answers false. */
    method DeleteActivityLog(id: int) returns (deleted: bool)
      requires Valid()
      modifies logs
      ensures Valid()
      ensures deleted <==> id in old(logs.table.rows)
      ensures deleted ==> logs.table == old(logs.table).Delete(id)
      ensures !deleted ==> logs.table == old(logs.table)
      ensures logs.table.rows == old(logs.table.rows) - {id}
    {
      if id in logs.table.rows {
        logs.DeleteById(id);
        return true;
      }
      return false;
    }

    /** `deleteUserActivityLogs`: removes exactly that user's logs, keeps all others, and answers true. */
    method DeleteUserActivityLogs(userId: int) returns (deleted: bool)
      requires Valid()
      modifies logs
      ensures Valid()
      ensures deleted
      ensures logs.table == old(logs.table).DeleteWhere(ByUserId(userId))
      ensures forall k :: k in logs.table.rows <==> k in old(logs.table.rows) && old(logs.table.rows)[k].userId != userId
      ensures logs.table.Matching(ByUserId(userId)) == {}
    {
      logs.DeleteWhere(ByUserId(userId));
      return true;
    }
  }
}
