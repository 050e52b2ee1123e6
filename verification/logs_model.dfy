/**
 * The logs service's records: the stored activity log, the input that creates one, the DTO it
 * sends back, and the user record it fetches from the user service.
 *
 * Timestamps are `LocalDateTime`s, counted here in nanoseconds; a day is exactly 24 hours,
 * since a `LocalDateTime` has no time zone.
 */
module LogsModel {
  import opened Wrappers

  /** The length of the day `minusDays(1)` goes back, in nanoseconds. */
  const NanosPerDay: int := 86_400_000_000_000

  /** The stored `ActivityLog` entity; `timestamp` is null until the log is first stamped. */
  datatype ActivityLog = ActivityLog(
    id: Option<int>, userId: int, username: string, action: string, entityType: string,
    entityId: Option<int>, details: string, timestamp: Option<int>, ipAddress: string, userAgent: string)

  /** `CreateActivityLogInput`: everything a new log carries except its id and timestamp. */
  datatype CreateActivityLogInput = CreateActivityLogInput(
    userId: int, username: string, action: string, entityType: string, entityId: Option<int>,
    details: string, ipAddress: string, userAgent: string)

  /** `ActivityLogDto`: the stored log's fields plus the display name of its user. */
  datatype ActivityLogDto = ActivityLogDto(
    id: Option<int>, userId: int, username: string, userFullName: Option<string>, action: string,
    entityType: string, entityId: Option<int>, details: string, timestamp: Option<int>,
    ipAddress: string, userAgent: string)
  {
    /** The log this DTO describes: every field but the display name. */
    function Log(): (l: ActivityLog)
      ensures l.id == id && l.userId == userId && l.username == username && l.action == action
      ensures l.entityType == entityType && l.entityId == entityId && l.details == details
      ensures l.timestamp == timestamp && l.ipAddress == ipAddress && l.userAgent == userAgent
    {
      ActivityLog(id, userId, username, action, entityType, entityId, details, timestamp, ipAddress, userAgent)
    }
  }

  /** The user record received from the user service (`dto/UserDto`). */
  datatype UserDto = UserDto(
    id: Option<int>, username: Option<string>, email: Option<string>,
    firstName: Option<string>, lastName: Option<string>)
  {
    /** `getFullName`: first and last name joined by one space when both are set, else the username. */
    function FullName(): (s: Option<string>)
      ensures firstName.Some? && lastName.Some? ==> s == Some(firstName.value + " " + lastName.value)
      ensures firstName.None? || lastName.None? ==> s == username
    {
      if firstName.Some? && lastName.Some? then Some(firstName.value + " " + lastName.value) else username
    }
  }

  /** `getUserById` as the service sees it: the user the client returns, or `None` for null. */
  type UserLookup = int -> Option<UserDto>

  /** The remote `getUserById` call: the (possibly null) user it returns, or a failure when it throws. */
  type RemoteUserCall = int -> Result<Option<UserDto>>

  /** `UserServiceClientFallback.getUserById`: a user that has only the requested id and a username. */
  function PlaceholderUser(id: int): (u: UserDto)
    ensures u.id == Some(id) && u.username == Some("Unknown User")
    ensures u.email.None? && u.firstName.None? && u.lastName.None?
    ensures u.FullName() == Some("Unknown User")
  {
    UserDto(Some(id), Some("Unknown User"), None, None, None)
  }

  /** The user client with its fallback: a failed call yields the placeholder user instead. */
  function UserWithFallback(remote: RemoteUserCall): (lookup: UserLookup)
    ensures forall id :: remote(id).Success? ==> lookup(id) == remote(id).value
    ensures forall id :: remote(id).Failure? ==> lookup(id) == Some(PlaceholderUser(id))
  {
    id => if remote(id).Success? then remote(id).value else Some(PlaceholderUser(id))
  }
}
