/**
 * The Feign fallbacks of the project service's two clients: the placeholder user and team they
 * return when the user or team service cannot be reached, and the clients as the fallbacks make
 * them, which never fail.
 */
module ProjectClients {
  import opened Wrappers
  import opened ProjectModel

  /** `UserServiceClientFallback.getUserById`: a placeholder that keeps the requested id. */
  function PlaceholderUser(id: int): (u: UserDto)
    ensures u.id == Some(id)
    ensures u.username == Some("Unknown") && u.email == Some("unknown@workhive.com")
    ensures u.role == Some("UNKNOWN")
    ensures u.FullName() == "Unknown User"
  {
    UserDto(Some(id), Some("Unknown"), Some("unknown@workhive.com"), Some("Unknown"), Some("User"), Some("UNKNOWN"))
  }

  /** The list `getUsersByIds` of the fallback answers with: one placeholder per requested id, in order. */
  function PlaceholderList(ids: seq<int>): (users: seq<UserDto>)
    ensures |users| == |ids|
    ensures forall i | 0 <= i < |ids| :: users[i] == PlaceholderUser(ids[i])
  {
    seq(|ids|, i requires 0 <= i < |ids| => PlaceholderUser(ids[i]))
  }

  /** `UserServiceClientFallback.getUsersByIds`: the loop that builds the placeholder list. */
  method PlaceholderUsers(ids: seq<int>) returns (users: seq<UserDto>)
    ensures users == PlaceholderList(ids)
    ensures forall i | 0 <= i < |ids| :: users[i].id == Some(ids[i]) && users[i].FullName() == "Unknown User"
  {
    users := [];
    for i := 0 to |ids|
      invariant |users| == i
      invariant forall j | 0 <= j < i :: users[j] == PlaceholderUser(ids[j])
    {
      users := users + [PlaceholderUser(ids[i])];
    }
  }

  /** `TeamServiceClientFallback.getTeamById`: a placeholder team that keeps the requested id. */
  function PlaceholderTeam(id: int): (t: TeamDto)
    ensures t.id == Some(id)
    ensures t.name == Some("Unknown Team") && t.description == Some("Team service unavailable")
    ensures t.managerId.None?
  {
    TeamDto(Some(id), Some("Unknown Team"), Some("Team service unavailable"), None)
  }

  /** The user client with its fallback: a failed call yields the placeholder user. */
  function UserWithFallback(remote: UserLookup): (lookup: UserLookup)
    ensures forall id :: lookup(id).Some?
    ensures forall id :: remote(id).Some? ==> lookup(id) == remote(id)
    ensures forall id :: remote(id).None? ==> lookup(id) == Some(PlaceholderUser(id))
  {
    id => Some(remote(id).GetOr(PlaceholderUser(id)))
  }

  /**
   * The batch user client with its fallback: a failed call yields the list `getUsersByIds` of the
   * fallback builds, one placeholder per id.
   */
  function UsersWithFallback(remote: UsersLookup): (lookup: UsersLookup)
    ensures forall ids :: lookup(ids).Some?
    ensures forall ids :: remote(ids).Some? ==> lookup(ids) == remote(ids)
    ensures forall ids :: remote(ids).None? ==> lookup(ids) == Some(PlaceholderList(ids))
  {
    ids => Some(remote(ids).GetOr(PlaceholderList(ids)))
  }

  /** The team client with its fallback: a failed call yields the placeholder team. */
  function TeamWithFallback(remote: TeamLookup): (lookup: TeamLookup)
    ensures forall id :: lookup(id).Some?
    ensures forall id :: remote(id).Some? ==> lookup(id) == remote(id)
    ensures forall id :: remote(id).None? ==> lookup(id) == Some(PlaceholderTeam(id))
  {
    id => Some(remote(id).GetOr(PlaceholderTeam(id)))
  }
}
