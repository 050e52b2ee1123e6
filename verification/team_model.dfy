/**
 * The team service's records: the stored team, the request that creates or updates one, the
 * response it sends back, and the user record it fetches from the user service, with the
 * placeholder user the Feign fallback substitutes when that service cannot be reached.
 *
 * Strings the service only copies are `string`s; a Java reference the code tests for null is an
 * `Option`. Timestamps are opaque instants (`int`), set by persistence hooks outside this model.
 */
module TeamModel {
  import opened Wrappers

  /** The stored `Team` entity; `id` is null until the repository assigns one. */
  datatype Team = Team(
    id: Option<int>, name: string, description: string, managerId: int,
    developerIds: Option<seq<int>>, createdAt: Option<int>, updatedAt: Option<int>)

  /** `TeamRequest`. */
  datatype TeamRequest = TeamRequest(
    name: string, description: string, managerId: int, developerIds: Option<seq<int>>)

  /** `TeamResponse`; the two name fields are filled in by enrichment only. */
  datatype TeamResponse = TeamResponse(
    id: Option<int>, name: string, description: string, managerId: int,
    managerName: Option<string>, developerIds: Option<seq<int>>,
    developerNames: Option<seq<string>>, createdAt: Option<int>, updatedAt: Option<int>)

  /** The user record the team service receives from the user service (`UserDTO`). */
  datatype UserDTO = UserDTO(
    id: Option<int>, username: Option<string>, email: Option<string>,
    firstName: Option<string>, lastName: Option<string>, role: Option<string>)
  {
    /** `getFullName`: first and last name joined by one space, each null printed as "null". */
    function FullName(): (s: string)
      ensures firstName.Some? && lastName.Some? ==> s == firstName.value + " " + lastName.value
      ensures |s| == |JavaText(firstName)| + 1 + |JavaText(lastName)|
      ensures s[|JavaText(firstName)|] == ' '
    {
      JavaText(firstName) + " " + JavaText(lastName)
    }

    /** Java's `"MANAGER".equals(getRole())`: an exact match, false for a null role. */
    predicate IsManager()
    {
      role == Some("MANAGER")
    }

    /** Java's `"DEVELOPER".equals(getRole())`. */
    predicate IsDeveloper()
    {
      role == Some("DEVELOPER")
    }
  }

  /** A call to the user service: the user, or `None` when the call throws. */
  type UserLookup = int -> Option<UserDTO>

  /** `UserClientFallback.getUserById`: the placeholder user for an unreachable user service. */
  function PlaceholderUser(id: int): (u: UserDTO)
    ensures u.id == Some(id)
    ensures u.role == Some("UNKNOWN") && !u.IsManager() && !u.IsDeveloper()
    ensures u.FullName() == "Unknown User"
  {
    UserDTO(Some(id), Some("Unknown"), Some("unknown@workhive.com"), Some("Unknown"), Some("User"), Some("UNKNOWN"))
  }

  /**
   * The user client as the Feign fallback makes it: a failed remote call yields the placeholder
   * user, so the composed lookup never fails.
   */
  function WithFallback(remote: UserLookup): (lookup: UserLookup)
    ensures forall id :: lookup(id).Some?
    ensures forall id :: remote(id).Some? ==> lookup(id) == remote(id)
    ensures forall id :: remote(id).None? ==> lookup(id) == Some(PlaceholderUser(id))
  {
    id => Some(remote(id).GetOr(PlaceholderUser(id)))
  }
}
