/**
 * `TeamServiceImpl`: creating a team after checking the roles of its manager and developers,
 * reading, updating and deleting teams, and enriching a response with display names fetched
 * from the user service.
 *
 * The user service is a `UserLookup`: `None` is a call that threw. Resilience4j's circuit breaker
 * and retry are not modelled; a fallback that throws is modelled as a `Failure` carrying the
 * original cause, one that returns a value as an ordinary function.
 */
module Teams {
  import opened Wrappers
  import opened Tables
  import opened TeamModel
  import opened TeamMapper

  /** A developer list that the service treats as present: non-null and non-empty. */
  predicate HasDevelopers(ids: Option<seq<int>>)
  {
    ids.Some? && |ids.value| > 0
  }

  // ----- role validation in `createTeam` -----

  /**
   * The developer loop of `createTeam`: the ids are checked in list order and the first one whose
   * lookup throws, or whose role is not exactly "DEVELOPER", stops the request.
   */
  function DeveloperCheck(ids: seq<int>, lookup: UserLookup): (o: Outcome)
    ensures o.Failed? ==> o.error == RemoteCallFailed || o.error.NotADeveloper?
    decreases |ids|
  {
    if ids == [] then Done
    else match lookup(ids[0])
      case None => Failed(RemoteCallFailed)
      case Some(u) => if u.IsDeveloper() then DeveloperCheck(ids[1..], lookup) else Failed(NotADeveloper(ids[0]))
  }

  /** The check passes exactly when every listed id is looked up and has the developer role. */
  lemma {:induction false} DeveloperCheckPasses(ids: seq<int>, lookup: UserLookup)
    ensures DeveloperCheck(ids, lookup) == Done <==>
      forall i | 0 <= i < |ids| :: lookup(ids[i]).Some? && lookup(ids[i]).value.IsDeveloper()
  {
    if ids != [] {
      DeveloperCheckPasses(ids[1..], lookup);
      assert forall i | 1 <= i < |ids| :: ids[i] == ids[1..][i - 1];
    }
  }

  /** The check reports the first failing id, whatever follows it in the list. */
  lemma {:induction false} DeveloperCheckReportsFirst(ids: seq<int>, lookup: UserLookup, k: int)
    requires 0 <= k < |ids|
    requires forall i | 0 <= i < k :: lookup(ids[i]).Some? && lookup(ids[i]).value.IsDeveloper()
    requires !(lookup(ids[k]).Some? && lookup(ids[k]).value.IsDeveloper())
    ensures DeveloperCheck(ids, lookup) ==
      if lookup(ids[k]).None? then Failed(RemoteCallFailed) else Failed(NotADeveloper(ids[k]))
  {
    if k > 0 {
      assert lookup(ids[0]).Some? && lookup(ids[0]).value.IsDeveloper();
      DeveloperCheckReportsFirst(ids[1..], lookup, k - 1);
    }
  }

  /** The loop of `createTeam` over the developer ids, stopping at the first rejection. */
  method CheckDevelopers(ids: seq<int>, lookup: UserLookup) returns (o: Outcome)
    ensures o == DeveloperCheck(ids, lookup)
  {
    var i := 0;
    while i < |ids|
      invariant 0 <= i <= |ids|
      invariant DeveloperCheck(ids, lookup) == DeveloperCheck(ids[i..], lookup)
    {
      var dev := lookup(ids[i]);
      if dev.None? {
        return Failed(RemoteCallFailed);
      }
      if !dev.value.IsDeveloper() {
        return Failed(NotADeveloper(ids[i]));
      }
      assert ids[i..][1..] == ids[i + 1..];
      i := i + 1;
    }
    return Done;
  }

  /**
   * Everything `createTeam` checks before it stores anything: the manager first, then the
   * developers, and the developers only when the list is non-null and non-empty.
   */
  function TeamValidation(request: TeamRequest, lookup: UserLookup): (o: Outcome)
    ensures lookup(request.managerId).None? ==> o == Failed(RemoteCallFailed)
    ensures lookup(request.managerId).Some? && !lookup(request.managerId).value.IsManager() ==>
      o == Failed(NotAManager)
    ensures lookup(request.managerId).Some? && lookup(request.managerId).value.IsManager() ==>
      o == (if HasDevelopers(request.developerIds) then DeveloperCheck(request.developerIds.value, lookup) else Done)
  {
    match lookup(request.managerId)
    case None => Failed(RemoteCallFailed)
    case Some(manager) =>
      if !manager.IsManager() then Failed(NotAManager)
      else if HasDevelopers(request.developerIds) then DeveloperCheck(request.developerIds.value, lookup)
      else Done
  }

  /**
   * With the Feign fallback in place an unreachable user service yields the placeholder user,
   * whose role is "UNKNOWN": a team can then never be created for that manager.
   */
  lemma PlaceholderManagerRejected(request: TeamRequest, remote: UserLookup)
    requires remote(request.managerId).None?
    ensures TeamValidation(request, WithFallback(remote)) == Failed(NotAManager)
  {
    assert WithFallback(remote)(request.managerId) == Some(PlaceholderUser(request.managerId));
  }

  /** Likewise, an unreachable developer makes the whole request fail, even with the fallback. */
  lemma PlaceholderDeveloperRejected(ids: seq<int>, remote: UserLookup, k: int)
    requires 0 <= k < |ids| && remote(ids[k]).None?
    ensures DeveloperCheck(ids, WithFallback(remote)).Failed?
  {
    var lookup := WithFallback(remote);
    assert lookup(ids[k]) == Some(PlaceholderUser(ids[k]));
    DeveloperCheckPasses(ids, lookup);
  }

  // ----- enrichment -----

  /** The name shown for one developer: the full name, or "Unknown Developer" if its lookup threw. */
  function DeveloperName(lookup: UserLookup, id: int): (name: string)
    ensures lookup(id).Some? ==> name == lookup(id).value.FullName()
    ensures lookup(id).None? ==> name == "Unknown Developer"
  {
    match lookup(id)
    case Some(dev) => dev.FullName()
    case None => "Unknown Developer"
  }

  /**
   * `enrichTeamResponse` as a function of the response and the user service. A failed manager
   * lookup is caught by the outer handler and leaves the response as it was; otherwise the
   * manager's name is set, and the developer names are set, one per id and in the same order,
   * when the developer list is non-null and non-empty.
   */
  function Enriched(response: TeamResponse, lookup: UserLookup): (r: TeamResponse)
    ensures lookup(response.managerId).None? ==> r == response
    ensures lookup(response.managerId).Some? ==>
      r.managerName == Some(lookup(response.managerId).value.FullName())
    ensures lookup(response.managerId).Some? && HasDevelopers(response.developerIds) ==>
      && r.developerNames.Some?
      && |r.developerNames.value| == |response.developerIds.value|
      && forall i | 0 <= i < |response.developerIds.value| ::
           r.developerNames.value[i] == DeveloperName(lookup, response.developerIds.value[i])
    ensures !HasDevelopers(response.developerIds) ==> r.developerNames == response.developerNames
    ensures r.(managerName := response.managerName, developerNames := response.developerNames) == response
  {
    match lookup(response.managerId)
    case None => response
    case Some(manager) =>
      var named := response.(managerName := Some(manager.FullName()));
      if HasDevelopers(response.developerIds) then
        var ids := response.developerIds.value;
        named.(developerNames := Some(seq(|ids|, i requires 0 <= i < |ids| => DeveloperName(lookup, ids[i]))))
      else named
  }

  /** With the Feign fallback in place the manager lookup cannot fail, so a manager name is always set. */
  lemma FallbackAlwaysNamesManager(response: TeamResponse, remote: UserLookup)
    ensures Enriched(response, WithFallback(remote)).managerName.Some?
  {
    assert WithFallback(remote)(response.managerId).Some?;
  }

  /** `enrichTeamResponse`, building the developer names one lookup at a time. */
  method EnrichTeamResponse(response: TeamResponse, lookup: UserLookup) returns (r: TeamResponse)
    ensures r == Enriched(response, lookup)
  {
    var manager := lookup(response.managerId);
    if manager.None? {
      return response;
    }
    r := response.(managerName := Some(manager.value.FullName()));
    if HasDevelopers(response.developerIds) {
      var ids := response.developerIds.value;
      var names: seq<string> := [];
      var i := 0;
      while i < |ids|
        invariant 0 <= i <= |ids|
        invariant |names| == i
        invariant forall j | 0 <= j < i :: names[j] == DeveloperName(lookup, ids[j])
      {
        var dev := lookup(ids[i]);
        var name := if dev.Some? then dev.value.FullName() else "Unknown Developer";
        names := names + [name];
        i := i + 1;
      }
      assert names == seq(|ids|, j requires 0 <= j < |ids| => DeveloperName(lookup, ids[j]));
      r := r.(developerNames := Some(names));
    }
  }

  // ----- the stored teams -----

  /** Every stored team carries the key it is stored under as its id. */
  ghost predicate StoredUnderOwnId(t: Table<Team>)
  {
    forall k | k in t.rows :: t.rows[k].id == Some(k)
  }

  /** `updateTeam`'s setters: name, description and developers from the request, the rest kept. */
  function UpdatedTeam(team: Team, request: TeamRequest): (t: Team)
    ensures t.name == request.name && t.description == request.description
    ensures t.developerIds == request.developerIds
    ensures t.id == team.id && t.managerId == team.managerId
    ensures t.createdAt == team.createdAt && t.updatedAt == team.updatedAt
  {
    team.(name := request.name, description := request.description, developerIds := request.developerIds)
  }

  /** `getAllTeamsFallback`: no teams. */
  function GetAllTeamsFallback(): (rs: seq<TeamResponse>)
    ensures |rs| == 0
  {
    []
  }

  class TeamService {
    const repo: Repository<Team>

    ghost predicate Valid()
      reads this, repo
    {
      repo.table.Valid() && StoredUnderOwnId(repo.table)
    }

    constructor (teams: Repository<Team>)
      requires teams.table.Valid() && StoredUnderOwnId(teams.table)
      ensures repo == teams && Valid()
    {
      repo := teams;
    }

    /**
     * `createTeam`: nothing is stored unless validation passes; then the request's team is stored
     * under the fresh id `newId` and returned enriched.
     */
    method CreateTeam(request: TeamRequest, lookup: UserLookup, newId: int) returns (r: Result<TeamResponse>)
      requires Valid() && newId !in repo.table.rows
      modifies repo
      ensures Valid()
      ensures r.Failure? <==> TeamValidation(request, lookup).Failed?
      ensures r.Failure? ==> r.error == TeamValidation(request, lookup).error && repo.table == old(repo.table)
      ensures r.Success? ==>
        var saved := ToEntity(request).(id := Some(newId));
        && repo.table == old(repo.table).Save(newId, saved)
        && r.value == Enriched(ToResponse(saved), lookup)
    {
      var manager := lookup(request.managerId);
      if manager.None? {
        return Failure(RemoteCallFailed);
      }
      if !manager.value.IsManager() {
        return Failure(NotAManager);
      }
      if HasDevelopers(request.developerIds) {
        var check := CheckDevelopers(request.developerIds.value, lookup);
        if check.Failed? {
          return Failure(check.error);
        }
      }
      var saved := ToEntity(request).(id := Some(newId));
      repo.Save(newId, saved);
      var response := EnrichTeamResponse(ToResponse(saved), lookup);
      return Success(response);
    }

    /** `getById`: the stored team, enriched, or not-found. */
    method GetById(id: int, lookup: UserLookup) returns (r: Result<TeamResponse>)
      requires Valid()
      ensures r.Success? <==> id in repo.table.rows
      ensures r.Failure? ==> r.error == NotFound
      ensures r.Success? ==> r.value == Enriched(ToResponse(repo.table.rows[id]), lookup) && r.value.id == Some(id)
    {
      var team := repo.table.FindById(id);
      if team.None? {
        return Failure(NotFound);
      }
      var response := EnrichTeamResponse(ToResponse(team.value), lookup);
      return Success(response);
    }

    /** `getAllTeams`: one enriched response per stored team, in listing order. */
    method GetAllTeams(lookup: UserLookup) returns (rs: seq<TeamResponse>)
      requires Valid()
      ensures |rs| == |repo.table.rows|
      ensures forall i | 0 <= i < |rs| :: rs[i] == Enriched(ToResponse(repo.table.FindAll()[i]), lookup)
    {
      var all := repo.table.FindAll();
      rs := [];
      var i := 0;
      while i < |all|
        invariant 0 <= i <= |all|
        invariant |rs| == i
        invariant forall j | 0 <= j < i :: rs[j] == Enriched(ToResponse(all[j]), lookup)
      {
        var response := EnrichTeamResponse(ToResponse(all[i]), lookup);
        rs := rs + [response];
        i := i + 1;
      }
    }

    /**
     * `updateTeam`: an unknown id fails and changes nothing; otherwise name, description and
     * developers are overwritten and the manager, id and timestamps are kept.
     */
    method UpdateTeam(id: int, request: TeamRequest, lookup: UserLookup) returns (r: Result<TeamResponse>)
      requires Valid()
      modifies repo
      ensures Valid()
      ensures id !in old(repo.table.rows) ==> r == Failure(NotFound) && repo.table == old(repo.table)
      ensures id in old(repo.table.rows) ==>
        var updated := UpdatedTeam(old(repo.table.rows[id]), request);
        && repo.table == old(repo.table).Save(id, updated)
        && r == Success(Enriched(ToResponse(updated), lookup))
    {
      var team := repo.table.FindById(id);
      if team.None? {
        return Failure(NotFound);
      }
      var updated := UpdatedTeam(team.value, request);
      repo.Save(id, updated);
      var response := EnrichTeamResponse(ToResponse(updated), lookup);
      return Success(response);
    }

    /** `deleteTeam`: an unknown id fails and changes nothing; otherwise exactly that team goes. */
    method DeleteTeam(id: int) returns (o: Outcome)
      requires Valid()
      modifies repo
      ensures Valid()
      ensures id !in old(repo.table.rows) ==> o == Failed(NotFound) && repo.table == old(repo.table)
      ensures id in old(repo.table.rows) ==> o == Done && repo.table == old(repo.table).Delete(id)
    {
      if id !in repo.table.rows {
        return Failed(NotFound);
      }
      repo.DeleteById(id);
      return Done;
    }
  }
}
