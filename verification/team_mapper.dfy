/** `TeamMapper`: field-for-field copies between the team request, entity and response. */
module TeamMapper {
  import opened Wrappers
  import opened TeamModel

  /** `toEntity`: a new, not yet stored team carrying the request's four fields. */
  function ToEntity(request: TeamRequest): (t: Team)
    ensures t.id.None? && t.createdAt.None? && t.updatedAt.None?
    ensures t.name == request.name && t.description == request.description
    ensures t.managerId == request.managerId && t.developerIds == request.developerIds
  {
    Team(None, request.name, request.description, request.managerId, request.developerIds, None, None)
  }

  /** `toResponse`: the team's own fields, with both display-name fields left unset. */
  function ToResponse(team: Team): (r: TeamResponse)
    ensures r.id == team.id && r.name == team.name && r.description == team.description
    ensures r.managerId == team.managerId && r.developerIds == team.developerIds
    ensures r.createdAt == team.createdAt && r.updatedAt == team.updatedAt
    ensures r.managerName.None? && r.developerNames.None?
  {
    TeamResponse(team.id, team.name, team.description, team.managerId, None,
                 team.developerIds, None, team.createdAt, team.updatedAt)
  }

  /** A request survives the trip through an entity into a response. */
  lemma RequestRoundTrip(request: TeamRequest)
    ensures var r := ToResponse(ToEntity(request));
            && r.name == request.name && r.description == request.description
            && r.managerId == request.managerId && r.developerIds == request.developerIds
  {
  }

  /** No two different teams map to the same response: the response determines the entity. */
  lemma ToResponseInjective(a: Team, b: Team)
    requires ToResponse(a) == ToResponse(b)
    ensures a == b
  {
  }
}
