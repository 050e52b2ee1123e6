/**
 * `ProjectServiceImpl`: projects are created, read, listed by creator or team, searched by name,
 * updated and deleted; every project it returns is enriched with its manager's name from the
 * user service and, when it has a team, the team's name from the team service.
 */
module Projects {
  import opened Wrappers
  import opened Tables
  import opened ProjectModel
  import opened ProjectStore
  import opened ProjectClients
  import ProjectMapper

  /**
   * `enrichProjectDto`. A failed manager lookup is caught before anything is set. Otherwise the
   * manager's name is set, and then, only for a project with a team, the team's name; a failed
   * team lookup leaves the team name as it was but keeps the manager name.
   */
  function EnrichedProject(dto: ProjectDto, users: UserLookup, teams: TeamLookup): (r: ProjectDto)
    ensures users(dto.createdBy).None? ==> r == dto
    ensures users(dto.createdBy).Some? ==> r.managerName == Some(users(dto.createdBy).value.FullName())
    ensures users(dto.createdBy).Some? && dto.teamId.Some? && teams(dto.teamId.value).Some? ==>
      r.teamName == teams(dto.teamId.value).value.name
    ensures dto.teamId.None? || teams(dto.teamId.value).None? ==> r.teamName == dto.teamName
    ensures r.(managerName := dto.managerName, teamName := dto.teamName) == dto
  {
    match users(dto.createdBy)
    case None => dto
    case Some(manager) =>
      var named := dto.(managerName := Some(manager.FullName()));
      if dto.teamId.None? then named
      else match teams(dto.teamId.value)
        case None => named
        case Some(team) => named.(teamName := team.name)
  }

  /**
   * With both clients' fallbacks in place the manager name is always set, and an unreachable team
   * service shows the placeholder's "Unknown Team".
   */
  lemma FallbacksNameManagerAndTeam(dto: ProjectDto, users: UserLookup, teams: TeamLookup)
    ensures EnrichedProject(dto, UserWithFallback(users), TeamWithFallback(teams)).managerName.Some?
    ensures dto.teamId.Some? && teams(dto.teamId.value).None? ==>
      EnrichedProject(dto, UserWithFallback(users), TeamWithFallback(teams)).teamName == Some("Unknown Team")
  {
    assert UserWithFallback(users)(dto.createdBy).Some?;
    if dto.teamId.Some? && teams(dto.teamId.value).None? {
      assert TeamWithFallback(teams)(dto.teamId.value) == Some(PlaceholderTeam(dto.teamId.value));
    }
  }

  // ----- name search -----

  /** ASCII upper-casing of one character, as the database's `upper` does for ASCII text. */
  function Upper(c: char): (u: char)
    ensures 'a' <= c <= 'z' ==> 'A' <= u <= 'Z' && u as int == c as int - 32
    ensures !('a' <= c <= 'z') ==> u == c
  {
    if 'a' <= c <= 'z' then (c as int - 32) as char else c
  }

  /** Upper-casing a whole string, character by character. */
  function UpperCase(s: string): (u: string)
    ensures |u| == |s|
    ensures forall i | 0 <= i < |s| :: u[i] == Upper(s[i])
  {
    seq(|s|, i requires 0 <= i < |s| => Upper(s[i]))
  }

  /** Upper-casing twice is upper-casing once. */
  lemma UpperCaseIdempotent(s: string)
    ensures UpperCase(UpperCase(s)) == UpperCase(s)
  {
    assert forall i | 0 <= i < |s| :: Upper(Upper(s[i])) == Upper(s[i]);
  }

  /** Does `needle` occur in `hay` starting at position `i`? */
  predicate OccursAt(hay: string, needle: string, i: int)
  {
    0 <= i && i + |needle| <= |hay| && hay[i..i + |needle|] == needle
  }

  /** `findByNameContainingIgnoreCase`: does `fragment` occur in `name`, ignoring letter case? */
  predicate ContainsIgnoreCase(name: string, fragment: string)
  {
    exists i | 0 <= i <= |name| - |fragment| :: OccursAt(UpperCase(name), UpperCase(fragment), i)
  }

  /** The search ignores case on both sides: upper-casing the name or the fragment changes nothing. */
  lemma SearchIgnoresCase(name: string, fragment: string)
    ensures ContainsIgnoreCase(UpperCase(name), fragment) == ContainsIgnoreCase(name, fragment)
    ensures ContainsIgnoreCase(name, UpperCase(fragment)) == ContainsIgnoreCase(name, fragment)
  {
    UpperCaseIdempotent(name);
    UpperCaseIdempotent(fragment);
  }

  /** Every name contains itself and the empty fragment. */
  lemma SearchFindsWholeAndEmpty(name: string)
    ensures ContainsIgnoreCase(name, name)
    ensures ContainsIgnoreCase(name, "")
  {
    assert OccursAt(UpperCase(name), UpperCase(name), 0);
    assert OccursAt(UpperCase(name), UpperCase(""), 0);
  }

  // ----- listings -----

  /** `findByCreatedBy`. */
  function CreatedBy(managerId: int): (p: Project -> bool)
    ensures forall x :: p(x) <==> x.createdBy == managerId
  {
    (x: Project) => x.createdBy == managerId
  }

  /** `findByTeamId`. */
  function OfTeam(teamId: int): (p: Project -> bool)
    ensures forall x :: p(x) <==> x.teamId == Some(teamId)
  {
    (x: Project) => x.teamId == Some(teamId)
  }

  /** `findByNameContainingIgnoreCase`. */
  function NameContains(name: string): (p: Project -> bool)
    ensures forall x :: p(x) <==> ContainsIgnoreCase(x.name, name)
  {
    (x: Project) => ContainsIgnoreCase(x.name, name)
  }

  /**
   * `toDto` of a project against the stored tasks: its task list is the stored tasks that reference
   * it, each showing this project's id and name.
   */
  function DtoOf(project: Project, tasks: Table<Task>): (d: ProjectDto)
    requires tasks.Valid()
    ensures d == ProjectMapper.ToDto(project, TasksOf(tasks, project))
    ensures forall i | 0 <= i < |d.tasks| :: d.tasks[i].projectId == project.id && d.tasks[i].projectName == project.name
  {
    ProjectMapper.ToDto(project, TasksOf(tasks, project))
  }

  /** The DTOs a list query returns for the projects it found: one enriched DTO each, in order. */
  function Listing(found: seq<Project>, tasks: Table<Task>, users: UserLookup, teams: TeamLookup): (r: seq<ProjectDto>)
    requires tasks.Valid()
    ensures |r| == |found|
    ensures forall i | 0 <= i < |found| :: r[i] == EnrichedProject(DtoOf(found[i], tasks), users, teams)
    ensures forall i | 0 <= i < |found| ::
      r[i].id == found[i].id && r[i].createdBy == found[i].createdBy && r[i].teamId == found[i].teamId
  {
    seq(|found|, i requires 0 <= i < |found| => EnrichedProject(DtoOf(found[i], tasks), users, teams))
  }

  /** Every project a query found has its DTO in the listing. */
  lemma ListingContains(found: seq<Project>, tasks: Table<Task>, p: Project, users: UserLookup, teams: TeamLookup)
    requires tasks.Valid()
    requires p in found
    ensures EnrichedProject(DtoOf(p, tasks), users, teams) in Listing(found, tasks, users, teams)
  {
    var i :| 0 <= i < |found| && found[i] == p;
    assert Listing(found, tasks, users, teams)[i] == EnrichedProject(DtoOf(p, tasks), users, teams);
  }

  /** A derived query lists the DTO of every stored project it selects. */
  lemma SelectionListed(t: Table<Project>, p: Project -> bool, tasks: Table<Task>, users: UserLookup, teams: TeamLookup)
    requires t.Valid() && tasks.Valid()
    ensures forall k | k in t.rows && p(t.rows[k]) ::
      EnrichedProject(DtoOf(t.rows[k], tasks), users, teams) in Listing(t.Select(p), tasks, users, teams)
  {
    forall k | k in t.rows && p(t.rows[k])
      ensures EnrichedProject(DtoOf(t.rows[k], tasks), users, teams) in Listing(t.Select(p), tasks, users, teams)
    {
      ListingContains(t.Select(p), tasks, t.rows[k], users, teams);
    }
  }

  /** The fallback of every project list query and of the search: no projects. */
  function ListFallback(): (r: seq<ProjectDto>)
    ensures |r| == 0
  {
    []
  }

  class ProjectService {
    const projects: Repository<Project>
    const tasks: Repository<Task>

    ghost predicate Valid()
      reads this, projects, tasks
    {
      Consistent(projects.table, tasks.table)
    }

    constructor (projectRepository: Repository<Project>, taskRepository: Repository<Task>)
      requires Consistent(projectRepository.table, taskRepository.table)
      ensures projects == projectRepository && tasks == taskRepository && Valid()
    {
      projects := projectRepository;
      tasks := taskRepository;
    }

    /**
     * `createProject`: exactly one new project, built from the request, is stored under `newId`;
     * no task references it yet, so its DTO lists no tasks.
     */
    method CreateProject(request: ProjectRequest, users: UserLookup, teams: TeamLookup, newId: int)
      returns (d: ProjectDto)
      requires Valid() && newId !in projects.table.rows
      modifies projects
      ensures Valid() && tasks.table == old(tasks.table)
      ensures var saved := ProjectMapper.ToEntity(request).(id := Some(newId));
              && projects.table == old(projects.table).Save(newId, saved)
              && d == EnrichedProject(DtoOf(saved, tasks.table), users, teams)
      ensures d.id == Some(newId) && d.tasks == []
      ensures |projects.table.rows| == |old(projects.table.rows)| + 1
    {
      var saved := ProjectMapper.ToEntity(request).(id := Some(newId));
      UnstoredProjectHasNoTasks(projects.table, tasks.table, saved);
      projects.Save(newId, saved);
      d := EnrichedProject(DtoOf(saved, tasks.table), users, teams);
    }

    /** `getProjectById`: the stored project, enriched, or not-found. */
    method GetProjectById(id: int, users: UserLookup, teams: TeamLookup) returns (r: Result<ProjectDto>)
      requires Valid()
      ensures r.Success? <==> id in projects.table.rows
      ensures r.Failure? ==> r.error == NotFound
      ensures r.Success? ==>
        && r.value == EnrichedProject(DtoOf(projects.table.rows[id], tasks.table), users, teams)
        && r.value.id == Some(id)
        && |r.value.tasks| == |tasks.table.Matching(InProject(id))|
    {
      var project := projects.table.FindById(id);
      if project.None? {
        return Failure(NotFound);
      }
      return Success(EnrichedProject(DtoOf(project.value, tasks.table), users, teams));
    }

    /** `getAllProjects`: one DTO per stored project, in listing order. */
    function GetAllProjects(users: UserLookup, teams: TeamLookup): (r: seq<ProjectDto>)
      reads this, projects, tasks
      requires Valid()
      ensures |r| == |projects.table.rows|
      ensures forall k | k in projects.table.rows ::
        EnrichedProject(DtoOf(projects.table.rows[k], tasks.table), users, teams) in r
      ensures |r| == |projects.table.FindAll()| && forall i | 0 <= i < |r| ::
        r[i] == EnrichedProject(DtoOf(projects.table.FindAll()[i], tasks.table), users, teams)
    {
      var found := projects.table.FindAll();
      var r := Listing(found, tasks.table, users, teams);
      assert forall k | k in projects.table.rows ::
        EnrichedProject(DtoOf(projects.table.rows[k], tasks.table), users, teams) in r by {
        forall k | k in projects.table.rows
          ensures EnrichedProject(DtoOf(projects.table.rows[k], tasks.table), users, teams) in r {
          ListingContains(found, tasks.table, projects.table.rows[k], users, teams);
        }
      }
      r
    }

    /** `getProjectsByManager`: the DTOs of exactly the projects that manager created. */
    function GetProjectsByManager(managerId: int, users: UserLookup, teams: TeamLookup): (r: seq<ProjectDto>)
      reads this, projects, tasks
      requires Valid()
      ensures |r| == |projects.table.Matching(CreatedBy(managerId))| <= |projects.table.rows|
      ensures forall i | 0 <= i < |r| :: r[i].createdBy == managerId
      ensures forall k | k in projects.table.rows && projects.table.rows[k].createdBy == managerId ::
        EnrichedProject(DtoOf(projects.table.rows[k], tasks.table), users, teams) in r
    {
      var found := projects.table.Select(CreatedBy(managerId));
      projects.table.CountIsMatching(CreatedBy(managerId));
      SelectionListed(projects.table, CreatedBy(managerId), tasks.table, users, teams);
      Listing(found, tasks.table, users, teams)
    }

    /** `getProjectsByTeam`: the DTOs of exactly the projects of that team. */
    function GetProjectsByTeam(teamId: int, users: UserLookup, teams: TeamLookup): (r: seq<ProjectDto>)
      reads this, projects, tasks
      requires Valid()
      ensures |r| == |projects.table.Matching(OfTeam(teamId))| <= |projects.table.rows|
      ensures forall i | 0 <= i < |r| :: r[i].teamId == Some(teamId)
      ensures forall k | k in projects.table.rows && projects.table.rows[k].teamId == Some(teamId) ::
        EnrichedProject(DtoOf(projects.table.rows[k], tasks.table), users, teams) in r
    {
      var found := projects.table.Select(OfTeam(teamId));
      projects.table.CountIsMatching(OfTeam(teamId));
      SelectionListed(projects.table, OfTeam(teamId), tasks.table, users, teams);
      Listing(found, tasks.table, users, teams)
    }

    /** `searchProjectsByName`: the DTOs of exactly the projects whose name contains `name`, ignoring case. */
    function SearchProjectsByName(name: string, users: UserLookup, teams: TeamLookup): (r: seq<ProjectDto>)
      reads this, projects, tasks
      requires Valid()
      ensures |r| == |projects.table.Matching(NameContains(name))| <= |projects.table.rows|
      ensures forall i | 0 <= i < |r| :: ContainsIgnoreCase(r[i].name, name)
      ensures forall k | k in projects.table.rows && ContainsIgnoreCase(projects.table.rows[k].name, name) ::
        EnrichedProject(DtoOf(projects.table.rows[k], tasks.table), users, teams) in r
    {
      var found := projects.table.Select(NameContains(name));
      projects.table.CountIsMatching(NameContains(name));
      SelectionListed(projects.table, NameContains(name), tasks.table, users, teams);
      Listing(found, tasks.table, users, teams)
    }

    /**
     * `updateProject`: an unknown id fails and changes nothing; otherwise `updateEntity` is applied
     * to the stored project, which keeps its creator. Its tasks stay where they are and now show
     * the new name.
     */
    method UpdateProject(id: int, request: ProjectRequest, users: UserLookup, teams: TeamLookup)
      returns (r: Result<ProjectDto>)
      requires Valid()
      modifies projects
      ensures Valid() && tasks.table == old(tasks.table)
      ensures id !in old(projects.table.rows) ==> r == Failure(NotFound) && projects.table == old(projects.table)
      ensures id in old(projects.table.rows) ==>
        var updated := ProjectMapper.UpdateEntity(old(projects.table.rows[id]), request);
        && projects.table == old(projects.table).Save(id, updated)
        && projects.table.rows[id].createdBy == old(projects.table.rows[id]).createdBy
        && r == Success(EnrichedProject(DtoOf(updated, tasks.table), users, teams))
        && TasksOf(tasks.table, updated) == TasksOf(tasks.table, old(projects.table.rows[id]))
        && forall i | 0 <= i < |r.value.tasks| :: r.value.tasks[i].projectName == request.name
    {
      var project := projects.table.FindById(id);
      if project.None? {
        return Failure(NotFound);
      }
      var updated := ProjectMapper.UpdateEntity(project.value, request);
      projects.Save(id, updated);
      return Success(EnrichedProject(DtoOf(updated, tasks.table), users, teams));
    }

    /**
     * `deleteProject`: an unknown id fails and changes nothing; otherwise that project goes, and
     * with it exactly the tasks that reference it.
     */
    method DeleteProject(id: int) returns (o: Outcome)
      requires Valid()
      modifies projects, tasks
      ensures Valid()
      ensures id !in old(projects.table.rows) ==>
        o == Failed(NotFound) && projects.table == old(projects.table) && tasks.table == old(tasks.table)
      ensures id in old(projects.table.rows) ==>
        && o == Done
        && projects.table == old(projects.table).Delete(id)
        && tasks.table == old(tasks.table).DeleteWhere(InProject(id))
    {
      if id !in projects.table.rows {
        return Failed(NotFound);
      }
      CascadeKeepsConsistent(projects.table, tasks.table, id);
      projects.DeleteById(id);
      tasks.DeleteWhere(InProject(id));
      return Done;
    }
  }
}
