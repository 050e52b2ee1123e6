/**
 * `TaskMapper`: copies between a task request, entity and DTO. `UpdateEntity` is the in-place
 * update of a loaded task, as a task with its new field values. A task entity holds its project
 * as a reference, kept here as the project's key; `ToDto` is given the project that key refers
 * to, as it is stored when the DTO is built.
 */
module TaskMapper {
  import opened Wrappers
  import opened ProjectModel

  /** `toEntity`: a new, not yet stored task with the request's fields, attached to the project stored under `projectId`. */
  function ToEntity(request: TaskRequest, projectId: int): (t: Task)
    ensures t.id.None? && t.createdAt.None? && t.updatedAt.None?
    ensures t.title == request.title && t.description == request.description
    ensures t.status == request.status && t.developerIds == request.developerIds
    ensures t.projectId == projectId
  {
    Task(None, request.title, request.description, request.status, projectId, request.developerIds, None, None)
  }

  /** `toDto`: a task's own fields and the id and name of its project; no developer names yet. */
  function ToDto(task: Task, project: Project): (d: TaskDto)
    ensures d.id == task.id && d.title == task.title && d.description == task.description
    ensures d.status == task.status && d.developerIds == task.developerIds
    ensures d.projectId == project.id && d.projectName == project.name
    ensures d.createdAt == task.createdAt && d.updatedAt == task.updatedAt
    ensures d.developerNames.None?
  {
    TaskDto(task.id, task.title, task.description, task.status, project.id, project.name,
            task.developerIds, None, task.createdAt, task.updatedAt)
  }

  /** `updateEntity`: title, description, status and developers from the request; project and id kept. */
  function UpdateEntity(task: Task, request: TaskRequest): (t: Task)
    ensures t.title == request.title && t.description == request.description
    ensures t.status == request.status && t.developerIds == request.developerIds
    ensures t.id == task.id && t.projectId == task.projectId
    ensures t.createdAt == task.createdAt && t.updatedAt == task.updatedAt
  {
    task.(title := request.title, description := request.description, status := request.status,
          developerIds := request.developerIds)
  }

  /** A request survives the trip through an entity into a DTO, which names the project the entity references. */
  lemma RequestRoundTrip(request: TaskRequest, project: Project)
    requires project.id.Some?
    ensures var t := ToEntity(request, project.id.value);
            var d := ToDto(t, project);
            && t.projectId == project.id.value
            && d.title == request.title && d.description == request.description
            && d.status == request.status && d.developerIds == request.developerIds
            && d.projectId == project.id && d.projectName == project.name
  {
  }

  /** Updating with a request gives the entity creating from it would; only id, project and timestamps differ. */
  lemma UpdateAgreesWithCreate(task: Task, request: TaskRequest)
    ensures UpdateEntity(task, request) ==
      ToEntity(request, task.projectId).(id := task.id, createdAt := task.createdAt, updatedAt := task.updatedAt)
  {
  }

  /** Updating twice with the same request is the same as updating once. */
  lemma UpdateIdempotent(task: Task, request: TaskRequest)
    ensures UpdateEntity(UpdateEntity(task, request), request) == UpdateEntity(task, request)
  {
  }
}

/**
 * `ProjectMapper`: copies between the project request, entity and DTO. `UpdateEntity` is the
 * in-place update of a loaded project, as the project with its new field values. `ToDto` is given
 * the project's task list (`getTasks`), which is read from the tasks that reference it.
 */
module ProjectMapper {
  import opened Wrappers
  import opened ProjectModel
  import TaskMapper

  /** `toEntity`: a new, not yet stored project with the request's fields. */
  function ToEntity(request: ProjectRequest): (p: Project)
    ensures p.id.None? && p.createdAt.None? && p.updatedAt.None?
    ensures p.name == request.name && p.description == request.description
    ensures p.createdBy == request.createdBy && p.teamId == request.teamId
  {
    Project(None, request.name, request.description, request.createdBy, request.teamId, None, None)
  }

  /**
   * `toDto`: the project's own fields, and its tasks mapped one to one and in order, each naming
   * this project; no manager or team name yet.
   */
  function ToDto(project: Project, tasks: seq<Task>): (d: ProjectDto)
    ensures d.id == project.id && d.name == project.name && d.description == project.description
    ensures d.createdBy == project.createdBy && d.teamId == project.teamId
    ensures d.createdAt == project.createdAt && d.updatedAt == project.updatedAt
    ensures d.managerName.None? && d.teamName.None?
    ensures |d.tasks| == |tasks|
    ensures forall i | 0 <= i < |tasks| :: d.tasks[i] == TaskMapper.ToDto(tasks[i], project)
  {
    ProjectDto(project.id, project.name, project.description, project.createdBy, None,
               project.teamId, None, project.createdAt, project.updatedAt,
               seq(|tasks|, i requires 0 <= i < |tasks| => TaskMapper.ToDto(tasks[i], project)))
  }

  /** `updateEntity`: name, description and team from the request; the creator is never changed. */
  function UpdateEntity(project: Project, request: ProjectRequest): (p: Project)
    ensures p.name == request.name && p.description == request.description && p.teamId == request.teamId
    ensures p.createdBy == project.createdBy && p.id == project.id
    ensures p.createdAt == project.createdAt && p.updatedAt == project.updatedAt
  {
    project.(name := request.name, description := request.description, teamId := request.teamId)
  }

  /** A request survives the trip through a new entity into a DTO; a new project has no tasks to list. */
  lemma RequestRoundTrip(request: ProjectRequest)
    ensures var d := ToDto(ToEntity(request), []);
            && d.name == request.name && d.description == request.description
            && d.createdBy == request.createdBy && d.teamId == request.teamId
            && d.id.None? && d.tasks == []
  {
  }

  /**
   * After an update the DTO lists the same tasks, each now showing the project's new name: a task
   * reads its project's name through its reference, not from a copy.
   */
  lemma UpdateRenamesTasks(project: Project, request: ProjectRequest, tasks: seq<Task>)
    ensures var before := ToDto(project, tasks);
            var after := ToDto(UpdateEntity(project, request), tasks);
            && |after.tasks| == |before.tasks|
            && forall i | 0 <= i < |tasks| ::
                 after.tasks[i] == before.tasks[i].(projectName := request.name)
                 && after.tasks[i].projectName == request.name
  {
  }
}
