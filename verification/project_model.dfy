/**
 * The project service's records: projects and their tasks as stored, the requests that create or
 * update them, the DTOs it sends back, and the user and team records it fetches from the other
 * services.
 *
 * Strings the service only copies are `string`s; a Java reference the code tests for null, and
 * every field of a record received from another service, is an `Option`.
 */
module ProjectModel {
  import opened Wrappers

  /** A task status (the `TaskStatus` enum); only its identity matters here. */
  datatype TaskStatus = TaskStatus(name: string)

  /**
   * The stored `Task` entity. Its `project` is a reference to a stored project entity, kept here as
   * that project's key: whatever is read through it (the project's name) is read from the project
   * as it is stored at that moment.
   */
  datatype Task = Task(
    id: Option<int>, title: string, description: string, status: TaskStatus,
    projectId: int, developerIds: Option<seq<int>>, createdAt: Option<int>, updatedAt: Option<int>)

  /**
   * The stored `Project` entity. Its task list (`getTasks`) is the inverse side of the tasks'
   * references and is not stored with the project: see `ProjectStore.TasksOf`.
   */
  datatype Project = Project(
    id: Option<int>, name: string, description: string, createdBy: int, teamId: Option<int>,
    createdAt: Option<int>, updatedAt: Option<int>)

  /** `TaskRequest`. */
  datatype TaskRequest = TaskRequest(
    title: string, description: string, status: TaskStatus, projectId: int, developerIds: Option<seq<int>>)

  /** `ProjectRequest`. */
  datatype ProjectRequest = ProjectRequest(name: string, description: string, createdBy: int, teamId: Option<int>)

  /** `TaskDto`; `developerNames` is filled in by enrichment only. */
  datatype TaskDto = TaskDto(
    id: Option<int>, title: string, description: string, status: TaskStatus,
    projectId: Option<int>, projectName: string, developerIds: Option<seq<int>>,
    developerNames: Option<seq<string>>, createdAt: Option<int>, updatedAt: Option<int>)

  /** `ProjectDto`; `managerName` and `teamName` are filled in by enrichment only. */
  datatype ProjectDto = ProjectDto(
    id: Option<int>, name: string, description: string, createdBy: int, managerName: Option<string>,
    teamId: Option<int>, teamName: Option<string>, createdAt: Option<int>, updatedAt: Option<int>,
    tasks: seq<TaskDto>)

  /** The user record received from the user service (`client/dto/UserDto`). */
  datatype UserDto = UserDto(
    id: Option<int>, username: Option<string>, email: Option<string>,
    firstName: Option<string>, lastName: Option<string>, role: Option<string>)
  {
    /** `getFullName`: first and last name joined by one space, each null printed as "null". */
    function FullName(): (s: string)
      ensures firstName.Some? && lastName.Some? ==> s == firstName.value + " " + lastName.value
      ensures |s| == |JavaText(firstName)| + 1 + |JavaText(lastName)|
      ensures s[|JavaText(firstName)|] == ' '
    {
      JavaText(firstName) + " " + JavaText(lastName)
    }
  }

  /** The team record received from the team service (`client/dto/TeamDto`). */
  datatype TeamDto = TeamDto(id: Option<int>, name: Option<string>, description: Option<string>, managerId: Option<int>)

  /** `getUserById` on the user service: the user, or `None` when the call throws. */
  type UserLookup = int -> Option<UserDto>

  /** `getUsersByIds` on the user service: the users it returns, or `None` when the call throws. */
  type UsersLookup = seq<int> -> Option<seq<UserDto>>

  /** `getTeamById` on the team service: the team, or `None` when the call throws. */
  type TeamLookup = int -> Option<TeamDto>
}
